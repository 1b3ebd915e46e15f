/** The six-box code entry of the registration page: a buffer of one-character boxes edited
    by typing, backspace and paste, and the completion check that hands the joined code
    to `onComplete`.  Focus is the index of the focused box; focusing a box that does not
    exist (`inputRefs.current[i]?.focus()` on a missing ref) does nothing. */
module OtpInput {
  import opened Wrappers
  import opened Text

  /** The keys `handleKeyDown` reacts to; every other key is `Other`. */
  datatype Key = Backspace | ArrowLeft | ArrowRight | Other

  /** `value.slice(-1)` when the value is longer than one character. */
  function KeepLast(value: string): (r: string)
    ensures |r| <= 1
    ensures |value| <= 1 ==> r == value
    ensures |value| > 1 ==> r == [value[|value| - 1]]
  {
    if |value| > 1 then value[|value| - 1..] else value
  }

  /** `otp.join("")`. */
  function Join(boxes: seq<string>): string
  {
    if |boxes| == 0 then "" else Join(boxes[..|boxes| - 1]) + boxes[|boxes| - 1]
  }

  /** Each box holds at most one decimal digit. */
  ghost predicate WellFormed(boxes: seq<string>)
  {
    forall i :: 0 <= i < |boxes| ==> |boxes[i]| <= 1 && AllDigits(boxes[i])
  }

  /** The completion test of the effect: every box non-empty and the joined code `length` long. */
  predicate IsComplete(boxes: seq<string>, length: nat)
  {
    (forall i :: 0 <= i < |boxes| ==> boxes[i] != "") && |Join(boxes)| == length
  }

  /** What the effect passes to `onComplete` after a state change, if anything. */
  function Completion(boxes: seq<string>, length: nat): (r: Option<string>)
    ensures r.Some? <==> IsComplete(boxes, length)
    ensures r.Some? ==> r.value == Join(boxes) && |r.value| == length
  {
    if IsComplete(boxes, length) then Some(Join(boxes)) else None
  }

  /** Joining one-character boxes gives one character per box. */
  lemma {:induction false} JoinFilled(boxes: seq<string>)
    requires forall i :: 0 <= i < |boxes| ==> |boxes[i]| == 1
    ensures |Join(boxes)| == |boxes|
    ensures forall i :: 0 <= i < |boxes| ==> Join(boxes)[i] == boxes[i][0]
    decreases |boxes|
  {
    if |boxes| > 0 {
      JoinFilled(boxes[..|boxes| - 1]);
    }
  }

  /** Joining boxes of at most one character never gives more characters than boxes. */
  lemma {:induction false} JoinBound(boxes: seq<string>)
    requires forall i :: 0 <= i < |boxes| ==> |boxes[i]| <= 1
    ensures |Join(boxes)| <= |boxes|
    ensures (exists i :: 0 <= i < |boxes| && boxes[i] == "") ==> |Join(boxes)| < |boxes|
    decreases |boxes|
  {
    if |boxes| > 0 {
      var init := boxes[..|boxes| - 1];
      JoinBound(init);
      if exists i :: 0 <= i < |boxes| && boxes[i] == "" {
        var i :| 0 <= i < |boxes| && boxes[i] == "";
        if i < |boxes| - 1 {
          assert init[i] == "";
        }
      }
    }
  }

  /** With well-formed boxes the length test is implied: the code is complete exactly when
      every box is filled, and it is then the boxes' digits in order. */
  lemma CompleteIffFilled(boxes: seq<string>)
    requires WellFormed(boxes)
    ensures IsComplete(boxes, |boxes|) <==> forall i :: 0 <= i < |boxes| ==> boxes[i] != ""
    ensures IsComplete(boxes, |boxes|) ==> AllDigits(Join(boxes))
  {
    JoinBound(boxes);
    if forall i :: 0 <= i < |boxes| ==> boxes[i] != "" {
      JoinFilled(boxes);
      var j := Join(boxes);
      forall k | 0 <= k < |j| ensures IsDigit(j[k]) {
        assert j[k] == boxes[k][0];
      }
    }
  }

  /** The buffer after pasting digits: the first `min(|pasted|, length)` boxes take the
      pasted digits, the others keep their value. */
  function PasteResult(boxes: seq<string>, pasted: string): (r: seq<string>)
    ensures |r| == |boxes|
  {
    seq(|boxes|, i requires 0 <= i < |boxes| => if i < |pasted| then [pasted[i]] else boxes[i])
  }

  /** `findIndex(digit => digit === "")`, -1 when every box is filled. */
  function FirstEmpty(boxes: seq<string>): (r: int)
    ensures -1 <= r < |boxes|
    ensures r == -1 <==> forall i :: 0 <= i < |boxes| ==> boxes[i] != ""
    ensures r >= 0 ==> boxes[r] == "" && forall i :: 0 <= i < r ==> boxes[i] != ""
    decreases |boxes|
  {
    if |boxes| == 0 then -1
    else if boxes[0] == "" then 0
    else
      var r := FirstEmpty(boxes[1..]);
      if r == -1 then -1 else r + 1
  }

  /** A paste at least as long as the buffer fills it and completes it with the pasted prefix. */
  lemma FullPasteCompletes(boxes: seq<string>, pasted: string)
    requires AllDigits(pasted) && |pasted| >= |boxes|
    ensures IsComplete(PasteResult(boxes, pasted), |boxes|)
    ensures Join(PasteResult(boxes, pasted)) == pasted[..|boxes|]
  {
    var r := PasteResult(boxes, pasted);
    JoinFilled(r);
    assert Join(r) == pasted[..|boxes|];
  }

  class OtpBuffer {
    const length: nat
    const otp: array<string>
    var focused: int

    ghost predicate Valid()
      reads this, otp
    {
      otp.Length == length && WellFormed(otp[..])
    }

    /** `useState(Array(length).fill(""))`, then the first box is focused on mount. */
    constructor (length: nat)
      ensures Valid() && fresh(otp)
      ensures this.length == length
      ensures forall i :: 0 <= i < length ==> otp[i] == ""
      ensures focused == if length > 0 then 0 else -1
    {
      this.length := length;
      otp := new string[length](_ => "");
      focused := if length > 0 then 0 else -1;
    }

    /** `ref?.focus()`: only an existing box takes the focus. */
    method Focus(i: int)
      modifies this`focused
      ensures focused == if 0 <= i < length then i else old(focused)
    {
      if 0 <= i < length {
        focused := i;
      }
    }

    /** `handleChange(index, value)`: keep the last character; ignore a non-digit; otherwise
        write only box `index` and move on when a digit was entered.  Returns what the
        effect passes to `onComplete` after the update. */
    method HandleChange(index: nat, value: string) returns (completed: Option<string>)
      requires Valid() && index < length
      modifies otp, this`focused
      ensures Valid()
      ensures !AllDigits(KeepLast(value)) ==>
                otp[..] == old(otp[..]) && focused == old(focused) && completed.None?
      ensures AllDigits(KeepLast(value)) ==>
                otp[..] == old(otp[..])[index := KeepLast(value)]
                && focused == (if KeepLast(value) != "" && index < length - 1 then index + 1 else old(focused))
                && completed == Completion(otp[..], length)
    {
      var v := KeepLast(value);
      if !AllDigits(v) {
        return None;
      }
      otp[index] := v;
      if v != "" && index < length - 1 {
        Focus(index + 1);
      }
      completed := Completion(otp[..], length);
    }

    /** `handleKeyDown(index, key)`. */
    method HandleKeyDown(index: nat, key: Key)
      requires Valid() && index < length
      modifies otp, this`focused
      ensures Valid()
      ensures key == Backspace && old(otp[index]) == "" && index > 0 ==>
                otp[..] == old(otp[..])[index - 1 := ""] && focused == index - 1
                && !IsComplete(otp[..], length)
      ensures !(key == Backspace && old(otp[index]) == "" && index > 0) ==> otp[..] == old(otp[..])
      ensures key == ArrowRight ==> focused == if index < length - 1 then index + 1 else old(focused)
      ensures key == ArrowLeft ==> focused == if index > 0 then index - 1 else old(focused)
      ensures key == Other || (key == Backspace && !(old(otp[index]) == "" && index > 0)) ==> focused == old(focused)
    {
      if key == Backspace && otp[index] == "" && index > 0 {
        Focus(index - 1);
        otp[index - 1] := "";
        assert otp[..][index] == "";
      }
      if key == ArrowRight && index < length - 1 {
        Focus(index + 1);
      }
      if key == ArrowLeft && index > 0 {
        Focus(index - 1);
      }
    }

    /** `handlePaste(text)`: a paste of one or more digits overwrites the leading boxes;
        focus goes to the first empty box, or to the last box when none is empty. */
    method HandlePaste(pasted: string) returns (completed: Option<string>)
      requires Valid()
      modifies otp, this`focused
      ensures Valid()
      ensures pasted == "" || !AllDigits(pasted) ==>
                otp[..] == old(otp[..]) && focused == old(focused) && completed.None?
      ensures pasted != "" && AllDigits(pasted) ==>
                otp[..] == PasteResult(old(otp[..]), pasted)
                && completed == Completion(otp[..], length)
                && focused == (var e := FirstEmpty(otp[..]);
                               if e == -1 then (if length > 0 then length - 1 else old(focused)) else e)
      ensures pasted != "" && AllDigits(pasted) && |pasted| >= length ==>
                completed == Some(pasted[..length])
    {
      if pasted == "" || !AllDigits(pasted) {
        return None;
      }
      var digits := if |pasted| < length then pasted else pasted[..length];
      var i := 0;
      while i < |digits|
        invariant 0 <= i <= |digits| <= length
        invariant forall k :: 0 <= k < i ==> otp[k] == [pasted[k]]
        invariant forall k :: i <= k < length ==> otp[k] == old(otp[k])
        invariant focused == old(focused)
      {
        otp[i] := [digits[i]];
        i := i + 1;
      }
      assert otp[..] == PasteResult(old(otp[..]), pasted);
      var e := FirstEmpty(otp[..]);
      Focus(if e == -1 then length - 1 else e);

      completed := Completion(otp[..], length);
      if |pasted| >= length {
        FullPasteCompletes(old(otp[..]), pasted);
      }
    }
  }
}

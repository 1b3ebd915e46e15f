/** The work-readiness score: a deterministic weighted sum over a user's credentials. */
module Scoring {
  import opened Wrappers
  import opened Schema
  import opened Seqs

  const RequiredPoints: int := 30
  const BonusPointsEach: int := 10
  const BonusCap: int := 40
  const MaxScore: int := 100

  predicate IsBonusType(kind: string)
  {
    kind == "trade_certificate" || kind == "license"
  }

  /** Verified, and either without an expiry date or expiring strictly after `now`. */
  predicate IsValid(c: Credential, now: int)
  {
    c.verificationStatus == "verified" && (c.expiryDate.None? || DayStart(c.expiryDate.value) > now)
  }

  /** `credentials.some(...)` for one required type. */
  function HasValid(creds: seq<Credential>, kind: string, now: int): (b: bool)
    ensures b <==> exists i :: 0 <= i < |creds| && creds[i].kind == kind && IsValid(creds[i], now)
    decreases |creds|
  {
    if |creds| == 0 then false
    else (creds[0].kind == kind && IsValid(creds[0], now)) || HasValid(creds[1..], kind, now)
  }

  predicate IsValidBonus(c: Credential, now: int)
  {
    IsBonusType(c.kind) && IsValid(c, now)
  }

  /** `credentials.filter(...).length` for the bonus types. */
  function ValidBonusCount(creds: seq<Credential>, now: int): nat
  {
    |Filter(creds, IsValidBonus, now)|
  }

  function Min(a: int, b: int): int
  {
    if a <= b then a else b
  }

  function RequiredScore(creds: seq<Credential>, now: int): (r: int)
    ensures r == 0 || r == 30 || r == 60
  {
    (if HasValid(creds, "white_card", now) then RequiredPoints else 0)
    + (if HasValid(creds, "first_aid", now) then RequiredPoints else 0)
  }

  function BonusScore(creds: seq<Credential>, now: int): (b: int)
    ensures b == 0 || b == 10 || b == 20 || b == 30 || b == 40
  {
    var n := ValidBonusCount(creds, now);
    assert n >= 4 || n == 0 || n == 1 || n == 2 || n == 3;
    Min(n * BonusPointsEach, BonusCap)
  }

  /** `calculateWorkReadinessScore`, with the clock as a parameter (`Math.round` of an
      integer is the identity). */
  function WorkReadinessScore(creds: seq<Credential>, now: int): (score: int)
    ensures 0 <= score <= MaxScore
    ensures score % 10 == 0
    ensures |creds| == 0 ==> score == 0
  {
    if |creds| == 0 then 0
    else
      var required, bonus := RequiredScore(creds, now), BonusScore(creds, now);
      assert required + bonus in {0, 10, 20, 30, 40, 50, 60, 70, 80, 90, 100};
      Min(required + bonus, MaxScore)
  }

  /** The score of a non-empty list is 30 per required type held validly plus
      min(10 x valid bonus credentials, 40); the cap of 100 never binds. */
  lemma ScoreBreakdown(creds: seq<Credential>, now: int)
    requires |creds| > 0
    ensures WorkReadinessScore(creds, now) ==
      (if exists i :: 0 <= i < |creds| && creds[i].kind == "white_card" && IsValid(creds[i], now) then 30 else 0)
      + (if exists i :: 0 <= i < |creds| && creds[i].kind == "first_aid" && IsValid(creds[i], now) then 30 else 0)
      + Min(10 * |Filter(creds, IsValidBonus, now)|, 40)
    ensures RequiredScore(creds, now) + BonusScore(creds, now) <= MaxScore
  {
  }

  lemma {:induction false} HasValidAppend(a: seq<Credential>, b: seq<Credential>, kind: string, now: int)
    ensures HasValid(a + b, kind, now) == (HasValid(a, kind, now) || HasValid(b, kind, now))
  {
    if HasValid(a, kind, now) {
      var i :| 0 <= i < |a| && a[i].kind == kind && IsValid(a[i], now);
      assert (a + b)[i] == a[i];
    }
    if HasValid(b, kind, now) {
      var i :| 0 <= i < |b| && b[i].kind == kind && IsValid(b[i], now);
      assert (a + b)[|a| + i] == b[i];
    }
    if HasValid(a + b, kind, now) {
      var i :| 0 <= i < |a + b| && (a + b)[i].kind == kind && IsValid((a + b)[i], now);
      if i < |a| {
        assert (a + b)[i] == a[i];
      } else {
        assert (a + b)[i] == b[i - |a|];
      }
    }
  }

  lemma BonusCountAppend(a: seq<Credential>, b: seq<Credential>, now: int)
    ensures ValidBonusCount(a + b, now) == ValidBonusCount(a, now) + ValidBonusCount(b, now)
  {
    FilterAppend(a, b, IsValidBonus, now);
  }

  /** The score does not depend on the order of the list: any rearrangement of the same
      credentials scores the same. */
  lemma ScoreOrderIrrelevant(s: seq<Credential>, t: seq<Credential>, now: int)
    requires multiset(s) == multiset(t)
    ensures WorkReadinessScore(s, now) == WorkReadinessScore(t, now)
  {
    HasValidSameElements(s, t, "white_card", now);
    HasValidSameElements(s, t, "first_aid", now);
    var fs, ft := Filter(s, IsValidBonus, now), Filter(t, IsValidBonus, now);
    assert multiset(fs) == multiset(ft) by {
      forall c ensures multiset(fs)[c] == multiset(ft)[c] {
        assert multiset(s)[c] == multiset(t)[c];
      }
    }
    assert |fs| == |multiset(fs)| == |multiset(ft)| == |ft|;
  }

  /** Whether a required type is held validly depends only on which credentials are present. */
  lemma HasValidSameElements(s: seq<Credential>, t: seq<Credential>, kind: string, now: int)
    requires multiset(s) == multiset(t)
    ensures HasValid(s, kind, now) == HasValid(t, kind, now)
  {
    if HasValid(s, kind, now) {
      var i :| 0 <= i < |s| && s[i].kind == kind && IsValid(s[i], now);
      assert s[i] in multiset(t);
      var j :| 0 <= j < |t| && t[j] == s[i];
    }
    if HasValid(t, kind, now) {
      var j :| 0 <= j < |t| && t[j].kind == kind && IsValid(t[j], now);
      assert t[j] in multiset(s);
      var i :| 0 <= i < |s| && s[i] == t[j];
    }
  }

  /** In particular, swapping two parts of the list leaves its score unchanged. */
  lemma ScoreSwapParts(a: seq<Credential>, b: seq<Credential>, now: int)
    ensures WorkReadinessScore(a + b, now) == WorkReadinessScore(b + a, now)
  {
    assert multiset(a + b) == multiset(b + a);
    ScoreOrderIrrelevant(a + b, b + a, now);
  }

  /** Adding a credential never lowers the score. */
  lemma ScoreMonotone(creds: seq<Credential>, c: Credential, now: int)
    ensures WorkReadinessScore(creds, now) <= WorkReadinessScore(creds + [c], now)
  {
    HasValidAppend(creds, [c], "white_card", now);
    HasValidAppend(creds, [c], "first_aid", now);
    BonusCountAppend(creds, [c], now);
  }

  /** An unverified or expired credential, one of another type, or a second copy of a
      required type already held validly, adds nothing to a non-empty list. */
  lemma NoContributionAddsNothing(creds: seq<Credential>, c: Credential, now: int)
    requires |creds| > 0
    requires !IsValidBonus(c, now)
    requires (c.kind == "white_card" || c.kind == "first_aid") && IsValid(c, now) ==> HasValid(creds, c.kind, now)
    ensures WorkReadinessScore(creds + [c], now) == WorkReadinessScore(creds, now)
  {
    HasValidAppend(creds, [c], "white_card", now);
    HasValidAppend(creds, [c], "first_aid", now);
    BonusCountAppend(creds, [c], now);
    assert Filter([c], IsValidBonus, now) == [];
  }

  /** Four or more valid bonus credentials give exactly the 40-point cap. */
  lemma BonusCapped(creds: seq<Credential>, now: int)
    requires ValidBonusCount(creds, now) >= 4
    ensures BonusScore(creds, now) == BonusCap
  {
  }

  /** A valid white card and a valid first-aid certificate guarantee at least 60. */
  lemma RequiredFloor(creds: seq<Credential>, i: nat, j: nat, now: int)
    requires i < |creds| && j < |creds|
    requires creds[i].kind == "white_card" && IsValid(creds[i], now)
    requires creds[j].kind == "first_aid" && IsValid(creds[j], now)
    ensures WorkReadinessScore(creds, now) >= 60
  {
  }

  function Verified(kind: string): Credential
  {
    Credential(1, "u", kind, "safety", kind, None, None, None, None, None, None, None,
               "verified", None, true, 0, 0)
  }

  /** white_card + first_aid + license, all verified and without expiry, score 70. */
  lemma ExampleScore(now: int)
    ensures WorkReadinessScore([Verified("white_card"), Verified("first_aid"), Verified("license")], now) == 70
  {
    var creds := [Verified("white_card"), Verified("first_aid"), Verified("license")];
    ExampleRequired(creds, now);
    ExampleBonus(creds, now);
  }

  lemma ExampleRequired(creds: seq<Credential>, now: int)
    requires creds == [Verified("white_card"), Verified("first_aid"), Verified("license")]
    ensures RequiredScore(creds, now) == 60
  {
    assert creds[0].kind == "white_card" && IsValid(creds[0], now);
    assert creds[1].kind == "first_aid" && IsValid(creds[1], now);
  }

  lemma ExampleBonus(creds: seq<Credential>, now: int)
    requires creds == [Verified("white_card"), Verified("first_aid"), Verified("license")]
    ensures BonusScore(creds, now) == 10
  {
    var w, f, l := creds[0], creds[1], creds[2];
    assert creds == [w] + [f] + [l];
    assert !IsValidBonus(w, now) && !IsValidBonus(f, now) && IsValidBonus(l, now);
    assert Filter([w], IsValidBonus, now) == [];
    assert Filter([f], IsValidBonus, now) == [];
    assert Filter([l], IsValidBonus, now) == [l];
    BonusCountAppend([w], [f], now);
    BonusCountAppend([w] + [f], [l], now);
  }
}

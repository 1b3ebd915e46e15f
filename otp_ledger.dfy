/** The OTP ledger as operations on the `otp_verifications` table: issue (insert),
    single-use verify, and the purge of expired rows. */
module OtpLedger {
  import opened Wrappers
  import opened Schema
  import opened Seqs

  /** Ten minutes, in milliseconds. */
  const CodeLifetimeMs: int := 10 * 60 * 1000

  /** The arguments of one verify call, with the clock reading. */
  datatype Attempt = Attempt(identifier: string, code: string, kind: string, now: int)

  /** The WHERE clause of the verify query: same identifier, code and type, unused, not expired. */
  predicate Matches(o: OtpVerification, a: Attempt)
  {
    o.identifier == a.identifier && o.code == a.code && o.kind == a.kind
    && !o.isUsed && o.expiresAt >= a.now
  }

  ghost predicate UniqueIds(rows: seq<OtpVerification>)
  {
    forall i, j :: 0 <= i < j < |rows| ==> rows[i].id != rows[j].id
  }

  /** `createOtpVerification`: one fresh row appended. */
  function Issue(rows: seq<OtpVerification>, o: InsertOtpVerification, id: nat, now: int): seq<OtpVerification>
  {
    rows + [NewOtpVerification(o, id, now)]
  }

  /** `update(otpVerifications).set({ isUsed: true }).where(eq(id, id))`. */
  function MarkUsed(rows: seq<OtpVerification>, id: nat): (r: seq<OtpVerification>)
    ensures |r| == |rows|
  {
    seq(|rows|, i requires 0 <= i < |rows| => if rows[i].id == id then rows[i].(isUsed := true) else rows[i])
  }

  /** `verifyOtp`: the first matching row of the select is consumed; the answer is whether
      there was one.  Returns the answer and the new table. */
  function Verify(rows: seq<OtpVerification>, a: Attempt): (r: (bool, seq<OtpVerification>))
    ensures r.0 <==> exists i :: 0 <= i < |rows| && Matches(rows[i], a)
    ensures !r.0 ==> r.1 == rows
    ensures |r.1| == |rows|
  {
    match Find(rows, Matches, a)
    case None => (false, rows)
    case Some(i) => (true, MarkUsed(rows, rows[i].id))
  }

  /** On success exactly the first matching row becomes used and nothing else changes. */
  lemma VerifyConsumesOne(rows: seq<OtpVerification>, a: Attempt)
    requires UniqueIds(rows)
    requires Verify(rows, a).0
    ensures Find(rows, Matches, a).Some?
    ensures var j := Find(rows, Matches, a).value;
      Verify(rows, a).1 == rows[j := rows[j].(isUsed := true)]
  {
    var j := Find(rows, Matches, a).value;
    var after := Verify(rows, a).1;
    assert after == MarkUsed(rows, rows[j].id);
    forall i | 0 <= i < |rows|
      ensures after[i] == rows[j := rows[j].(isUsed := true)][i]
    {
      if i != j {
        assert rows[i].id != rows[j].id by {
          if i < j { } else { }
        }
      }
    }
  }

  /** Single use: a repeated identical call succeeds only when another unused matching row
      (one other than the consumed one) exists. */
  lemma SecondVerify(rows: seq<OtpVerification>, a: Attempt)
    requires UniqueIds(rows)
    requires Verify(rows, a).0
    ensures Find(rows, Matches, a).Some?
    ensures Verify(Verify(rows, a).1, a).0 <==>
      exists k :: 0 <= k < |rows| && k != Find(rows, Matches, a).value && Matches(rows[k], a)
  {
    VerifyConsumesOne(rows, a);
    var j := Find(rows, Matches, a).value;
    var after := Verify(rows, a).1;
    assert !Matches(after[j], a);
    if Verify(after, a).0 {
      var k :| 0 <= k < |after| && Matches(after[k], a);
      assert k != j && after[k] == rows[k];
    }
    if exists k :: 0 <= k < |rows| && k != j && Matches(rows[k], a) {
      var k :| 0 <= k < |rows| && k != j && Matches(rows[k], a);
      assert after[k] == rows[k];
    }
  }

  /** With a single matching row, the second identical verify fails. */
  lemma SingleUse(rows: seq<OtpVerification>, a: Attempt, j: nat)
    requires UniqueIds(rows)
    requires j < |rows| && Matches(rows[j], a)
    requires forall k :: 0 <= k < |rows| && k != j ==> !Matches(rows[k], a)
    ensures Verify(rows, a).0
    ensures !Verify(Verify(rows, a).1, a).0
  {
    SecondVerify(rows, a);
  }

  /** A code issued at `t` verifies at any `now` up to its expiry `t + 10 min`. */
  lemma IssueThenVerify(rows: seq<OtpVerification>, identifier: string, code: string, kind: string,
                        id: nat, t: int, now: int)
    requires now <= t + CodeLifetimeMs
    ensures Verify(Issue(rows, InsertOtpVerification(identifier, code, kind, t + CodeLifetimeMs, None), id, t),
                   Attempt(identifier, code, kind, now)).0
  {
    var issued := Issue(rows, InsertOtpVerification(identifier, code, kind, t + CodeLifetimeMs, None), id, t);
    assert Matches(issued[|rows|], Attempt(identifier, code, kind, now));
  }

  /** Issuing a new code does not invalidate an earlier outstanding one. */
  lemma IssueKeepsEarlierCodes(rows: seq<OtpVerification>, o: InsertOtpVerification, id: nat, t: int, a: Attempt)
    requires Verify(rows, a).0
    ensures Verify(Issue(rows, o, id, t), a).0
  {
    var i :| 0 <= i < |rows| && Matches(rows[i], a);
    assert Issue(rows, o, id, t)[i] == rows[i];
  }

  /** A row survives the purge iff it expires strictly after `now`. */
  predicate Survives(o: OtpVerification, now: int)
  {
    o.expiresAt > now
  }

  /** `cleanupExpiredOtps`: `delete ... where expiresAt <= now`. */
  function Cleanup(rows: seq<OtpVerification>, now: int): (r: seq<OtpVerification>)
    ensures forall o :: o in r <==> o in rows && o.expiresAt > now
    ensures forall o :: multiset(r)[o] == if o.expiresAt > now then multiset(rows)[o] else 0
  {
    Filter(rows, Survives, now)
  }

  /** The kept rows stay in their original order. */
  lemma CleanupKeepsOrder(rows: seq<OtpVerification>, now: int)
    ensures IsSubsequence(Cleanup(rows, now), rows)
  {
    FilterIsSubsequence(rows, Survives, now);
  }

  /** Purging twice with the same clock reading changes nothing the second time. */
  lemma CleanupIdempotent(rows: seq<OtpVerification>, now: int)
    ensures Cleanup(Cleanup(rows, now), now) == Cleanup(rows, now)
  {
    var once := Cleanup(rows, now);
    assert forall i :: 0 <= i < |once| ==> once[i] in once;
    FilterKeepsAll(once, Survives, now);
  }

  /** Verify succeeds iff some row of the table matches (membership form). */
  lemma VerifyByMembership(rows: seq<OtpVerification>, a: Attempt)
    ensures Verify(rows, a).0 <==> exists o :: o in rows && Matches(o, a)
  {
    if exists o :: o in rows && Matches(o, a) {
      var o :| o in rows && Matches(o, a);
      var i :| 0 <= i < |rows| && rows[i] == o;
    }
  }

  /** A purge at `t` does not change the answer of any verify made strictly later. */
  lemma CleanupThenLaterVerify(rows: seq<OtpVerification>, t: int, a: Attempt)
    requires t < a.now
    ensures Verify(Cleanup(rows, t), a).0 == Verify(rows, a).0
  {
    var kept := Cleanup(rows, t);
    VerifyByMembership(rows, a);
    VerifyByMembership(kept, a);
    assert forall o :: Matches(o, a) ==> (o in kept <==> o in rows);
  }

  /** The boundary of the two comparisons: a row with `expiresAt == now` still verifies
      (`gte`) and is also deleted by a purge with the same clock reading (`lte`). */
  lemma ExpiryBoundary(o: OtpVerification, now: int)
    requires !o.isUsed && o.expiresAt == now
    ensures Verify([o], Attempt(o.identifier, o.code, o.kind, now)).0
    ensures Cleanup([o], now) == []
    ensures !Verify(Cleanup([o], now), Attempt(o.identifier, o.code, o.kind, now)).0
  {
    assert Matches([o][0], Attempt(o.identifier, o.code, o.kind, now));
  }
}

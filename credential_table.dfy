/** Reads and writes of the `credentials` table: active-only listing, the expiring window,
    insert, partial update by id, and the owner-checked soft delete. */
module CredentialTable {
  import opened Wrappers
  import opened Schema
  import opened Seqs

  ghost predicate UniqueIds(rows: seq<Credential>)
  {
    forall i, j :: 0 <= i < j < |rows| ==> rows[i].id != rows[j].id
  }

  /** The WHERE clause of the listing: the caller's rows that are still active. */
  predicate IsListed(c: Credential, userId: string)
  {
    c.userId == userId && c.isActive
  }

  /** Sort key for ORDER BY createdAt DESC. */
  function NewestFirst(c: Credential): int
  {
    -c.createdAt
  }

  /** `getUserCredentials`: exactly the caller's active rows, newest first. */
  function UserCredentials(rows: seq<Credential>, userId: string): (r: seq<Credential>)
    ensures forall c :: c in r <==> c in rows && IsListed(c, userId)
    ensures forall c :: multiset(r)[c] == if IsListed(c, userId) then multiset(rows)[c] else 0
    ensures forall i, j :: 0 <= i < j < |r| ==> r[i].createdAt >= r[j].createdAt
  {
    var f := Filter(rows, IsListed, userId);
    var r := SortBy(f, NewestFirst);
    SortByMembers(f, NewestFirst);
    assert forall i, j :: 0 <= i < j < |r| ==> NewestFirst(r[i]) <= NewestFirst(r[j]);
    r
  }

  /** The caller and the last day of the window. */
  datatype Window = Window(userId: string, lastDay: int)

  /** The WHERE clause of the expiring query; a NULL expiry date never satisfies `lte`. */
  predicate IsExpiring(c: Credential, w: Window)
  {
    c.userId == w.userId && c.isActive && c.expiryDate.Some? && c.expiryDate.value <= w.lastDay
  }

  /** Sort key for ORDER BY expiryDate (used only on rows that have one). */
  function SoonestFirst(c: Credential): int
  {
    if c.expiryDate.Some? then c.expiryDate.value else 0
  }

  /** The cut-off day: today's date plus `days`. */
  function LastDay(now: int, days: int): int
  {
    DayOf(now) + days
  }

  /** `getExpiringCredentials`: the caller's active rows whose expiry date is on or before
      today + `days` (already-expired rows included), soonest first. */
  function ExpiringCredentials(rows: seq<Credential>, userId: string, days: int, now: int): (r: seq<Credential>)
    ensures forall c :: c in r <==> c in rows && IsListed(c, userId) && c.expiryDate.Some?
                                    && c.expiryDate.value <= LastDay(now, days)
    ensures forall c :: multiset(r)[c] == if IsExpiring(c, Window(userId, LastDay(now, days))) then multiset(rows)[c] else 0
    ensures forall i :: 0 <= i < |r| ==> r[i].expiryDate.Some?
    ensures forall i, j :: 0 <= i < j < |r| ==> r[i].expiryDate.value <= r[j].expiryDate.value
  {
    var w := Window(userId, LastDay(now, days));
    ExpiringRowsMembers(rows, w);
    ExpiringRowsSorted(rows, w);
    ExpiringRows(rows, w)
  }

  /** The rows of the window, soonest expiry first. */
  function ExpiringRows(rows: seq<Credential>, w: Window): seq<Credential>
  {
    SortBy(Filter(rows, IsExpiring, w), SoonestFirst)
  }

  lemma ExpiringRowsMembers(rows: seq<Credential>, w: Window)
    ensures forall c :: c in ExpiringRows(rows, w) <==> c in rows && IsExpiring(c, w)
    ensures forall c :: multiset(ExpiringRows(rows, w))[c] == if IsExpiring(c, w) then multiset(rows)[c] else 0
  {
    SortByMembers(Filter(rows, IsExpiring, w), SoonestFirst);
  }

  lemma ExpiringRowsSorted(rows: seq<Credential>, w: Window)
    ensures forall i :: 0 <= i < |ExpiringRows(rows, w)| ==> ExpiringRows(rows, w)[i].expiryDate.Some?
    ensures forall i, j :: 0 <= i < j < |ExpiringRows(rows, w)| ==>
              ExpiringRows(rows, w)[i].expiryDate.Some? && ExpiringRows(rows, w)[j].expiryDate.Some?
              && ExpiringRows(rows, w)[i].expiryDate.value <= ExpiringRows(rows, w)[j].expiryDate.value
  {
    var r := ExpiringRows(rows, w);
    ExpiringRowsMembers(rows, w);
    assert forall i :: 0 <= i < |r| ==> r[i].expiryDate.Some? by {
      forall i | 0 <= i < |r| ensures r[i].expiryDate.Some? {
        assert r[i] in r;
      }
    }
    forall i, j | 0 <= i < j < |r|
      ensures r[i].expiryDate.Some? && r[j].expiryDate.Some? && r[i].expiryDate.value <= r[j].expiryDate.value
    {
      assert SoonestFirst(r[i]) <= SoonestFirst(r[j]);
    }
  }

  /** Every expiring credential is also in the caller's full listing. */
  lemma ExpiringAreListed(rows: seq<Credential>, userId: string, days: int, now: int)
    ensures forall c :: c in ExpiringCredentials(rows, userId, days, now) ==> c in UserCredentials(rows, userId)
  {
  }

  /** `createCredential`: one row appended with the next serial id and the defaults. */
  function CreateCredential(rows: seq<Credential>, c: InsertCredential, id: nat, now: int): seq<Credential>
  {
    rows + [NewCredential(c, id, now)]
  }

  /** A newly uploaded credential (active by default) is listed for its owner. */
  lemma CreatedIsListed(rows: seq<Credential>, c: InsertCredential, id: nat, now: int)
    requires c.isActive.None?
    ensures NewCredential(c, id, now) in UserCredentials(CreateCredential(rows, c, id, now), c.userId)
  {
    assert CreateCredential(rows, c, id, now)[|rows|] == NewCredential(c, id, now);
  }

  predicate HasId(c: Credential, id: int)
  {
    c.id == id
  }

  /** `update(credentials).set({ ...updates, updatedAt }).where(eq(id, id))` on the table. */
  function PatchRows(rows: seq<Credential>, id: int, p: CredentialPatch, now: int): (r: seq<Credential>)
    ensures |r| == |rows|
  {
    seq(|rows|, i requires 0 <= i < |rows| => if rows[i].id == id then PatchedCredential(rows[i], p, now) else rows[i])
  }

  /** `updateCredential`: the first updated row (none when no row has that id) and the new
      table.  Ownership is not consulted. */
  function UpdateCredential(rows: seq<Credential>, id: int, p: CredentialPatch, now: int): (r: (Option<Credential>, seq<Credential>))
    ensures r.0.None? <==> forall i :: 0 <= i < |rows| ==> rows[i].id != id
    ensures r.0.Some? ==> r.0.value.id == id && r.0.value.updatedAt == now
    ensures r.0.None? ==> r.1 == rows
    ensures |r.1| == |rows|
  {
    match Find(rows, HasId, id)
    case None => (None, rows)
    case Some(i) => (Some(PatchedCredential(rows[i], p, now)), PatchRows(rows, id, p, now))
  }

  /** With unique ids, an update changes exactly the row with that id. */
  lemma UpdateChangesOnlyThatRow(rows: seq<Credential>, id: int, p: CredentialPatch, now: int)
    requires UniqueIds(rows)
    requires UpdateCredential(rows, id, p, now).0.Some?
    ensures Find(rows, HasId, id).Some?
    ensures var j := Find(rows, HasId, id).value;
      UpdateCredential(rows, id, p, now).1 == rows[j := PatchedCredential(rows[j], p, now)]
      && UpdateCredential(rows, id, p, now).0 == Some(PatchedCredential(rows[j], p, now))
  {
    var j := Find(rows, HasId, id).value;
    var after := UpdateCredential(rows, id, p, now).1;
    forall i | 0 <= i < |rows|
      ensures after[i] == rows[j := PatchedCredential(rows[j], p, now)][i]
    {
      if i != j {
        assert rows[i].id != rows[j].id by {
          if i < j { } else { }
        }
      }
    }
  }

  /** The soft delete's WHERE clause: both the id and the owner must match. */
  predicate Owned(c: Credential, key: (int, string))
  {
    c.id == key.0 && c.userId == key.1
  }

  /** `set({ isActive: false, updatedAt })` on every matching row; no row is removed. */
  function DeactivateRows(rows: seq<Credential>, id: int, userId: string, now: int): (r: seq<Credential>)
    ensures |r| == |rows|
  {
    seq(|rows|, i requires 0 <= i < |rows| =>
      if Owned(rows[i], (id, userId)) then rows[i].(isActive := false, updatedAt := now) else rows[i])
  }

  /** `deleteCredential`: whether some row matched (`rowCount > 0`) and the new table. */
  function DeleteCredential(rows: seq<Credential>, id: int, userId: string, now: int): (r: (bool, seq<Credential>))
    ensures r.0 <==> exists i :: 0 <= i < |rows| && rows[i].id == id && rows[i].userId == userId
    ensures |r.1| == |rows|
  {
    var matched := Filter(rows, Owned, (id, userId));
    assert |matched| > 0 ==> matched[0] in matched;
    assert forall i :: 0 <= i < |rows| && Owned(rows[i], (id, userId)) ==> rows[i] in matched;
    (|matched| > 0, DeactivateRows(rows, id, userId, now))
  }

  /** A delete that matches nothing (wrong id or another user's row) leaves the table as it is. */
  lemma DeleteNotOwnedUnchanged(rows: seq<Credential>, id: int, userId: string, now: int)
    requires !DeleteCredential(rows, id, userId, now).0
    ensures DeleteCredential(rows, id, userId, now).1 == rows
  {
  }

  /** A delete only deactivates: every row keeps its position, id, owner and content; a
      row with both the id and the owner becomes inactive and is stamped `now`, and every
      other row is left exactly as it was. */
  lemma DeleteOnlyDeactivates(rows: seq<Credential>, id: int, userId: string, now: int)
    ensures var after := DeleteCredential(rows, id, userId, now).1;
      |after| == |rows|
      && forall i :: 0 <= i < |rows| ==>
        after[i].(isActive := rows[i].isActive, updatedAt := rows[i].updatedAt) == rows[i]
        && (rows[i].id == id && rows[i].userId == userId ==> !after[i].isActive && after[i].updatedAt == now)
        && (!(rows[i].id == id && rows[i].userId == userId) ==> after[i] == rows[i])
  {
  }

  /** After a successful delete the credential is no longer in its owner's listing. */
  lemma DeletedIsNotListed(rows: seq<Credential>, id: int, userId: string, now: int)
    ensures forall c :: c in UserCredentials(DeleteCredential(rows, id, userId, now).1, userId) ==> c.id != id
  {
    var after := DeleteCredential(rows, id, userId, now).1;
    forall c | c in UserCredentials(after, userId) ensures c.id != id {
      var i :| 0 <= i < |after| && after[i] == c;
    }
  }

  /** `isActive` is not in the WHERE clause, so repeating a delete succeeds again. */
  lemma DeleteRepeatSucceeds(rows: seq<Credential>, id: int, userId: string, now: int, later: int)
    requires DeleteCredential(rows, id, userId, now).0
    ensures DeleteCredential(DeleteCredential(rows, id, userId, now).1, id, userId, later).0
  {
    var i :| 0 <= i < |rows| && rows[i].id == id && rows[i].userId == userId;
    var after := DeleteCredential(rows, id, userId, now).1;
    assert after[i].id == id && after[i].userId == userId;
  }

  /** Other users' listings are untouched by a delete. */
  lemma DeleteKeepsOtherListings(rows: seq<Credential>, id: int, userId: string, now: int, other: string)
    requires other != userId
    ensures UserCredentials(DeleteCredential(rows, id, userId, now).1, other) == UserCredentials(rows, other)
  {
    var after := DeleteCredential(rows, id, userId, now).1;
    FilterAgrees(after, rows, IsListed, other);
  }
}

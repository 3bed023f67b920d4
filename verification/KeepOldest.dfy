/**
 Two migrations that pick the oldest row of a group: duplicate webhook
 deliveries are deleted, and a collection without an owner gets one. Rows are
 keyed by identifier; "older" means by creation time, then by identifier.
 */
module KeepOldest {
  import opened Wrappers

  type Id = nat

  predicate Older(at: int, id: Id, at2: int, id2: Id) { at < at2 || (at == at2 && id < id2) }

  // ---------- any non-empty group has an oldest row ----------

  ghost predicate Oldest(times: map<Id, int>, group: set<Id>, i: Id)
    requires group <= times.Keys
  {
    i in group && forall k | k in group && k != i :: Older(times[i], i, times[k], k)
  }

  lemma {:induction false} OldestExists(times: map<Id, int>, group: set<Id>) returns (i: Id)
    requires group != {} && group <= times.Keys
    ensures Oldest(times, group, i)
    decreases |group|
  {
    var j :| j in group;
    if group == {j} { return j; }
    assert group - {j} != {};
    var k := OldestExists(times, group - {j});
    i := if Older(times[j], j, times[k], k) then j else k;
  }

  // ---------- webhook deliveries ----------

  datatype Delivery = Delivery(tenant: Id, subscription: Id, event: Option<string>, createdAt: int, rest: string)

  type Deliveries = map<Id, Delivery>

  predicate SameEvent(a: Delivery, b: Delivery) {
    a.event.Some? && a.tenant == b.tenant && a.subscription == b.subscription && a.event == b.event
  }

  /** The rows that the unique constraint allows to stay: without an event, or the oldest for theirs. */
  ghost predicate Stays(t: Deliveries, i: Id)
    requires i in t
  {
    t[i].event.None? || forall k | k in t && k != i && SameEvent(t[i], t[k]) ::
        Older(t[i].createdAt, i, t[k].createdAt, k)
  }

  ghost function Kept(t: Deliveries): Deliveries { map i | i in t && Stays(t, i) :: t[i] }

  /** The constraint: no two rows for one event; rows without an event are not restricted. */
  ghost predicate Unique(t: Deliveries) { forall i, k | i in t && k in t && SameEvent(t[i], t[k]) :: i == k }

  /** The constraint holds afterwards, every event keeps a row, and it is the oldest one. */
  lemma OneRowForEachEvent(t: Deliveries, i: Id)
    requires i in t && t[i].event.Some?
    ensures Unique(Kept(t))
    ensures exists k :: k in Kept(t) && SameEvent(t[i], t[k])
                        && forall j | j in t && SameEvent(t[i], t[j]) ::
                            j == k || Older(t[k].createdAt, k, t[j].createdAt, j)
  {
    var times := map j | j in t :: t[j].createdAt;
    var group := set j | j in t && SameEvent(t[i], t[j]);
    assert i in group;
    var k := OldestExists(times, group);
    forall j | j in t && j != k && SameEvent(t[k], t[j]) ensures Older(t[k].createdAt, k, t[j].createdAt, j) {
      assert j in group;
    }
    assert k in Kept(t);
  }

  /** Nothing is deleted exactly when the constraint holds already; in particular a second run deletes nothing. */
  lemma NothingToDeleteExactly(t: Deliveries)
    ensures Kept(t) == t <==> Unique(t)
    ensures Kept(Kept(t)) == Kept(t)
  {
    if Kept(t) == t {
      forall i, k | i in t && k in t && SameEvent(t[i], t[k]) ensures i == k { assert i in Kept(t) && k in Kept(t); }
    }
    var kept := Kept(t);
    forall i | i in kept ensures Stays(kept, i) { assert Stays(t, i); }
  }

  /** In so many words: a row stays if it has no event, or no other row of its event is older. */
  lemma RowStaysExactly(t: Deliveries, i: Id)
    ensures i in Kept(t) <==> i in t && (t[i].event == None || forall k | k in t ::
      t[k].tenant == t[i].tenant && t[k].subscription == t[i].subscription && t[k].event == t[i].event ==>
      t[i].createdAt < t[k].createdAt || (t[i].createdAt == t[k].createdAt && i <= k))
    ensures i in Kept(t) ==> Kept(t)[i] == t[i]
  {
    if i in t && t[i].event.Some? {
      forall k | k in t && SameEvent(t[i], t[k])
        ensures k == i || Older(t[i].createdAt, i, t[k].createdAt, k) <==>
                t[i].createdAt < t[k].createdAt || (t[i].createdAt == t[k].createdAt && i <= k)
      {
      }
    }
  }

  class DeliveryTable {
    var rows: Deliveries

    /** DELETE with a self-join: a row goes when an older row for the same event is there. */
    method DeleteDuplicates()
      modifies this
      ensures rows == Kept(old(rows))
    {
      ghost var before := rows;
      var doomed := set duplicate, keeper | duplicate in rows && keeper in rows
        && SameEvent(rows[duplicate], rows[keeper])
        && (rows[duplicate].createdAt > rows[keeper].createdAt
            || (rows[duplicate].createdAt == rows[keeper].createdAt && duplicate > keeper)) :: duplicate;
      forall i | i in rows ensures i in doomed <==> !Stays(rows, i) {
        if !Stays(rows, i) {
          var k :| k in rows && k != i && SameEvent(rows[i], rows[k])
              && !Older(rows[i].createdAt, i, rows[k].createdAt, k);
          assert rows[i].createdAt > rows[k].createdAt || (rows[i].createdAt == rows[k].createdAt && i > k);
        }
      }
      rows := map i | i in rows && i !in doomed :: rows[i];
      assert rows == Kept(before);
    }
  }

  // ---------- owners of collections ----------

  datatype Permission = Permission(collection: Id, user: Id, role: string, createdAt: int)

  type Permissions = map<Id, Permission>

  const OWNER := "owner"

  predicate Eligible(p: Permission) { p.role == "member" || p.role == "shared" || p.role == OWNER }

  predicate HasOwner(t: Permissions, collection: Id) {
    exists i | i in t :: t[i].collection == collection && t[i].role == OWNER
  }

  predicate HasEligible(t: Permissions, collection: Id) {
    exists i | i in t :: t[i].collection == collection && Eligible(t[i])
  }

  /** The earliest eligible member of its collection. */
  ghost predicate First(t: Permissions, i: Id) {
    && i in t && Eligible(t[i])
    && forall k | k in t && k != i && t[k].collection == t[i].collection && Eligible(t[k]) ::
         Older(t[i].createdAt, i, t[k].createdAt, k)
  }

  /** The order of the query: by collection, then the older first. */
  predicate Earlier(t: Permissions, i: Id, k: Id)
    requires i in t && k in t
  {
    t[i].collection < t[k].collection
    || (t[i].collection == t[k].collection && Older(t[i].createdAt, i, t[k].createdAt, k))
  }

  ghost predicate InOrder(t: Permissions, ordered: seq<Id>)
    requires forall i | i in ordered :: i in t
  {
    forall j, k | 0 <= j < k < |ordered| :: Earlier(t, ordered[j], ordered[k])
  }

  /** What the ordered query lists before DISTINCT ON: the eligible rows, each once. */
  ghost predicate Lists(t: Permissions, ordered: seq<Id>) {
    (forall i :: i in ordered <==> i in t && Eligible(t[i])) && InOrder(t, ordered)
  }

  lemma {:induction false} InsertInOrder(t: Permissions, ordered: seq<Id>, i: Id) returns (r: seq<Id>)
    requires i in t && i !in ordered && (forall k | k in ordered :: k in t) && InOrder(t, ordered)
    ensures (forall k :: k in r <==> k == i || k in ordered) && InOrder(t, r)
  {
    if ordered == [] || Earlier(t, i, ordered[0]) { return [i] + ordered; }
    var first, rest := ordered[0], ordered[1..];
    assert forall k | k in ordered :: k == first || k in rest;
    var more := InsertInOrder(t, rest, i);
    forall k | k in more ensures Earlier(t, first, k) { assert k == i || k in rest; }
    r := [first] + more;
  }

  lemma {:induction false} ListingOf(t: Permissions, ids: set<Id>) returns (ordered: seq<Id>)
    requires ids <= t.Keys
    ensures (forall i :: i in ordered <==> i in ids) && InOrder(t, ordered)
  {
    if ids == {} { return []; }
    var i :| i in ids;
    var rest := ListingOf(t, ids - {i});
    ordered := InsertInOrder(t, rest, i);
  }

  /** Every table has such a listing. */
  lemma ListingExists(t: Permissions) returns (ordered: seq<Id>)
    ensures Lists(t, ordered)
  {
    ordered := ListingOf(t, set i | i in t && Eligible(t[i]));
  }

  /** DISTINCT ON (collection) keeps the row that begins each run of a collection. */
  lemma RunsBeginWithFirst(t: Permissions, ordered: seq<Id>, j: nat)
    requires Lists(t, ordered) && j < |ordered| && ordered[j] in t && (j > 0 ==> ordered[j - 1] in t)
    ensures First(t, ordered[j]) <==> (j > 0 ==> t[ordered[j - 1]].collection != t[ordered[j]].collection)
  {
    var i := ordered[j];
    assert i in ordered;
    if j > 0 {
      assert ordered[j - 1] in ordered && Earlier(t, ordered[j - 1], i);
    }
    if j > 0 ==> t[ordered[j - 1]].collection != t[i].collection {
      forall p | 0 <= p < j ensures ordered[p] in t && t[ordered[p]].collection < t[i].collection {
        assert ordered[p] in ordered;
        assert p == j - 1 || Earlier(t, ordered[p], ordered[j - 1]);
      }
      forall k | k in t && k != i && t[k].collection == t[i].collection && Eligible(t[k])
        ensures Older(t[i].createdAt, i, t[k].createdAt, k)
      {
        assert k in ordered;
        var p :| 0 <= p < |ordered| && ordered[p] == k;
        assert j < p;
      }
    }
  }

  method FirstMembers(t: Permissions, ordered: seq<Id>) returns (firsts: set<Id>)
    requires Lists(t, ordered)
    ensures forall i :: i in firsts <==> First(t, i)
  {
    firsts := {};
    var last: Option<Id> := None;
    for j := 0 to |ordered|
      invariant last == if j == 0 then None else (assert ordered[j - 1] in ordered; Some(t[ordered[j - 1]].collection))
      invariant forall i :: i in firsts <==> i in ordered[..j] && First(t, i)
    {
      assert ordered[j] in ordered && (j > 0 ==> ordered[j - 1] in ordered);
      RunsBeginWithFirst(t, ordered, j);
      assert ordered[..j + 1] == ordered[..j] + [ordered[j]];
      var collection := t[ordered[j]].collection;
      if last != Some(collection) {
        firsts := firsts + {ordered[j]};
        last := Some(collection);
      }
    }
    assert ordered[..|ordered|] == ordered;
  }

  /** The table afterwards: in a collection without an owner, its earliest eligible member is the owner. */
  ghost function Normalized(t: Permissions): Permissions {
    map i | i in t :: if First(t, i) && !HasOwner(t, t[i].collection) then t[i].(role := OWNER) else t[i]
  }

  lemma FirstExists(t: Permissions, collection: Id) returns (i: Id)
    requires HasEligible(t, collection)
    ensures First(t, i) && t[i].collection == collection
    ensures forall k | First(t, k) && t[k].collection == collection :: k == i
  {
    var times := map k | k in t :: t[k].createdAt;
    var group := set k | k in t && t[k].collection == collection && Eligible(t[k]);
    var some :| some in t && t[some].collection == collection && Eligible(t[some]);
    assert some in group;
    i := OldestExists(times, group);
    forall k | k in t && k != i && t[k].collection == collection && Eligible(t[k])
      ensures Older(t[i].createdAt, i, t[k].createdAt, k)
    {
      assert k in group;
    }
  }

  ghost predicate OnlyOwner(t: Permissions, collection: Id, i: Id) {
    forall k | k in t && t[k].collection == collection :: t[k].role == OWNER <==> k == i
  }

  /** A collection without an owner but with an eligible member gets exactly one: the earliest. */
  lemma ExactlyOneOwner(t: Permissions, collection: Id)
    requires !HasOwner(t, collection) && HasEligible(t, collection)
    ensures exists i :: First(t, i) && t[i].collection == collection && OnlyOwner(Normalized(t), collection, i)
  {
    var i := FirstExists(t, collection);
    assert OnlyOwner(Normalized(t), collection, i);
  }

  /** Afterwards the collections with an owner are those that had an eligible member; the others are as they were. */
  lemma OwnersAfterwards(t: Permissions, collection: Id)
    ensures HasOwner(Normalized(t), collection) <==>
      exists i | i in t :: t[i].collection == collection && t[i].role in {"member", "shared", "owner"}
    ensures HasOwner(t, collection) || !HasEligible(t, collection)
            ==> forall k | k in t && t[k].collection == collection :: Normalized(t)[k] == t[k]
  {
    var after := Normalized(t);
    if HasOwner(after, collection) {
      var k :| k in after && after[k].collection == collection && after[k].role == OWNER;
      assert k in t && t[k].collection == collection && Eligible(t[k]);
    }
    if HasOwner(t, collection) {
      var k :| k in t && t[k].collection == collection && t[k].role == OWNER;
      assert after[k] == t[k];
    } else if HasEligible(t, collection) {
      var i := FirstExists(t, collection);
      assert after[i].role == OWNER && after[i].collection == collection;
    }
  }

  /**
   Who becomes an owner: a member, or one it is shared with, before whom no other joined a collection without owner.
   */
  lemma PromotedExactly(t: Permissions, i: Id)
    requires i in t
    ensures Normalized(t)[i] != t[i] <==>
      && t[i].role in {"member", "shared"}
      && (forall k | k in t && t[k].collection == t[i].collection :: t[k].role != "owner")
      && forall k | k in t && t[k].collection == t[i].collection && t[k].role in {"member", "shared"} ::
           t[i].createdAt < t[k].createdAt || (t[i].createdAt == t[k].createdAt && i <= k)
    ensures Normalized(t)[i] == t[i] || Normalized(t)[i] == t[i].(role := "owner")
  {
    if First(t, i) && !HasOwner(t, t[i].collection) {
      forall k | k in t && t[k].collection == t[i].collection && t[k].role in {"member", "shared"} && k != i
        ensures Older(t[i].createdAt, i, t[k].createdAt, k)
      {
      }
    }
  }

  /** A second run changes nothing. */
  lemma NormalizedTwice(t: Permissions)
    ensures Normalized(Normalized(t)) == Normalized(t)
  {
    var after := Normalized(t);
    forall i | i in after && First(after, i) ensures HasOwner(after, after[i].collection) {
      assert i in t && Eligible(t[i]) && t[i].collection == after[i].collection;
      OwnersAfterwards(t, t[i].collection);
    }
  }

  /** The downgrade makes members of all owners. */
  function Demoted(t: Permissions): Permissions {
    map i | i in t :: if t[i].role == OWNER then t[i].(role := "member") else t[i]
  }

  lemma FirstWhenDemoted(t: Permissions, i: Id)
    ensures First(Demoted(t), i) <==> First(t, i)
  {
    forall k | k in t ensures Eligible(Demoted(t)[k]) <==> Eligible(t[k]) { }
    if First(Demoted(t), i) {
      forall k | k in t && k != i && t[k].collection == t[i].collection && Eligible(t[k])
        ensures Older(t[i].createdAt, i, t[k].createdAt, k)
      {
        assert k in Demoted(t) && Demoted(t)[k].createdAt == t[k].createdAt;
      }
    }
  }

  /** Downgrading and upgrading again gives the table back exactly if the owners are the earliest eligible members. */
  lemma DowngradeIsUndoneExactly(t: Permissions)
    ensures Normalized(Demoted(t)) == t <==> forall i | i in t :: t[i].role == OWNER <==> First(t, i)
  {
    var down := Demoted(t);
    var up := Normalized(down);
    forall i | i in t ensures up[i] == t[i] <==> (t[i].role == OWNER <==> First(t, i)) {
      FirstWhenDemoted(t, i);
      assert !HasOwner(down, t[i].collection);
    }
  }

  class PermissionTable {
    var rows: Permissions

    /** The UPDATE; `ordered` is what its inner query lists, in order. */
    method NormalizeOwners(ordered: seq<Id>)
      requires Lists(rows, ordered)
      modifies this
      ensures rows == Normalized(old(rows))
    {
      var firsts := FirstMembers(rows, ordered);
      rows := map i | i in rows ::
        if i in firsts && !(exists o | o in rows :: rows[o].collection == rows[i].collection && rows[o].role == OWNER)
        then rows[i].(role := OWNER) else rows[i];
    }
  }
}

/**
 * Reconnecting a target's revisions after some of them are deleted (services/revision_chain.py),
 * and the chain over histories that mix backup runs with deletions.
 */
module RevisionChain {
  import opened Text
  import opened BackupLedger

  class Revision {
    const row: RevisionRow
    var previous: Option<int>
    /** How often the object has been saved. */
    var saves: nat

    function Row(): RevisionRow
      reads this
    {
      row.(previous := previous)
    }
  }

  class Target {
    var last: Option<int>
    var saves: nat
  }

  // ---- sorted(..., key=(created, pk)) ----

  predicate Before(a: RevisionRow, b: RevisionRow) { a.created < b.created || (a.created == b.created && a.pk < b.pk) }

  ghost predicate DistinctKeys(revisions: seq<Revision>) {
    forall i, j | 0 <= i < j < |revisions| :: revisions[i].row.pk != revisions[j].row.pk
  }

  ghost predicate InOrder(revisions: seq<Revision>) {
    forall i, j | 0 <= i < j < |revisions| :: Before(revisions[i].row, revisions[j].row)
  }

  ghost predicate SameElements(a: seq<Revision>, b: seq<Revision>) {
    (forall r | r in a :: r in b) && forall r | r in b :: r in a
  }

  function Insert(sorted: seq<Revision>, r: Revision): (s: seq<Revision>)
    ensures r in s && (forall x | x in sorted :: x in s) && forall x | x in s :: x in sorted || x == r
  {
    if sorted == [] || Before(sorted[|sorted| - 1].row, r.row) then sorted + [r]
    else Insert(sorted[..|sorted| - 1], r) + [sorted[|sorted| - 1]]
  }

  lemma {:induction false} InsertKeepsOrder(sorted: seq<Revision>, r: Revision)
    requires InOrder(sorted) && forall x | x in sorted :: x.row.pk != r.row.pk
    ensures InOrder(Insert(sorted, r))
  {
    if sorted != [] {
      var last := sorted[|sorted| - 1];
      if Before(last.row, r.row) {
        forall i | 0 <= i < |sorted| ensures Before(sorted[i].row, r.row) {}
      } else {
        var rest := Insert(sorted[..|sorted| - 1], r);
        InsertKeepsOrder(sorted[..|sorted| - 1], r);
        forall i | 0 <= i < |rest| ensures Before(rest[i].row, last.row) {
          assert rest[i] in rest && last in sorted;
        }
      }
    }
  }

  lemma {:induction false} SortedInOrder(revisions: seq<Revision>)
    requires DistinctKeys(revisions)
    ensures InOrder(Sorted(revisions))
  {
    if revisions != [] {
      var rest, r := revisions[..|revisions| - 1], revisions[|revisions| - 1];
      SortedInOrder(rest);
      InsertKeepsOrder(Sorted(rest), r);
    }
  }

  function Sorted(revisions: seq<Revision>): (s: seq<Revision>)
    ensures SameElements(s, revisions)
  {
    if revisions == [] then []
    else Insert(Sorted(revisions[..|revisions| - 1]), revisions[|revisions| - 1])
  }

  /** Two orders that contain each other's last revision have the same one. */
  lemma SameLast(a: seq<Revision>, b: seq<Revision>)
    requires InOrder(a) && InOrder(b) && a != [] && b != []
    requires a[|a| - 1] in b && b[|b| - 1] in a
    ensures a[|a| - 1] == b[|b| - 1]
  {
    var i :| 0 <= i < |a| && a[i] == b[|b| - 1];
    var j :| 0 <= j < |b| && b[j] == a[|a| - 1];
    if i < |a| - 1 { assert Before(a[i].row, a[|a| - 1].row); }
    if j < |b| - 1 { assert Before(b[j].row, b[|b| - 1].row); }
  }

  lemma AllButLast(a: seq<Revision>, r: Revision)
    requires InOrder(a) && a != []
    ensures r in a[..|a| - 1] <==> r in a && r != a[|a| - 1]
  {
    if r in a && r != a[|a| - 1] {
      var i :| 0 <= i < |a| && a[i] == r;
      assert a[..|a| - 1][i] == r;
    }
    if r in a[..|a| - 1] {
      var i :| 0 <= i < |a| - 1 && a[i] == r;
      assert Before(a[i].row, a[|a| - 1].row);
    }
  }

  lemma SameFronts(a: seq<Revision>, b: seq<Revision>)
    requires InOrder(a) && InOrder(b) && SameElements(a, b) && a != [] && b != []
    ensures a[|a| - 1] == b[|b| - 1] && SameElements(a[..|a| - 1], b[..|b| - 1])
  {
    SameLast(a, b);
    var a', b' := a[..|a| - 1], b[..|b| - 1];
    forall r ensures r in a' <==> r in b' {
      AllButLast(a, r);
      AllButLast(b, r);
    }
  }

  /** Revisions in order are determined by which they are. */
  lemma {:induction false} OrderIsUnique(a: seq<Revision>, b: seq<Revision>)
    requires InOrder(a) && InOrder(b) && SameElements(a, b)
    ensures a == b
  {
    assert (a != [] ==> a[0] in b) && (b != [] ==> b[0] in a);
    if a != [] {
      SameFronts(a, b);
      OrderIsUnique(a[..|a| - 1], b[..|b| - 1]);
      assert a == a[..|a| - 1] + [a[|a| - 1]] && b == b[..|b| - 1] + [b[|b| - 1]];
    }
  }

  // ---- relink_kept_revisions ----

  function Without(revisions: seq<Revision>, deleted: set<int>): seq<Revision> {
    if revisions == [] then []
    else
      var kept := Without(revisions[..|revisions| - 1], deleted);
      var r := revisions[|revisions| - 1];
      if r.row.pk in deleted then kept else kept + [r]
  }

  lemma {:induction false} WithoutExactly(revisions: seq<Revision>, deleted: set<int>)
    ensures var kept := Without(revisions, deleted);
      && (forall r | r in kept :: r in revisions && r.row.pk !in deleted)
      && (forall r | r in revisions && r.row.pk !in deleted :: r in kept)
  {
    if revisions != [] { WithoutExactly(revisions[..|revisions| - 1], deleted); }
  }

  lemma {:induction false} WithoutDistinct(revisions: seq<Revision>, deleted: set<int>)
    requires DistinctKeys(revisions)
    ensures DistinctKeys(Without(revisions, deleted))
  {
    if revisions != [] {
      var rest, r := revisions[..|revisions| - 1], revisions[|revisions| - 1];
      WithoutDistinct(rest, deleted);
      WithoutExactly(rest, deleted);
      var kept := Without(rest, deleted);
      forall i | 0 <= i < |kept| ensures kept[i].row.pk != r.row.pk { assert kept[i] in rest; }
    }
  }

  lemma {:induction false} WithoutOrdered(revisions: seq<Revision>, deleted: set<int>)
    requires InOrder(revisions)
    ensures InOrder(Without(revisions, deleted))
  {
    if revisions != [] {
      var rest, r := revisions[..|revisions| - 1], revisions[|revisions| - 1];
      WithoutOrdered(rest, deleted);
      WithoutExactly(rest, deleted);
      var kept := Without(rest, deleted);
      forall i | 0 <= i < |kept| ensures Before(kept[i].row, r.row) { assert kept[i] in rest; }
    }
  }

  function LinkAt(order: seq<Revision>, i: nat): Option<int>
    requires i <= |order|
  {
    if i == 0 then None else Some(order[i - 1].row.pk)
  }

  /** The revision's state after the loop has passed it. */
  twostate predicate Passed(order: seq<Revision>, i: nat)
    requires i < |order|
    reads order[i]
  {
    order[i].previous == LinkAt(order, i)
    && order[i].saves == old(order[i].saves) + if order[i].previous == old(order[i].previous) then 0 else 1
  }

  ghost predicate LinkRight(order: seq<Revision>, i: nat)
    requires i < |order|
    reads order[i]
  {
    order[i].previous == LinkAt(order, i)
  }

  ghost predicate Linked(target: Target, order: seq<Revision>)
    reads target, order
  {
    (forall i | 0 <= i < |order| :: LinkRight(order, i)) && target.last == LinkAt(order, |order|)
  }

  /** The kept revisions form a chain again, and an object is saved if and only if its link was wrong. */
  twostate predicate Relinked(target: Target, order: seq<Revision>)
    reads target, order
  {
    && (forall i | 0 <= i < |order| :: Passed(order, i))
    && target.last == LinkAt(order, |order|)
    && target.saves == old(target.saves) + if target.last == old(target.last) then 0 else 1
  }

  /** The loop, over the kept revisions in order. */
  method LinkInOrder(target: Target, kept: seq<Revision>)
    requires forall i, j | 0 <= i < j < |kept| :: kept[i] != kept[j]
    modifies target, set r | r in kept
    ensures Relinked(target, kept)
  {
    var previous: Option<Revision> := None;
    for i := 0 to |kept|
      invariant previous == if i == 0 then None else Some(kept[i - 1])
      invariant forall j | 0 <= j < i :: Passed(kept, j)
      invariant forall j | i <= j < |kept| :: unchanged(kept[j])
      invariant unchanged(target)
    {
      var revision := kept[i];
      var previousId := if previous.Some? then Some(previous.value.row.pk) else None;
      if revision.previous != previousId {
        revision.previous := previousId;
        revision.saves := revision.saves + 1;
      }
      previous := Some(revision);
    }
    var latest := if kept != [] then Some(kept[|kept| - 1].row.pk) else None;
    if target.last != latest {
      target.last := latest;
      target.saves := target.saves + 1;
    }
  }

  /** Relinking a chain that is right saves nothing. */
  twostate predicate IdleIfLinked(target: Target, order: seq<Revision>)
    reads target, order
  {
    old(Linked(target, order)) ==>
      && target.last == old(target.last) && target.saves == old(target.saves)
      && forall i | 0 <= i < |order| ::
           order[i].previous == old(order[i].previous) && order[i].saves == old(order[i].saves)
  }

  /** The loop, and what it means for a chain that was right before. */
  method LinkAndKeep(target: Target, kept: seq<Revision>)
    requires forall i, j | 0 <= i < j < |kept| :: kept[i] != kept[j]
    modifies target, set r | r in kept
    ensures Relinked(target, kept) && Linked(target, kept) && IdleIfLinked(target, kept)
  {
    LinkInOrder(target, kept);
    forall i | 0 <= i < |kept| ensures LinkRight(kept, i) { assert Passed(kept, i); }
    forall i | 0 <= i < |kept| && old(Linked(target, kept))
      ensures kept[i].previous == old(kept[i].previous) && kept[i].saves == old(kept[i].saves)
    {
      assert Passed(kept, i) && old(LinkRight(kept, i));
    }
  }

  lemma OrderedDistinct(revisions: seq<Revision>)
    requires InOrder(revisions)
    ensures forall i, j | 0 <= i < j < |revisions| :: revisions[i] != revisions[j]
  {
    forall i, j | 0 <= i < j < |revisions| ensures revisions[i] != revisions[j] {
      assert Before(revisions[i].row, revisions[j].row);
    }
  }

  /**
   * Whatever order the revisions come in, the kept ones are relinked in order of creation and the
   * deleted ones are left alone; nothing is saved if the chain was right already. In the target's
   * ledger this is the step Forget.
   */
  method Relink(target: Target, revisions: seq<Revision>, deleted: set<int>, ghost l: Ledger)
    requires DistinctKeys(revisions) && Describes(Sorted(revisions), l.revisions)
    modifies target, set r | r in revisions
    ensures Relinked(target, Sorted(Without(revisions, deleted)))
    ensures IdleIfLinked(target, Sorted(Without(revisions, deleted)))
    ensures Shows(target, Sorted(Without(revisions, deleted)), Forget(l, deleted))
    ensures forall r | r in revisions && r.row.pk in deleted :: unchanged(r)
  {
    var order := Sorted(Without(revisions, deleted));
    KeptOrder(revisions, deleted, l.revisions);
    LinkAndKeep(target, order);
    LinkedRows(target, order, Kept(l.revisions, deleted));
  }

  // ---- The deletion in the target's ledger ----

  ghost predicate Describes(revisions: seq<Revision>, rows: seq<RevisionRow>) {
    |revisions| == |rows| && forall i | 0 <= i < |rows| :: DescribesAt(revisions, rows, i)
  }

  ghost predicate DescribesAt(revisions: seq<Revision>, rows: seq<RevisionRow>, i: nat)
    requires i < |revisions| && i < |rows|
  {
    Alike(revisions[i], rows[i])
  }

  /** The row is that of the object, up to the link. */
  ghost predicate Alike(revision: Revision, row: RevisionRow) { revision.row.(previous := row.previous) == row }

  function Kept(rows: seq<RevisionRow>, deleted: set<int>): (kept: seq<RevisionRow>)
    ensures |kept| <= |rows|
  {
    if rows == [] then []
    else
      var kept := Kept(rows[..|rows| - 1], deleted);
      if rows[|rows| - 1].pk in deleted then kept else kept + [rows[|rows| - 1]]
  }

  function Joined(rows: seq<RevisionRow>): (joined: seq<RevisionRow>)
    ensures |joined| == |rows|
  {
    seq(|rows|, i requires 0 <= i < |rows| => rows[i].(previous := if i == 0 then None else Some(rows[i - 1].pk)))
  }

  function Forget(l: Ledger, deleted: set<int>): Ledger {
    var kept := Kept(l.revisions, deleted);
    l.(revisions := Joined(kept), lastRevision := if kept == [] then None else Some(kept[|kept| - 1].pk))
  }

  /** The database rows are those of the ledger. */
  ghost predicate Shows(target: Target, order: seq<Revision>, l: Ledger)
    reads target, order
  {
    && |order| == |l.revisions| && target.last == l.lastRevision
    && forall i | 0 <= i < |order| :: ShownAt(order, l.revisions, i)
  }

  ghost predicate ShownAt(order: seq<Revision>, rows: seq<RevisionRow>, i: nat)
    requires i < |order| && i < |rows|
    reads order[i]
  {
    order[i].Row() == rows[i]
  }

  lemma LinkedRow(order: seq<Revision>, rows: seq<RevisionRow>, i: nat)
    requires Describes(order, rows) && i < |order| && LinkRight(order, i)
    ensures ShownAt(order, Joined(rows), i)
  {
    assert DescribesAt(order, rows, i);
    if i > 0 { assert DescribesAt(order, rows, i - 1); }
  }

  lemma LinkedRows(target: Target, order: seq<Revision>, rows: seq<RevisionRow>)
    requires Describes(order, rows) && Linked(target, order)
    ensures |order| == |rows| && forall i | 0 <= i < |order| :: ShownAt(order, Joined(rows), i)
    ensures target.last == if rows == [] then None else Some(rows[|rows| - 1].pk)
  {
    forall i | 0 <= i < |order| ensures ShownAt(order, Joined(rows), i) { LinkedRow(order, rows, i); }
    if rows != [] { assert DescribesAt(order, rows, |rows| - 1); }
  }

  /** Filtering before sorting or after it is the same. */
  lemma SortedWithout(revisions: seq<Revision>, deleted: set<int>)
    requires DistinctKeys(revisions)
    ensures Sorted(Without(revisions, deleted)) == Without(Sorted(revisions), deleted)
  {
    WithoutExactly(revisions, deleted);
    WithoutExactly(Sorted(revisions), deleted);
    WithoutDistinct(revisions, deleted);
    SortedInOrder(revisions);
    WithoutOrdered(Sorted(revisions), deleted);
    SortedInOrder(Without(revisions, deleted));
    var a, b := Sorted(Without(revisions, deleted)), Without(Sorted(revisions), deleted);
    forall r | r in a ensures r in b { assert r in Without(revisions, deleted); }
    forall r | r in b ensures r in a { assert r in Sorted(revisions); }
    OrderIsUnique(a, b);
  }

  lemma DescribesMore(revisions: seq<Revision>, rows: seq<RevisionRow>, revision: Revision, row: RevisionRow)
    requires Describes(revisions, rows) && Alike(revision, row)
    ensures Describes(revisions + [revision], rows + [row])
  {
    forall i | 0 <= i <= |rows| ensures DescribesAt(revisions + [revision], rows + [row], i) {
      if i < |rows| { assert DescribesAt(revisions, rows, i); }
    }
  }

  lemma {:induction false} DescribesWithout(revisions: seq<Revision>, rows: seq<RevisionRow>, deleted: set<int>)
    requires Describes(revisions, rows)
    ensures Describes(Without(revisions, deleted), Kept(rows, deleted))
  {
    if rows != [] {
      var n := |rows| - 1;
      assert DescribesAt(revisions, rows, n);
      forall i | 0 <= i < n ensures DescribesAt(revisions[..n], rows[..n], i) {
        assert DescribesAt(revisions, rows, i);
      }
      DescribesWithout(revisions[..n], rows[..n], deleted);
      if rows[n].pk !in deleted {
        DescribesMore(Without(revisions[..n], deleted), Kept(rows[..n], deleted), revisions[n], rows[n]);
      }
    }
  }

  /** The objects the loop runs over. */
  lemma KeptOrder(revisions: seq<Revision>, deleted: set<int>, rows: seq<RevisionRow>)
    requires DistinctKeys(revisions) && Describes(Sorted(revisions), rows)
    ensures var order := Sorted(Without(revisions, deleted));
      && (forall i, j | 0 <= i < j < |order| :: order[i] != order[j])
      && (forall r | r in order :: r in revisions && r.row.pk !in deleted)
      && Describes(order, Kept(rows, deleted))
  {
    var order := Sorted(Without(revisions, deleted));
    SortedWithout(revisions, deleted);
    DescribesWithout(Sorted(revisions), rows, deleted);
    WithoutDistinct(revisions, deleted);
    SortedInOrder(Without(revisions, deleted));
    OrderedDistinct(order);
    WithoutExactly(revisions, deleted);
  }

  // ---- Histories with deletions ----

  datatype Change = Did(op: Op) | Deleted(pks: set<int>)

  function Outcome(changes: seq<Change>, every: bool): Ledger {
    if changes == [] then Fresh
    else
      var l := Outcome(changes[..|changes| - 1], every);
      match changes[|changes| - 1]
      case Did(op) => Apply(l, op, every)
      case Deleted(pks) => Forget(l, pks)
  }

  /** Every collection is later than all revisions there are. */
  ghost predicate AlwaysLater(changes: seq<Change>, every: bool) {
    forall i | 0 <= i < |changes| && changes[i].Did? && changes[i].op.Collect? ::
      Later(Outcome(changes[..i], every).revisions, changes[i].op.created)
  }

  ghost predicate Later(rows: seq<RevisionRow>, created: int) {
    forall k | 0 <= k < |rows| :: rows[k].created < created
  }

  lemma {:induction false} KeptLater(rows: seq<RevisionRow>, deleted: set<int>, created: int)
    requires Later(rows, created)
    ensures Later(Kept(rows, deleted), created)
  {
    if rows != [] { KeptLater(rows[..|rows| - 1], deleted, created); }
  }

  lemma {:induction false} KeptOrdered(rows: seq<RevisionRow>, deleted: set<int>)
    requires Ordered(rows)
    ensures Ordered(Kept(rows, deleted))
  {
    if rows != [] {
      KeptOrdered(rows[..|rows| - 1], deleted);
      KeptLater(rows[..|rows| - 1], deleted, rows[|rows| - 1].created);
    }
  }

  /** Exactly the rows that are not deleted are kept, and nothing of them but the link changes. */
  lemma {:induction false} KeptExactly(rows: seq<RevisionRow>, deleted: set<int>, row: RevisionRow)
    ensures row in Kept(rows, deleted) <==> row in rows && row.pk !in deleted
  {
    if rows != [] {
      KeptExactly(rows[..|rows| - 1], deleted, row);
      assert row in rows <==> row in rows[..|rows| - 1] || row == rows[|rows| - 1];
    }
  }

  lemma JoinedOrdered(rows: seq<RevisionRow>)
    requires Ordered(rows)
    ensures Ordered(Joined(rows))
  {
    var joined := Joined(rows);
    forall i, j | 0 <= i < j < |joined| ensures joined[i].created < joined[j].created {
      assert rows[i].created < rows[j].created;
    }
  }

  lemma JoinedChained(rows: seq<RevisionRow>)
    ensures Chained(Joined(rows), if rows == [] then None else Some(rows[|rows| - 1].pk))
  {
    var joined := Joined(rows);
    forall i | 0 <= i < |joined| ensures LinkedAt(joined, i) {
      if i > 0 { assert joined[i - 1].pk == rows[i - 1].pk; }
    }
    if rows != [] { assert joined[|joined| - 1].pk == rows[|rows| - 1].pk; }
  }

  /** Deleting any subset leaves the chain of the others. */
  lemma ForgetKeepsChain(l: Ledger, deleted: set<int>)
    requires Ordered(l.revisions)
    ensures var m := Forget(l, deleted); Ordered(m.revisions) && Chained(m.revisions, m.lastRevision)
  {
    var m, kept := Forget(l, deleted), Kept(l.revisions, deleted);
    assert m.revisions == Joined(kept);
    assert Ordered(m.revisions) by {
      KeptOrdered(l.revisions, deleted);
      JoinedOrdered(kept);
    }
    assert Chained(m.revisions, m.lastRevision) by { JoinedChained(kept); }
  }

  lemma OneMoreChange(changes: seq<Change>, change: Change, every: bool)
    ensures Outcome(changes + [change], every) ==
      if change.Did? then Apply(Outcome(changes, every), change.op, every)
        else Forget(Outcome(changes, every), change.pks)
    ensures AlwaysLater(changes + [change], every) <==>
      AlwaysLater(changes, every)
      && (change.Did? && change.op.Collect? ==> Later(Outcome(changes, every).revisions, change.op.created))
  {
    var all, n := changes + [change], |changes|;
    assert all[..n] == changes && all[n] == change;
    forall i | 0 <= i < n ensures all[..i] == changes[..i] && all[i] == changes[i] {}
    if AlwaysLater(all, every) {
      forall i | 0 <= i < n && changes[i].Did? && changes[i].op.Collect?
        ensures Later(Outcome(changes[..i], every).revisions, changes[i].op.created)
      {
        assert all[i].Did? && all[..i] == changes[..i];
      }
    }
  }

  lemma ChainStays(l: Ledger, change: Change, every: bool)
    requires Ordered(l.revisions) && Chained(l.revisions, l.lastRevision)
    requires change.Did? && change.op.Collect? ==> Later(l.revisions, change.op.created)
    ensures var m := if change.Did? then Apply(l, change.op, every) else Forget(l, change.pks);
      Ordered(m.revisions) && Chained(m.revisions, m.lastRevision)
  {
    match change
    case Deleted(pks) => ForgetKeepsChain(l, pks);
    case Did(op) =>
      if op.Collect? {
        CollectKeepsLinks(l, op.mode, op.pk, op.created, op.hash, op.artifacts);
      } else {
        assert Apply(l, op, every).revisions == l.revisions && Apply(l, op, every).lastRevision == l.lastRevision;
      }
  }

  /**
   * Through every history of runs and deletions the target's revisions are one chain, in order of
   * creation, and the target points to the newest.
   */
  lemma {:induction false} ChainThroughDeletions(changes: seq<Change>, every: bool)
    requires AlwaysLater(changes, every)
    ensures var l := Outcome(changes, every); Ordered(l.revisions) && Chained(l.revisions, l.lastRevision)
  {
    if changes != [] {
      var before, last := changes[..|changes| - 1], changes[|changes| - 1];
      assert changes == before + [last];
      OneMoreChange(before, last, every);
      ChainThroughDeletions(before, every);
      ChainStays(Outcome(before, every), last, every);
    }
  }

  lemma KeptAppend(rows: seq<RevisionRow>, row: RevisionRow, deleted: set<int>)
    ensures Kept(rows + [row], deleted) == Kept(rows, deleted) + if row.pk in deleted then [] else [row]
  {
    assert (rows + [row])[..|rows + [row]| - 1] == rows;
  }

  // ---- content_changed after a deletion ----

  /** The hash of the last row that is not deleted. */
  function LastKept(rows: seq<RevisionRow>, deleted: set<int>): Option<string> {
    if rows == [] then None
    else if rows[|rows| - 1].pk in deleted then LastKept(rows[..|rows| - 1], deleted)
    else Some(rows[|rows| - 1].hash)
  }

  /** Row i differs from its old predecessor exactly if it differs from the last kept row before it. */
  predicate AsBefore(rows: seq<RevisionRow>, deleted: set<int>, i: nat)
    requires i < |rows|
  {
    (i == 0 || rows[i].hash != rows[i - 1].hash) <==> LastKept(rows[..i], deleted) != Some(rows[i].hash)
  }

  /** No deletion makes neighbours of equal revisions that were not, nor parts those that were. */
  predicate StaysRight(rows: seq<RevisionRow>, deleted: set<int>) {
    forall i | 0 <= i < |rows| && rows[i].pk !in deleted :: AsBefore(rows, deleted, i)
  }

  lemma {:induction false} LastOfKept(rows: seq<RevisionRow>, deleted: set<int>)
    ensures var kept := Kept(rows, deleted);
      LastKept(rows, deleted) == if kept == [] then None else Some(kept[|kept| - 1].hash)
  {
    if rows != [] { LastOfKept(rows[..|rows| - 1], deleted); }
  }

  lemma FlagsAppend(rows: seq<RevisionRow>, row: RevisionRow)
    ensures FlagsRight(rows + [row]) <==>
      FlagsRight(rows) && (row.contentChanged <==> rows == [] || rows[|rows| - 1].hash != row.hash)
  {
    var all, n := rows + [row], |rows|;
    forall i | 0 <= i < n ensures FlagRight(all, i) <==> FlagRight(rows, i) {}
    assert all[n] == row && (n > 0 ==> all[n - 1] == rows[n - 1]);
    if FlagsRight(all) {
      assert FlagRight(all, n);
      forall i | 0 <= i < n ensures FlagRight(rows, i) { assert FlagRight(all, i); }
    }
    if FlagsRight(rows) && FlagRight(all, n) {
      forall i | 0 <= i < |all| ensures FlagRight(all, i) { if i < n { assert FlagRight(rows, i); } }
    }
  }

  lemma StaysAppend(rows: seq<RevisionRow>, row: RevisionRow, deleted: set<int>)
    ensures StaysRight(rows + [row], deleted) <==>
      StaysRight(rows, deleted) && (row.pk !in deleted ==> AsBefore(rows + [row], deleted, |rows|))
  {
    var all, n := rows + [row], |rows|;
    forall i | 0 <= i < n ensures all[i] == rows[i] && (AsBefore(all, deleted, i) <==> AsBefore(rows, deleted, i)) {
      assert all[..i] == rows[..i];
    }
    assert all[n] == row;
    if StaysRight(all, deleted) {
      forall i | 0 <= i < n && rows[i].pk !in deleted ensures AsBefore(rows, deleted, i) {
        assert AsBefore(all, deleted, i);
      }
    }
  }

  lemma FlagsStep(front: seq<RevisionRow>, row: RevisionRow, deleted: set<int>)
    requires FlagsRight(front + [row]) && (FlagsRight(Kept(front, deleted)) <==> StaysRight(front, deleted))
    ensures FlagsRight(Kept(front + [row], deleted)) <==> StaysRight(front + [row], deleted)
  {
    KeptAppend(front, row, deleted);
    StaysAppend(front, row, deleted);
    if row.pk !in deleted {
      var rows, n := front + [row], |front|;
      assert rows[..n] == front && rows[n] == row && (n > 0 ==> rows[n - 1] == front[n - 1]);
      assert FlagRight(rows, n);
      LastOfKept(front, deleted);
      FlagsAppend(Kept(front, deleted), row);
    }
  }

  lemma {:induction false} FlagsOfKept(rows: seq<RevisionRow>, deleted: set<int>)
    requires FlagsRight(rows)
    ensures FlagsRight(Kept(rows, deleted)) <==> StaysRight(rows, deleted)
  {
    if rows != [] {
      var front, row := rows[..|rows| - 1], rows[|rows| - 1];
      assert rows == front + [row];
      FlagsAppend(front, row);
      FlagsOfKept(front, deleted);
      FlagsStep(front, row, deleted);
    }
  }

  lemma JoiningKeepsFlags(rows: seq<RevisionRow>)
    ensures FlagsRight(Joined(rows)) <==> FlagsRight(rows)
  {
    forall i | 0 <= i < |rows| ensures FlagRight(Joined(rows), i) <==> FlagRight(rows, i) {}
    if FlagsRight(Joined(rows)) {
      forall i | 0 <= i < |rows| ensures FlagRight(rows, i) { assert FlagRight(Joined(rows), i); }
    }
    if FlagsRight(rows) {
      forall i | 0 <= i < |rows| ensures FlagRight(Joined(rows), i) { assert FlagRight(rows, i); }
    }
  }

  /**
   * A deletion leaves content_changed right, for every revision, if and only if each revision that
   * is kept compares with the last one kept before it as it compared with its old predecessor.
   */
  lemma FlagsAfterDeletion(l: Ledger, deleted: set<int>)
    requires FlagsRight(l.revisions)
    ensures FlagsRight(Forget(l, deleted).revisions) <==> StaysRight(l.revisions, deleted)
  {
    FlagsOfKept(l.revisions, deleted);
    JoiningKeepsFlags(Kept(l.revisions, deleted));
  }

  /** Deleting the middle one of three revisions leaves the flag of the last as it was. */
  lemma MiddleDeleted(l: Ledger, deleted: set<int>)
    requires |l.revisions| == 3 && FlagsRight(l.revisions)
    requires l.revisions[0].pk !in deleted && l.revisions[1].pk in deleted && l.revisions[2].pk !in deleted
    requires l.revisions[0].hash == l.revisions[2].hash != l.revisions[1].hash
    ensures !FlagsRight(Forget(l, deleted).revisions)
  {
    var rows := l.revisions;
    assert rows[..2][..1] == rows[..1];
    assert LastKept(rows[..1], deleted) == Some(rows[0].hash);
    assert LastKept(rows[..2], deleted) == LastKept(rows[..1], deleted);
    assert !AsBefore(rows, deleted, 2);
    FlagsAfterDeletion(l, deleted);
  }

  function Collecting(pk: int, hash: string): Change { Did(Collect(ChangedOnly, pk, pk, hash, [])) }

  lemma CollectedRow(l: Ledger, pk: int, hash: string)
    requires WellLinked(l)
    requires l.revisions == [] ||
      (l.revisions[|l.revisions| - 1].created < pk && l.revisions[|l.revisions| - 1].hash != hash)
    ensures var m, n := Collected(l, ChangedOnly, pk, pk, hash, []), |l.revisions|;
      && WellLinked(m) && |m.revisions| == n + 1 && m.revisions[..n] == l.revisions
      && m.revisions[n].pk == m.revisions[n].created == pk && m.revisions[n].hash == hash
  {
    CollectKeepsChain(l, ChangedOnly, pk, pk, hash, []);
    var m := Collected(l, ChangedOnly, pk, pk, hash, []);
    assert m.revisions == l.revisions + [NewRow(l, pk, pk, hash, true, [])];
  }

  /** One more collection of other content in changed_only mode. */
  lemma CollectedMore(changes: seq<Change>, pk: int, hash: string, every: bool)
    requires AlwaysLater(changes, every) && WellLinked(Outcome(changes, every))
    requires var rows := Outcome(changes, every).revisions;
      rows == [] || (rows[|rows| - 1].created < pk && rows[|rows| - 1].hash != hash)
    ensures var more, rows := changes + [Collecting(pk, hash)], Outcome(changes, every).revisions;
      var grown := Outcome(more, every).revisions;
      && AlwaysLater(more, every) && WellLinked(Outcome(more, every))
      && |grown| == |rows| + 1 && grown[..|rows|] == rows
      && grown[|rows|].pk == grown[|rows|].created == pk && grown[|rows|].hash == hash
  {
    var l := Outcome(changes, every);
    OneMoreChange(changes, Collecting(pk, hash), every);
    OrderedLater(l.revisions, pk);
    CollectedRow(l, pk, hash);
    assert Outcome(changes + [Collecting(pk, hash)], every) == Collected(l, ChangedOnly, pk, pk, hash, []);
  }

  lemma OrderedLater(rows: seq<RevisionRow>, created: int)
    requires Ordered(rows) && (rows != [] ==> rows[|rows| - 1].created < created)
    ensures Later(rows, created)
  {
    forall k | 0 <= k < |rows| ensures rows[k].created < created {
      if k < |rows| - 1 { assert rows[k].created < rows[|rows| - 1].created; }
    }
  }

  /** Three collections of which the first and the last find the same. */
  lemma Revisited(x: string, y: string, every: bool) returns (changes: seq<Change>)
    requires x != y
    ensures AlwaysLater(changes, every) && WellLinked(Outcome(changes, every))
    ensures var rows := Outcome(changes, every).revisions;
      && |rows| == 3 && rows[0].pk == 1 && rows[1].pk == 2 && rows[2].pk == 3
      && rows[0].hash == x && rows[1].hash == y && rows[2].hash == x
  {
    CollectedMore([], 1, x, every);
    var one := [] + [Collecting(1, x)];
    var rows1 := Outcome(one, every).revisions;
    assert |rows1| == 1;
    CollectedMore(one, 2, y, every);
    var two := one + [Collecting(2, y)];
    var rows2 := Outcome(two, every).revisions;
    assert |rows2| == 2 && rows2[..1][0] == rows1[0];
    CollectedMore(two, 3, x, every);
    changes := two + [Collecting(3, x)];
    var rows3 := Outcome(changes, every).revisions;
    assert |rows3| == 3 && rows3[..2][0] == rows2[0] && rows3[..2][1] == rows2[1];
  }

  /**
   * A deletion can make neighbours of two equal revisions: there is a history after which every
   * content_changed is right, and a deletion that leaves one wrong.
   */
  lemma FlagsGoStale(every: bool)
    ensures exists changes, deleted ::
      (var more := changes + [Deleted(deleted)];
       && AlwaysLater(more, every) && FlagsRight(Outcome(changes, every).revisions)
       && !FlagsRight(Outcome(more, every).revisions))
  {
    var changes := Revisited("a", "b", every);
    MiddleDeleted(Outcome(changes, every), {2});
    OneMoreChange(changes, Deleted({2}), every);
  }
}

/** What the projection index guarantees: one identity on each target, conflicts that change
    nothing, and a rebuild that depends on the roots alone. */
module ProjectionLaws {
  import opened Text
  import opened Json
  import opened Marker
  import opened Projection
  import DraftLaws
  import MarkerLaws
  import RawGuard

  // ---------------------------------------------------------------- rows and targets

  lemma RowIsFound(rows: Table, row: Row)
    requires UniqueTargets(rows) && row in rows
    ensures Find(rows, row.target) < |rows| && rows[Find(rows, row.target)] == row
  {
    var i :| 0 <= i < |rows| && rows[i] == row;
    var j := Find(rows, row.target);
    assert !(i < j);
    assert !(j < i);
  }

  /** Upserting replaces the row of the same target or adds one; it fails exactly when another
      identity is there. */
  lemma UpsertRows(rows: Table, row: Row)
    requires UniqueTargets(rows)
    ensures Upsert(rows, row).None? <==> Displaces(row, rows)
    ensures Upsert(rows, row).Some? ==>
      && UniqueTargets(Upsert(rows, row).value)
      && forall x :: x in Upsert(rows, row).value <==> x == row || (x in rows && x.target != row.target)
  {
    if Upsert(rows, row).Some? {
      var after := Upsert(rows, row).value;
      var k := Find(rows, row.target);
      forall x ensures x in after <==> x == row || (x in rows && x.target != row.target) {
        if x in rows {
          RowIsFound(rows, x);
          assert x.target != row.target ==> Find(rows, x.target) != k && after[Find(rows, x.target)] == x;
        }
        assert after[k] == row;
        if x in after {
          var i :| 0 <= i < |after| && after[i] == x;
          assert i != k ==> x in rows && x.target != row.target;
        }
      }
    }
  }

  lemma UniqueKept(rows: Table, kept: Table)
    requires UniqueTargets(rows) && Sublist(kept, rows)
    ensures UniqueTargets(kept)
    decreases |rows|
  {
    if kept != [] {
      if kept[0] == rows[0] && Sublist(kept[1..], rows[1..]) {
        UniqueKept(rows[1..], kept[1..]);
        forall j | 0 < j < |kept| ensures kept[0].target != kept[j].target {
          SublistMember(kept[1..], rows[1..], kept[j]);
        }
      } else {
        UniqueKept(rows[1..], kept);
      }
    }
  }

  predicate Sublist(a: Table, b: Table) {
    a == [] || (b != [] && ((a[0] == b[0] && Sublist(a[1..], b[1..])) || Sublist(a, b[1..])))
  }

  lemma {:induction false} SublistMember(a: Table, b: Table, x: Row)
    requires Sublist(a, b) && x in a
    ensures x in b
    decreases |b|
  {
    if a[0] == b[0] && Sublist(a[1..], b[1..]) {
      if x != a[0] {
        SublistMember(a[1..], b[1..], x);
      }
    } else {
      SublistMember(a, b[1..], x);
    }
  }

  lemma {:induction false} KeptIsSublist(rows: Table, targets: set<Bytes>)
    ensures Sublist(KeepTargets(rows, targets), rows)
  {
    if rows != [] {
      KeptIsSublist(rows[1..], targets);
    }
  }

  lemma {:induction false} RemovedIsSublist(rows: Table, identity: Text, target: Bytes)
    ensures Sublist(RemoveRow(rows, identity, target), rows)
  {
    if rows != [] {
      RemovedIsSublist(rows[1..], identity, target);
    }
  }

  lemma UniquePrefix(rows: Table, n: nat)
    requires UniqueTargets(rows) && n <= |rows|
    ensures UniqueTargets(rows[..n])
    ensures forall x :: x in rows[n..] ==> !HasTarget(rows[..n], x.target)
  {
  }

  /** Adding rows with distinct targets fails exactly when one of them meets another identity on
      its target; otherwise each replaces the row of its target or joins the table. */
  lemma {:induction false} UpsertAllRows(rows: Table, added: seq<Row>)
    requires UniqueTargets(rows) && UniqueTargets(added)
    ensures UpsertAll(rows, added).None? <==> exists a :: a in added && Displaces(a, rows)
    ensures UpsertAll(rows, added).Some? ==>
      && UniqueTargets(UpsertAll(rows, added).value)
      && forall x :: x in UpsertAll(rows, added).value <==>
           x in added || (x in rows && !HasTarget(added, x.target))
  {
    if added != [] {
      var k := |added| - 1;
      var before, last := added[..k], added[k];
      UniquePrefix(added, k);
      UpsertAllRows(rows, before);
      assert added == before + [last];
      if UpsertAll(rows, before).Some? {
        var work := UpsertAll(rows, before).value;
        UpsertRows(work, last);
        SameDisplacement(rows, before, work, last);
        forall x: Row ensures x.target == last.target || HasTarget(before, x.target) <==> HasTarget(added, x.target) {
          TargetOfConcat(before, last, x.target);
        }
        assert forall x :: x in before ==> x.target != last.target;
      }
    }
  }

  lemma TargetOfConcat(rows: Table, last: Row, target: Bytes)
    ensures HasTarget(rows + [last], target) <==> HasTarget(rows, target) || last.target == target
  {
    var all := rows + [last];
    if Find(all, target) < |rows| {
      assert rows[Find(all, target)].target == target;
    }
    if Find(rows, target) < |rows| {
      assert all[Find(rows, target)].target == target;
    }
    assert all[|rows|] == last;
  }

  /** Rows for other targets do not change what a row meets. */
  lemma SameDisplacement(rows: Table, added: seq<Row>, work: Table, row: Row)
    requires UniqueTargets(rows) && UniqueTargets(work) && !HasTarget(added, row.target)
    requires forall x :: x in work <==> x in added || (x in rows && !HasTarget(added, x.target))
    ensures Displaces(row, work) <==> Displaces(row, rows)
  {
    var i, j := Find(rows, row.target), Find(work, row.target);
    if i < |rows| {
      assert rows[i] in work;
      RowIsFound(work, rows[i]);
    }
    if j < |work| {
      assert work[j] in work;
      assert work[j] !in added by { NotAdded(added, work[j], row.target); }
      RowIsFound(rows, work[j]);
    }
  }

  lemma NotAdded(added: seq<Row>, row: Row, target: Bytes)
    requires !HasTarget(added, target) && row.target == target
    ensures row !in added
  {
  }

  // ---------------------------------------------------------------- update and remove

  /** Some row of the table has the row's target and another identity. */
  predicate IsHeld(rows: Table, row: Row) {
    exists i :: 0 <= i < |rows| && rows[i].target == row.target && rows[i].identity != row.identity
  }

  /** An update, exactly: it fails when the store does, meets a conflict when another identity holds the
      target, and links otherwise; then the table has the row, and all it had for other targets. */
  lemma UpdateExact(rows: Table, row: Row, store: bool)
    requires UniqueTargets(rows)
    ensures var (status, after) := Update(rows, row, store);
      && status == (if !store then Failed else if IsHeld(rows, row) then Conflict else Linked)
      && (status != Linked ==> after == rows)
      && (status == Linked ==> forall x :: x in after <==> x == row || (x in rows && x.target != row.target))
  {
    HeldExact(rows, row);
    hide IsHeld, Displaces, Find;
    UpsertRows(rows, row);
  }

  lemma HeldExact(rows: Table, row: Row)
    requires UniqueTargets(rows)
    ensures IsHeld(rows, row) <==> Displaces(row, rows)
  {
    if IsHeld(rows, row) {
      var i :| 0 <= i < |rows| && rows[i].target == row.target && rows[i].identity != row.identity;
      RowIsFound(rows, rows[i]);
    }
  }

  lemma RemoveExact(rows: Table, identity: Text, target: Bytes, store: bool)
    ensures var (status, after) := Remove(rows, identity, target, store);
      && status == (if store then Unlinked else Failed)
      && (!store ==> after == rows)
      && (store ==> forall x :: x in after <==> x in rows && !(x.identity == identity && x.target == target))
  {
  }

  // ---------------------------------------------------------------- what a rebuild reads

  /** The first root with its target. */
  predicate IsFirst(roots: seq<Root>, i: nat)
    requires i < |roots|
  {
    forall j :: 0 <= j < i ==> roots[j].target != roots[i].target
  }

  predicate IsReadable(root: Root) {
    root.content.Some? && ParseMarker(root.content.value).Some?
  }

  /** Every root captures; every root that is the first with its target holds a valid marker. */
  predicate Acceptable(roots: seq<Root>) {
    forall i :: 0 <= i < |roots| ==> roots[i].target.Some? && (IsFirst(roots, i) ==> IsReadable(roots[i]))
  }

  /** The row made from the root at a 1-based position, the first one with its target. */
  predicate IsRowOf(roots: seq<Root>, row: Row) {
    && 1 <= row.ordinal <= |roots|
    && var root := roots[row.ordinal - 1];
       && root.target == Some(row.target) && IsFirst(roots, row.ordinal - 1) && IsReadable(root)
       && var marker := ParseMarker(root.content.value).value;
          && row.path == root.path && row.identity == Get(marker.members, "identity").text
          && row.labelText == Get(marker.members, "label").text
  }

  /** What the loop over the roots collects. */
  ghost predicate Collected(roots: seq<Root>, rows: seq<Row>) {
    && UniqueTargets(rows) && StrictlyByOrdinal(rows)
    && (forall r :: r in rows ==> IsRowOf(roots, r))
    && (forall i :: 0 <= i < |roots| ==> roots[i].target.Some? && HasTarget(rows, roots[i].target.value))
  }

  lemma RowOfLonger(roots: seq<Root>, root: Root, row: Row)
    ensures IsRowOf(roots, row) ==> IsRowOf(roots + [root], row)
  {
    hide ParseMarker, RowOf, IsReadable;
    if IsRowOf(roots, row) {
      var all, i := roots + [root], row.ordinal - 1;
      assert forall j :: 0 <= j <= i ==> all[j] == roots[j];
      assert IsFirst(all, i);
    }
  }

  lemma AcceptableLonger(roots: seq<Root>, root: Root)
    ensures Acceptable(roots + [root]) <==>
            Acceptable(roots) && root.target.Some? && (IsFirst(roots + [root], |roots|) ==> IsReadable(root))
  {
    hide IsReadable;
    var all := roots + [root];
    assert forall j :: 0 <= j < |roots| ==> all[j] == roots[j];
    assert forall j :: 0 <= j < |roots| ==> IsFirst(all, j) == IsFirst(roots, j);
    assert all[|roots|] == root;
    if Acceptable(all) {
      forall i | 0 <= i < |roots| ensures roots[i].target.Some? && (IsFirst(roots, i) ==> IsReadable(roots[i])) {
        assert all[i].target.Some?;
      }
    }
  }

  lemma FirstIsNew(roots: seq<Root>, root: Root, rows: seq<Row>)
    requires Collected(roots, rows) && root.target.Some?
    ensures IsFirst(roots + [root], |roots|) <==> !HasTarget(rows, root.target.value)
  {
    hide IsReadable, UniqueTargets, StrictlyByOrdinal;
    var all := roots + [root];
    var i := Find(rows, root.target.value);
    if i < |rows| {
      assert IsRowOf(roots, rows[i]);
      assert all[rows[i].ordinal - 1].target == root.target;
    } else if !IsFirst(all, |roots|) {
      var j :| 0 <= j < |roots| && all[j].target == root.target;
      assert HasTarget(rows, roots[j].target.value);
    }
  }

  /** The loop over the roots succeeds exactly on acceptable lists, and collects one row for each
      distinct target, with the path and the 1-based position of the first root that has it. */
  lemma {:induction false} ResolvedExact(roots: seq<Root>)
    ensures Resolved(roots).Some? <==> Acceptable(roots)
    ensures Resolved(roots).Some? ==> Collected(roots, Resolved(roots).value)
  {
    hide ParseMarker, RowOf, IsReadable, IsFirst, IsRowOf;
    if roots != [] {
      var k := |roots| - 1;
      var before, root := roots[..k], roots[k];
      ResolvedExact(before);
      hide Resolved, Acceptable, Collected;
      ResolvedExactStep(before, root);
      assert roots == before + [root];
    }
  }

  lemma ResolvedExactStep(roots: seq<Root>, root: Root)
    requires Resolved(roots).Some? <==> Acceptable(roots)
    requires Resolved(roots).Some? ==> Collected(roots, Resolved(roots).value)
    ensures Resolved(roots + [root]).Some? <==> Acceptable(roots + [root])
    ensures Resolved(roots + [root]).Some? ==> Collected(roots + [root], Resolved(roots + [root]).value)
  {
    hide Resolved, Acceptable, Collected, IsFirst, HasTarget, ParseMarker, RowOf;
    AcceptableLonger(roots, root);
    ResolvedLonger(roots, root);
    if Resolved(roots).Some? && root.target.Some? {
      FirstIsNew(roots, root, Resolved(roots).value);
      if Resolved(roots + [root]).Some? {
        CollectedLonger(roots, root, Resolved(roots).value, Resolved(roots + [root]).value);
      }
    }
  }

  lemma ResolvedLonger(roots: seq<Root>, root: Root)
    ensures Resolved(roots + [root]) ==
      if Resolved(roots).None? || root.target.None? then None
      else if HasTarget(Resolved(roots).value, root.target.value) then Resolved(roots)
      else if !IsReadable(root) then None
      else Some(Resolved(roots).value +
                [RowOf(ParseMarker(root.content.value).value, root.path, root.target.value, |roots| + 1)])
  {
    hide ParseMarker, RowOf, HasTarget, Validate;
    var all := roots + [root];
    assert all[..|all| - 1] == roots && all[|all| - 1] == root;
  }

  lemma CollectedLonger(roots: seq<Root>, root: Root, rows: seq<Row>, more: seq<Row>)
    requires Collected(roots, rows) && root.target.Some?
    requires if HasTarget(rows, root.target.value) then more == rows
             else IsReadable(root) &&
                  more == rows + [RowOf(ParseMarker(root.content.value).value, root.path, root.target.value, |roots| + 1)]
    ensures Collected(roots + [root], more)
  {
    hide ParseMarker, RowOf, Collected, IsFirst;
    if HasTarget(rows, root.target.value) {
      CollectedSame(roots, root, rows);
    } else {
      NewRow(roots, root, rows, more[|rows|]);
      CollectedNew(roots, root, rows, more[|rows|]);
    }
  }

  lemma RowsOfLonger(roots: seq<Root>, root: Root, rows: seq<Row>)
    requires Collected(roots, rows)
    ensures forall r :: r in rows ==> IsRowOf(roots + [root], r) && r.ordinal <= |roots|
  {
    hide IsFirst, IsReadable, RowOf, ParseMarker, UniqueTargets, StrictlyByOrdinal, HasTarget;
    forall r | r in rows ensures IsRowOf(roots + [root], r) && r.ordinal <= |roots| {
      RowOfLonger(roots, root, r);
      assert IsRowOf(roots, r);
    }
  }

  lemma CollectedSame(roots: seq<Root>, root: Root, rows: seq<Row>)
    requires Collected(roots, rows) && root.target.Some? && HasTarget(rows, root.target.value)
    ensures Collected(roots + [root], rows)
  {
    hide IsRowOf, UniqueTargets, StrictlyByOrdinal, HasTarget;
    RowsOfLonger(roots, root, rows);
    var all := roots + [root];
    forall i | 0 <= i < |all| ensures all[i].target.Some? && HasTarget(rows, all[i].target.value) {
      assert i < |roots| ==> all[i] == roots[i];
    }
  }

  lemma CollectedNew(roots: seq<Root>, root: Root, rows: seq<Row>, row: Row)
    requires Collected(roots, rows) && root.target.Some? && !HasTarget(rows, root.target.value)
    requires IsRowOf(roots + [root], row) && row.target == root.target.value && row.ordinal == |roots| + 1
    ensures Collected(roots + [root], rows + [row])
  {
    hide IsRowOf, IsFirst, Find, HasTarget;
    RowsOfLonger(roots, root, rows);
    TargetsOfLonger(roots, root, rows, row);
    RowJoins(rows, row);
    hide UniqueTargets, StrictlyByOrdinal;
    var all, more := roots + [root], rows + [row];
    forall r | r in more ensures IsRowOf(all, r) {
      if r != row {
        assert r in rows;
      }
    }
  }

  lemma TargetsOfLonger(roots: seq<Root>, root: Root, rows: seq<Row>, row: Row)
    requires Collected(roots, rows) && root.target == Some(row.target)
    ensures var all := roots + [root];
      forall i :: 0 <= i < |all| ==> all[i].target.Some? && HasTarget(rows + [row], all[i].target.value)
  {
    hide IsRowOf, IsFirst, Find, HasTarget, UniqueTargets, StrictlyByOrdinal;
    var all := roots + [root];
    forall i | 0 <= i < |all| ensures all[i].target.Some? && HasTarget(rows + [row], all[i].target.value) {
      if i < |roots| {
        assert all[i] == roots[i];
      }
      TargetOfConcat(rows, row, all[i].target.value);
    }
  }

  lemma NewRow(roots: seq<Root>, root: Root, rows: seq<Row>, row: Row)
    requires Collected(roots, rows) && root.target.Some? && !HasTarget(rows, root.target.value) && IsReadable(root)
    requires row == RowOf(ParseMarker(root.content.value).value, root.path, root.target.value, |roots| + 1)
    ensures IsRowOf(roots + [root], row) && row.target == root.target.value && row.ordinal == |roots| + 1
  {
    FirstIsNew(roots, root, rows);
    hide ParseMarker, Collected, IdentityOf, Get, HasTarget;
    assert IsFirst(roots + [root], |roots|);
    assert (roots + [root])[|roots|] == root;
  }

  lemma RowJoins(rows: seq<Row>, row: Row)
    requires UniqueTargets(rows) && StrictlyByOrdinal(rows) && !HasTarget(rows, row.target)
    requires forall r :: r in rows ==> r.ordinal < row.ordinal
    ensures UniqueTargets(rows + [row]) && StrictlyByOrdinal(rows + [row])
  {
    assert forall r :: r in rows ==> r.target != row.target;
    hide Find;
  }

  // ---------------------------------------------------------------- rebuild

  /** Two lists strictly ordered by ordinal with the same rows are the same list. */
  lemma {:induction false} OneOrder(a: seq<Row>, b: seq<Row>)
    requires StrictlyByOrdinal(a) && StrictlyByOrdinal(b) && forall x :: x in a <==> x in b
    ensures a == b
  {
    if a == [] {
      assert forall i :: 0 <= i < |b| ==> b[i] in a;
    } else {
      var m, n := |a| - 1, |b| - 1;
      assert a[m] in b;
      var i :| 0 <= i < |b| && b[i] == a[m];
      assert b[n] in a;
      var j :| 0 <= j < |a| && a[j] == b[n];
      assert a[j].ordinal <= a[m].ordinal;
      assert b[i].ordinal <= b[n].ordinal;
      assert i == n;
      forall x ensures x in a[..m] <==> x in b[..n] {
        WithoutLast(a, x);
        WithoutLast(b, x);
      }
      OneOrder(a[..m], b[..n]);
    }
  }

  lemma WithoutLast(rows: seq<Row>, x: Row)
    requires rows != [] && StrictlyByOrdinal(rows)
    ensures x in rows[..|rows| - 1] <==> x in rows && x != rows[|rows| - 1]
  {
  }

  predicate InOrder(rows: Table) {
    forall i, j :: 0 <= i < j < |rows| ==> AtMost(rows[i], rows[j])
  }

  lemma AtMostTotal(a: Row, b: Row)
    ensures AtMost(a, b) || AtMost(b, a)
  {
    TextAtMostTotal(a.identity, b.identity);
  }

  lemma AtMostTrans(a: Row, b: Row, c: Row)
    requires AtMost(a, b) && AtMost(b, c)
    ensures AtMost(a, c)
  {
    if a.ordinal == b.ordinal == c.ordinal {
      TextAtMostTrans(a.identity, b.identity, c.identity);
    }
  }

  lemma {:induction false} InsertInOrder(row: Row, rows: Table)
    requires InOrder(rows)
    ensures InOrder(InsertRow(row, rows))
  {
    if rows != [] {
      AtMostTotal(row, rows[0]);
      hide AtMost;
      if AtMost(row, rows[0]) {
        forall j | 0 <= j < |rows| ensures AtMost(row, rows[j]) {
          if j > 0 {
            AtMostTrans(row, rows[0], rows[j]);
          }
        }
      } else {
        InsertInOrder(row, rows[1..]);
        var more := InsertRow(row, rows[1..]);
        forall j | 0 <= j < |more| ensures AtMost(rows[0], more[j]) {
          assert more[j] in more;
        }
      }
    }
  }

  lemma {:induction false} InsertAddsOne(row: Row, rows: Table)
    ensures multiset(InsertRow(row, rows)) == multiset(rows) + multiset{row}
  {
    if rows != [] {
      assert rows == [rows[0]] + rows[1..];
      hide AtMost;
      if !AtMost(row, rows[0]) {
        InsertAddsOne(row, rows[1..]);
      }
    }
  }

  /** The listing holds every row once and is ordered by ordinal, then by identity. */
  lemma {:induction false} ListingSorted(rows: Table)
    ensures InOrder(Listing(rows)) && multiset(Listing(rows)) == multiset(rows)
  {
    if rows != [] {
      ListingSorted(rows[1..]);
      InsertInOrder(rows[0], Listing(rows[1..]));
      InsertAddsOne(rows[0], Listing(rows[1..]));
      assert rows == [rows[0]] + rows[1..];
    }
  }

  /** `ORDER BY ordinal, identity`: of two rows in this order the ordinals grow, and for one ordinal the
      identities, by their first difference. */
  lemma ListingOrder(rows: Table, i: nat, j: nat)
    requires i < j < |Listing(rows)|
    ensures var a, b := Listing(rows)[i], Listing(rows)[j];
      || a.ordinal < b.ordinal
      || (a.ordinal == b.ordinal
          && (|| a.identity <= b.identity
              || exists k :: 0 <= k < |a.identity| && k < |b.identity|
                   && a.identity[..k] == b.identity[..k] && a.identity[k] < b.identity[k]))
  {
    hide Listing;
    ListingSorted(rows);
    TextOrderExact(Listing(rows)[i].identity, Listing(rows)[j].identity);
  }

  /** Listing a table whose rows have distinct ordinals gives their strict order. */
  lemma ListingOf(rows: Table, resolved: seq<Row>)
    requires UniqueTargets(rows) && StrictlyByOrdinal(resolved) && forall x :: x in rows <==> x in resolved
    ensures Listing(rows) == resolved
  {
    var listed := Listing(rows);
    ListingUnique(rows);
    assert forall x :: x in listed <==> x in resolved;
    forall i, j | 0 <= i < j < |listed| ensures listed[i].ordinal < listed[j].ordinal {
      assert listed[i] in resolved && listed[j] in resolved;
      assert listed[i].target != listed[j].target;
      SameOrdinalSameRow(resolved, listed[i], listed[j]);
    }
    OneOrder(listed, resolved);
  }

  lemma SameOrdinalSameRow(rows: seq<Row>, x: Row, y: Row)
    requires StrictlyByOrdinal(rows) && x in rows && y in rows && x != y
    ensures x.ordinal != y.ordinal
  {
  }

  lemma InsertUnique(row: Row, rows: Table)
    requires UniqueTargets(rows) && !HasTarget(rows, row.target)
    ensures UniqueTargets(InsertRow(row, rows))
  {
    if !(rows == [] || AtMost(row, rows[0])) {
      var more := InsertRow(row, rows[1..]);
      assert !HasTarget(rows[1..], row.target);
      InsertUnique(row, rows[1..]);
      forall j | 0 <= j < |more| ensures more[j].target != rows[0].target {
        assert more[j] in more;
      }
    }
  }

  lemma ListingUnique(rows: Table)
    requires UniqueTargets(rows)
    ensures UniqueTargets(Listing(rows))
  {
    if rows != [] {
      ListingUnique(rows[1..]);
      NoTargetListed(rows[1..], rows[0].target);
      InsertUnique(rows[0], Listing(rows[1..]));
    }
  }

  lemma NoTargetListed(rows: Table, target: Bytes)
    requires forall r :: r in rows ==> r.target != target
    ensures !HasTarget(Listing(rows), target)
  {
    var listed := Listing(rows);
    assert forall j :: 0 <= j < |listed| ==> listed[j] in rows && listed[j].target != target;
  }

  /** The rows the roots stand for; none when a root is not acceptable. */
  function RowsOf(roots: seq<Root>): seq<Row> {
    match Resolved(roots)
    case None => []
    case Some(rows) => rows
  }

  /** A rebuild, exactly: it succeeds when the store works, the roots are acceptable and no root
      meets another identity on its target; then the table holds the roots' rows and nothing else,
      listed in the order of the roots, whatever it held before. Otherwise the table is as it was. */
  lemma RebuildExact(rows: Table, roots: seq<Root>, store: bool)
    requires UniqueTargets(rows)
    ensures var (status, after) := Rebuild(rows, roots, store);
      && (status == Rebuilt <==>
            && store && Acceptable(roots)
            && forall r :: r in RowsOf(roots) ==> !Displaces(r, rows))
      && (status == Rebuilt ==>
            && UniqueTargets(after) && Listing(after) == RowsOf(roots)
            && Collected(roots, RowsOf(roots)))
      && (status != Rebuilt ==> status == RebuildFailed && after == rows)
  {
    hide Acceptable, Collected;
    ResolvedExact(roots);
    if store && Resolved(roots).Some? {
      var resolved := Resolved(roots).value;
      assert UniqueTargets(resolved) && StrictlyByOrdinal(resolved) by { CollectedParts(roots, resolved); }
      UpsertAllRows(rows, resolved);
      if UpsertAll(rows, resolved).Some? {
        RebuiltRows(rows, resolved, UpsertAll(rows, resolved).value);
      }
    }
  }

  lemma CollectedParts(roots: seq<Root>, rows: seq<Row>)
    requires Collected(roots, rows)
    ensures UniqueTargets(rows) && StrictlyByOrdinal(rows)
  {
  }

  lemma RebuiltRows(rows: Table, resolved: seq<Row>, after: Table)
    requires UniqueTargets(resolved) && StrictlyByOrdinal(resolved) && UniqueTargets(after)
    requires forall x :: x in after <==> x in resolved || (x in rows && !HasTarget(resolved, x.target))
    ensures var kept := KeepTargets(after, Targets(resolved));
      UniqueTargets(kept) && Listing(kept) == resolved
  {
    var kept := KeepTargets(after, Targets(resolved));
    KeptIsSublist(after, Targets(resolved));
    UniqueKept(after, kept);
    forall x ensures x in kept <==> x in resolved {
      FindIsTarget(resolved, x.target);
    }
    ListingOf(kept, resolved);
  }

  /** The list a successful rebuild returns is a function of the roots alone. */
  lemma RebuildIgnoresTheTable(a: Table, b: Table, roots: seq<Root>)
    requires UniqueTargets(a) && UniqueTargets(b)
    requires Rebuild(a, roots, true).0 == Rebuilt && Rebuild(b, roots, true).0 == Rebuilt
    ensures Listing(Rebuild(a, roots, true).1) == Listing(Rebuild(b, roots, true).1)
  {
    RebuildExact(a, roots, true);
    RebuildExact(b, roots, true);
  }

  /** From an empty table a rebuild succeeds on every acceptable list of roots. */
  lemma RebuildFromEmpty(roots: seq<Root>)
    ensures Rebuild([], roots, true).0 == Rebuilt <==> Acceptable(roots)
  {
    RebuildExact([], roots, true);
    assert forall r :: !Displaces(r, []);
  }

  /** Stale rows are not repaired: a root whose target the table still holds under another identity
      makes every rebuild fail, until that row is removed. */
  lemma StaleRowBlocksRebuild(rows: Table, roots: seq<Root>, row: Row)
    requires UniqueTargets(rows) && Acceptable(roots)
    requires row in RowsOf(roots) && Displaces(row, rows)
    ensures Rebuild(rows, roots, true) == (RebuildFailed, rows)
  {
    RebuildExact(rows, roots, true);
  }

  lemma OneRoot(root: Root)
    requires root.target.Some? && IsReadable(root)
    ensures Acceptable([root])
    ensures RowsOf([root]) == [RowOf(ParseMarker(root.content.value).value, root.path, root.target.value, 1)]
  {
    hide ParseMarker, RowOf, IsReadable, HasTarget, Resolved, Acceptable;
    NoRoots(root.target.value);
    AcceptableLonger([], root);
    ResolvedLonger([], root);
    assert [] + [root] == [root];
  }

  lemma NoRoots(target: Bytes)
    ensures Resolved([]) == Some([]) && Acceptable([]) && !HasTarget([], target)
  {
  }

  /** The marker of a draft is readable, and gives its identity. */
  lemma DraftIsReadable(d: DraftInput)
    requires Accepted(d)
    ensures ParseMarker(MarkerBytes(d)).Some? && IdentityOf(ParseMarker(MarkerBytes(d)).value) == d.identity
  {
    hide Accepted, MarkerBytes, Classify, ParseMarker;
    MarkerLaws.WriteReadBackInverse(d);
    MarkerLaws.ReadersAgree(d, MarkerBytes(d));
  }

  lemma DraftParses(d: DraftInput)
    requires Accepted(d)
    ensures var marker := ParseMarker(MarkerBytes(d));
      && marker.Some? && Get(marker.value.members, "identity") == String(d.identity)
      && Get(marker.value.members, "label") == String(d.labelText)
  {
    hide Accepted, MarkerBytes, RawGuard.Guard, LoadBytes, Validate, Position, Lit;
    MarkerLaws.WriteReadBackInverse(d);
    MarkerLaws.DraftIdentity(d);
    DraftLaws.FieldsOf(d);
  }

  /** The row of a draft's marker: its identity and label, the path and the 1-based position of the
      first root with the target. */
  lemma DraftRow(roots: seq<Root>, i: nat, d: DraftInput)
    requires Acceptable(roots) && i < |roots| && IsFirst(roots, i)
    requires Accepted(d) && roots[i].content == Some(MarkerBytes(d))
    ensures roots[i].target.Some?
    ensures Row(d.identity, d.labelText, roots[i].target.value, roots[i].path, i + 1) in RowsOf(roots)
  {
    hide Accepted, MarkerBytes, ParseMarker, Validate, Resolved, UniqueTargets, StrictlyByOrdinal;
    DraftParses(d);
    ResolvedExact(roots);
    var rows, target := RowsOf(roots), roots[i].target.value;
    assert HasTarget(rows, target);
    var row := rows[Find(rows, target)];
    assert IsRowOf(roots, row);
    assert row.ordinal == i + 1;
  }

  /** And that is what a successful rebuild lists for the target, once. */
  lemma RebuiltDraftRow(rows: Table, roots: seq<Root>, store: bool, i: nat, d: DraftInput)
    requires UniqueTargets(rows) && Rebuild(rows, roots, store).0 == Rebuilt
    requires i < |roots| && IsFirst(roots, i) && Accepted(d) && roots[i].content == Some(MarkerBytes(d))
    ensures roots[i].target.Some?
    ensures var row := Row(d.identity, d.labelText, roots[i].target.value, roots[i].path, i + 1);
      var after := Rebuild(rows, roots, store).1;
      && row in Listing(after)
      && forall x :: x in Listing(after) && x.target == row.target ==> x == row
  {
    hide Accepted, MarkerBytes, Rebuild, Acceptable, Collected;
    RebuildExact(rows, roots, store);
    DraftRow(roots, i, d);
  }

  /** A root that holds a draft's marker while the table has its target under another identity: the
      rebuild fails, and succeeds without that row. */
  lemma StaleRow(d: DraftInput, root: Root, stale: Row)
    requires Accepted(d) && root.target == Some(stale.target) && root.content == Some(MarkerBytes(d))
    requires stale.identity != d.identity
    ensures Rebuild([stale], [root], true) == (RebuildFailed, [stale])
    ensures Rebuild(RemoveRow([stale], stale.identity, stale.target), [root], true).0 == Rebuilt
  {
    hide Accepted, MarkerBytes, ParseMarker, Acceptable, RowsOf, Rebuild;
    DraftIsReadable(d);
    OneRoot(root);
    var row := RowsOf([root])[0];
    assert row.identity == d.identity && Displaces(row, [stale]);
    StaleRowBlocksRebuild([stale], [root], row);
    assert RemoveRow([stale], stale.identity, stale.target) == [];
    RebuildFromEmpty([root]);
  }

  /** The same with the example draft: a real table and a real root on which a rebuild fails. */
  lemma StaleRowExample()
    ensures Accepted(DraftLaws.Example())
    ensures var stale := Row([], [], [1], [], 1);
      var root := Root([], Some([1]), Some(MarkerBytes(DraftLaws.Example())));
      && Rebuild([stale], [root], true) == (RebuildFailed, [stale])
      && Rebuild(RemoveRow([stale], [], [1]), [root], true).0 == Rebuilt
  {
    DraftLaws.ExampleIsAccepted();
    assert |DraftLaws.Example().identity| == 36;
    hide Accepted, DraftLaws.Example, MarkerBytes, Rebuild, RemoveRow;
    StaleRow(DraftLaws.Example(), Root([], Some([1]), Some(MarkerBytes(DraftLaws.Example()))), Row([], [], [1], [], 1));
  }

  // ---------------------------------------------------------------- rebuild and update

  /** `update` for every root in turn, as long as it links. */
  function UpdateEach(rows: Table, added: seq<Row>): Table {
    if added == [] then rows
    else Update(UpdateEach(rows, added[..|added| - 1]), added[|added| - 1], true).1
  }

  /** Roots with distinct handles: rebuilding from an empty table is the same as updating it root
      by root, and no update meets a conflict. */
  lemma {:induction false} UpdatesBuildUp(added: seq<Row>)
    requires UniqueTargets(added)
    ensures UpdateEach([], added) == added && UpsertAll([], added) == Some(added)
  {
    if added != [] {
      var k := |added| - 1;
      UniquePrefix(added, k);
      UpdatesBuildUp(added[..k]);
      assert added == added[..k] + [added[k]];
      assert added[k] in added[k..] && !HasTarget(added[..k], added[k].target);
      JoinsTable(added[..k], added[k]);
      hide Update, Upsert, UniqueTargets, HasTarget;
    }
  }

  lemma JoinsTable(rows: Table, row: Row)
    requires !HasTarget(rows, row.target)
    ensures Update(rows, row, true) == (Linked, rows + [row]) && Upsert(rows, row) == Some(rows + [row])
  {
  }

  lemma {:induction false} AllKept(rows: Table, targets: set<Bytes>)
    requires forall r :: r in rows ==> r.target in targets
    ensures KeepTargets(rows, targets) == rows
  {
    if rows != [] {
      AllKept(rows[1..], targets);
    }
  }

  lemma RebuildIsUpdates(roots: seq<Root>)
    requires Acceptable(roots)
    ensures Rebuild([], roots, true) == (Rebuilt, UpdateEach([], RowsOf(roots)))
  {
    ResolvedExact(roots);
    hide Acceptable;
    var resolved := RowsOf(roots);
    CollectedParts(roots, resolved);
    hide Collected, Resolved;
    UpdatesBuildUp(resolved);
    AllKept(resolved, Targets(resolved));
  }

  /** No two roots with the same handle. */
  predicate DistinctRoots(roots: seq<Root>) {
    forall i, j :: 0 <= i < j < |roots| ==> roots[i].target != roots[j].target
  }

  /** Roots with distinct handles: the rows collected are those of the roots one by one. */
  lemma {:induction false} OneRowEach(roots: seq<Root>)
    requires Acceptable(roots) && DistinctRoots(roots)
    ensures |RowsOf(roots)| == |roots|
    ensures forall i :: 0 <= i < |roots| ==> RowsOf(roots)[i].ordinal == i + 1 && IsRowOf(roots, RowsOf(roots)[i])
  {
    hide Acceptable, Resolved, ParseMarker, RowOf, IsReadable, IsFirst;
    if roots == [] {
      NoRows();
    } else {
      var k := |roots| - 1;
      var before, root := roots[..k], roots[k];
      assert roots == before + [root];
      AcceptableLonger(before, root);
      OneRowEach(before);
      OneRowMore(before, root);
      CollectedRows(roots);
      hide Collected, RowsOf, DistinctRoots, IsRowOf;
      forall i | 0 <= i < |roots| ensures RowsOf(roots)[i].ordinal == i + 1 {
        if i < k {
          assert RowsOf(roots)[i] == RowsOf(roots)[..k][i];
        } else {
          RowOrdinal(roots, RowsOf(roots)[k]);
        }
      }
    }
  }

  lemma NoRows()
    ensures RowsOf([]) == []
  {
  }

  lemma CollectedRows(roots: seq<Root>)
    requires Acceptable(roots)
    ensures forall i :: 0 <= i < |RowsOf(roots)| ==> IsRowOf(roots, RowsOf(roots)[i])
  {
    hide Acceptable, IsRowOf;
    ResolvedExact(roots);
  }

  lemma OneRowMore(roots: seq<Root>, root: Root)
    requires Acceptable(roots) && Acceptable(roots + [root]) && DistinctRoots(roots + [root])
    ensures |RowsOf(roots + [root])| == |RowsOf(roots)| + 1 && RowsOf(roots + [root])[..|RowsOf(roots)|] == RowsOf(roots)
    ensures root.target == Some(RowsOf(roots + [root])[|RowsOf(roots)|].target)
  {
    hide Resolved, Acceptable, Collected, ParseMarker, HasTarget;
    ResolvedExact(roots);
    ResolvedExact(roots + [root]);
    ResolvedLonger(roots, root);
    FirstIsNew(roots, root, RowsOf(roots));
    var all := roots + [root];
    assert forall j :: 0 <= j < |roots| ==> all[j].target != all[|roots|].target;
    assert IsFirst(all, |roots|);
  }

  lemma RowOrdinal(roots: seq<Root>, row: Row)
    requires IsRowOf(roots, row) && DistinctRoots(roots) && roots != []
    requires roots[|roots| - 1].target == Some(row.target)
    ensures row.ordinal == |roots|
  {
    hide RowOf, ParseMarker, IsReadable;
  }

  // ---------------------------------------------------------------- runs

  datatype Op =
    | DoUpdate(row: Row, store: bool)
    | DoRemove(identity: Text, target: Bytes, store: bool)
    | DoRebuild(roots: seq<Root>, store: bool)

  function Do(rows: Table, op: Op): (Status, Table) {
    match op
    case DoUpdate(row, store) => Update(rows, row, store)
    case DoRemove(identity, target, store) => Remove(rows, identity, target, store)
    case DoRebuild(roots, store) => Rebuild(rows, roots, store)
  }

  function DoAll(rows: Table, ops: seq<Op>): Table {
    if ops == [] then rows else Do(DoAll(rows, ops[..|ops| - 1]), ops[|ops| - 1]).1
  }

  /** Every operation keeps one row for each target, changes no row's identity, and changes nothing
      when it conflicts or fails. */
  lemma StepKeeps(rows: Table, op: Op)
    requires UniqueTargets(rows)
    ensures var (status, after) := Do(rows, op);
      && UniqueTargets(after)
      && (forall x, y :: x in rows && y in after && x.target == y.target ==> x.identity == y.identity)
      && (status == Conflict || status == Failed || status == RebuildFailed ==> after == rows)
  {
    var after := Do(rows, op).1;
    match op
    case DoUpdate(row, store) =>
      UpsertRows(rows, row);
      hide Upsert, Find;
    case DoRemove(identity, target, store) =>
      if store {
        RemovedIsSublist(rows, identity, target);
        UniqueKept(rows, after);
      }
    case DoRebuild(roots, store) =>
      RebuildExact(rows, roots, store);
    forall x, y | x in rows && y in after && x.target == y.target ensures x.identity == y.identity {
      SameIdentity(rows, op, x, y);
    }
  }

  lemma SameIdentity(rows: Table, op: Op, x: Row, y: Row)
    requires UniqueTargets(rows) && x in rows && y in Do(rows, op).1 && x.target == y.target
    ensures x.identity == y.identity
  {
    RowIsFound(rows, x);
    if y in rows {
      RowIsFound(rows, y);
    } else if op.DoUpdate? {
      UpsertRows(rows, op.row);
    } else if op.DoRebuild? {
      RebuildExact(rows, op.roots, op.store);
      assert y in Listing(Do(rows, op).1);
    }
  }

  lemma {:induction false} RunKeeps(ops: seq<Op>)
    ensures UniqueTargets(DoAll([], ops))
  {
    if ops != [] {
      RunKeeps(ops[..|ops| - 1]);
      StepKeeps(DoAll([], ops[..|ops| - 1]), ops[|ops| - 1]);
    }
  }
}

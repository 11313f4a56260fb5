/** The projection index: a table with the primary key (identity, target) and a unique index on
    the target, updated one marker at a time or rebuilt from an ordered list of roots. */
module Projection {
  import opened Text
  import opened Json
  import opened Marker

  datatype Row = Row(identity: Text, labelText: Text, target: Bytes, path: Text, ordinal: nat)

  type Table = seq<Row>

  /** What the unique index on the target means. */
  predicate UniqueTargets(rows: Table) {
    forall i, j :: 0 <= i < j < |rows| ==> rows[i].target != rows[j].target
  }

  /** Where the row for a target is; the number of rows when there is none. */
  function Find(rows: Table, target: Bytes): (i: nat)
    ensures i <= |rows|
    ensures i < |rows| ==> rows[i].target == target
    ensures forall j :: 0 <= j < i ==> rows[j].target != target
  {
    if rows == [] || rows[0].target == target then 0 else 1 + Find(rows[1..], target)
  }

  predicate HasTarget(rows: Table, target: Bytes) {
    Find(rows, target) < |rows|
  }

  /** The row in the table that keeps `row` out: another identity on its target. */
  predicate Displaces(row: Row, rows: Table) {
    var i := Find(rows, row.target);
    i < |rows| && rows[i].identity != row.identity
  }

  /** `INSERT ... ON CONFLICT(identity, target_handle) DO UPDATE`: None is the IntegrityError of the
      unique index. */
  function Upsert(rows: Table, row: Row): Option<Table> {
    var i := Find(rows, row.target);
    if i == |rows| then Some(rows + [row])
    else if rows[i].identity != row.identity then None
    else Some(rows[i := row])
  }

  function UpsertAll(rows: Table, added: seq<Row>): Option<Table> {
    if added == [] then Some(rows)
    else
      match UpsertAll(rows, added[..|added| - 1])
      case None => None
      case Some(before) => Upsert(before, added[|added| - 1])
  }

  /** `DELETE ... WHERE target_handle NOT IN (...)`. */
  function KeepTargets(rows: Table, targets: set<Bytes>): (kept: Table)
    ensures forall r :: r in kept <==> r in rows && r.target in targets
  {
    if rows == [] then []
    else
      var more := KeepTargets(rows[1..], targets);
      if rows[0].target in targets then [rows[0]] + more else more
  }

  function RemoveRow(rows: Table, identity: Text, target: Bytes): (kept: Table)
    ensures forall r :: r in kept <==> r in rows && !(r.identity == identity && r.target == target)
  {
    if rows == [] then []
    else
      var more := RemoveRow(rows[1..], identity, target);
      if rows[0].identity == identity && rows[0].target == target then more else [rows[0]] + more
  }

  // ---------------------------------------------------------------- listing

  /** The order of `ORDER BY ordinal, identity`. */
  predicate AtMost(a: Row, b: Row) {
    a.ordinal < b.ordinal || (a.ordinal == b.ordinal && TextAtMost(a.identity, b.identity))
  }

  predicate ByOrdinal(rows: Table) {
    forall i, j :: 0 <= i < j < |rows| ==> rows[i].ordinal <= rows[j].ordinal
  }

  predicate StrictlyByOrdinal(rows: Table) {
    forall i, j :: 0 <= i < j < |rows| ==> rows[i].ordinal < rows[j].ordinal
  }

  function InsertRow(row: Row, rows: Table): (r: Table)
    ensures |r| == |rows| + 1
    ensures forall x :: x in r <==> x == row || x in rows
    ensures ByOrdinal(rows) ==> ByOrdinal(r)
  {
    if rows == [] || AtMost(row, rows[0]) then [row] + rows
    else
      var more := InsertRow(row, rows[1..]);
      assert ByOrdinal(rows) ==> forall x :: x in more ==> rows[0].ordinal <= x.ordinal;
      [rows[0]] + more
  }

  /** `list_projection`. */
  function Listing(rows: Table): (r: Table)
    ensures |r| == |rows| && ByOrdinal(r)
    ensures forall x :: x in r <==> x in rows
  {
    if rows == [] then [] else InsertRow(rows[0], Listing(rows[1..]))
  }

  // ---------------------------------------------------------------- roots

  /** A root of a rebuild: its path, the byte form of the handle captured there, and what reading
      its marker returned. */
  datatype Root = Root(path: Text, target: Option<Bytes>, content: Option<Bytes>)

  function RowOf(marker: Json, path: Text, target: Bytes, ordinal: nat): Row
    requires Validate(marker) == Valid
  {
    Row(IdentityOf(marker), Get(marker.members, "label").text, target, path, ordinal)
  }

  /** The rows for the first roots of a list: one for each distinct target, made from the first
      root that has it, with that root's 1-based position; None when a root is not acceptable. */
  function Resolved(roots: seq<Root>): Option<seq<Row>>
  {
    if roots == [] then Some([])
    else
      var n := |roots|;
      var root := roots[n - 1];
      match Resolved(roots[..n - 1])
      case None => None
      case Some(rows) =>
        if root.target.None? then None
        else if HasTarget(rows, root.target.value) then Some(rows)
        else if root.content.None? then None
        else
          match ParseMarker(root.content.value)
          case None => None
          case Some(marker) => Some(rows + [RowOf(marker, root.path, root.target.value, n)])
  }

  datatype Status = Linked | Conflict | Unlinked | Failed | Rebuilt | RebuildFailed

  /** `update` as a function of the table; `store` says whether the store works. */
  function Update(rows: Table, row: Row, store: bool): (Status, Table) {
    if !store then (Failed, rows)
    else if Displaces(row, rows) then (Conflict, rows)
    else
      match Upsert(rows, row)
      case None => (Conflict, rows)
      case Some(after) => (Linked, after)
  }

  function Remove(rows: Table, identity: Text, target: Bytes, store: bool): (Status, Table) {
    if !store then (Failed, rows) else (Unlinked, RemoveRow(rows, identity, target))
  }

  function Targets(rows: Table): set<Bytes> {
    set r | r in rows :: r.target
  }

  function Rebuild(rows: Table, roots: seq<Root>, store: bool): (Status, Table) {
    match Resolved(roots)
    case None => (RebuildFailed, rows)
    case Some(resolved) =>
      if !store then (RebuildFailed, rows)
      else
        match UpsertAll(rows, resolved)
        case None => (RebuildFailed, rows)
        case Some(after) => (Rebuilt, KeepTargets(after, Targets(resolved)))
  }

  class Index {
    var rows: Table

    constructor ()
      ensures rows == []
    {
      rows := [];
    }

    /** Upsert one row, or report the other identity that holds the target. */
    method UpdateRow(row: Row, store: bool) returns (status: Status)
      modifies this
      ensures (status, rows) == Update(old(rows), row, store)
    {
      if !store {
        return Failed;
      }
      var i := 0;
      while i < |rows| && rows[i].target != row.target
        invariant 0 <= i <= |rows|
        invariant forall j :: 0 <= j < i ==> rows[j].target != row.target
      {
        i := i + 1;
      }
      assert i == Find(rows, row.target);
      if i < |rows| && rows[i].identity != row.identity {
        return Conflict;
      }
      rows := if i == |rows| then rows + [row] else rows[i := row];
      status := Linked;
    }

    method RemoveEntry(identity: Text, target: Bytes, store: bool) returns (status: Status, ordinal: Option<nat>)
      modifies this
      ensures (status, rows) == Remove(old(rows), identity, target, store)
      ensures ordinal.Some? <==> store && exists r :: r in old(rows) && r.identity == identity && r.target == target
      ensures ordinal.Some? ==> exists r :: r in old(rows) && r.identity == identity && r.target == target && r.ordinal == ordinal.value
    {
      ordinal := None;
      if !store {
        return Failed, None;
      }
      if i :| 0 <= i < |rows| && rows[i].identity == identity && rows[i].target == target {
        ordinal := Some(rows[i].ordinal);
      }
      rows := RemoveRow(rows, identity, target);
      status := Unlinked;
    }

    /** Replace the whole table from the roots, or leave it as it is. */
    method RebuildFrom(roots: seq<Root>, store: bool) returns (status: Status, entries: seq<Row>)
      modifies this
      ensures (status, rows) == Rebuild(old(rows), roots, store)
      ensures entries == if status == Rebuilt then Listing(rows) else []
    {
      hide ParseMarker, Validate, IdentityOf, Get, HasTarget, Find;
      entries := [];
      var resolved: seq<Row> := [];
      var seen: map<Bytes, nat> := map[];
      for n := 0 to |roots|
        invariant Resolved(roots[..n]) == Some(resolved)
        invariant seen.Keys == Targets(resolved)
        invariant rows == old(rows) && entries == []
      {
        var root := roots[n];
        assert roots[..n + 1][..n] == roots[..n];
        SuffixFails(roots, n + 1);
        if root.target.None? {
          return RebuildFailed, [];
        }
        FindIsTarget(resolved, root.target.value);
        if root.target.value !in seen {
          if root.content.None? {
            return RebuildFailed, [];
          }
          var marker := ParseMarker(root.content.value);
          if marker.None? {
            return RebuildFailed, [];
          }
          seen := seen[root.target.value := n + 1];
          resolved := resolved + [RowOf(marker.value, root.path, root.target.value, n + 1)];
        }
      }
      assert roots[..|roots|] == roots;
      if !store {
        return RebuildFailed, [];
      }
      var work := rows;
      for n := 0 to |resolved|
        invariant UpsertAll(rows, resolved[..n]) == Some(work)
        invariant rows == old(rows) && entries == []
      {
        assert resolved[..n + 1][..n] == resolved[..n];
        SuffixRaises(rows, resolved, n + 1);
        var after := Upsert(work, resolved[n]);
        if after.None? {
          return RebuildFailed, [];
        }
        work := after.value;
      }
      assert resolved[..|resolved|] == resolved;
      rows := KeepTargets(work, seen.Keys);
      return Rebuilt, Listing(rows);
    }
  }

  /** A root that is not acceptable fails the whole list. */
  lemma {:induction false} SuffixFails(roots: seq<Root>, n: nat)
    requires n <= |roots|
    ensures Resolved(roots[..n]).None? ==> Resolved(roots).None?
  {
    if n == |roots| {
      assert roots[..n] == roots;
    } else {
      var k := |roots| - 1;
      assert roots[..k][..n] == roots[..n];
      SuffixFails(roots[..k], n);
    }
  }

  lemma {:induction false} SuffixRaises(rows: Table, added: seq<Row>, n: nat)
    requires n <= |added|
    ensures UpsertAll(rows, added[..n]).None? ==> UpsertAll(rows, added).None?
  {
    if n == |added| {
      assert added[..n] == added;
    } else {
      var k := |added| - 1;
      assert added[..k][..n] == added[..n];
      SuffixRaises(rows, added[..k], n);
    }
  }

  lemma FindIsTarget(rows: Table, target: Bytes)
    ensures HasTarget(rows, target) <==> target in Targets(rows)
  {
    if target in Targets(rows) {
      var r :| r in rows && r.target == target;
    }
  }
}

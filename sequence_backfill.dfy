/**
 * The migration that adds `project_sequence_number` to the stakeholders table:
 * the column is added with default 0, a unique index on (project_id,
 * project_sequence_number) is created, and a `find_each` pass in id order
 * numbers every record that still holds 0.
 */
module SequenceBackfill {

  /** One stakeholders row as the migration sees it: its project and its number. */
  datatype Row = Row(projectId: int, number: int)

  /** How many of the first `n` rows are in project `p` and already numbered (`number > 0`). */
  function CountNumbered(rows: seq<Row>, p: int, n: int): (r: nat)
    requires 0 <= n <= |rows|
    ensures r <= n
  {
    if n == 0 then 0
    else CountNumbered(rows, p, n - 1) + (if rows[n - 1].projectId == p && rows[n - 1].number > 0 then 1 else 0)
  }

  /** One iteration of the loop body for the record at `i`. */
  function Step(rows: seq<Row>, i: int): (r: seq<Row>)
    requires 0 <= i < |rows|
    ensures |r| == |rows|
    ensures forall k :: 0 <= k < |rows| && k != i ==> r[k] == rows[k]
    ensures r[i].projectId == rows[i].projectId
    ensures rows[i].number != 0 ==> r[i] == rows[i]
    ensures rows[i].number == 0 ==> r[i].number == CountNumbered(rows, rows[i].projectId, |rows|) + 1
  {
    if rows[i].number != 0 then rows  // next if stakeholder.project_sequence_number != 0
    else rows[i := rows[i].(number := CountNumbered(rows, rows[i].projectId, |rows|) + 1)]
  }

  /** The rest of the pass, from the record at `i` on. */
  function BackfillFrom(rows: seq<Row>, i: nat): (r: seq<Row>)
    requires i <= |rows|
    ensures |r| == |rows|
    decreases |rows| - i
  {
    if i == |rows| then rows else BackfillFrom(Step(rows, i), i + 1)
  }

  /** The pass over the table in `find_each` order, updating each row in place. */
  method Backfill(a: array<Row>)
    modifies a
    ensures a[..] == BackfillFrom(old(a[..]), 0)
  {
    var i := 0;
    while i < a.Length
      invariant 0 <= i <= a.Length
      invariant BackfillFrom(a[..], i) == BackfillFrom(old(a[..]), 0)
    {
      ghost var before := a[..];
      if a[i].number == 0 {
        var count := CountNumbered(a[..], a[i].projectId, a.Length);
        a[i] := a[i].(number := count + 1);
      }
      assert a[..] == Step(before, i);
      i := i + 1;
    }
  }

  // ---------------------------------------------------------------------------
  // What the pass does to any table
  // ---------------------------------------------------------------------------

  /**
   * The pass changes nothing but numbers: every row keeps its project, a row
   * already numbered keeps its number, and afterwards no row holds 0.
   */
  lemma {:induction false} BackfillFromFacts(rows: seq<Row>, i: nat)
    requires i <= |rows|
    ensures var r := BackfillFrom(rows, i);
      && (forall k :: 0 <= k < |rows| ==> r[k].projectId == rows[k].projectId)
      && (forall k :: 0 <= k < |rows| && (k < i || rows[k].number != 0) ==> r[k] == rows[k])
      && (forall k :: i <= k < |rows| ==> r[k].number != 0)
    decreases |rows| - i
  {
    if i < |rows| {
      BackfillFromFacts(Step(rows, i), i + 1);
    }
  }

  lemma BackfillFacts(rows: seq<Row>)
    ensures var r := BackfillFrom(rows, 0);
      && |r| == |rows|
      && (forall k :: 0 <= k < |rows| ==> r[k].projectId == rows[k].projectId)
      && (forall k :: 0 <= k < |rows| && rows[k].number != 0 ==> r[k] == rows[k])
      && (forall k :: 0 <= k < |rows| ==> r[k].number != 0)
  {
    BackfillFromFacts(rows, 0);
  }

  // ---------------------------------------------------------------------------
  // From a freshly added column: numbers 1..N per project, in id order
  // ---------------------------------------------------------------------------

  /** How many of the first `n` projects are `p`. */
  function Occ(ps: seq<int>, p: int, n: int): (r: nat)
    requires 0 <= n <= |ps|
    ensures r <= n
  {
    if n == 0 then 0 else Occ(ps, p, n - 1) + (if ps[n - 1] == p then 1 else 0)
  }

  /** `add_column ..., default: 0`: every existing row holds 0. */
  function AddColumn(ps: seq<int>): (r: seq<Row>)
    ensures |r| == |ps|
    ensures forall k :: 0 <= k < |ps| ==> r[k] == Row(ps[k], 0)
  {
    seq(|ps|, k requires 0 <= k < |ps| => Row(ps[k], 0))
  }

  /** The rows numbered so far: each row before `i` holds one past the number of earlier rows of its project. */
  function Partial(ps: seq<int>, i: int): (r: seq<Row>)
    ensures |r| == |ps|
    ensures forall k {:trigger r[k]} :: 0 <= k < |ps| ==> r[k] == Row(ps[k], if k < i then Occ(ps, ps[k], k) + 1 else 0)
  {
    seq(|ps|, k requires 0 <= k < |ps| => Row(ps[k], if k < i then Occ(ps, ps[k], k) + 1 else 0))
  }

  /** The intended numbering: the k-th row of a project (from 0) gets k + 1. */
  function Numbered(ps: seq<int>): (r: seq<Row>)
    ensures |r| == |ps|
    ensures forall k {:trigger r[k]} :: 0 <= k < |ps| ==> r[k] == Row(ps[k], Occ(ps, ps[k], k) + 1)
  {
    Partial(ps, |ps|)
  }

  lemma {:induction false} CountPartial(ps: seq<int>, i: int, p: int, n: int)
    requires 0 <= i <= |ps| && 0 <= n <= |ps|
    ensures CountNumbered(Partial(ps, i), p, n) == Occ(ps, p, if n < i then n else i)
  {
    if n > 0 {
      CountPartial(ps, i, p, n - 1);
    }
  }

  lemma {:induction false} BackfillPartial(ps: seq<int>, i: nat)
    requires i <= |ps|
    ensures BackfillFrom(Partial(ps, i), i) == Numbered(ps)
    decreases |ps| - i
  {
    if i < |ps| {
      CountPartial(ps, i, ps[i], |ps|);
      assert Step(Partial(ps, i), i) == Partial(ps, i + 1);
      BackfillPartial(ps, i + 1);
    } else {
      assert Partial(ps, i) == Numbered(ps);
    }
  }

  /** Starting from the column default, the pass numbers every project's rows 1, 2, ... in id order. */
  lemma BackfillFromZeros(ps: seq<int>)
    ensures BackfillFrom(AddColumn(ps), 0) == Numbered(ps)
  {
    assert AddColumn(ps) == Partial(ps, 0);
    BackfillPartial(ps, 0);
  }

  lemma {:induction false} OccMonotone(ps: seq<int>, p: int, j: int, k: int)
    requires 0 <= j <= k <= |ps|
    ensures Occ(ps, p, j) <= Occ(ps, p, k)
    decreases k - j
  {
    if j < k {
      OccMonotone(ps, p, j, k - 1);
    }
  }

  /** Every number below a project's count is the rank of one of its rows. */
  lemma {:induction false} OccReached(ps: seq<int>, p: int, n: int, m: int)
    requires 0 <= n <= |ps| && 0 <= m < Occ(ps, p, n)
    ensures exists k :: 0 <= k < n && ps[k] == p && Occ(ps, p, k) == m
  {
    if m < Occ(ps, p, n - 1) {
      OccReached(ps, p, n - 1, m);
    } else {
      assert ps[n - 1] == p && Occ(ps, p, n - 1) == m;
    }
  }

  /** The unique index on (project_id, project_sequence_number). */
  ghost predicate UniqueIndex(rows: seq<Row>)
  {
    forall i, j :: 0 <= i < j < |rows| && rows[i].projectId == rows[j].projectId ==> rows[i].number != rows[j].number
  }

  /** Within a project the intended numbers increase in id order, so the unique index holds. */
  lemma NumberedIncreasing(ps: seq<int>)
    ensures var r := Numbered(ps);
      forall i, j :: 0 <= i < j < |r| && r[i].projectId == r[j].projectId ==> r[i].number < r[j].number
    ensures UniqueIndex(Numbered(ps))
  {
    var r := Numbered(ps);
    forall i, j | 0 <= i < j < |r| && r[i].projectId == r[j].projectId
      ensures r[i].number < r[j].number
    {
      assert r[i].number == Occ(ps, ps[i], i) + 1 && r[j].number == Occ(ps, ps[j], j) + 1;
      OccMonotone(ps, ps[i], i + 1, j);
    }
  }

  /** The intended numbers of a project with N rows lie in 1..N ... */
  lemma NumberedInRange(ps: seq<int>)
    ensures var r := Numbered(ps);
      forall k :: 0 <= k < |r| ==> 1 <= r[k].number <= Occ(ps, ps[k], |ps|)
  {
    var r := Numbered(ps);
    forall k | 0 <= k < |r|
      ensures r[k].number <= Occ(ps, ps[k], |ps|)
    {
      assert r[k].number == Occ(ps, ps[k], k) + 1;
      OccMonotone(ps, ps[k], k + 1, |ps|);
    }
  }

  /** ... and every number of 1..N is used. */
  lemma NumberedOnto(ps: seq<int>, p: int, m: int)
    requires 1 <= m <= Occ(ps, p, |ps|)
    ensures exists k :: 0 <= k < |ps| && Numbered(ps)[k] == Row(p, m)
  {
    OccReached(ps, p, |ps|, m - 1);
    var k :| 0 <= k < |ps| && ps[k] == p && Occ(ps, p, k) == m - 1;
    assert Numbered(ps)[k] == Row(p, m);
  }

  // ---------------------------------------------------------------------------
  // The order of the migration's steps
  // ---------------------------------------------------------------------------

  datatype Outcome = Migrated(rows: seq<Row>) | DuplicateKey

  /** The migration as written: the unique index is created while every row still holds 0. */
  function MigrateAsWritten(ps: seq<int>): Outcome
  {
    var rows := AddColumn(ps);
    if !UniqueIndexHolds(rows) then DuplicateKey else Migrated(BackfillFrom(rows, 0))
  }

  /** The index is created after the pass, once every row is numbered. */
  function Migrate(ps: seq<int>): Outcome
  {
    var rows := BackfillFrom(AddColumn(ps), 0);
    if !UniqueIndexHolds(rows) then DuplicateKey else Migrated(rows)
  }

  /** `CREATE UNIQUE INDEX` succeeds: no two rows share project and number. */
  function UniqueIndexHolds(rows: seq<Row>): (r: bool)
    ensures r <==> UniqueIndex(rows)
  {
    forall i, j | 0 <= i < j < |rows| :: rows[i].projectId == rows[j].projectId ==> rows[i].number != rows[j].number
  }

  /** As written, the migration fails exactly when some project already has two stakeholders. */
  lemma MigrateAsWrittenFails(ps: seq<int>)
    ensures MigrateAsWritten(ps) == DuplicateKey <==> exists i, j :: 0 <= i < j < |ps| && ps[i] == ps[j]
  {
    var rows := AddColumn(ps);
    if exists i, j :: 0 <= i < j < |ps| && ps[i] == ps[j] {
      var i, j :| 0 <= i < j < |ps| && ps[i] == ps[j];
      assert rows[i] == rows[j];
    }
  }

  /** Two stakeholders in project 7 stop the migration as written on its index. */
  lemma MigrateAsWrittenExample()
    ensures MigrateAsWritten([7, 7]) == DuplicateKey
  {
    MigrateAsWrittenFails([7, 7]);
  }

  /** With the index created last, the migration always succeeds with the 1..N numbering. */
  lemma MigrateSucceeds(ps: seq<int>)
    ensures Migrate(ps) == Migrated(Numbered(ps))
  {
    BackfillFromZeros(ps);
    NumberedIncreasing(ps);
  }
}

/**
 * What the marker columns of the rows say, read off the rows directly
 * rather than through the scan's counters: which rows are ID rows, which
 * group of its ID a row belongs to, and its position within that group.
 */
module Grouping {
  import opened Table
  import opened Keys

  /** Every row has an ID column and a group-marker column. */
  predicate Marked<V>(p: seq<Row<V>>) {
    forall i :: 0 <= i < |p| ==> |p[i]| >= 2
  }

  predicate IsIdRow<V>(r: Row<V>)
    requires |r| >= 1
  {
    r[0].Some?
  }

  predicate IsGroupRow<V>(r: Row<V>)
    requires |r| >= 2
  {
    r[1].Some?
  }

  /** The column-0 values of the ID rows, in input order. */
  function IdsOf<V>(p: seq<Row<V>>): (ids: seq<V>)
    requires Marked(p)
    ensures |ids| <= |p|
  {
    if p == [] then []
    else
      var last := p[|p| - 1];
      IdsOf(p[..|p| - 1]) + (if IsIdRow(last) then [last[0].value] else [])
  }

  /** The positions of the ID rows, in input order: the first row of each record. */
  function IdRows<V>(p: seq<Row<V>>): (rows: seq<nat>)
    requires Marked(p)
    ensures |rows| == |IdsOf(p)|
    ensures forall k :: 0 <= k < |rows| ==> rows[k] < |p|
  {
    if p == [] then []
    else
      var last := p[|p| - 1];
      IdRows(p[..|p| - 1]) + (if IsIdRow(last) then [|p| - 1] else [])
  }

  /** Appending a row adds its position when it is an ID row. */
  lemma IdRowsSnoc<V>(q: seq<Row<V>>, r: Row<V>)
    requires Marked(q) && |r| >= 2
    ensures Marked(q + [r])
    ensures IdRows(q + [r]) == IdRows(q) + (if IsIdRow(r) then [|q|] else [])
  {
    var p := q + [r];
    assert p[..|p| - 1] == q && p[|p| - 1] == r;
  }

  /** Appending an ID row moves the start of the current ID's rows to it. */
  lemma LastIdStartSnoc<V>(q: seq<Row<V>>, r: Row<V>)
    requires Marked(q) && |r| >= 2
    ensures Marked(q + [r])
    ensures LastIdStart(q + [r]) == if IsIdRow(r) then |q| else LastIdStart(q)
  {
    var p := q + [r];
    assert p[..|p| - 1] == q && p[|p| - 1] == r;
  }

  /** Row `IdRows(p)[k]` holds the `k`-th ID. */
  lemma {:induction false} IdRowsHoldIds<V>(p: seq<Row<V>>)
    requires Marked(p)
    ensures forall k :: 0 <= k < |IdRows(p)| ==> p[IdRows(p)[k]][0] == Some(IdsOf(p)[k])
    decreases |p|
  {
    if p != [] {
      var q := p[..|p| - 1];
      assert p == q + [p[|p| - 1]];
      IdRowsHoldIds(q);
      IdRowsSnoc(q, p[|p| - 1]);
      Extend(q, p[|p| - 1]);
    }
  }

  /** The ID rows are listed in ascending order. */
  lemma {:induction false} IdRowsAscend<V>(p: seq<Row<V>>)
    requires Marked(p)
    ensures forall k, k' :: 0 <= k < k' < |IdRows(p)| ==> IdRows(p)[k] < IdRows(p)[k']
    decreases |p|
  {
    if p != [] {
      var q := p[..|p| - 1];
      assert p == q + [p[|p| - 1]];
      IdRowsAscend(q);
      IdRowsSnoc(q, p[|p| - 1]);
    }
  }

  /** Every ID row is listed. */
  lemma {:induction false} IdRowsComplete<V>(p: seq<Row<V>>)
    requires Marked(p)
    ensures forall i :: 0 <= i < |p| && IsIdRow(p[i]) ==> i in IdRows(p)
    decreases |p|
  {
    if p != [] {
      var q := p[..|p| - 1];
      assert p == q + [p[|p| - 1]];
      IdRowsComplete(q);
      IdRowsSnoc(q, p[|p| - 1]);
    }
  }

  /** The current ID's rows start at the last ID row (at row 0 when there is none). */
  lemma {:induction false} IdRowsLast<V>(p: seq<Row<V>>)
    requires Marked(p)
    ensures LastIdStart(p) == if IdRows(p) == [] then 0 else IdRows(p)[|IdRows(p)| - 1]
    decreases |p|
  {
    if p != [] {
      var q := p[..|p| - 1];
      assert p == q + [p[|p| - 1]];
      IdRowsLast(q);
      IdRowsSnoc(q, p[|p| - 1]);
    }
  }

  /** Where the rows of the `j`-th ID end: at the next ID row, or at the end of the input. */
  function RecordEnd<V>(p: seq<Row<V>>, j: nat): (b: nat)
    requires Marked(p) && j < |IdRows(p)|
    ensures b <= |p|
  {
    var rows := IdRows(p);
    if j + 1 < |rows| then rows[j + 1] else |p|
  }

  /** The rows of the `j`-th ID: its ID row, then rows without an ID, up to `RecordEnd`. */
  lemma RecordRows<V>(p: seq<Row<V>>, j: nat)
    requires Marked(p) && j < |IdRows(p)|
    ensures IdRows(p)[j] < RecordEnd(p, j) && IsIdRow(p[IdRows(p)[j]])
    ensures forall i :: IdRows(p)[j] < i < RecordEnd(p, j) ==> !IsIdRow(p[i])
  {
    var rows, b := IdRows(p), RecordEnd(p, j);
    IdRowsAscend(p);
    IdRowsComplete(p);
    IdRowsHoldIds(p);
    forall i | rows[j] < i < b
      ensures i !in rows
    {
      forall k | 0 <= k < |rows|
        ensures rows[k] != i
      {
        if j + 1 < k {
          assert rows[j + 1] < rows[k];
        }
      }
    }
  }

  /** The number of group-marker rows in `q`. */
  function Markers<V>(q: seq<Row<V>>): (n: nat)
    requires Marked(q)
    ensures n <= |q|
  {
    if q == [] then 0
    else Markers(q[..|q| - 1]) + (if IsGroupRow(q[|q| - 1]) then 1 else 0)
  }

  /** Where the current ID's rows start: the last ID row, or 0 when there is none. */
  function LastIdStart<V>(p: seq<Row<V>>): (j: nat)
    requires Marked(p)
    ensures p == [] ==> j == 0
    ensures p != [] ==> j < |p|
    ensures 0 < j ==> IsIdRow(p[j])
    ensures forall k :: j < k < |p| ==> !IsIdRow(p[k])
  {
    if p == [] then 0
    else if IsIdRow(p[|p| - 1]) then |p| - 1
    else LastIdStart(p[..|p| - 1])
  }

  /** Where the current group's rows start: the last ID or group-marker row, or 0. */
  function LastGroupStart<V>(p: seq<Row<V>>): (j: nat)
    requires Marked(p)
    ensures p == [] ==> j == 0
    ensures p != [] ==> j < |p|
    ensures 0 < j ==> IsIdRow(p[j]) || IsGroupRow(p[j])
    ensures forall k :: j < k < |p| ==> !IsIdRow(p[k]) && !IsGroupRow(p[k])
  {
    if p == [] then 0
    else if IsIdRow(p[|p| - 1]) || IsGroupRow(p[|p| - 1]) then |p| - 1
    else LastGroupStart(p[..|p| - 1])
  }

  /**
   * The group number of the last row of `p` within its ID: how many group
   * markers there are from the ID row on (from the first row when no ID
   * row precedes).
   */
  function GroupIndex<V>(p: seq<Row<V>>): nat
    requires Marked(p)
  {
    Markers(p[LastIdStart(p)..])
  }

  /** The 1-based position of the last row of `p` within its group. */
  function SeqNumber<V>(p: seq<Row<V>>): nat
    requires Marked(p)
  {
    |p| - LastGroupStart(p)
  }

  /** `GroupIndex` and `SeqNumber` of row `i`. */
  function GroupIndexAt<V>(p: seq<Row<V>>, i: nat): nat
    requires Marked(p) && i < |p|
  {
    GroupIndex(p[..i + 1])
  }

  function SeqAt<V>(p: seq<Row<V>>, i: nat): nat
    requires Marked(p) && i < |p|
  {
    SeqNumber(p[..i + 1])
  }

  /** The label row `i` is stored under; `None` when its group number is past 26. */
  function LabelAt<V>(p: seq<Row<V>>, i: nat): Option<char>
    requires Marked(p) && i < |p|
  {
    Label(GroupIndexAt(p, i))
  }

  /**
   * Appending a row: an ID row restarts the group number and the position,
   * a group-marker row adds a group and restarts the position, and every
   * row is one further down its group.
   */
  lemma {:induction false} Extend<V>(q: seq<Row<V>>, r: Row<V>)
    requires Marked(q) && |r| >= 2
    ensures Marked(q + [r])
    ensures IdsOf(q + [r]) == IdsOf(q) + (if IsIdRow(r) then [r[0].value] else [])
    ensures GroupIndex(q + [r]) == (if IsIdRow(r) then 0 else GroupIndex(q)) + (if IsGroupRow(r) then 1 else 0)
    ensures SeqNumber(q + [r]) == (if IsIdRow(r) || IsGroupRow(r) then 0 else SeqNumber(q)) + 1
  {
    var p := q + [r];
    assert p[..|p| - 1] == q;
    if IsIdRow(r) {
      assert p[LastIdStart(p)..] == [r];
      assert [r][..0] == [];
    } else {
      var j := LastIdStart(q);
      assert LastIdStart(p) == j;
      assert p[j..][..|p[j..]| - 1] == q[j..];
    }
  }

  /** Row `i` is judged by the rows up to it only. */
  lemma PrefixAt<V>(lines: seq<Row<V>>, n: nat, i: nat)
    requires Marked(lines) && i < n <= |lines|
    ensures Marked(lines[..n])
    ensures GroupIndexAt(lines[..n], i) == GroupIndexAt(lines, i)
    ensures SeqAt(lines[..n], i) == SeqAt(lines, i)
    ensures LabelAt(lines[..n], i) == LabelAt(lines, i)
  {
    assert lines[..n][..i + 1] == lines[..i + 1];
  }

  /** Appending a row does not change how the earlier rows are judged. */
  lemma SnocAt<V>(q: seq<Row<V>>, r: Row<V>)
    requires Marked(q) && |r| >= 2
    ensures Marked(q + [r])
    ensures forall i :: 0 <= i < |q| ==>
      GroupIndexAt(q + [r], i) == GroupIndexAt(q, i) && SeqAt(q + [r], i) == SeqAt(q, i) &&
      LabelAt(q + [r], i) == LabelAt(q, i)
  {
    var p := q + [r];
    forall i | 0 <= i < |q|
      ensures GroupIndexAt(p, i) == GroupIndexAt(q, i) && SeqAt(p, i) == SeqAt(q, i)
    {
      assert p[..i + 1] == q[..i + 1];
    }
  }

  /** The last row of `p` is judged by all of `p`. */
  lemma AtLast<V>(p: seq<Row<V>>)
    requires Marked(p) && p != []
    ensures GroupIndexAt(p, |p| - 1) == GroupIndex(p) && SeqAt(p, |p| - 1) == SeqNumber(p)
  {
    assert p[..|p|] == p;
  }
}

/**
 * What the records of `flatten_data` hold, read off the rows: the record of
 * the `j`-th ID gathers the cells of that ID's rows, each stored under its
 * field name, a later cell replacing an earlier one of the same name, and
 * the ID itself under "ID".
 */
module Contents {
  import opened Table
  import opened Keys
  import opened Grouping
  import opened Flattener
  import opened ScanFacts

  /** The field name that cell `c` of row `i` is stored under, by the row's label and position. */
  function FieldAt<V>(headers: seq<string>, lines: seq<Row<V>>, i: nat, c: nat): string
    requires Shaped(headers, lines) && Fits(lines) && i < |lines| && 1 <= c < |lines[i]|
  {
    CellKey(headers, lines[i], LabelAt(lines, i).value, SeqAt(lines, i), c)
  }

  /** The field names of cells 1, 2, ... of row `i`, in cell order. */
  function RowFields<V>(headers: seq<string>, lines: seq<Row<V>>, i: nat): (keys: seq<string>)
    requires Shaped(headers, lines) && Fits(lines) && i < |lines|
    ensures |keys| == |lines[i]| - 1
    ensures forall c :: 1 <= c < |lines[i]| ==> keys[c - 1] == FieldAt(headers, lines, i, c)
  {
    RowKeys(headers, lines[i], LabelAt(lines, i).value, SeqAt(lines, i))
  }

  /** The field names of every row. */
  function Fields<V>(headers: seq<string>, lines: seq<Row<V>>): (ks: seq<seq<string>>)
    requires Shaped(headers, lines) && Fits(lines)
    ensures |ks| == |lines|
    ensures forall i :: 0 <= i < |lines| ==> ks[i] == RowFields(headers, lines, i)
  {
    seq(|lines|, i requires 0 <= i < |lines| => RowFields(headers, lines, i))
  }

  /** Cells 1, 2, ... of every row. */
  function Cells<V>(lines: seq<Row<V>>): (vs: seq<seq<Option<V>>>)
    requires Marked(lines)
    ensures |vs| == |lines|
    ensures forall i :: 0 <= i < |lines| ==> vs[i] == lines[i][1..]
  {
    seq(|lines|, i requires 0 <= i < |lines| => lines[i][1..])
  }

  /** The cells of rows `a .. n-1`, each stored in turn under its field name into an empty record. */
  function Gather<V>(headers: seq<string>, lines: seq<Row<V>>, a: nat, n: nat): Record<V>
    requires Shaped(headers, lines) && Fits(lines) && a <= n <= |lines|
  {
    Folded(Fields(headers, lines), Cells(lines), a, n)
  }

  /** No cell after cell `c` of row `i`, up to row `n`, is stored under the same name. */
  ghost predicate LastIn<V>(headers: seq<string>, lines: seq<Row<V>>, n: nat, i: nat, c: nat)
    requires Shaped(headers, lines) && Fits(lines) && i < n <= |lines| && 1 <= c < |lines[i]|
  {
    forall i', c' :: i <= i' < n && 1 <= c' < |lines[i']| && (i < i' || c < c') ==>
      FieldAt(headers, lines, i', c') != FieldAt(headers, lines, i, c)
  }

  /** The names gathered from rows `a .. n-1` are exactly the names their cells are stored under. */
  lemma GatherKeys<V>(headers: seq<string>, lines: seq<Row<V>>, a: nat, n: nat, key: string)
    requires Shaped(headers, lines) && Fits(lines) && a <= n <= |lines|
    ensures key in Gather(headers, lines, a, n) <==>
      exists i, c :: a <= i < n && 1 <= c < |lines[i]| && key == FieldAt(headers, lines, i, c)
  {
    FoldedKeys(Fields(headers, lines), Cells(lines), a, n, key);
    FieldsNamed(headers, lines, a, n, key);
  }

  /** The rows' field names, read off `Fields`, are the names `FieldAt` gives. */
  lemma FieldsNamed<V>(headers: seq<string>, lines: seq<Row<V>>, a: nat, n: nat, key: string)
    requires Shaped(headers, lines) && Fits(lines) && a <= n <= |lines|
    ensures var ks := Fields(headers, lines);
      (exists i, d :: a <= i < n && 0 <= d < |ks[i]| && ks[i][d] == key) <==>
      (exists i, c :: a <= i < n && 1 <= c < |lines[i]| && key == FieldAt(headers, lines, i, c))
  {
    var ks := Fields(headers, lines);
    if exists i, d :: a <= i < n && 0 <= d < |ks[i]| && ks[i][d] == key {
      var i, d :| a <= i < n && 0 <= d < |ks[i]| && ks[i][d] == key;
      assert key == FieldAt(headers, lines, i, d + 1);
    }
    if exists i, c :: a <= i < n && 1 <= c < |lines[i]| && key == FieldAt(headers, lines, i, c) {
      var i, c :| a <= i < n && 1 <= c < |lines[i]| && key == FieldAt(headers, lines, i, c);
      assert ks[i][c - 1] == key;
    }
  }

  /** The value gathered under a name is the cell of the last cell stored under it. */
  lemma GatherValue<V>(headers: seq<string>, lines: seq<Row<V>>, a: nat, n: nat, i: nat, c: nat)
    requires Shaped(headers, lines) && Fits(lines) && a <= i < n <= |lines| && 1 <= c < |lines[i]|
    requires LastIn(headers, lines, n, i, c)
    ensures FieldAt(headers, lines, i, c) in Gather(headers, lines, a, n)
    ensures Gather(headers, lines, a, n)[FieldAt(headers, lines, i, c)] == lines[i][c]
  {
    LastInStore(headers, lines, n, i, c);
    GatherStore(headers, lines, a, n, i, c);
    assert Cells(lines)[i][c - 1] == lines[i][c];
  }

  /** `GatherValue` with the last-store condition on the rows' field names. */
  lemma GatherStore<V>(headers: seq<string>, lines: seq<Row<V>>, a: nat, n: nat, i: nat, c: nat)
    requires Shaped(headers, lines) && Fits(lines) && a <= i < n <= |lines| && 1 <= c < |lines[i]|
    requires LastStore(Fields(headers, lines), n, i, c - 1)
    ensures Fields(headers, lines)[i][c - 1] in Gather(headers, lines, a, n)
    ensures Gather(headers, lines, a, n)[Fields(headers, lines)[i][c - 1]] == Cells(lines)[i][c - 1]
  {
    var ks, vs := Fields(headers, lines), Cells(lines);
    FoldedValue(ks, vs, a, n, i, c - 1);
  }

  /** `LastIn` is `LastStore` on the rows' field names. */
  lemma LastInStore<V>(headers: seq<string>, lines: seq<Row<V>>, n: nat, i: nat, c: nat)
    requires Shaped(headers, lines) && Fits(lines) && i < n <= |lines| && 1 <= c < |lines[i]|
    requires LastIn(headers, lines, n, i, c)
    ensures LastStore(Fields(headers, lines), n, i, c - 1)
  {
    var ks := Fields(headers, lines);
    forall i', d | i <= i' < n && 0 <= d < |ks[i']| && (i < i' || c - 1 < d)
      ensures ks[i'][d] != ks[i][c - 1]
    {
      assert ks[i'][d] == FieldAt(headers, lines, i', d + 1);
    }
  }

  /** A prefix of the rows gathers what the whole does over the same rows. */
  lemma PrefixFits<V>(headers: seq<string>, p: seq<Row<V>>, m: nat)
    requires Shaped(headers, p) && Fits(p) && m <= |p|
    ensures Shaped(headers, p[..m]) && Fits(p[..m])
    ensures forall i :: 0 <= i < m ==> LabelAt(p[..m], i) == LabelAt(p, i) && SeqAt(p[..m], i) == SeqAt(p, i)
  {
    forall i | 0 <= i < m
      ensures GroupIndexAt(p[..m], i) == GroupIndexAt(p, i)
      ensures LabelAt(p[..m], i) == LabelAt(p, i) && SeqAt(p[..m], i) == SeqAt(p, i)
    {
      PrefixAt(p, m, i);
    }
  }

  lemma GatherPrefix<V>(headers: seq<string>, p: seq<Row<V>>, m: nat, a: nat, n: nat)
    requires Shaped(headers, p) && Fits(p) && a <= n <= m <= |p|
    ensures Shaped(headers, p[..m]) && Fits(p[..m])
    ensures Gather(headers, p[..m], a, n) == Gather(headers, p, a, n)
  {
    PrefixFits(headers, p, m);
    var q := p[..m];
    var ks, vs, ks', vs' := Fields(headers, q), Cells(q), Fields(headers, p), Cells(p);
    forall i | a <= i < n
      ensures |ks[i]| == |vs[i]| && ks'[i] == ks[i] && vs'[i] == vs[i]
    {
      assert q[i] == p[i];
    }
    FoldedAgree(ks, vs, ks', vs', a, n);
  }

  /** Gathering one more row stores its cells under its names. */
  lemma GatherNext<V>(headers: seq<string>, p: seq<Row<V>>, a: nat, n: nat)
    requires Shaped(headers, p) && Fits(p) && a <= n < |p|
    ensures Gather(headers, p, a, n + 1) == Writes(Gather(headers, p, a, n), RowFields(headers, p, n), p[n][1..])
  {
  }

  /**
   * The record of the `j`-th ID: the cells of its rows (from its ID row up
   * to the next ID row) gathered, and the ID under "ID".
   */
  function RecordOf<V>(headers: seq<string>, lines: seq<Row<V>>, j: nat): Record<V>
    requires Shaped(headers, lines) && Fits(lines) && j < |IdRows(lines)|
  {
    RecordRows(lines, j);
    var a := IdRows(lines)[j];
    Gather(headers, lines, a, RecordEnd(lines, j))["ID" := lines[a][0]]
  }

  /** The open record holds the cells of the rows from the last ID row on. */
  ghost predicate OpenRecord<V>(headers: seq<string>, q: seq<Row<V>>, s: State<V>)
    requires Shaped(headers, q) && Fits(q)
  {
    s.entry == Gather(headers, q, LastIdStart(q), |q|)
  }

  /** The records of the first `|flat|` IDs, in order. */
  ghost predicate RecordsOf<V>(headers: seq<string>, q: seq<Row<V>>, flat: seq<Record<V>>)
    requires Shaped(headers, q) && Fits(q) && |flat| <= |IdRows(q)|
  {
    forall j :: 0 <= j < |flat| ==> flat[j] == RecordOf(headers, q, j)
  }

  /** Every ID row but the last has been sealed into its record, in order; the last ID is the current one. */
  ghost predicate SealedRecords<V>(headers: seq<string>, q: seq<Row<V>>, s: State<V>)
    requires Shaped(headers, q) && Fits(q)
  {
    var rows := IdRows(q);
    && (rows == [] ==> s.curId == None && s.flat == [])
    && (rows != [] ==> s.curId == q[rows[|rows| - 1]][0] && |s.flat| == |rows| - 1)
    && RecordsOf(headers, q, s.flat)
  }

  /** Appending a row of the right width keeps the rows shaped. */
  lemma ShapedSnoc<V>(headers: seq<string>, q: seq<Row<V>>, r: Row<V>)
    requires Shaped(headers, q) && 2 <= |r| <= |headers|
    ensures Shaped(headers, q + [r]) && Marked(q) && Marked(q + [r])
  {
    var p := q + [r];
    forall i | 0 <= i < |p|
      ensures 2 <= |p[i]| <= |headers|
    {
      if i < |q| {
        assert p[i] == q[i];
      }
    }
  }

  /** The scan's counters, after a successful step, describe the new row, which keeps the rows fitting. */
  lemma StepCounters<V>(headers: seq<string>, q: seq<Row<V>>, s: State<V>, r: Row<V>)
    requires Marked(q) && 2 <= |r| <= |headers| && Fits(q) && Counters(q, s)
    requires Step(headers, s, r).Ok?
    ensures Marked(q + [r]) && Fits(q + [r])
    ensures var s' := Step(headers, s, r).value;
      && Counters(q + [r], s')
      && LabelAt(q + [r], |q|) == Label(s'.cntAlpha) && SeqAt(q + [r], |q|) == s'.cntNum
  {
    Extend(q, r);
    StepFacts(headers, s, r);
    AtLast(q + [r]);
    FitsSnoc(q, r);
  }

  /** A step stores the new row's cells into the open record, a fresh one on an ID row. */
  lemma OpenRecordStep<V>(headers: seq<string>, q: seq<Row<V>>, s: State<V>, r: Row<V>)
    requires Shaped(headers, q) && 2 <= |r| <= |headers| && Fits(q) && Counters(q, s)
    requires OpenRecord(headers, q, s) && Step(headers, s, r).Ok?
    ensures Shaped(headers, q + [r]) && Fits(q + [r]) && OpenRecord(headers, q + [r], Step(headers, s, r).value)
  {
    var p, s' := q + [r], Step(headers, s, r).value;
    ShapedSnoc(headers, q, r);
    StepCounters(headers, q, s, r);
    StepEntry(headers, s, r);
    LastIdStartSnoc(q, r);
    var l, m := Label(s'.cntAlpha).value, s'.cntNum;
    var base: Record<V> := if IsIdRow(r) then map[] else s.entry;
    PutCellsAll(headers, r, base, l, m);
    assert p[|q|] == r;
    var a := LastIdStart(p);
    GatherNext(headers, p, a, |q|);
    if !IsIdRow(r) {
      assert p[..|q|] == q;
      GatherPrefix(headers, p, |q|, a, |q|);
    }
  }

  /** Appending a row leaves the record of every ID but the last as it was. */
  lemma RecordOfSnoc<V>(headers: seq<string>, q: seq<Row<V>>, r: Row<V>, j: nat)
    requires Shaped(headers, q) && Shaped(headers, q + [r]) && 2 <= |r| <= |headers| && Fits(q) && Fits(q + [r])
    requires j + 1 < |IdRows(q)|
    ensures j + 1 < |IdRows(q + [r])|
    ensures RecordOf(headers, q + [r], j) == RecordOf(headers, q, j)
  {
    var p := q + [r];
    IdRowsSnoc(q, r);
    RecordRows(q, j);
    var a, b := IdRows(q)[j], RecordEnd(q, j);
    assert IdRows(p)[j] == a && RecordEnd(p, j) == b;
    assert p[..|q|] == q && p[a] == q[a];
    GatherPrefix(headers, p, |q|, a, b);
  }

  /** After an ID row, the record of the previous ID is the rows from its ID row to the end of `q`. */
  lemma RecordOfSealed<V>(headers: seq<string>, q: seq<Row<V>>, r: Row<V>)
    requires Shaped(headers, q) && Shaped(headers, q + [r]) && 2 <= |r| <= |headers| && Fits(q) && Fits(q + [r])
    requires IsIdRow(r) && IdRows(q) != []
    ensures |IdRows(q + [r])| == |IdRows(q)| + 1
    ensures RecordOf(headers, q + [r], |IdRows(q)| - 1) ==
      Gather(headers, q, LastIdStart(q), |q|)["ID" := q[LastIdStart(q)][0]]
  {
    var p, k := q + [r], |IdRows(q)| - 1;
    IdRowsSnoc(q, r);
    IdRowsLast(q);
    var a := LastIdStart(q);
    assert IdRows(p)[k] == a && RecordEnd(p, k) == |q|;
    assert p[..|q|] == q && p[a] == q[a];
    GatherPrefix(headers, p, |q|, a, |q|);
    Restamp(Gather(headers, p, a, |q|), Gather(headers, q, a, |q|), "ID", p[a][0], q[a][0]);
  }

  /** Appending a row keeps the records of all IDs but the last. */
  lemma RecordsOfSnoc<V>(headers: seq<string>, q: seq<Row<V>>, r: Row<V>, flat: seq<Record<V>>)
    requires Shaped(headers, q) && Shaped(headers, q + [r]) && 2 <= |r| <= |headers| && Fits(q) && Fits(q + [r])
    requires |flat| < |IdRows(q)| && RecordsOf(headers, q, flat)
    ensures |flat| < |IdRows(q + [r])| && RecordsOf(headers, q + [r], flat)
  {
    IdRowsSnoc(q, r);
    forall j | 0 <= j < |flat|
      ensures flat[j] == RecordOf(headers, q + [r], j)
    {
      RecordOfSnoc(headers, q, r, j);
    }
  }

  /** The record an ID row seals is the record of the previous ID. */
  lemma NewlySealed<V>(headers: seq<string>, q: seq<Row<V>>, s: State<V>, r: Row<V>)
    requires Shaped(headers, q) && Shaped(headers, q + [r]) && 2 <= |r| <= |headers| && Fits(q) && Fits(q + [r]) && IsIdRow(r)
    requires OpenRecord(headers, q, s) && SealedRecords(headers, q, s) && IdRows(q) != []
    ensures |s.flat| + 1 == |IdRows(q)| < |IdRows(q + [r])|
    ensures Sealed(s) == s.flat + [RecordOf(headers, q + [r], |s.flat|)]
  {
    var a := LastIdStart(q);
    IdRowsLast(q);
    IdRowsHoldIds(q);
    assert s.curId.Some?;
    Restamp(s.entry, Gather(headers, q, a, |q|), "ID", s.curId, q[a][0]);
    RecordOfSealed(headers, q, r);
  }

  /** An ID row seals the open record under the previous ID and makes its own ID the current one. */
  lemma SealedOnIdRow<V>(headers: seq<string>, q: seq<Row<V>>, s: State<V>, r: Row<V>, s': State<V>)
    requires Shaped(headers, q) && Shaped(headers, q + [r]) && 2 <= |r| <= |headers| && Fits(q) && Fits(q + [r]) && IsIdRow(r)
    requires OpenRecord(headers, q, s) && SealedRecords(headers, q, s)
    requires s'.curId == r[0] && s'.flat == Sealed(s)
    ensures SealedRecords(headers, q + [r], s')
  {
    var p := q + [r];
    IdRowsSnoc(q, r);
    assert p[|q|] == r;
    if IdRows(q) == [] {
      assert IdRows(p) == [|q|] && s'.flat == [];
    } else {
      NewlySealed(headers, q, s, r);
      RecordsOfSnoc(headers, q, r, s.flat);
      RecordsOfSealed(headers, p, s.flat, RecordOf(headers, p, |s.flat|));
    }
  }

  /** Adding the next ID's record keeps the records in order. */
  lemma RecordsOfSealed<V>(headers: seq<string>, p: seq<Row<V>>, flat: seq<Record<V>>, x: Record<V>)
    requires Shaped(headers, p) && Fits(p) && |flat| < |IdRows(p)| && RecordsOf(headers, p, flat)
    requires x == RecordOf(headers, p, |flat|)
    ensures RecordsOf(headers, p, flat + [x])
  {
    forall j | 0 <= j < |flat| + 1
      ensures (flat + [x])[j] == RecordOf(headers, p, j)
    {
      if j < |flat| {
        assert (flat + [x])[j] == flat[j];
      }
    }
  }

  /** Any other row leaves the current ID and the sealed records as they were. */
  lemma SealedOnOtherRow<V>(headers: seq<string>, q: seq<Row<V>>, s: State<V>, r: Row<V>, s': State<V>)
    requires Shaped(headers, q) && Shaped(headers, q + [r]) && 2 <= |r| <= |headers| && Fits(q) && Fits(q + [r]) && !IsIdRow(r)
    requires SealedRecords(headers, q, s)
    requires s'.curId == s.curId && s'.flat == s.flat
    ensures SealedRecords(headers, q + [r], s')
  {
    var p, rows := q + [r], IdRows(q);
    IdRowsSnoc(q, r);
    if rows != [] {
      assert p[rows[|rows| - 1]] == q[rows[|rows| - 1]];
      RecordsOfSnoc(headers, q, r, s.flat);
    }
  }

  /** A step keeps every ID but the last sealed into its record. */
  lemma SealedRecordsStep<V>(headers: seq<string>, q: seq<Row<V>>, s: State<V>, r: Row<V>)
    requires Shaped(headers, q) && 2 <= |r| <= |headers| && Fits(q) && Counters(q, s)
    requires OpenRecord(headers, q, s) && SealedRecords(headers, q, s) && Step(headers, s, r).Ok?
    ensures Shaped(headers, q + [r]) && Fits(q + [r]) && SealedRecords(headers, q + [r], Step(headers, s, r).value)
  {
    ShapedSnoc(headers, q, r);
    StepCounters(headers, q, s, r);
    StepFacts(headers, s, r);
    if IsIdRow(r) {
      SealedOnIdRow(headers, q, s, r, Step(headers, s, r).value);
    } else {
      SealedOnOtherRow(headers, q, s, r, Step(headers, s, r).value);
    }
  }

  // ---------------------------------------------------------------------
  // The whole scan
  // ---------------------------------------------------------------------

  /** The open record and the sealed records after scanning `lines`. */
  lemma {:induction false} RunContents<V>(headers: seq<string>, lines: seq<Row<V>>)
    requires Shaped(headers, lines)
    ensures Marked(lines)
    ensures Run(headers, lines).Ok? ==>
      && Fits(lines)
      && OpenRecord(headers, lines, Run(headers, lines).value)
      && SealedRecords(headers, lines, Run(headers, lines).value)
    decreases |lines|
  {
    if lines != [] {
      var q, r := lines[..|lines| - 1], lines[|lines| - 1];
      assert lines == q + [r];
      RunSnoc(headers, q, r);
      RunContents(headers, q);
      if Run(headers, lines).Ok? {
        var s := Run(headers, q).value;
        RunCounters(headers, q);
        OpenRecordStep(headers, q, s, r);
        SealedRecordsStep(headers, q, s, r);
      }
    }
  }

  /**
   * `flatten_data` succeeds exactly when the rows fit, and then returns one
   * record per ID row, in input order, the `j`-th being `RecordOf(j)`.
   */
  lemma FlattenContents<V>(headers: seq<string>, lines: seq<Row<V>>)
    requires Shaped(headers, lines)
    ensures Marked(lines) && (Flatten(headers, lines).Ok? <==> Fits(lines))
    ensures Flatten(headers, lines).Ok? ==>
      var recs := Flatten(headers, lines).value.records;
      && |recs| == |IdRows(lines)|
      && forall j :: 0 <= j < |recs| ==> recs[j] == RecordOf(headers, lines, j)
  {
    RunOkIff(headers, lines);
    RunContents(headers, lines);
    if Run(headers, lines).Ok? && IdRows(lines) != [] {
      var s := Run(headers, lines).value;
      LastRecord(headers, lines, s);
      RecordsOfSealed(headers, lines, s.flat, RecordOf(headers, lines, |s.flat|));
    }
  }

  /** Sealing the open record at the end of the input completes the record of the last ID. */
  lemma LastRecord<V>(headers: seq<string>, lines: seq<Row<V>>, s: State<V>)
    requires Shaped(headers, lines) && Fits(lines) && IdRows(lines) != []
    requires OpenRecord(headers, lines, s) && SealedRecords(headers, lines, s)
    ensures |s.flat| + 1 == |IdRows(lines)|
    ensures Sealed(s) == s.flat + [RecordOf(headers, lines, |s.flat|)]
  {
    var k, a := |IdRows(lines)| - 1, LastIdStart(lines);
    IdRowsLast(lines);
    IdRowsHoldIds(lines);
    assert s.curId.Some? && RecordEnd(lines, k) == |lines|;
    Restamp(s.entry, Gather(headers, lines, a, |lines|), "ID", s.curId, lines[a][0]);
  }

  /**
   * The `j`-th record of a successful `flatten_data`: its rows run from its
   * ID row up to the next ID row (or the end); "ID" holds that row's ID;
   * any other name is present exactly when it is the field name of some
   * cell `c >= 1` of one of its rows.
   */
  lemma RecordFields<V>(headers: seq<string>, lines: seq<Row<V>>, j: nat, key: string)
    requires Shaped(headers, lines) && Fits(lines) && j < |IdRows(lines)|
    ensures Flatten(headers, lines).Ok? && j < |Flatten(headers, lines).value.records|
    ensures var rec, a, b := Flatten(headers, lines).value.records[j], IdRows(lines)[j], RecordEnd(lines, j);
      && a < b && IsIdRow(lines[a]) && (forall i :: a < i < b ==> !IsIdRow(lines[i]))
      && "ID" in rec && rec["ID"] == lines[a][0]
      && (key != "ID" ==>
            (key in rec <==> exists i, c :: a <= i < b && 1 <= c < |lines[i]| && key == FieldAt(headers, lines, i, c)))
  {
    FlattenContents(headers, lines);
    RecordRows(lines, j);
    GatherKeys(headers, lines, IdRows(lines)[j], RecordEnd(lines, j), key);
  }

  /** The value a record holds under a field name is the cell of the last of its rows' cells stored under it. */
  lemma RecordValue<V>(headers: seq<string>, lines: seq<Row<V>>, j: nat, i: nat, c: nat)
    requires Shaped(headers, lines) && Fits(lines) && j < |IdRows(lines)|
    requires IdRows(lines)[j] <= i < RecordEnd(lines, j) && 1 <= c < |lines[i]|
    requires LastIn(headers, lines, RecordEnd(lines, j), i, c)
    ensures Flatten(headers, lines).Ok? && j < |Flatten(headers, lines).value.records|
    ensures var rec := Flatten(headers, lines).value.records[j];
      FieldAt(headers, lines, i, c) in rec && rec[FieldAt(headers, lines, i, c)] == lines[i][c]
  {
    FlattenContents(headers, lines);
    GatherValue(headers, lines, IdRows(lines)[j], RecordEnd(lines, j), i, c);
    FieldIsNotId(headers, lines, i, c);
  }

  /** No cell is stored under "ID": every field name contains '_'. */
  lemma FieldIsNotId<V>(headers: seq<string>, lines: seq<Row<V>>, i: nat, c: nat)
    requires Shaped(headers, lines) && Fits(lines) && i < |lines| && 1 <= c < |lines[i]|
    ensures FieldAt(headers, lines, i, c) != "ID"
  {
    var l := LabelAt(lines, i).value;
    SyntheticKeysAreNotId(headers[c], l, SeqAt(lines, i));
    SyntheticKeysAreNotId(headers[1], l, SeqAt(lines, i));
  }
}

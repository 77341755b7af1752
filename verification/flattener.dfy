/**
 * The flattener (`flatten_data`): a scan over the data rows that keeps a
 * group counter, a sequence counter, the current ID, the open record and
 * the highest sequence number seen per label.
 *
 * `Step` is one iteration of the scan as a pure function of the state and
 * the row, `Run` folds it over the rows, `Flatten` seals the last record;
 * `FlattenData` is the loop itself, proved to compute `Flatten`.
 */
module Flattener {
  import opened Table
  import opened Keys

  /** The loop variables of `flatten_data`. */
  datatype State<V> = State(
    cntAlpha: nat,              // groups seen so far for the current ID
    cntNum: nat,                // position of the row within its group
    curId: Option<V>,           // the current ID, None before the first ID row
    entry: Record<V>,           // the open record
    flat: seq<Record<V>>,       // the sealed records
    highest: map<char, nat>)    // label -> largest sequence number seen

  /** What `flatten_data` returns: the records and the highest counts. */
  datatype Flat<V> = Flat(records: seq<Record<V>>, highest: map<char, nat>)

  /** The scan either completes or fails on a label lookup past 'Z'. */
  datatype Outcome<T> = Ok(value: T) | TooManyGroups

  /**
   * What indexing demands of the input: every row has columns 0 and 1, and
   * no more columns than there are headers.
   */
  predicate Shaped<V>(headers: seq<string>, lines: seq<Row<V>>) {
    forall i :: 0 <= i < |lines| ==> 2 <= |lines[i]| <= |headers|
  }

  function Start<V>(): State<V> {
    State(0, 0, None, map[], [], map[])
  }

  /** `highest.get(letter, 0)` */
  function Get(highest: map<char, nat>, letter: char): nat {
    if letter in highest then highest[letter] else 0
  }

  function Max(a: nat, b: nat): nat {
    if a < b then b else a
  }

  /** The field name under which cell `idx` (>= 1) of a row is stored. */
  function CellKey<V>(headers: seq<string>, row: Row<V>, letter: char, n: nat, idx: nat): string
    requires 2 <= |row| <= |headers| && 1 <= idx < |row|
  {
    if idx == 1 && row[1].Some? then NameKey(headers[1], letter)
    else NumKey(headers[idx], letter, n)
  }

  /** The field names written for cells 1 .. k-1 of a row. */
  function CellKeys<V>(headers: seq<string>, row: Row<V>, letter: char, n: nat, k: nat): set<string>
    requires 2 <= |row| <= |headers| && k <= |row|
  {
    set idx | 1 <= idx < k :: CellKey(headers, row, letter, n, idx)
  }

  /** The field names of cells 1 .. |row|-1, in cell order. */
  function RowKeys<V>(headers: seq<string>, row: Row<V>, letter: char, n: nat): (keys: seq<string>)
    requires 2 <= |row| <= |headers|
    ensures |keys| == |row| - 1
    ensures forall i :: 0 <= i < |keys| ==> keys[i] == CellKey(headers, row, letter, n, i + 1)
  {
    seq(|row| - 1, i requires 0 <= i < |row| - 1 => CellKey(headers, row, letter, n, i + 1))
  }

  /** No cell after `idx` (and before `k`) is written under the same name as cell `idx`. */
  predicate LastWriter<V>(headers: seq<string>, row: Row<V>, letter: char, n: nat, k: nat, idx: nat)
    requires 2 <= |row| <= |headers| && 1 <= idx < k <= |row|
  {
    var keys := RowKeys(headers, row, letter, n)[..k - 1];
    keys[idx - 1] !in keys[idx..]
  }

  /**
   * The inner loop over cells 1 .. k-1: each is stored in the record under
   * its field name; a later cell with the same name overwrites an earlier one.
   */
  function PutCells<V>(headers: seq<string>, row: Row<V>, e: Record<V>, letter: char, n: nat, k: nat): Record<V>
    requires 2 <= |row| <= |headers| && 1 <= k <= |row|
  {
    Writes(e, RowKeys(headers, row, letter, n)[..k - 1], row[1..k])
  }

  /** Storing every cell of a row writes the row's names, in order, with its cells 1, 2, .... */
  lemma PutCellsAll<V>(headers: seq<string>, row: Row<V>, e: Record<V>, letter: char, n: nat)
    requires 2 <= |row| <= |headers|
    ensures PutCells(headers, row, e, letter, n, |row|) == Writes(e, RowKeys(headers, row, letter, n), row[1..])
  {
    var keys := RowKeys(headers, row, letter, n);
    assert keys[..|row| - 1] == keys && row[1..|row|] == row[1..];
  }

  /** Storing cell `k` is one more write to the record. */
  lemma PutCellsNext<V>(headers: seq<string>, row: Row<V>, e: Record<V>, letter: char, n: nat, k: nat)
    requires 2 <= |row| <= |headers| && 1 <= k < |row|
    ensures PutCells(headers, row, e, letter, n, k + 1) ==
      PutCells(headers, row, e, letter, n, k)[CellKey(headers, row, letter, n, k) := row[k]]
  {
    var keys := RowKeys(headers, row, letter, n);
    assert keys[..k][..k - 1] == keys[..k - 1];
    assert row[1..k + 1][..k - 1] == row[1..k];
  }

  /** Storing a row adds exactly the row's field names to the record and leaves other fields alone. */
  lemma PutCellsKeys<V>(headers: seq<string>, row: Row<V>, e: Record<V>, letter: char, n: nat, k: nat)
    requires 2 <= |row| <= |headers| && 1 <= k <= |row|
    ensures PutCells(headers, row, e, letter, n, k).Keys == e.Keys + CellKeys(headers, row, letter, n, k)
    ensures forall key :: key in e && key !in CellKeys(headers, row, letter, n, k) ==>
      PutCells(headers, row, e, letter, n, k)[key] == e[key]
  {
    var keys := RowKeys(headers, row, letter, n)[..k - 1];
    WritesKeys(e, keys, row[1..k]);
    RowKeysNamed(headers, row, letter, n, k);
  }

  /** The first k-1 names of `RowKeys` are the names `CellKeys` collects. */
  lemma RowKeysNamed<V>(headers: seq<string>, row: Row<V>, letter: char, n: nat, k: nat)
    requires 2 <= |row| <= |headers| && 1 <= k <= |row|
    ensures Elements(RowKeys(headers, row, letter, n)[..k - 1]) == CellKeys(headers, row, letter, n, k)
  {
    var keys := RowKeys(headers, row, letter, n)[..k - 1];
    forall i | 0 <= i < |keys|
      ensures keys[i] in CellKeys(headers, row, letter, n, k)
    {
      assert keys[i] == CellKey(headers, row, letter, n, i + 1);
    }
    forall idx | 1 <= idx < k
      ensures CellKey(headers, row, letter, n, idx) in keys
    {
      assert keys[idx - 1] == CellKey(headers, row, letter, n, idx);
    }
  }

  /** Cell `idx` of a row is entry `idx - 1` of the keys and cells the row's writes take. */
  lemma RowKeysSlice<V>(headers: seq<string>, row: Row<V>, letter: char, n: nat, k: nat, idx: nat)
    requires 2 <= |row| <= |headers| && 1 <= idx < k <= |row|
    ensures var keys := RowKeys(headers, row, letter, n)[..k - 1];
      && keys[idx - 1] == CellKey(headers, row, letter, n, idx)
      && row[1..k][idx - 1] == row[idx]
  {
  }

  /** Every cell is found under its field name unless a later cell of the row reused that name. */
  lemma PutCellsValues<V>(headers: seq<string>, row: Row<V>, e: Record<V>, letter: char, n: nat, k: nat, idx: nat)
    requires 2 <= |row| <= |headers| && 1 <= idx < k <= |row|
    requires LastWriter(headers, row, letter, n, k, idx)
    ensures CellKey(headers, row, letter, n, idx) in PutCells(headers, row, e, letter, n, k)
    ensures PutCells(headers, row, e, letter, n, k)[CellKey(headers, row, letter, n, idx)] == row[idx]
  {
    var keys, vals := RowKeys(headers, row, letter, n)[..k - 1], row[1..k];
    var key, cell := CellKey(headers, row, letter, n, idx), row[idx];
    assert keys[idx - 1] == key && vals[idx - 1] == cell by {
      RowKeysSlice(headers, row, letter, n, k, idx);
    }
    WritesValue(e, keys, vals, idx - 1);
  }

  /** The sealed records once the open one is stamped with its ID and appended. */
  function Sealed<V>(s: State<V>): seq<Record<V>> {
    if s.curId.Some? then s.flat + [s.entry["ID" := s.curId]] else s.flat
  }

  /** The group counter after reading `row`. */
  function NextAlpha<V>(s: State<V>, row: Row<V>): nat
    requires |row| >= 2
  {
    (if row[0].Some? then 0 else s.cntAlpha) + (if row[1].Some? then 1 else 0)
  }

  /**
   * One iteration of the scan. An ID in column 0 seals the open record and
   * resets the counters; a value in column 1 opens a new group; every row
   * then advances the sequence counter and is stored under its label.
   */
  function Step<V>(headers: seq<string>, s: State<V>, row: Row<V>): Outcome<State<V>>
    requires 2 <= |row| <= |headers|
  {
    var s1 := if row[0].Some? then State(0, 0, row[0], map[], Sealed(s), s.highest) else s;
    var alpha := if row[1].Some? then s1.cntAlpha + 1 else s1.cntAlpha;
    var num := (if row[1].Some? then 0 else s1.cntNum) + 1;
    match Label(alpha)
    case None => TooManyGroups
    case Some(letter) =>
      Ok(State(alpha, num, s1.curId, PutCells(headers, row, s1.entry, letter, num, |row|), s1.flat,
               s1.highest[letter := Max(Get(s1.highest, letter), num)]))
  }

  /**
   * What one step promises: an ID row seals the open record and restarts
   * both counters, a group-marker row is row 1 of its group, any other row
   * is one further down its group; the step fails exactly when the group
   * counter passes 26.
   */
  lemma StepFacts<V>(headers: seq<string>, s: State<V>, row: Row<V>)
    requires 2 <= |row| <= |headers|
    ensures var r := Step(headers, s, row);
      && (r.Ok? <==> NextAlpha(s, row) <= 26)
      && (r.Ok? ==> r.value.cntAlpha == NextAlpha(s, row) && Label(r.value.cntAlpha).Some?)
      && (r.Ok? && row[0].Some? ==>
            r.value.curId == row[0] && r.value.flat == Sealed(s) &&
            r.value.cntAlpha == (if row[1].Some? then 1 else 0) && r.value.cntNum == 1)
      && (r.Ok? && row[0].None? && row[1].Some? ==>
            r.value.curId == s.curId && r.value.flat == s.flat &&
            r.value.cntAlpha == s.cntAlpha + 1 && r.value.cntNum == 1)
      && (r.Ok? && row[0].None? && row[1].None? ==>
            r.value.curId == s.curId && r.value.flat == s.flat &&
            r.value.cntAlpha == s.cntAlpha && r.value.cntNum == s.cntNum + 1)
  {
  }

  /** The row's cells go into the open record, a fresh one on an ID row. Kept as a separate proof step so that callers' proofs stay small. */
  lemma StepEntry<V>(headers: seq<string>, s: State<V>, row: Row<V>)
    requires 2 <= |row| <= |headers|
    ensures var r := Step(headers, s, row);
      r.Ok? ==> (Label(r.value.cntAlpha).Some? &&
        r.value.entry == PutCells(headers, row, if row[0].Some? then map[] else s.entry,
                                  Label(r.value.cntAlpha).value, r.value.cntNum, |row|))
  {
  }

  /**
   * The row's label records the larger of its old highest count and the row's
   * sequence number. Kept as a separate proof step so that callers' proofs stay small.
   */
  lemma StepHighest<V>(headers: seq<string>, s: State<V>, row: Row<V>)
    requires 2 <= |row| <= |headers|
    ensures var r := Step(headers, s, row);
      r.Ok? ==> (Label(r.value.cntAlpha).Some? &&
        var l := Label(r.value.cntAlpha).value;
        r.value.highest == s.highest[l := Max(Get(s.highest, l), r.value.cntNum)])
  {
  }

  /** The scan over a prefix of the rows (folded from the right). */
  function Run<V>(headers: seq<string>, lines: seq<Row<V>>): Outcome<State<V>>
    requires Shaped(headers, lines)
  {
    if lines == [] then Ok(Start())
    else
      var prefix := lines[..|lines| - 1];
      match Run(headers, prefix)
      case TooManyGroups => TooManyGroups
      case Ok(s) => Step(headers, s, lines[|lines| - 1])
  }

  /** `flatten_data(lines, headers)`: the scan, then the last record sealed. */
  function Flatten<V>(headers: seq<string>, lines: seq<Row<V>>): Outcome<Flat<V>>
    requires Shaped(headers, lines)
  {
    match Run(headers, lines)
    case TooManyGroups => TooManyGroups
    case Ok(s) => Ok(Flat(Sealed(s), s.highest))
  }

  /**
   * The record and the highest counts once cells 1 .. k-1 of a row have been
   * stored under group `cntAlpha`: untouched before the first cell, and
   * afterwards the cells written and the label's count raised.
   */
  ghost predicate Stored<V>(headers: seq<string>, row: Row<V>, cntAlpha: nat, cntNum: nat, entry0: Record<V>,
                      highest0: map<char, nat>, k: nat, entry: Record<V>, highest: map<char, nat>)
    requires 2 <= |row| <= |headers| && 1 <= k <= |row|
  {
    if k == 1 then entry == entry0 && highest == highest0
    else
      && Label(cntAlpha).Some?
      && var letter := Label(cntAlpha).value;
      && entry == PutCells(headers, row, entry0, letter, cntNum, k)
      && highest == highest0[letter := Max(Get(highest0, letter), cntNum)]
  }

  /** One pass of the cell loop keeps `Stored`. */
  lemma StoreCellStep<V>(headers: seq<string>, row: Row<V>, cntAlpha: nat, cntNum: nat, entry0: Record<V>,
                         highest0: map<char, nat>, k: nat, entry: Record<V>, highest: map<char, nat>)
    requires 2 <= |row| <= |headers| && 1 <= k < |row| && Label(cntAlpha).Some?
    requires Stored(headers, row, cntAlpha, cntNum, entry0, highest0, k, entry, highest)
    ensures var letter := Label(cntAlpha).value;
      Stored(headers, row, cntAlpha, cntNum, entry0, highest0, k + 1,
             entry[CellKey(headers, row, letter, cntNum, k) := row[k]],
             highest[letter := Max(Get(highest, letter), cntNum)])
  {
    var letter := Label(cntAlpha).value;
    PutCellsNext(headers, row, entry0, letter, cntNum, k);
    if k > 1 {
      var top := Max(Get(highest0, letter), cntNum);
      assert Get(highest, letter) == top;
      assert highest[letter := Max(top, cntNum)] == highest0[letter := top];
    }
  }

  /**
   * The loop over cells 1.. of one row: each cell is stored under its field
   * name and the row's label records the sequence number. `stored` is false
   * when the label lookup fails, which happens on the first cell.
   */
  method ParseRow<V>(headers: seq<string>, row: Row<V>, cntAlpha: nat, cntNum: nat,
                     entry0: Record<V>, highest0: map<char, nat>)
    returns (stored: bool, entry: Record<V>, highest: map<char, nat>)
    requires 2 <= |row| <= |headers|
    ensures stored <==> Label(cntAlpha).Some?
    ensures stored ==>
      var letter := Label(cntAlpha).value;
      entry == PutCells(headers, row, entry0, letter, cntNum, |row|) &&
      highest == highest0[letter := Max(Get(highest0, letter), cntNum)]
  {
    entry, highest := entry0, highest0;
    var idx := 1;
    while idx < |row|
      invariant 1 <= idx <= |row|
      invariant Stored(headers, row, cntAlpha, cntNum, entry0, highest0, idx, entry, highest)
    {
      var alphaChar := Label(cntAlpha);
      if alphaChar.None? {
        return false, entry, highest;
      }
      var letter := alphaChar.value;
      StoreCellStep(headers, row, cntAlpha, cntNum, entry0, highest0, idx, entry, highest);
      entry := entry[CellKey(headers, row, letter, cntNum, idx) := row[idx]];
      highest := highest[letter := Max(Get(highest, letter), cntNum)];
      idx := idx + 1;
    }
    stored := true;
  }

  /** Scanning one more row is one more step. Kept as a separate proof step so that callers' proofs stay small. */
  lemma RunExtend<V>(headers: seq<string>, lines: seq<Row<V>>, i: nat)
    requires Shaped(headers, lines) && i < |lines|
    ensures Shaped(headers, lines[..i]) && Shaped(headers, lines[..i + 1])
    ensures Run(headers, lines[..i]).Ok? ==>
      Run(headers, lines[..i + 1]) == Step(headers, Run(headers, lines[..i]).value, lines[i])
  {
    assert lines[..i + 1][..i] == lines[..i];
  }

  /** The state once an ID row, if this is one, has sealed the open record and reset the counters. */
  function Opened<V>(s: State<V>, row: Row<V>): State<V>
    requires |row| >= 2
  {
    if row[0].Some? then State(0, 0, row[0], map[], Sealed(s), s.highest) else s
  }

  /** The sequence counter after reading `row`. */
  function NextNum<V>(s: State<V>, row: Row<V>): nat
    requires |row| >= 2
  {
    (if row[1].Some? then 0 else Opened(s, row).cntNum) + 1
  }

  /** `Step` as the statements before the cell loop followed by the cell loop. Kept as a separate proof step so that callers' proofs stay small. */
  lemma StepByParts<V>(headers: seq<string>, s: State<V>, row: Row<V>)
    requires 2 <= |row| <= |headers|
    ensures NextAlpha(s, row) == (if row[1].Some? then Opened(s, row).cntAlpha + 1 else Opened(s, row).cntAlpha)
    ensures Step(headers, s, row) ==
      match Label(NextAlpha(s, row))
      case None => TooManyGroups
      case Some(letter) =>
        var o := Opened(s, row);
        Ok(State(NextAlpha(s, row), NextNum(s, row), o.curId,
                 PutCells(headers, row, o.entry, letter, NextNum(s, row), |row|), o.flat,
                 o.highest[letter := Max(Get(o.highest, letter), NextNum(s, row))]))
  {
  }

  /** A failed scan of a prefix is a failed scan of the whole input. */
  lemma {:induction false} FailureSticks<V>(headers: seq<string>, lines: seq<Row<V>>, i: nat)
    requires Shaped(headers, lines) && i <= |lines|
    requires Run(headers, lines[..i]) == TooManyGroups
    ensures Run(headers, lines) == TooManyGroups
    decreases |lines|
  {
    if i < |lines| {
      var prefix := lines[..|lines| - 1];
      assert prefix[..i] == lines[..i];
      FailureSticks(headers, prefix, i);
    } else {
      assert lines[..i] == lines;
    }
  }

  /** The statements of the row loop before the cell loop: sealing on an ID row, then both counters. */
  method OpenRow<V>(s: State<V>, row: Row<V>)
    returns (cntAlpha: nat, cntNum: nat, curId: Option<V>, entry: Record<V>, flatData: seq<Record<V>>)
    requires |row| >= 2
    ensures cntAlpha == NextAlpha(s, row) && cntNum == NextNum(s, row)
    ensures var o := Opened(s, row); curId == o.curId && entry == o.entry && flatData == o.flat
  {
    cntAlpha, cntNum, curId, entry, flatData := s.cntAlpha, s.cntNum, s.curId, s.entry, s.flat;
    if row[0].Some? {
      if curId.Some? {
        entry := entry["ID" := curId];
        flatData := flatData + [entry];
      }
      cntAlpha := 0;
      cntNum := 0;
      curId := row[0];
      entry := map[];
    }
    if row[1].Some? {
      cntAlpha := cntAlpha + 1;
      cntNum := 0;
    }
    cntNum := cntNum + 1;
  }

  /** One pass of the row loop of `flatten_data`: the statements before the cell loop, then the cell loop. */
  method ScanRow<V>(headers: seq<string>, s: State<V>, row: Row<V>) returns (r: Outcome<State<V>>)
    requires 2 <= |row| <= |headers|
    ensures r == Step(headers, s, row)
  {
    var cntAlpha, cntNum, curId, entry, flatData := OpenRow(s, row);
    StepByParts(headers, s, row);
    var stored, entry', highest' := ParseRow(headers, row, cntAlpha, cntNum, entry, s.highest);
    if !stored {
      return TooManyGroups;
    }
    return Ok(State(cntAlpha, cntNum, curId, entry', flatData, highest'));
  }

  /** The loop of `flatten_data`. */
  method FlattenData<V>(lines: seq<Row<V>>, headers: seq<string>) returns (result: Outcome<Flat<V>>)
    requires Shaped(headers, lines)
    ensures result == Flatten(headers, lines)
  {
    var s: State<V> := Start();
    var i := 0;
    while i < |lines|
      invariant 0 <= i <= |lines|
      invariant Run(headers, lines[..i]) == Ok(s)
    {
      RunExtend(headers, lines, i);
      var r := ScanRow(headers, s, lines[i]);
      if r.TooManyGroups? {
        FailureSticks(headers, lines, i + 1);
        return TooManyGroups;
      }
      s := r.value;
      i := i + 1;
    }
    assert lines[..|lines|] == lines;
    return Ok(Flat(Sealed(s), s.highest));
  }
}

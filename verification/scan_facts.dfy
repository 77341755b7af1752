/**
 * What the scan of `flatten_data` computes, stated against the marker
 * columns of the rows (module Grouping) rather than against the scan's own
 * counters: the records and their IDs, when the scan fails, the highest
 * counts and the field names in the records.
 */
module ScanFacts {
  import opened Table
  import opened Keys
  import opened Grouping
  import opened Flattener

  /** Scanning one more row is one more step. Kept as a separate proof step so that callers' proofs stay small. */
  lemma RunSnoc<V>(headers: seq<string>, q: seq<Row<V>>, r: Row<V>)
    requires Shaped(headers, q) && 2 <= |r| <= |headers|
    ensures Shaped(headers, q + [r]) && Marked(q) && Marked(q + [r])
    ensures Run(headers, q + [r]) ==
      match Run(headers, q)
      case TooManyGroups => TooManyGroups
      case Ok(s) => Step(headers, s, r)
  {
    assert (q + [r])[..|q|] == q;
  }

  // ---------------------------------------------------------------------
  // Counters, the current ID and the sealed records
  // ---------------------------------------------------------------------

  /**
   * The scan's counters agree with the rows: the group counter is the group
   * number of the last row, the sequence counter its position in its group.
   */
  predicate Counters<V>(lines: seq<Row<V>>, s: State<V>)
    requires Marked(lines)
  {
    s.cntAlpha == GroupIndex(lines) && s.cntNum == SeqNumber(lines)
  }

  lemma {:induction false} RunCounters<V>(headers: seq<string>, lines: seq<Row<V>>)
    requires Shaped(headers, lines)
    ensures Marked(lines)
    ensures Run(headers, lines).Ok? ==> Counters(lines, Run(headers, lines).value)
    decreases |lines|
  {
    if lines != [] {
      var q, r := lines[..|lines| - 1], lines[|lines| - 1];
      assert lines == q + [r];
      RunSnoc(headers, q, r);
      RunCounters(headers, q);
      Extend(q, r);
      if Run(headers, lines).Ok? {
        StepFacts(headers, Run(headers, q).value, r);
      }
    }
  }

  /**
   * The current ID is the last ID seen, and every ID row but the last has
   * been sealed into a record stamped with its ID, in input order.
   */
  ghost predicate Sealing<V>(lines: seq<Row<V>>, s: State<V>)
    requires Marked(lines)
  {
    SealedBy(IdsOf(lines), s.curId, s.flat)
  }

  /** The current ID is the last of `ids`, and each earlier one stamps one sealed record, in order. */
  ghost predicate SealedBy<V>(ids: seq<V>, curId: Option<V>, flat: seq<Record<V>>) {
    && (curId.Some? <==> ids != [])
    && (curId.Some? ==> curId.value == ids[|ids| - 1])
    && |flat| == (if ids == [] then 0 else |ids| - 1)
    && forall j :: 0 <= j < |flat| ==> "ID" in flat[j] && flat[j]["ID"] == Some(ids[j])
  }

  /** A new ID seals the open record under the previous ID and becomes the current one. */
  lemma SealedByNewId<V>(ids: seq<V>, s: State<V>, v: V)
    requires SealedBy(ids, s.curId, s.flat)
    ensures SealedBy(ids + [v], Some(v), Sealed(s))
  {
    if s.curId.Some? {
      assert Sealed(s)[|s.flat|]["ID"] == Some(ids[|ids| - 1]);
    }
  }

  /** One step keeps `Sealing`. */
  lemma SealingStep<V>(headers: seq<string>, q: seq<Row<V>>, s: State<V>, r: Row<V>)
    requires Marked(q) && 2 <= |r| <= |headers| && Sealing(q, s) && Step(headers, s, r).Ok?
    ensures Marked(q + [r]) && Sealing(q + [r], Step(headers, s, r).value)
  {
    Extend(q, r);
    StepFacts(headers, s, r);
    if IsIdRow(r) {
      SealedByNewId(IdsOf(q), s, r[0].value);
    }
  }

  lemma {:induction false} RunSealing<V>(headers: seq<string>, lines: seq<Row<V>>)
    requires Shaped(headers, lines)
    ensures Marked(lines)
    ensures Run(headers, lines).Ok? ==> Sealing(lines, Run(headers, lines).value)
    decreases |lines|
  {
    if lines != [] {
      var q, r := lines[..|lines| - 1], lines[|lines| - 1];
      assert lines == q + [r];
      RunSnoc(headers, q, r);
      RunSealing(headers, q);
      if Run(headers, lines).Ok? {
        SealingStep(headers, q, Run(headers, q).value, r);
      }
    }
  }

  // ---------------------------------------------------------------------
  // Failure
  // ---------------------------------------------------------------------

  /** No row of `lines` is in a group past the 26th of its ID. */
  predicate Fits<V>(lines: seq<Row<V>>)
    requires Marked(lines)
  {
    forall i :: 0 <= i < |lines| ==> GroupIndexAt(lines, i) <= 26
  }

  lemma FitsSnoc<V>(q: seq<Row<V>>, r: Row<V>)
    requires Marked(q) && |r| >= 2
    ensures Marked(q + [r])
    ensures Fits(q + [r]) <==> Fits(q) && GroupIndex(q + [r]) <= 26
  {
    SnocAt(q, r);
    AtLast(q + [r]);
  }

  /** The scan fails exactly when some row's group counter exceeds 26. */
  lemma {:induction false} RunOkIff<V>(headers: seq<string>, lines: seq<Row<V>>)
    requires Shaped(headers, lines)
    ensures Marked(lines)
    ensures Run(headers, lines).Ok? <==> Fits(lines)
    decreases |lines|
  {
    if lines != [] {
      var q, r := lines[..|lines| - 1], lines[|lines| - 1];
      assert lines == q + [r];
      RunSnoc(headers, q, r);
      RunOkIff(headers, q);
      FitsSnoc(q, r);
      if Run(headers, q).Ok? {
        var s := Run(headers, q).value;
        RunCounters(headers, q);
        Extend(q, r);
        StepFacts(headers, s, r);
      }
    }
  }

  // ---------------------------------------------------------------------
  // Highest counts
  // ---------------------------------------------------------------------

  /** Every row's label is in `hi` with at least the row's sequence number. */
  ghost predicate HighestBounds<V>(lines: seq<Row<V>>, hi: map<char, nat>)
    requires Marked(lines)
  {
    forall i :: 0 <= i < |lines| && LabelAt(lines, i).Some? ==>
      LabelAt(lines, i).value in hi && SeqAt(lines, i) <= hi[LabelAt(lines, i).value]
  }

  /** Every count in `hi` is the sequence number of some row with that label. */
  ghost predicate HighestAttained<V>(lines: seq<Row<V>>, hi: map<char, nat>)
    requires Marked(lines)
  {
    forall l :: l in hi ==> exists i :: 0 <= i < |lines| && LabelAt(lines, i) == Some(l) && SeqAt(lines, i) == hi[l]
  }

  /** Recording row `|q|`, labelled `l` with sequence number `n`, keeps every row bounded. */
  lemma BoundsSnoc<V>(q: seq<Row<V>>, r: Row<V>, hi: map<char, nat>, l: char, n: nat)
    requires Marked(q) && |r| >= 2 && HighestBounds(q, hi)
    requires Marked(q + [r]) && LabelAt(q + [r], |q|) == Some(l) && SeqAt(q + [r], |q|) == n
    ensures HighestBounds(q + [r], hi[l := Max(Get(hi, l), n)])
  {
    SnocAt(q, r);
  }

  /** Recording row `|q|`, labelled `l` with sequence number `n`, keeps every count attained. */
  lemma AttainedSnoc<V>(q: seq<Row<V>>, r: Row<V>, hi: map<char, nat>, l: char, n: nat)
    requires Marked(q) && |r| >= 2 && HighestAttained(q, hi)
    requires Marked(q + [r]) && LabelAt(q + [r], |q|) == Some(l) && SeqAt(q + [r], |q|) == n
    ensures HighestAttained(q + [r], hi[l := Max(Get(hi, l), n)])
  {
    var p, hi' := q + [r], hi[l := Max(Get(hi, l), n)];
    SnocAt(q, r);
    forall l' | l' in hi'
      ensures exists i :: 0 <= i < |p| && LabelAt(p, i) == Some(l') && SeqAt(p, i) == hi'[l']
    {
      if l' == l && hi'[l'] == n {
        assert LabelAt(p, |q|) == Some(l') && SeqAt(p, |q|) == hi'[l'];
      } else {
        var i :| 0 <= i < |q| && LabelAt(q, i) == Some(l') && SeqAt(q, i) == hi[l'];
        assert LabelAt(p, i) == Some(l') && SeqAt(p, i) == hi'[l'];
      }
    }
  }

  /**
   * `highest[L]` is the largest sequence number of any row labelled L:
   * no row's number exceeds it, and some row's number equals it.
   */
  lemma {:induction false} RunHighest<V>(headers: seq<string>, lines: seq<Row<V>>)
    requires Shaped(headers, lines)
    ensures Marked(lines)
    ensures Run(headers, lines).Ok? ==>
      HighestBounds(lines, Run(headers, lines).value.highest) &&
      HighestAttained(lines, Run(headers, lines).value.highest)
    decreases |lines|
  {
    if lines != [] {
      var q, r := lines[..|lines| - 1], lines[|lines| - 1];
      assert lines == q + [r];
      RunSnoc(headers, q, r);
      RunHighest(headers, q);
      if Run(headers, lines).Ok? {
        var s := Run(headers, q).value;
        var s' := Run(headers, lines).value;
        RunCounters(headers, lines);
        StepHighest(headers, s, r);
        AtLast(lines);
        var l := Label(s'.cntAlpha).value;
        BoundsSnoc(q, r, s.highest, l, s'.cntNum);
        AttainedSnoc(q, r, s.highest, l, s'.cntNum);
      }
    }
  }

  // ---------------------------------------------------------------------
  // Field names
  // ---------------------------------------------------------------------

  /**
   * `key` is a field name the schema built from `hi` accounts for: a group
   * name `{headers[1]}_{L}`, or a numbered field `{headers[idx]}_{L}_{n}`
   * with idx >= 1, L a label of `hi` and 1 <= n <= hi[L].
   */
  ghost predicate KeyIn(headers: seq<string>, hi: map<char, nat>, key: string) {
    || (exists l :: l in hi && 2 <= |headers| && key == NameKey(headers[1], l))
    || (exists l, idx, n :: l in hi && 1 <= idx < |headers| && 1 <= n <= hi[l] && key == NumKey(headers[idx], l, n))
  }

  /** Raising highest counts keeps every accounted-for name accounted for. */
  lemma KeyInGrows(headers: seq<string>, hi: map<char, nat>, hi': map<char, nat>, key: string)
    requires KeyIn(headers, hi, key)
    requires forall l :: l in hi ==> l in hi' && hi[l] <= hi'[l]
    ensures KeyIn(headers, hi', key)
  {
    if !exists l :: l in hi && 2 <= |headers| && key == NameKey(headers[1], l) {
      var l, idx, n :| l in hi && 1 <= idx < |headers| && 1 <= n <= hi[l] && key == NumKey(headers[idx], l, n);
      assert l in hi' && 1 <= n <= hi'[l];
    }
  }

  /** The names a row's cells are stored under are accounted for once its label records its number. */
  lemma CellKeysIn<V>(headers: seq<string>, row: Row<V>, letter: char, n: nat, k: nat, hi: map<char, nat>)
    requires 2 <= |row| <= |headers| && k <= |row|
    requires letter in hi && 1 <= n <= hi[letter]
    ensures forall key :: key in CellKeys(headers, row, letter, n, k) ==> KeyIn(headers, hi, key)
  {
    forall idx | 1 <= idx < k
      ensures KeyIn(headers, hi, CellKey(headers, row, letter, n, idx))
    {
      if idx == 1 && row[1].Some? {
        assert CellKey(headers, row, letter, n, idx) == NameKey(headers[1], letter);
      } else {
        assert CellKey(headers, row, letter, n, idx) == NumKey(headers[idx], letter, n);
      }
    }
  }

  /** Every field of the open record and of the sealed records is "ID" or accounted for by `highest`. */
  ghost predicate RecordsKeyed<V>(headers: seq<string>, s: State<V>) {
    && (forall key :: key in s.entry ==> KeyIn(headers, s.highest, key))
    && (forall j, key :: 0 <= j < |s.flat| && key in s.flat[j] ==> key == "ID" || KeyIn(headers, s.highest, key))
  }

  /** After a step, the open record holds accounted-for names only. */
  lemma StepEntryKeys<V>(headers: seq<string>, s: State<V>, row: Row<V>)
    requires 2 <= |row| <= |headers| && RecordsKeyed(headers, s)
    requires Step(headers, s, row).Ok?
    ensures forall key :: key in Step(headers, s, row).value.entry ==> KeyIn(headers, Step(headers, s, row).value.highest, key)
  {
    var s' := Step(headers, s, row).value;
    StepEntry(headers, s, row);
    StepHighest(headers, s, row);
    var l := Label(s'.cntAlpha).value;
    var base: Record<V> := if row[0].Some? then map[] else s.entry;
    PutCellsKeys(headers, row, base, l, s'.cntNum, |row|);
    CellKeysIn(headers, row, l, s'.cntNum, |row|, s'.highest);
    forall key | key in base
      ensures KeyIn(headers, s'.highest, key)
    {
      KeyInGrows(headers, s.highest, s'.highest, key);
    }
  }

  /** After a step, the sealed records hold "ID" and accounted-for names only. */
  lemma StepFlatKeys<V>(headers: seq<string>, s: State<V>, row: Row<V>)
    requires 2 <= |row| <= |headers| && RecordsKeyed(headers, s)
    requires Step(headers, s, row).Ok?
    ensures var s' := Step(headers, s, row).value;
      forall j, key :: 0 <= j < |s'.flat| && key in s'.flat[j] ==> key == "ID" || KeyIn(headers, s'.highest, key)
  {
    var s' := Step(headers, s, row).value;
    StepFacts(headers, s, row);
    StepHighest(headers, s, row);
    forall j, key | 0 <= j < |s'.flat| && key in s'.flat[j] && key != "ID"
      ensures KeyIn(headers, s'.highest, key)
    {
      if j < |s.flat| {
        assert s'.flat[j] == s.flat[j];
      } else {
        assert s'.flat[j] == s.entry["ID" := s.curId];
      }
      KeyInGrows(headers, s.highest, s'.highest, key);
    }
  }

  lemma {:induction false} RunKeys<V>(headers: seq<string>, lines: seq<Row<V>>)
    requires Shaped(headers, lines)
    ensures Run(headers, lines).Ok? ==> RecordsKeyed(headers, Run(headers, lines).value)
    decreases |lines|
  {
    if lines != [] {
      var q, r := lines[..|lines| - 1], lines[|lines| - 1];
      assert lines == q + [r];
      RunSnoc(headers, q, r);
      RunKeys(headers, q);
      if Run(headers, lines).Ok? {
        StepEntryKeys(headers, Run(headers, q).value, r);
        StepFlatKeys(headers, Run(headers, q).value, r);
      }
    }
  }

  // ---------------------------------------------------------------------
  // What `flatten_data` returns
  // ---------------------------------------------------------------------

  /**
   * One record per ID row, in input order, each stamped with its row's ID
   * under "ID"; no ID rows, no records.
   */
  lemma FlattenRecords<V>(headers: seq<string>, lines: seq<Row<V>>)
    requires Shaped(headers, lines)
    ensures Marked(lines)
    ensures Flatten(headers, lines).Ok? ==>
      var recs, ids := Flatten(headers, lines).value.records, IdsOf(lines);
      && |recs| == |ids|
      && forall j :: 0 <= j < |recs| ==> "ID" in recs[j] && recs[j]["ID"] == Some(ids[j])
  {
    RunSealing(headers, lines);
  }

  /** `flatten_data` fails exactly when some row is in a group past the 26th of its ID. */
  lemma FlattenFails<V>(headers: seq<string>, lines: seq<Row<V>>)
    requires Shaped(headers, lines)
    ensures Marked(lines)
    ensures Flatten(headers, lines) == TooManyGroups <==> exists i :: 0 <= i < |lines| && GroupIndexAt(lines, i) > 26
  {
    RunOkIff(headers, lines);
  }

  /**
   * Every label of `highest` is a letter with a count of at least 1, and
   * the count is the largest sequence number of the rows with that label.
   */
  lemma FlattenHighest<V>(headers: seq<string>, lines: seq<Row<V>>)
    requires Shaped(headers, lines)
    ensures Marked(lines)
    ensures Flatten(headers, lines).Ok? ==>
      var hi := Flatten(headers, lines).value.highest;
      && (forall l :: l in hi ==> IsUpper(l) && hi[l] >= 1)
      && HighestBounds(lines, hi)
      && HighestAttained(lines, hi)
  {
    RunHighest(headers, lines);
  }

  /**
   * Every field of every record is "ID", a group name `{headers[1]}_{L}`, or
   * a numbered field `{headers[idx]}_{L}_{n}` (idx >= 1) with L in
   * `highest` and n <= highest[L]: column 0 is stored only as "ID".
   */
  lemma FlattenKeys<V>(headers: seq<string>, lines: seq<Row<V>>)
    requires Shaped(headers, lines)
    ensures Flatten(headers, lines).Ok? ==>
      var f := Flatten(headers, lines).value;
      forall j, key :: 0 <= j < |f.records| && key in f.records[j] ==> key == "ID" || KeyIn(headers, f.highest, key)
  {
    RunKeys(headers, lines);
    if Run(headers, lines).Ok? {
      var s := Run(headers, lines).value;
      var f := Flatten(headers, lines).value;
      forall j, key | 0 <= j < |f.records| && key in f.records[j] && key != "ID"
        ensures KeyIn(headers, f.highest, key)
      {
        if j == |s.flat| {
          assert f.records[j] == s.entry["ID" := s.curId];
        } else {
          assert f.records[j] == s.flat[j];
        }
      }
    }
  }

  /** A scan that completes completes on every prefix. */
  lemma PrefixOk<V>(headers: seq<string>, lines: seq<Row<V>>, i: nat)
    requires Shaped(headers, lines) && i <= |lines| && Run(headers, lines).Ok?
    ensures Shaped(headers, lines[..i]) && Run(headers, lines[..i]).Ok?
  {
    var p := lines[..i];
    RunOkIff(headers, lines);
    RunOkIff(headers, p);
    forall k | 0 <= k < |p|
      ensures GroupIndexAt(p, k) <= 26
    {
      PrefixAt(lines, i, k);
    }
  }

  /** Highest counts never decrease during the scan. */
  lemma HighestGrows<V>(headers: seq<string>, lines: seq<Row<V>>, i: nat)
    requires Shaped(headers, lines) && i <= |lines|
    ensures Shaped(headers, lines[..i])
    ensures Run(headers, lines).Ok? ==> Run(headers, lines[..i]).Ok?
    ensures Run(headers, lines).Ok? ==>
      var hi, hi' := Run(headers, lines[..i]).value.highest, Run(headers, lines).value.highest;
      forall l :: l in hi ==> l in hi' && hi[l] <= hi'[l]
  {
    var p := lines[..i];
    if Run(headers, lines).Ok? {
      PrefixOk(headers, lines, i);
      RunHighest(headers, p);
      RunHighest(headers, lines);
      var hi, hi' := Run(headers, p).value.highest, Run(headers, lines).value.highest;
      forall l | l in hi
        ensures l in hi' && hi[l] <= hi'[l]
      {
        var k :| 0 <= k < |p| && LabelAt(p, k) == Some(l) && SeqAt(p, k) == hi[l];
        PrefixAt(lines, i, k);
      }
    }
  }

  /**
   * An ID row starts a fresh record: its counter restarts and the open
   * record holds exactly that row's cells, whatever was open before.
   */
  lemma IdRowStartsFresh<V>(headers: seq<string>, s: State<V>, row: Row<V>)
    requires 2 <= |row| <= |headers| && row[0].Some?
    ensures Step(headers, s, row).Ok?
    ensures var s' := Step(headers, s, row).value;
      var letter := if row[1].Some? then 'A' else 'Z';
      && s'.cntNum == 1
      && s'.curId == row[0]
      && s'.entry.Keys == CellKeys(headers, row, letter, 1, |row|)
  {
    StepFacts(headers, s, row);
    StepEntry(headers, s, row);
    var s' := Step(headers, s, row).value;
    PutCellsKeys(headers, row, map[], Label(s'.cntAlpha).value, 1, |row|);
  }
}

/**
 * The converter end to end, short of the files: `flatten_data` on the data
 * rows, then `write_data`'s column list and one dense row per record.
 */
module Pipeline {
  import opened Table
  import opened Keys
  import opened Grouping
  import opened Flattener
  import opened ScanFacts
  import opened Columns
  import opened Dense

  /** What `write_data` would write: the header row and the data rows. */
  datatype Csv<V> = Csv(columns: seq<string>, rows: seq<DenseRow<V>>)

  /** One dense row per record, in record order. */
  function DenseRows<V>(columns: seq<string>, records: seq<Record<V>>): (rows: seq<DenseRow<V>>)
    ensures |rows| == |records|
  {
    seq(|records|, i requires 0 <= i < |records| => Densify(columns, records[i]))
  }

  /** What the converter demands of the sheet: a header row and well-shaped data rows. */
  predicate Convertible<V>(headers: seq<string>, lines: seq<Row<V>>) {
    |headers| >= 1 && Shaped(headers, lines)
  }

  /** With no data rows there is nothing to count. */
  lemma NoRowsNoLabels<V>(headers: seq<string>, lines: seq<Row<V>>)
    requires Shaped(headers, lines) && Flatten(headers, lines).Ok?
    ensures Flatten(headers, lines).value.highest != map[] ==> |headers| >= 2
  {
    if lines == [] {
      assert Flatten(headers, lines) == Ok(Flat([], map[]));
    } else {
      assert 2 <= |lines[0]| <= |headers|;
    }
  }

  /** `flatten_data`, then `write_data` short of the file: the columns and the rows. */
  function Convert<V>(headers: seq<string>, lines: seq<Row<V>>): Outcome<Csv<V>>
    requires Convertible(headers, lines)
  {
    match Flatten(headers, lines)
    case TooManyGroups => TooManyGroups
    case Ok(f) =>
      NoRowsNoLabels(headers, lines);
      var columns := Schema(headers, f.highest);
      Ok(Csv(columns, DenseRows(columns, f.records)))
  }

  /**
   * One output row per ID row; the conversion fails exactly when some row's
   * group counter exceeds 26, whether or not an ID came before it.
   */
  lemma ConvertRows<V>(headers: seq<string>, lines: seq<Row<V>>)
    requires Convertible(headers, lines)
    ensures Marked(lines)
    ensures Convert(headers, lines).Ok? ==> |Convert(headers, lines).value.rows| == |IdsOf(lines)|
    ensures Convert(headers, lines) == TooManyGroups <==> exists i :: 0 <= i < |lines| && GroupIndexAt(lines, i) > 26
  {
    FlattenRecords(headers, lines);
    FlattenFails(headers, lines);
  }

  /**
   * The ID reaches the output only through the first column, and only when
   * that column is headed "ID": no other column can be named "ID".
   */
  lemma IdColumn<V>(headers: seq<string>, lines: seq<Row<V>>)
    requires Convertible(headers, lines)
    ensures Marked(lines)
    ensures Convert(headers, lines).Ok? ==>
      var out, ids := Convert(headers, lines).value, IdsOf(lines);
      && |out.rows| == |ids|
      && ("ID" in out.columns <==> headers[0] == "ID")
      && (headers[0] == "ID" ==> forall j :: 0 <= j < |out.rows| ==> out.rows[j][0] == ("ID", Value(Some(ids[j]))))
  {
    FlattenRecords(headers, lines);
    if Flatten(headers, lines).Ok? {
      var f := Flatten(headers, lines).value;
      NoRowsNoLabels(headers, lines);
      SchemaMembers(headers, f.highest, "ID");
      SchemaLayout(headers, f.highest, 0);
      forall l, j, n | 2 <= j < |headers|
        ensures NumKey(headers[j], l, n) != "ID"
      {
        SyntheticKeysAreNotId(headers[j], l, n);
      }
    }
  }

  /**
   * Column 1 of a row that is not a group marker is stored as
   * `{headers[1]}_{L}_{n}`, a name `new_headers` has only by coincidence: when
   * it is `headers[0]`, or when `headers[1]` reappears in `headers[2:]`.
   */
  lemma ContinuationColumn(headers: seq<string>, hi: map<char, nat>, l: char, n: nat)
    requires SchemaReady(headers, hi) && |headers| >= 2
    requires forall c :: c in hi ==> IsUpper(c)
    requires l in hi && 1 <= n <= hi[l]
    ensures NumKey(headers[1], l, n) in Schema(headers, hi) <==>
      NumKey(headers[1], l, n) == headers[0] || exists j :: 2 <= j < |headers| && headers[j] == headers[1]
  {
    var key := NumKey(headers[1], l, n);
    SchemaMembers(headers, hi, key);
    if exists j :: 2 <= j < |headers| && headers[j] == headers[1] {
      var j :| 2 <= j < |headers| && headers[j] == headers[1];
      assert key == NumKey(headers[j], l, n);
    }
    forall l' | l' in hi
      ensures NameKey(headers[1], l') != key
    {
      NameKeyIsNotNumKey(headers[1], l', headers[1], l, n);
    }
    forall l', j, n' | 2 <= j < |headers| && NumKey(headers[j], l', n') == key
      ensures headers[j] == headers[1]
    {
      NumKeyInjective(headers[j], l', n', headers[1], l, n);
    }
  }

  /** A field the schema accounts for, other than a column-1 continuation cell, is read back off the dense row. */
  lemma FieldReachesRow<V>(headers: seq<string>, hi: map<char, nat>, rec: Record<V>, key: string)
    requires SchemaReady(headers, hi) && key in rec && KeyIn(headers, hi, key)
    requires !exists l, n :: 2 <= |headers| && key == NumKey(headers[1], l, n)
    ensures key in Schema(headers, hi)
    ensures key in FieldsOf(Densify(Schema(headers, hi), rec)) && FieldsOf(Densify(Schema(headers, hi), rec))[key] == rec[key]
  {
    SchemaMembers(headers, hi, key);
    if !exists l :: l in hi && 2 <= |headers| && key == NameKey(headers[1], l) {
      var l, idx, n :| l in hi && 1 <= idx < |headers| && 1 <= n <= hi[l] && key == NumKey(headers[idx], l, n);
      assert idx != 1;
    }
    DensifyRecovers(Schema(headers, hi), rec);
  }

  /**
   * Every field of every record other than "ID" and the column-1 cells of
   * rows that are not group markers (`{headers[1]}_{L}_{n}`) is a column of
   * the output, and its value reaches the row written for the record.
   */
  lemma FieldsReachOutput<V>(headers: seq<string>, lines: seq<Row<V>>)
    requires Convertible(headers, lines)
    ensures Flatten(headers, lines).Ok? ==>
      var f := Flatten(headers, lines).value;
      var out := Convert(headers, lines).value;
      forall j, key :: 0 <= j < |f.records| && key in f.records[j] ==>
        || key == "ID"
        || (exists l, n :: 2 <= |headers| && key == NumKey(headers[1], l, n))
        || (key in out.columns && key in FieldsOf(out.rows[j]) && FieldsOf(out.rows[j])[key] == f.records[j][key])
  {
    FlattenKeys(headers, lines);
    if Flatten(headers, lines).Ok? {
      var f := Flatten(headers, lines).value;
      var out := Convert(headers, lines).value;
      NoRowsNoLabels(headers, lines);
      forall j, key | 0 <= j < |f.records| && key in f.records[j] && key != "ID" &&
                      !(exists l, n :: 2 <= |headers| && key == NumKey(headers[1], l, n))
        ensures key in out.columns && key in FieldsOf(out.rows[j]) && FieldsOf(out.rows[j])[key] == f.records[j][key]
      {
        FieldReachesRow(headers, f.highest, f.records[j], key);
      }
    }
  }
}

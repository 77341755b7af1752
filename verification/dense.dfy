/**
 * `prepared_entry` in `write_data`: a sparse record laid out along the
 * output columns, with `""` wherever the record has no such field.
 */
module Dense {
  import opened Table

  /** One output row: a (column, cell) pair per column of the schema, in schema order. */
  type DenseRow<V> = seq<(string, Field<V>)>

  /** `entry.get(key, "")` */
  function Lookup<V>(rec: Record<V>, key: string): Field<V> {
    if key in rec then Value(rec[key]) else Blank
  }

  /** `{key: entry.get(key, "") for key in new_headers}`, as the writer lays it out. */
  function Densify<V>(schema: seq<string>, rec: Record<V>): (row: DenseRow<V>)
    ensures |row| == |schema|
  {
    seq(|schema|, j requires 0 <= j < |schema| => (schema[j], Lookup(rec, schema[j])))
  }

  /** The record's fields that survive: those whose name is a column. */
  function Restrict<V>(rec: Record<V>, schema: seq<string>): (r: Record<V>)
    ensures forall key :: key in r <==> key in rec && key in schema
  {
    map key | key in rec && key in schema :: rec[key]
  }

  /** The fields a dense row carries: every column holding a value, blanks skipped. */
  function FieldsOf<V>(row: DenseRow<V>): Record<V> {
    if row == [] then map[]
    else
      var init := FieldsOf(row[..|row| - 1]);
      var (key, field) := row[|row| - 1];
      if field.Value? then init[key := field.cell] else init
  }

  /**
   * Densifying loses nothing of the record but its non-columns: the fields
   * read back off the dense row are exactly the record's fields whose name
   * is a column, with their values.
   */
  lemma {:induction false} DensifyRecovers<V>(schema: seq<string>, rec: Record<V>)
    ensures FieldsOf(Densify(schema, rec)) == Restrict(rec, schema)
    decreases |schema|
  {
    if schema != [] {
      var init, last := schema[..|schema| - 1], schema[|schema| - 1];
      DensifyRecovers(init, rec);
      var row := Densify(schema, rec);
      assert row[..|row| - 1] == Densify(init, rec);
      var r, r0 := Restrict(rec, schema), Restrict(rec, init);
      if last in rec {
        assert r == r0[last := rec[last]];
      } else {
        assert r == r0;
      }
    }
  }

  /**
   * Column by column: column `j` of the dense row is named `schema[j]` and
   * holds the record's value under that name, or `""` exactly when the
   * record has no such field; a name that is not a column appears nowhere.
   */
  lemma DensifyColumns<V>(schema: seq<string>, rec: Record<V>, key: string)
    ensures forall j :: 0 <= j < |schema| ==>
      Densify(schema, rec)[j].0 == schema[j] &&
      (Densify(schema, rec)[j].1 == Blank <==> schema[j] !in rec)
    ensures key !in schema ==> forall j :: 0 <= j < |schema| ==> Densify(schema, rec)[j].0 != key
    ensures key in schema && key in rec ==>
      exists j :: 0 <= j < |schema| && Densify(schema, rec)[j] == (key, Value(rec[key]))
  {
    if key in schema && key in rec {
      var j :| 0 <= j < |schema| && schema[j] == key;
      assert Densify(schema, rec)[j] == (key, Value(rec[key]));
    }
  }

  /**
   * The dense row is a dictionary: two columns with the same name hold the
   * same cell, so writing it by column name loses nothing.
   */
  lemma DensifyIsDict<V>(schema: seq<string>, rec: Record<V>)
    ensures forall i, j :: 0 <= i < |schema| && 0 <= j < |schema| && schema[i] == schema[j] ==>
      Densify(schema, rec)[i] == Densify(schema, rec)[j]
  {
  }
}

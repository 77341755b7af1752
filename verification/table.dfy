/**
 * The values the converter passes around: spreadsheet cells, data rows,
 * the sparse per-ID records and the cells of a densified output row.
 */
module Table {

  /** A spreadsheet cell: `None` is an empty cell, `Some(v)` a string, number or date. */
  datatype Option<T> = None | Some(value: T)

  /** One data row of the sheet, column 0 first. */
  type Row<V> = seq<Option<V>>

  /**
   * A flattened record: the Python dictionary `entry`, from synthetic field
   * name to the cell stored under it ("ID" holds the record's ID).
   */
  type Record<V> = map<string, Option<V>>

  /**
   * A cell of a densified output row: the value the record holds for the
   * column, or the empty string `""` used for a column the record lacks.
   */
  datatype Field<V> = Value(cell: Option<V>) | Blank

  /**
   * A dictionary after `m[keys[0]] = vals[0]`, `m[keys[1]] = vals[1]`, ... in
   * turn: a later write to the same key replaces an earlier one.
   */
  function Writes<K, T>(m: map<K, T>, keys: seq<K>, vals: seq<T>): map<K, T>
    requires |keys| == |vals|
    decreases |keys|
  {
    if |keys| == 0 then m
    else Writes(m, keys[..|keys| - 1], vals[..|vals| - 1])[keys[|keys| - 1] := vals[|vals| - 1]]
  }

  /** Equal dictionaries with the same key set to equal values stay equal. Kept as a separate proof step so that callers' proofs stay small. */
  lemma Restamp<K, T>(m: map<K, T>, m': map<K, T>, k: K, v: T, v': T)
    requires m == m' && v == v'
    ensures m[k := v] == m'[k := v']
  {
  }

  /** The keys a sequence of writes touches. */
  function Elements<K>(keys: seq<K>): set<K> {
    set x | x in keys
  }

  /** The writes add exactly the written keys and leave every other entry alone. */
  lemma {:induction false} WritesKeys<K, T>(m: map<K, T>, keys: seq<K>, vals: seq<T>)
    requires |keys| == |vals|
    ensures Writes(m, keys, vals).Keys == m.Keys + Elements(keys)
    ensures forall x :: x in m && x !in keys ==> Writes(m, keys, vals)[x] == m[x]
    decreases |keys|
  {
    if |keys| > 0 {
      var n := |keys| - 1;
      WritesKeys(m, keys[..n], vals[..n]);
      assert keys == keys[..n] + [keys[n]];
      assert Elements(keys) == Elements(keys[..n]) + {keys[n]};
    }
  }

  /** The value written under a key is found there unless a later write reuses the key. */
  lemma {:induction false} WritesValue<K, T>(m: map<K, T>, keys: seq<K>, vals: seq<T>, i: nat)
    requires |keys| == |vals| && i < |keys|
    requires keys[i] !in keys[i + 1..]
    ensures keys[i] in Writes(m, keys, vals) && Writes(m, keys, vals)[keys[i]] == vals[i]
    decreases |keys|
  {
    var n := |keys| - 1;
    if i < n {
      assert keys[..n][i + 1..] == keys[i + 1..n];
      WritesValue(m, keys[..n], vals[..n], i);
    }
  }

  /**
   * Runs of stores `ks[a]`/`vs[a]`, then `ks[a + 1]`/`vs[a + 1]`, ... up to
   * `ks[n - 1]`/`vs[n - 1]`, into an empty dictionary.
   */
  function Folded<K, T>(ks: seq<seq<K>>, vs: seq<seq<T>>, a: nat, n: nat): map<K, T>
    requires a <= n <= |ks| && |ks| == |vs|
    requires forall i :: a <= i < n ==> |ks[i]| == |vs[i]|
    decreases n - a
  {
    if n == a then map[] else Writes(Folded(ks, vs, a, n - 1), ks[n - 1], vs[n - 1])
  }

  /** `Folded` reads runs `a .. n-1` only. */
  lemma {:induction false} FoldedAgree<K, T>(ks: seq<seq<K>>, vs: seq<seq<T>>, ks': seq<seq<K>>, vs': seq<seq<T>>,
                                             a: nat, n: nat)
    requires a <= n <= |ks| && |ks| == |vs| && n <= |ks'| && |ks'| == |vs'|
    requires forall i :: a <= i < n ==> |ks[i]| == |vs[i]| && ks'[i] == ks[i] && vs'[i] == vs[i]
    ensures Folded(ks, vs, a, n) == Folded(ks', vs', a, n)
    decreases n - a
  {
    if n > a {
      FoldedAgree(ks, vs, ks', vs', a, n - 1);
    }
  }

  /** A key is stored exactly when some run writes it. */
  lemma {:induction false} FoldedKeys<K, T>(ks: seq<seq<K>>, vs: seq<seq<T>>, a: nat, n: nat, x: K)
    requires a <= n <= |ks| && |ks| == |vs|
    requires forall i :: a <= i < n ==> |ks[i]| == |vs[i]|
    ensures x in Folded(ks, vs, a, n) <==> exists i, c :: a <= i < n && 0 <= c < |ks[i]| && ks[i][c] == x
    decreases n - a
  {
    if n > a {
      var t := n - 1;
      FoldedKeys(ks, vs, a, t, x);
      WritesKeys(Folded(ks, vs, a, t), ks[t], vs[t]);
      if x in ks[t] {
        var c :| 0 <= c < |ks[t]| && ks[t][c] == x;
      }
    }
  }

  /** No store after store `c` of run `i`, up to run `n`, writes the same key. */
  ghost predicate LastStore<K>(ks: seq<seq<K>>, n: nat, i: nat, c: nat)
    requires i < n <= |ks| && c < |ks[i]|
  {
    forall i', c' :: i <= i' < n && 0 <= c' < |ks[i']| && (i < i' || c < c') ==> ks[i'][c'] != ks[i][c]
  }

  /** The last store of a key decides its value. */
  lemma {:induction false} FoldedValue<K, T>(ks: seq<seq<K>>, vs: seq<seq<T>>, a: nat, n: nat, i: nat, c: nat)
    requires a <= i < n <= |ks| && |ks| == |vs|
    requires forall j :: a <= j < n ==> |ks[j]| == |vs[j]|
    requires c < |ks[i]| && LastStore(ks, n, i, c)
    ensures ks[i][c] in Folded(ks, vs, a, n) && Folded(ks, vs, a, n)[ks[i][c]] == vs[i][c]
    decreases n
  {
    var t := n - 1;
    if i == t {
      var later := ks[t][c + 1..];
      forall d | 0 <= d < |later|
        ensures later[d] != ks[t][c]
      {
        assert later[d] == ks[t][c + 1 + d];
      }
      WritesValue(Folded(ks, vs, a, t), ks[t], vs[t], c);
    } else {
      FoldedValue(ks, vs, a, t, i, c);
      WritesKeys(Folded(ks, vs, a, t), ks[t], vs[t]);
    }
  }
}

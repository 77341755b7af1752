/**
 * The output side of `write_data`: the column list `new_headers` built from
 * the headers and the highest counts, and the dense row written for each
 * record.
 */
module Columns {
  import opened Table
  import opened Keys

  // ---------------------------------------------------------------------
  // sorted(highest.keys())
  // ---------------------------------------------------------------------

  /** A non-empty set of characters has a least element. */
  lemma {:induction false} LeastExists(s: set<char>)
    requires s != {}
    ensures exists m :: m in s && forall x :: x in s ==> m <= x
    decreases |s|
  {
    var x :| x in s;
    var rest := s - {x};
    if rest != {} {
      LeastExists(rest);
      var m :| m in rest && forall y :: y in rest ==> m <= y;
      var least := if x < m then x else m;
      forall y | y in s
        ensures least <= y
      {
        if y != x {
          assert y in rest;
        }
      }
    } else {
      assert s == {x};
    }
  }

  /** `sorted(labels)`: the labels in ascending order (see `SortedLabelsSorted`). */
  function SortedLabels(s: set<char>): (r: seq<char>)
    ensures forall i :: 0 <= i < |r| ==> r[i] in s
    decreases |s|
  {
    if s == {} then []
    else
      LeastExists(s);
      var m :| m in s && forall x :: x in s ==> m <= x;
      [m] + SortedLabels(s - {m})
  }

  /** `SortedLabels(s)` lists every element of `s` exactly once, in strictly ascending order. */
  lemma SortedLabelsSorted(s: set<char>)
    ensures |SortedLabels(s)| == |s|
    ensures forall i, j :: 0 <= i < j < |SortedLabels(s)| ==> SortedLabels(s)[i] < SortedLabels(s)[j]
    ensures forall c :: c in s <==> c in SortedLabels(s)
  {
    SortedLabelsLength(s);
    SortedLabelsAscend(s);
    SortedLabelsMembers(s);
  }

  lemma {:induction false} SortedLabelsLength(s: set<char>)
    ensures |SortedLabels(s)| == |s|
    decreases |s|
  {
    if s != {} {
      var m := SortedLabels(s)[0];
      SortedLabelsLength(s - {m});
    }
  }

  lemma {:induction false} SortedLabelsAscend(s: set<char>)
    ensures forall i, j :: 0 <= i < j < |SortedLabels(s)| ==> SortedLabels(s)[i] < SortedLabels(s)[j]
    decreases |s|
  {
    if s != {} {
      var r := SortedLabels(s);
      var m := r[0];
      var rest := SortedLabels(s - {m});
      assert r == [m] + rest;
      SortedLabelsAscend(s - {m});
      forall j | 0 <= j < |rest|
        ensures m < rest[j]
      {
        assert rest[j] in s - {m};
      }
    }
  }

  lemma {:induction false} SortedLabelsMembers(s: set<char>)
    ensures forall c :: c in s <==> c in SortedLabels(s)
    decreases |s|
  {
    if s != {} {
      var r := SortedLabels(s);
      var m := r[0];
      assert r == [m] + SortedLabels(s - {m});
      SortedLabelsMembers(s - {m});
      forall c | c in s
        ensures c in r
      {
        if c != m {
          assert c in SortedLabels(s - {m});
        }
      }
    }
  }

  // ---------------------------------------------------------------------
  // new_headers
  // ---------------------------------------------------------------------

  /** The headers `hs`, each suffixed `_{l}_{i}`. */
  function Suffixed(hs: seq<string>, l: char, i: nat): (cols: seq<string>)
    ensures |cols| == |hs|
  {
    if hs == [] then []
    else Suffixed(hs[..|hs| - 1], l, i) + [NumKey(hs[|hs| - 1], l, i)]
  }

  /** The numbered columns of label `l`: `headers[2:]` suffixed `_{l}_{i}` for i = 1 .. m. */
  function GroupColumns(headers: seq<string>, l: char, m: nat): seq<string>
    requires |headers| >= 2
  {
    if m == 0 then []
    else GroupColumns(headers, l, m - 1) + Suffixed(headers[2..], l, m)
  }

  /** The columns of the labels in `labels`, in that order: each group name, then its numbered columns. */
  function LabelColumns(headers: seq<string>, hi: map<char, nat>, labels: seq<char>): seq<string>
    requires labels != [] ==> |headers| >= 2
    requires forall k :: 0 <= k < |labels| ==> labels[k] in hi
  {
    if labels == [] then []
    else
      var l := labels[|labels| - 1];
      LabelColumns(headers, hi, labels[..|labels| - 1]) + [NameKey(headers[1], l)] + GroupColumns(headers, l, hi[l])
  }

  /**
   * What `write_data` asks of its inputs: `headers[0]` always, and
   * `headers[1]` once there is a label.
   */
  predicate SchemaReady(headers: seq<string>, hi: map<char, nat>) {
    |headers| >= 1 && (hi != map[] ==> |headers| >= 2)
  }

  /** `new_headers`: the ID header, then the columns of every label in ascending order. */
  function Schema(headers: seq<string>, hi: map<char, nat>): seq<string>
    requires SchemaReady(headers, hi)
  {
    var labels := SortedLabels(hi.Keys);
    [headers[0]] + LabelColumns(headers, hi, labels)
  }

  lemma SuffixedSnoc(hs: seq<string>, l: char, i: nat, j: nat)
    requires j < |hs|
    ensures Suffixed(hs[..j + 1], l, i) == Suffixed(hs[..j], l, i) + [NumKey(hs[j], l, i)]
  {
    assert hs[..j + 1][..j] == hs[..j];
  }

  lemma GroupColumnsSnoc(headers: seq<string>, l: char, i: nat, pre: seq<string>)
    requires |headers| >= 2 && i >= 1
    ensures pre + GroupColumns(headers, l, i - 1) + Suffixed(headers[2..], l, i) == pre + GroupColumns(headers, l, i)
  {
  }

  lemma LabelColumnsSnoc(headers: seq<string>, hi: map<char, nat>, labels: seq<char>, a: nat)
    requires a < |labels| && |headers| >= 2
    requires forall k :: 0 <= k < |labels| ==> labels[k] in hi
    ensures LabelColumns(headers, hi, labels[..a + 1]) ==
            LabelColumns(headers, hi, labels[..a]) + [NameKey(headers[1], labels[a])] + GroupColumns(headers, labels[a], hi[labels[a]])
  {
    assert labels[..a + 1][..a] == labels[..a];
  }

  /** Reassociating a concatenation. Kept as a separate proof step so that callers' proofs stay small. */
  lemma Regroup<T>(x: seq<T>, y: seq<T>, z: seq<T>, w: seq<T>)
    ensures x + y + z + w == x + (y + z + w)
  {
  }

  /** The innermost loop of `write_data`: append `hs`, each suffixed `_{l}_{i}`. */
  method AppendSuffixed(acc: seq<string>, hs: seq<string>, l: char, i: nat) returns (out: seq<string>)
    ensures out == acc + Suffixed(hs, l, i)
  {
    out := acc;
    for j := 0 to |hs|
      invariant out == acc + Suffixed(hs[..j], l, i)
    {
      SuffixedSnoc(hs, l, i, j);
      out := out + [NumKey(hs[j], l, i)];
    }
    assert hs[..|hs|] == hs;
  }

  /** The middle loop of `write_data`: for i = 1 .. m, append `headers[2:]` suffixed `_{l}_{i}`. */
  method AppendGroupColumns(acc: seq<string>, headers: seq<string>, l: char, m: nat) returns (out: seq<string>)
    requires |headers| >= 2
    ensures out == acc + GroupColumns(headers, l, m)
  {
    out := acc;
    for i := 1 to m + 1
      invariant out == acc + GroupColumns(headers, l, i - 1)
    {
      GroupColumnsSnoc(headers, l, i, acc);
      out := AppendSuffixed(out, headers[2..], l, i);
    }
  }

  /** The outer loop of `write_data`: for each label in turn, its group name and its numbered columns. */
  method AppendLabels(acc: seq<string>, headers: seq<string>, hi: map<char, nat>, labels: seq<char>) returns (out: seq<string>)
    requires labels != [] ==> |headers| >= 2
    requires forall k :: 0 <= k < |labels| ==> labels[k] in hi
    ensures out == acc + LabelColumns(headers, hi, labels)
  {
    out := acc;
    for a := 0 to |labels|
      invariant out == acc + LabelColumns(headers, hi, labels[..a])
    {
      var alpha := labels[a];
      var prev := out;
      LabelColumnsSnoc(headers, hi, labels, a);
      out := out + [NameKey(headers[1], alpha)];
      out := AppendGroupColumns(out, headers, alpha, hi[alpha]);
      Regroup(acc, LabelColumns(headers, hi, labels[..a]), [NameKey(headers[1], alpha)], GroupColumns(headers, alpha, hi[alpha]));
    }
    assert labels[..|labels|] == labels;
  }

  /** `new_headers`: the ID header, then the labels of `highest` in ascending order. */
  method DeriveSchema(headers: seq<string>, highest: map<char, nat>) returns (newHeaders: seq<string>)
    requires SchemaReady(headers, highest)
    ensures newHeaders == Schema(headers, highest)
  {
    var labels := SortedLabels(highest.Keys);
    if labels != [] {
      assert labels[0] in highest;
    }
    newHeaders := AppendLabels([headers[0]], headers, highest, labels);
  }

  // ---------------------------------------------------------------------
  // The layout of new_headers
  // ---------------------------------------------------------------------

  /** The columns of one label: its group name, then its numbered columns. */
  function Block(headers: seq<string>, hi: map<char, nat>, l: char): seq<string>
    requires |headers| >= 2 && l in hi
  {
    [NameKey(headers[1], l)] + GroupColumns(headers, l, hi[l])
  }

  /** `1 + highest[L] * len(headers[2:])` summed over `labels`. */
  function Width(headers: seq<string>, hi: map<char, nat>, labels: seq<char>): nat
    requires forall k :: 0 <= k < |labels| ==> labels[k] in hi
  {
    if labels == [] then 0
    else Width(headers, hi, labels[..|labels| - 1]) + 1 + hi[labels[|labels| - 1]] * Numbered(headers)
  }

  /** `len(headers[2:])`: the number of numbered columns per row number. */
  function Numbered(headers: seq<string>): nat {
    if |headers| < 2 then 0 else |headers| - 2
  }

  /** Where `{headers[j]}_{L}_{n}` sits among a label's numbered columns: `(n-1)*w + (j-2)`. */
  function NumOffset(headers: seq<string>, n: nat, j: nat): nat
    requires 1 <= n && 2 <= j
  {
    (n - 1) * Numbered(headers) + (j - 2)
  }

  /** Peeling one factor off a product. Kept as a separate proof step so that callers' proofs stay small. */
  lemma MulPred(m: nat, w: nat)
    requires m >= 1
    ensures m * w == (m - 1) * w + w
  {
  }

  lemma {:induction false} SuffixedAt(hs: seq<string>, l: char, i: nat, j: nat)
    requires j < |hs|
    ensures Suffixed(hs, l, i)[j] == NumKey(hs[j], l, i)
    decreases |hs|
  {
    var init := hs[..|hs| - 1];
    if j < |init| {
      SuffixedAt(init, l, i, j);
    }
  }

  lemma {:induction false} GroupColumnsLength(headers: seq<string>, l: char, m: nat)
    requires |headers| >= 2
    ensures |GroupColumns(headers, l, m)| == m * Numbered(headers)
  {
    if m > 0 {
      GroupColumnsLength(headers, l, m - 1);
      MulPred(m, Numbered(headers));
    }
  }

  /**
   * The numbered columns of a label come row number by row number, and
   * within one row number in header order: column `(n-1)*w + (j-2)` is
   * `{headers[j]}_{l}_{n}`, where w = len(headers[2:]).
   */
  lemma {:induction false} GroupColumnsAt(headers: seq<string>, l: char, m: nat, n: nat, j: nat)
    requires |headers| >= 2 && 1 <= n <= m && 2 <= j < |headers|
    ensures NumOffset(headers, n, j) < |GroupColumns(headers, l, m)|
    ensures GroupColumns(headers, l, m)[NumOffset(headers, n, j)] == NumKey(headers[j], l, n)
    decreases m
  {
    var w := Numbered(headers);
    var prev, rest := GroupColumns(headers, l, m - 1), headers[2..];
    assert GroupColumns(headers, l, m) == prev + Suffixed(rest, l, m);
    GroupColumnsLength(headers, l, m - 1);
    MulPred(m, w);
    if n < m {
      GroupColumnsAt(headers, l, m - 1, n, j);
    } else {
      SuffixedAt(rest, l, m, j - 2);
    }
  }

  /** `LabelColumns` grows by the last label's block. */
  lemma LabelColumnsLast(headers: seq<string>, hi: map<char, nat>, labels: seq<char>)
    requires |headers| >= 2 && labels != []
    requires forall i :: 0 <= i < |labels| ==> labels[i] in hi
    ensures LabelColumns(headers, hi, labels) ==
      LabelColumns(headers, hi, labels[..|labels| - 1]) + Block(headers, hi, labels[|labels| - 1])
  {
  }

  /** The blocks of `labels`, one per label, in order. */
  function Blocks(headers: seq<string>, hi: map<char, nat>, labels: seq<char>): (bs: seq<seq<string>>)
    requires |headers| >= 2
    requires forall i :: 0 <= i < |labels| ==> labels[i] in hi
    ensures |bs| == |labels|
  {
    seq(|labels|, i requires 0 <= i < |labels| => Block(headers, hi, labels[i]))
  }

  /** The blocks laid end to end. */
  function Concat<T>(bs: seq<seq<T>>): seq<T> {
    if |bs| == 0 then [] else Concat(bs[..|bs| - 1]) + bs[|bs| - 1]
  }

  /** Block `k` of a concatenation starts where the blocks before it end. */
  lemma {:induction false} ConcatAt<T>(bs: seq<seq<T>>, k: nat)
    requires k < |bs|
    ensures var o := |Concat(bs[..k])|;
      o + |bs[k]| <= |Concat(bs)| && Concat(bs)[o..o + |bs[k]|] == bs[k]
    decreases |bs|
  {
    var init := bs[..|bs| - 1];
    if k < |bs| - 1 {
      ConcatAt(init, k);
      assert init[..k] == bs[..k];
      var o := |Concat(bs[..k])|;
      assert Concat(bs)[o..o + |bs[k]|] == Concat(init)[o..o + |bs[k]|];
    } else {
      assert bs[..k] == init;
    }
  }

  /** `ConcatAt` with the concatenation, the offset and the block named by the caller. */
  lemma ConcatSlice<T>(bs: seq<seq<T>>, k: nat, whole: seq<T>, o: nat, b: seq<T>)
    requires k < |bs| && whole == Concat(bs) && o == |Concat(bs[..k])| && b == bs[k]
    ensures o + |b| <= |whole| && whole[o..o + |b|] == b
  {
    ConcatAt(bs, k);
  }

  /** `LabelColumns` is the labels' blocks laid end to end. */
  lemma {:induction false} LabelColumnsConcat(headers: seq<string>, hi: map<char, nat>, labels: seq<char>)
    requires |headers| >= 2
    requires forall i :: 0 <= i < |labels| ==> labels[i] in hi
    ensures LabelColumns(headers, hi, labels) == Concat(Blocks(headers, hi, labels))
    decreases |labels|
  {
    if labels != [] {
      var init := labels[..|labels| - 1];
      LabelColumnsConcat(headers, hi, init);
      LabelColumnsLast(headers, hi, labels);
      assert Blocks(headers, hi, labels)[..|labels| - 1] == Blocks(headers, hi, init);
    }
  }

  /** Label `labels[k]`'s block sits at offset `Width(labels[..k])` of `LabelColumns(labels)`. */
  lemma LabelColumnsAt(headers: seq<string>, hi: map<char, nat>, labels: seq<char>, k: nat)
    requires |headers| >= 2 && k < |labels|
    requires forall i :: 0 <= i < |labels| ==> labels[i] in hi
    ensures var o := Width(headers, hi, labels[..k]);
      var b := Block(headers, hi, labels[k]);
      o + |b| <= |LabelColumns(headers, hi, labels)| &&
      LabelColumns(headers, hi, labels)[o..o + |b|] == b
  {
    var bs := Blocks(headers, hi, labels);
    LabelColumnsConcat(headers, hi, labels);
    BlocksBefore(headers, hi, labels, k);
    ConcatSlice(bs, k, LabelColumns(headers, hi, labels), Width(headers, hi, labels[..k]), Block(headers, hi, labels[k]));
  }

  /** The blocks before `labels[k]` take `Width(labels[..k])` columns. */
  lemma BlocksBefore(headers: seq<string>, hi: map<char, nat>, labels: seq<char>, k: nat)
    requires |headers| >= 2 && k <= |labels|
    requires forall i :: 0 <= i < |labels| ==> labels[i] in hi
    ensures |Concat(Blocks(headers, hi, labels)[..k])| == Width(headers, hi, labels[..k])
  {
    LabelColumnsConcat(headers, hi, labels[..k]);
    LabelColumnsLength(headers, hi, labels[..k]);
    assert Blocks(headers, hi, labels[..k]) == Blocks(headers, hi, labels)[..k];
  }

  lemma {:induction false} LabelColumnsLength(headers: seq<string>, hi: map<char, nat>, labels: seq<char>)
    requires labels != [] ==> |headers| >= 2
    requires forall i :: 0 <= i < |labels| ==> labels[i] in hi
    ensures |LabelColumns(headers, hi, labels)| == Width(headers, hi, labels)
    decreases |labels|
  {
    if labels != [] {
      var last := labels[|labels| - 1];
      LabelColumnsLength(headers, hi, labels[..|labels| - 1]);
      GroupColumnsLength(headers, last, hi[last]);
    }
  }

  /**
   * The shape of `new_headers`: `headers[0]` first, then one block per label
   * of `highest`, in ascending label order; its length is
   * `1 + sum over labels L of (1 + highest[L] * len(headers[2:]))`.
   */
  lemma SchemaLayout(headers: seq<string>, hi: map<char, nat>, k: nat)
    requires SchemaReady(headers, hi)
    ensures var labels := SortedLabels(hi.Keys);
      && Schema(headers, hi)[0] == headers[0]
      && |Schema(headers, hi)| == 1 + Width(headers, hi, labels)
      && (k < |labels| ==>
            var o := 1 + Width(headers, hi, labels[..k]);
            var b := Block(headers, hi, labels[k]);
            o + |b| <= |Schema(headers, hi)| && Schema(headers, hi)[o..o + |b|] == b)
  {
    var labels := SortedLabels(hi.Keys);
    if labels != [] {
      assert labels[0] in hi;
    }
    LabelColumnsLength(headers, hi, labels);
    if k < |labels| {
      LabelColumnsAt(headers, hi, labels, k);
      var o := Width(headers, hi, labels[..k]);
      var b := Block(headers, hi, labels[k]);
      var cols := LabelColumns(headers, hi, labels);
      assert Schema(headers, hi) == [headers[0]] + cols;
      ConsSlice(headers[0], cols, o, |b|);
    }
  }

  /** A slice after a prepended element. Kept as a separate proof step so that callers' proofs stay small. */
  lemma ConsSlice<T>(a: T, g: seq<T>, i: nat, n: nat)
    requires i + n <= |g|
    ensures ([a] + g)[1 + i..1 + i + n] == g[i..i + n]
  {
  }

  /** An index after a prepended element. Kept as a separate proof step so that callers' proofs stay small. */
  lemma ConsAt(a: string, g: seq<string>, x: nat)
    requires x < |g|
    ensures ([a] + g)[1 + x] == g[x]
  {
  }

  /**
   * Within a label's block: the group name first, then for n = 1 ..
   * highest[L] the columns `headers[2:]` suffixed `_{L}_{n}`, in header
   * order: position `1 + (n-1)*len(headers[2:]) + (j-2)` is `{headers[j]}_{L}_{n}`.
   */
  lemma BlockAt(headers: seq<string>, hi: map<char, nat>, l: char, n: nat, j: nat)
    requires |headers| >= 2 && l in hi
    ensures |Block(headers, hi, l)| == 1 + hi[l] * Numbered(headers)
    ensures Block(headers, hi, l)[0] == NameKey(headers[1], l)
    ensures 1 <= n <= hi[l] && 2 <= j < |headers| ==>
      1 + NumOffset(headers, n, j) < |Block(headers, hi, l)| &&
      Block(headers, hi, l)[1 + NumOffset(headers, n, j)] == NumKey(headers[j], l, n)
  {
    var g := GroupColumns(headers, l, hi[l]);
    GroupColumnsLength(headers, l, hi[l]);
    if 1 <= n <= hi[l] && 2 <= j < |headers| {
      GroupColumnsAt(headers, l, hi[l], n, j);
      ConsAt(NameKey(headers[1], l), g, NumOffset(headers, n, j));
    }
  }

  // ---------------------------------------------------------------------
  // Which names are columns
  // ---------------------------------------------------------------------

  lemma {:induction false} SuffixedMembers(hs: seq<string>, l: char, i: nat, key: string)
    ensures key in Suffixed(hs, l, i) <==> exists j :: 0 <= j < |hs| && key == NumKey(hs[j], l, i)
    decreases |hs|
  {
    if hs != [] {
      var init := hs[..|hs| - 1];
      SuffixedMembers(init, l, i, key);
      assert Suffixed(hs, l, i) == Suffixed(init, l, i) + [NumKey(hs[|hs| - 1], l, i)];
      if exists j :: 0 <= j < |hs| && key == NumKey(hs[j], l, i) {
        var j :| 0 <= j < |hs| && key == NumKey(hs[j], l, i);
        if j < |init| {
          assert init[j] == hs[j];
        }
      }
    }
  }

  lemma {:induction false} GroupMembers(headers: seq<string>, l: char, m: nat, key: string)
    requires |headers| >= 2
    ensures key in GroupColumns(headers, l, m) <==>
      exists j, n :: 2 <= j < |headers| && 1 <= n <= m && key == NumKey(headers[j], l, n)
    decreases m
  {
    if m > 0 {
      var rest := headers[2..];
      GroupMembers(headers, l, m - 1, key);
      SuffixedMembers(rest, l, m, key);
      assert GroupColumns(headers, l, m) == GroupColumns(headers, l, m - 1) + Suffixed(rest, l, m);
      if key in Suffixed(rest, l, m) {
        var j :| 0 <= j < |rest| && key == NumKey(rest[j], l, m);
        assert key == NumKey(headers[j + 2], l, m);
      }
      if exists j, n :: 2 <= j < |headers| && 1 <= n <= m && key == NumKey(headers[j], l, n) {
        var j, n :| 2 <= j < |headers| && 1 <= n <= m && key == NumKey(headers[j], l, n);
        if n == m {
          assert key == NumKey(rest[j - 2], l, m);
        }
      }
    }
  }

  /** The names `LabelColumns(labels)` consists of. */
  ghost predicate InLabelColumns(headers: seq<string>, hi: map<char, nat>, labels: seq<char>, key: string) {
    || (exists l :: l in labels && 2 <= |headers| && key == NameKey(headers[1], l))
    || (exists l, j, n :: l in labels && l in hi && 2 <= j < |headers| && 1 <= n <= hi[l] && key == NumKey(headers[j], l, n))
  }

  /** Every name in `LabelColumns(labels)` is a group name or a numbered column of one of `labels`. */
  lemma {:induction false} LabelMembersSound(headers: seq<string>, hi: map<char, nat>, labels: seq<char>, key: string)
    requires labels != [] ==> |headers| >= 2
    requires forall k :: 0 <= k < |labels| ==> labels[k] in hi
    requires key in LabelColumns(headers, hi, labels)
    ensures InLabelColumns(headers, hi, labels, key)
    decreases |labels|
  {
    var init, last := labels[..|labels| - 1], labels[|labels| - 1];
    assert LabelColumns(headers, hi, labels) ==
      LabelColumns(headers, hi, init) + [NameKey(headers[1], last)] + GroupColumns(headers, last, hi[last]);
    if key in LabelColumns(headers, hi, init) {
      LabelMembersSound(headers, hi, init, key);
      if exists l :: l in init && 2 <= |headers| && key == NameKey(headers[1], l) {
        var l :| l in init && 2 <= |headers| && key == NameKey(headers[1], l);
        assert l in labels;
      } else {
        var l, j, n :| l in init && l in hi && 2 <= j < |headers| && 1 <= n <= hi[l] && key == NumKey(headers[j], l, n);
        assert l in labels;
      }
    } else if key == NameKey(headers[1], last) {
      assert last in labels;
    } else {
      GroupMembers(headers, last, hi[last], key);
      assert last in labels;
    }
  }

  /** The group name of each of `labels` is in `LabelColumns(labels)`. */
  lemma {:induction false} NameInLabelColumns(headers: seq<string>, hi: map<char, nat>, labels: seq<char>, l: char)
    requires |headers| >= 2 && l in labels
    requires forall k :: 0 <= k < |labels| ==> labels[k] in hi
    ensures NameKey(headers[1], l) in LabelColumns(headers, hi, labels)
    decreases |labels|
  {
    var init, last := labels[..|labels| - 1], labels[|labels| - 1];
    var cols := LabelColumns(headers, hi, labels);
    assert cols == LabelColumns(headers, hi, init) + [NameKey(headers[1], last)] + GroupColumns(headers, last, hi[last]);
    if l != last {
      assert labels == init + [last];
      NameInLabelColumns(headers, hi, init, l);
    }
  }

  /** Each numbered column of each of `labels` is in `LabelColumns(labels)`. */
  lemma {:induction false} NumInLabelColumns(headers: seq<string>, hi: map<char, nat>, labels: seq<char>,
                                             l: char, j: nat, n: nat)
    requires 2 <= j < |headers| && l in labels
    requires forall k :: 0 <= k < |labels| ==> labels[k] in hi
    requires 1 <= n <= hi[l]
    ensures NumKey(headers[j], l, n) in LabelColumns(headers, hi, labels)
    decreases |labels|
  {
    var init, last := labels[..|labels| - 1], labels[|labels| - 1];
    var cols := LabelColumns(headers, hi, labels);
    assert cols == LabelColumns(headers, hi, init) + [NameKey(headers[1], last)] + GroupColumns(headers, last, hi[last]);
    if l != last {
      assert labels == init + [last];
      NumInLabelColumns(headers, hi, init, l, j, n);
    } else {
      GroupMembers(headers, last, hi[last], NumKey(headers[j], l, n));
    }
  }

  /** Every group name and numbered column of one of `labels` is in `LabelColumns(labels)`. */
  lemma LabelMembersComplete(headers: seq<string>, hi: map<char, nat>, labels: seq<char>, key: string)
    requires labels != [] ==> |headers| >= 2
    requires forall k :: 0 <= k < |labels| ==> labels[k] in hi
    requires InLabelColumns(headers, hi, labels, key)
    ensures key in LabelColumns(headers, hi, labels)
  {
    if exists l :: l in labels && 2 <= |headers| && key == NameKey(headers[1], l) {
      var l :| l in labels && 2 <= |headers| && key == NameKey(headers[1], l);
      NameInLabelColumns(headers, hi, labels, l);
    } else {
      var l, j, n :| l in labels && l in hi && 2 <= j < |headers| && 1 <= n <= hi[l] && key == NumKey(headers[j], l, n);
      NumInLabelColumns(headers, hi, labels, l, j, n);
    }
  }

  /** The names `new_headers` consists of. */
  ghost predicate InSchema(headers: seq<string>, hi: map<char, nat>, key: string)
    requires |headers| >= 1
  {
    || key == headers[0]
    || (exists l :: l in hi && 2 <= |headers| && key == NameKey(headers[1], l))
    || (exists l, j, n :: l in hi && 2 <= j < |headers| && 1 <= n <= hi[l] && key == NumKey(headers[j], l, n))
  }

  /**
   * A name is a column of `new_headers` exactly when it is `headers[0]`, a
   * group name `{headers[1]}_{L}` of a label L of `highest`, or a numbered
   * column `{headers[j]}_{L}_{n}` with j >= 2 and 1 <= n <= highest[L].
   */
  lemma SchemaMembers(headers: seq<string>, hi: map<char, nat>, key: string)
    requires SchemaReady(headers, hi)
    ensures key in Schema(headers, hi) <==> InSchema(headers, hi, key)
  {
    var labels := SortedLabels(hi.Keys);
    if labels != [] {
      assert labels[0] in hi;
    }
    SortedLabelsSorted(hi.Keys);
    if key in LabelColumns(headers, hi, labels) {
      LabelMembersSound(headers, hi, labels, key);
    }
    if InLabelColumns(headers, hi, labels, key) {
      LabelMembersComplete(headers, hi, labels, key);
    }
    assert InLabelColumns(headers, hi, labels, key) <==>
      || (exists l :: l in hi && 2 <= |headers| && key == NameKey(headers[1], l))
      || (exists l, j, n :: l in hi && 2 <= j < |headers| && 1 <= n <= hi[l] && key == NumKey(headers[j], l, n));
  }
}

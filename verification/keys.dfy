/**
 * Group labels and the synthetic field names built from them
 * (`{header}_{label}` and `{header}_{label}_{seq}`).
 */
module Keys {
  import opened Table

  /** Python's `string.ascii_uppercase`, the labels of the first 26 groups of an ID. */
  const Alphabet: string := "ABCDEFGHIJKLMNOPQRSTUVWXYZ"

  predicate IsUpper(c: char) {
    'A' <= c <= 'Z'
  }

  predicate IsDigit(c: char) {
    '0' <= c <= '9'
  }

  /**
   * The label of a row whose group counter is `groupIndex`; `None` where the
   * source's alphabet lookup fails (see `LabelIsAlphabetLookup`).
   */
  function Label(groupIndex: nat): (r: Option<char>)
    ensures r.Some? <==> groupIndex <= 26
    ensures r.Some? ==> IsUpper(r.value)
  {
    if groupIndex == 0 then Some('Z')
    else if groupIndex <= 26 then Some(('A' as int + groupIndex - 1) as char)
    else None
  }

  /**
   * `Label` is the lookup `alphabet[groupIndex - 1]`: counter 0 (no group
   * marker yet for the current ID) is Python's index -1, the last letter;
   * a counter above 26 is past the end of the alphabet.
   */
  lemma LabelIsAlphabetLookup(groupIndex: nat)
    ensures groupIndex == 0 ==> Label(groupIndex) == Some(Alphabet[|Alphabet| - 1])
    ensures 1 <= groupIndex <= |Alphabet| ==> Label(groupIndex) == Some(Alphabet[groupIndex - 1])
    ensures groupIndex > |Alphabet| ==> Label(groupIndex) == None
  {
    AlphabetIsLetters();
  }

  /** The literal alphabet is the 26 consecutive letters from 'A'. */
  lemma AlphabetIsLetters()
    ensures |Alphabet| == 26
    ensures forall i :: 0 <= i < 26 ==> Alphabet[i] == ('A' as int + i) as char
  {
  }

  /** Groups 1..26 of an ID get pairwise distinct labels, in ascending order. */
  lemma LabelsAscend(a: nat, b: nat)
    requires 1 <= a < b <= 26
    ensures Label(a).Some? && Label(b).Some? && Label(a).value < Label(b).value
  {
  }

  function DigitChar(d: nat): (c: char)
    requires d < 10
    ensures IsDigit(c)
  {
    ('0' as int + d) as char
  }

  /** The value of a decimal digit. */
  function DigitValue(c: char): (d: nat)
    requires IsDigit(c)
    ensures d < 10 && DigitChar(d) == c
  {
    c as int - '0' as int
  }

  /** The number a run of decimal digits spells, most significant digit first. */
  function DecValue(s: string): nat
    requires forall i :: 0 <= i < |s| ==> IsDigit(s[i])
  {
    if s == [] then 0 else DecValue(s[..|s| - 1]) * 10 + DigitValue(s[|s| - 1])
  }

  /** `str(n)` for a natural number: its decimal digits (see `DecimalSpells`). */
  function Decimal(n: nat): (s: string)
    ensures |s| >= 1
    ensures forall i :: 0 <= i < |s| ==> IsDigit(s[i])
    ensures |s| == 1 <==> n < 10
    decreases n
  {
    if n < 10 then [DigitChar(n)] else Decimal(n / 10) + [DigitChar(n % 10)]
  }

  /**
   * The rendering spells `n`, most significant digit first, with a leading
   * '0' only for zero itself.
   */
  lemma {:induction false} DecimalSpells(n: nat)
    ensures DecValue(Decimal(n)) == n
    ensures Decimal(n)[0] == '0' <==> n == 0
    decreases n
  {
    if n >= 10 {
      var s := Decimal(n);
      DecimalSpells(n / 10);
      assert s[..|s| - 1] == Decimal(n / 10);
    }
  }

  /**
   * Every digit string without a leading zero (other than "0" itself) is
   * the rendering of the number it spells.
   */
  lemma {:induction false} DecimalOfValue(s: string)
    requires |s| >= 1 && forall i :: 0 <= i < |s| ==> IsDigit(s[i])
    requires |s| > 1 ==> s[0] != '0'
    ensures Decimal(DecValue(s)) == s
    decreases |s|
  {
    if |s| > 1 {
      var p, d := s[..|s| - 1], DigitValue(s[|s| - 1]);
      DecimalOfValue(p);
      var v := DecValue(p);
      DecimalSpells(v);
      assert Decimal(v)[0] == p[0] == s[0];
      assert v * 10 + d >= 10 && (v * 10 + d) / 10 == v && (v * 10 + d) % 10 == d;
      assert s == p + [DigitChar(d)];
    }
  }

  /** Distinct numbers have distinct decimal renderings. */
  lemma {:induction false} DecimalInjective(a: nat, b: nat)
    requires Decimal(a) == Decimal(b)
    ensures a == b
    decreases a
  {
    if a >= 10 && b >= 10 {
      var da, db := Decimal(a), Decimal(b);
      assert da == Decimal(a / 10) + [DigitChar(a % 10)];
      assert db == Decimal(b / 10) + [DigitChar(b % 10)];
      assert da[..|da| - 1] == Decimal(a / 10);
      assert db[..|db| - 1] == Decimal(b / 10);
      DecimalInjective(a / 10, b / 10);
      assert DigitChar(a % 10) == da[|da| - 1] == db[|db| - 1] == DigitChar(b % 10);
    }
  }

  /** `f"{header}_{label}"`: the group-name field of a group. */
  function NameKey(header: string, letter: char): (k: string)
    ensures |k| == |header| + 2 && k[|header|] == '_' && k[|header| + 1] == letter
  {
    header + "_" + [letter]
  }

  /** `f"{header}_{label}_{seq}"`: a field of the seq-th row of a group. */
  function NumKey(header: string, letter: char, n: nat): (k: string)
    ensures |k| == |header| + 3 + |Decimal(n)|
    ensures k[|header|] == '_' && k[|header| + 1] == letter && k[|header| + 2] == '_'
    ensures IsDigit(k[|k| - 1])
  {
    header + "_" + [letter] + "_" + Decimal(n)
  }

  /** A group-name field determines its header and label. */
  lemma NameKeyInjective(h1: string, l1: char, h2: string, l2: char)
    requires NameKey(h1, l1) == NameKey(h2, l2)
    ensures h1 == h2 && l1 == l2
  {
    var k := NameKey(h1, l1);
    assert h1 == k[..|k| - 2] == h2;
  }

  /**
   * A numbered field determines its header, label and sequence number: the
   * digits are the text after the last '_', whatever the header contains.
   */
  lemma NumKeyInjective(h1: string, l1: char, n1: nat, h2: string, l2: char, n2: nat)
    requires NumKey(h1, l1, n1) == NumKey(h2, l2, n2)
    ensures h1 == h2 && l1 == l2 && n1 == n2
  {
    var k := NumKey(h1, l1, n1);
    var d1, d2 := Decimal(n1), Decimal(n2);
    assert k == h1 + "_" + [l1] + "_" + d1;
    assert k == h2 + "_" + [l2] + "_" + d2;
    if |d1| != |d2| {
      // the shorter rendering is preceded by '_', which is a digit of the longer one
      assert false;
    }
    assert d1 == k[|k| - |d1|..] == d2;
    DecimalInjective(n1, n2);
    assert h1 == k[..|k| - |d1| - 3] == h2;
  }

  /** A group-name field ends in its letter, a numbered field in a digit. */
  lemma NameKeyIsNotNumKey(h1: string, l1: char, h2: string, l2: char, n: nat)
    requires IsUpper(l1)
    ensures NameKey(h1, l1) != NumKey(h2, l2, n)
  {
    var a, b := NameKey(h1, l1), NumKey(h2, l2, n);
    assert a[|a| - 1] == l1;
  }

  /** No synthetic field name is the literal "ID": all contain '_'. */
  lemma SyntheticKeysAreNotId(h: string, l: char, n: nat)
    ensures NameKey(h, l) != "ID" && NumKey(h, l, n) != "ID"
  {
    var a, b := NameKey(h, l), NumKey(h, l, n);
    if |h| < 2 {
      assert a[|h|] == '_' && b[|h|] == '_';
      assert "ID"[|h|] != '_';
    }
  }
}

/** Bytes, optional values and the decimal texts that the queue headers carry.
    A count is printed with "%08d" and read back with AtoIf (st01/sub/atoif.c). */
module Bytes {

  type Byte = x: int | 0 <= x < 256

  const NUL: Byte := 0
  const LF: Byte := 10
  const SPACE: Byte := 32
  const DIGIT_0: Byte := 48
  const MINUS: Byte := 45
  const BRACKET_L: Byte := 91
  const BRACKET_R: Byte := 93

  /** C's int result codes used by the file and data-SHM calls. */
  const NOTOK: int := -1
  const OK: int := 0

  datatype Option<+T> = None | Some(value: T)

  function Min(a: int, b: int): int { if a < b then a else b }

  function Max(a: int, b: int): int { if a < b then b else a }

  function Repeat<T>(x: T, n: nat): (s: seq<T>)
    ensures |s| == n && forall i :: 0 <= i < n ==> s[i] == x
  {
    seq(n, _ => x)
  }

  predicate IsDigit(b: Byte) { DIGIT_0 <= b <= 57 }

  /** "%0<w>d" of a non-negative number: at least `w` digits. */
  function Decimal(n: nat, w: nat): (s: seq<Byte>)
    ensures forall i :: 0 <= i < |s| ==> IsDigit(s[i])
    decreases n, w
  {
    if n < 10 && w <= 1 then [DIGIT_0 + n]
    else Decimal(n / 10, if w > 0 then w - 1 else 0) + [DIGIT_0 + n % 10]
  }

  function Pow10(k: nat): (r: nat)
    ensures r >= 1
  {
    if k == 0 then 1 else 10 * Pow10(k - 1)
  }

  /** The value AtoIf accumulates: digits count, every other character is skipped. */
  function DigitsValue(s: seq<Byte>): nat {
    if s == [] then 0
    else
      var rest := DigitsValue(s[..|s| - 1]);
      if IsDigit(s[|s| - 1]) then rest * 10 + (s[|s| - 1] - DIGIT_0) else rest
  }

  /** AtoIf: a minus sign anywhere makes the result negative. */
  function AtoI(s: seq<Byte>): int {
    var v: int := DigitsValue(s);
    if MINUS in s then -v else v
  }

  /** The loop of AtoIf over the first `len` characters of the text. */
  method AtoIf(ascii: seq<Byte>, len: nat) returns (jj: int)
    requires len <= |ascii|
    ensures jj == AtoI(ascii[..len])
  {
    jj := 0;
    var u := false;
    for i := 0 to len
      invariant jj == DigitsValue(ascii[..i])
      invariant u == (MINUS in ascii[..i])
    {
      var c := ascii[i];
      assert ascii[..i + 1] == ascii[..i] + [c];
      if IsDigit(c) {
        jj := jj * 10 + (c - DIGIT_0);
      } else if c == MINUS {
        u := true;
      }
    }
    if u {
      jj := jj * -1;
    }
  }

  lemma {:induction false} DecimalWidth(n: nat, w: nat)
    requires w >= 1
    ensures |Decimal(n, w)| >= w
    ensures |Decimal(n, w)| == w <==> n < Pow10(w)
    decreases n, w
  {
    if n < 10 && w <= 1 {
      assert Pow10(1) == 10 * Pow10(0);
    } else if w == 1 {
      assert Pow10(1) == 10 * Pow10(0);
      DecimalNonEmpty(n / 10, 0);
    } else {
      DecimalWidth(n / 10, w - 1);
    }
  }

  lemma {:induction false} DecimalNonEmpty(n: nat, w: nat)
    ensures |Decimal(n, w)| >= 1
  {
  }

  /** Printing a count and reading all its digits gives the count back. */
  lemma {:induction false} DecimalValue(n: nat, w: nat)
    ensures DigitsValue(Decimal(n, w)) == n
    decreases n, w
  {
    var s := Decimal(n, w);
    if n < 10 && w <= 1 {
      assert s[..0] == [];
      assert DigitsValue(s[..0]) == 0;
    } else {
      var w' := if w > 0 then w - 1 else 0;
      DecimalValue(n / 10, w');
      assert s[..|s| - 1] == Decimal(n / 10, w');
    }
  }

  lemma {:induction false} DigitsValueBound(s: seq<Byte>)
    ensures DigitsValue(s) < Pow10(|s|)
  {
    if s == [] {
    } else {
      DigitsValueBound(s[..|s| - 1]);
    }
  }

  /** Leaving digits out at the end never makes a number larger. */
  lemma {:induction false} FrontValue(s: seq<Byte>, k: nat)
    requires k <= |s|
    ensures DigitsValue(s[..k]) <= DigitsValue(s)
    decreases |s|
  {
    if k == |s| {
      assert s[..k] == s;
    } else {
      var front := s[..|s| - 1];
      FrontValue(front, k);
      assert front[..k] == s[..k];
    }
  }

  lemma {:induction false} DivideOnce(n: nat, a: nat)
    requires a > 0
    ensures (n / 10) / a == n / (10 * a)
  {
    var q, r := (n / 10) / a, (n / 10) % a;
    var rest := 10 * r + n % 10;
    assert n / 10 == a * q + r;
    assert 0 <= rest < 10 * a;
    assert n == (10 * a) * q + rest;
    QuotientIs(n, 10 * a, q, rest);
  }

  lemma {:induction false} QuotientIs(n: nat, d: nat, q: nat, r: nat)
    requires d > 0 && n == d * q + r && r < d
    ensures n / d == q
  {
    assert n == d * (n / d) + n % d;
    assert d * (n / d - q) == r - n % d;
    NoMultiple(d, n / d - q);
  }

  lemma NoMultiple(d: int, k: int)
    requires d > 0
    ensures -d < d * k < d ==> k == 0
  {
    assert k >= 1 ==> d * k >= d;
    assert k <= -1 ==> d * k <= -d;
  }

  /** The digits of a count stand with the highest power of ten first. */
  lemma {:induction false} DecimalDigit(n: nat, w: nat, k: nat)
    requires k < |Decimal(n, w)|
    ensures Decimal(n, w)[k] == 48 + (n / Pow10(|Decimal(n, w)| - 1 - k)) % 10
    decreases n, w
  {
    var d := Decimal(n, w);
    if n < 10 && w <= 1 {
      assert Pow10(0) == 1;
    } else {
      var w' := if w > 0 then w - 1 else 0;
      var front := Decimal(n / 10, w');
      assert d == front + [DIGIT_0 + n % 10];
      if k == |d| - 1 {
        assert Pow10(0) == 1;
      } else {
        DecimalDigit(n / 10, w', k);
        DivideOnce(n, Pow10(|front| - 1 - k));
      }
    }
  }

  /** The 8-character text of a count: what the first 8 of "%08d" read back as.
      It is the count itself exactly when the count has at most 8 digits. */
  lemma SeqTextReadsBack(n: nat)
    ensures |Decimal(n, 8)| >= 8
    ensures AtoI(Decimal(n, 8)[..8]) == n <==> n < 1_0000_0000
  {
    var d := Decimal(n, 8);
    DecimalWidth(n, 8);
    DecimalValue(n, 8);
    DigitsValueBound(d[..8]);
    assert Pow10(8) == 1_0000_0000 by { Pow10Eight(); }
    if n < 1_0000_0000 {
      assert d[..8] == d;
    }
  }

  lemma Pow10Eight()
    ensures Pow10(8) == 1_0000_0000
  {
    assert Pow10(4) == 1_0000;
  }

  /** NULs are no digits. */
  lemma {:induction false} NoDigits(n: nat)
    ensures DigitsValue(Repeat(NUL, n)) == 0 && AtoI(Repeat(NUL, n)) == 0
  {
    if n == 0 {
    } else {
      NoDigits(n - 1);
      assert Repeat(NUL, n)[..n - 1] == Repeat(NUL, n - 1);
    }
  }
}

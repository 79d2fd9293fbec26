/** The two header layouts of a queue record and the codec between them
    (st01/inc/fep_file.h:104-124).  In memory a record is a 70-byte header and a
    payload; in the ring and in the file every header field stands in brackets,
    which makes 84 bytes, and the sequence field is the write number. */
module HeaderCodec {
  import opened Bytes

  const BUFF_HEAD: nat := 70
  const FILE_HEAD: nat := 84

  /** If_Seq, ApType, ResponseCode, RecvTime1, RecvTime2, DataHeader. */
  const FIELDS: seq<nat> := [8, 8, 4, 10, 12, 20]

  function Total(lens: seq<nat>): nat { if lens == [] then 0 else lens[0] + Total(lens[1..]) }

  /** "%-w.ws": the text up to its first NUL, cut to w, padded with blanks. */
  function Text(f: seq<Byte>): (t: seq<Byte>)
    ensures |t| == |f| && NUL !in t
    ensures t == f <==> NUL !in f
  {
    if f == [] then []
    else if f[0] == NUL then Repeat(SPACE, |f|)
    else
      assert f == [f[0]] + f[1..];
      [f[0]] + Text(f[1..])
  }

  function Bracket(f: seq<Byte>): seq<Byte> { [BRACKET_L] + Text(f) + [BRACKET_R] }

  /** The fields of a header, each in brackets. */
  function Brackets(b: seq<Byte>, lens: seq<nat>): (e: seq<Byte>)
    requires |b| == Total(lens)
    ensures |e| == Total(lens) + 2 * |lens| && NUL !in e
    decreases |lens|, |b|
  {
    if lens == [] then [] else Bracket(b[..lens[0]]) + Brackets(b[lens[0]..], lens[1..])
  }

  /** What the readers copy out: every field without its brackets. */
  function Unbracket(e: seq<Byte>, lens: seq<nat>): (b: seq<Byte>)
    requires |e| == Total(lens) + 2 * |lens|
    ensures |b| == Total(lens)
    decreases |lens|, |e|
  {
    if lens == [] then [] else e[1..1 + lens[0]] + Unbracket(e[lens[0] + 2..], lens[1..])
  }

  function Texts(b: seq<Byte>, lens: seq<nat>): (t: seq<Byte>)
    requires |b| == Total(lens)
    ensures |t| == |b|
    decreases |lens|, |b|
  {
    if lens == [] then [] else Text(b[..lens[0]]) + Texts(b[lens[0]..], lens[1..])
  }

  lemma {:induction false} UnbracketBrackets(b: seq<Byte>, lens: seq<nat>)
    requires |b| == Total(lens)
    ensures Unbracket(Brackets(b, lens), lens) == Texts(b, lens)
    decreases |lens|
  {
    if lens == [] {
    } else {
      var n := lens[0];
      UnbracketBrackets(b[n..], lens[1..]);
      FirstBracket(b[..n], Brackets(b[n..], lens[1..]));
    }
  }

  lemma {:induction false} FirstBracket(f: seq<Byte>, rest: seq<Byte>)
    ensures (Bracket(f) + rest)[1..1 + |f|] == Text(f)
    ensures (Bracket(f) + rest)[|f| + 2..] == rest
  {
  }

  lemma {:induction false} TextsExact(b: seq<Byte>, lens: seq<nat>)
    requires |b| == Total(lens)
    ensures Texts(b, lens) == b <==> NUL !in b
    decreases |lens|
  {
    if lens == [] {
    } else {
      var n := lens[0];
      TextsExact(b[n..], lens[1..]);
      assert b == b[..n] + b[n..];
      var t := Texts(b, lens);
      assert t[..n] == Text(b[..n]) && t[n..] == Texts(b[n..], lens[1..]);
    }
  }

  lemma {:induction false} FieldTotals()
    ensures Total(FIELDS) == 62 && |FIELDS| == 6
  {
  }

  /** The sequence field: the first 10 characters of "[%08d]". */
  function SeqField(n: nat): (s: seq<Byte>)
    ensures |s| == 10
  {
    DecimalWidth(n, 8);
    ([BRACKET_L] + Decimal(n, 8) + [BRACKET_R])[..10]
  }

  /** The write number in 8 characters. */
  function SeqText(n: nat): (s: seq<Byte>)
    ensures |s| == 8 && NUL !in s
  {
    DecimalWidth(n, 8);
    Decimal(n, 8)[..8]
  }

  function EncodeHead(h: seq<Byte>, n: nat): (e: seq<Byte>)
    requires |h| == BUFF_HEAD
    ensures |e| == FILE_HEAD
  {
    FieldTotals();
    SeqField(n) + Brackets(h[8..], FIELDS)
  }

  function StripHead(e: seq<Byte>): (h: seq<Byte>)
    requires |e| == FILE_HEAD
    ensures |h| == BUFF_HEAD
  {
    FieldTotals();
    e[1..9] + Unbracket(e[10..], FIELDS)
  }

  /** A whole record, `b` being header and payload. */
  function Encode(b: seq<Byte>, n: nat): (e: seq<Byte>)
    requires |b| >= BUFF_HEAD
    ensures |e| == |b| - BUFF_HEAD + FILE_HEAD
  {
    EncodeHead(b[..BUFF_HEAD], n) + b[BUFF_HEAD..]
  }

  function Strip(e: seq<Byte>): (b: seq<Byte>)
    requires |e| >= FILE_HEAD
    ensures |b| == |e| - FILE_HEAD + BUFF_HEAD
  {
    StripHead(e[..FILE_HEAD]) + e[FILE_HEAD..]
  }

  /** What a reader gets of record `b` written as number n. */
  function Image(b: seq<Byte>, n: nat): (i: seq<Byte>)
    requires |b| >= BUFF_HEAD
    ensures |i| == |b|
  {
    FieldTotals();
    SeqText(n) + Texts(b[8..BUFF_HEAD], FIELDS) + b[BUFF_HEAD..]
  }

  lemma {:induction false} StripEncode(b: seq<Byte>, n: nat)
    requires |b| >= BUFF_HEAD
    ensures Strip(Encode(b, n)) == Image(b, n)
  {
    FieldTotals();
    var h := b[..BUFF_HEAD];
    var e := EncodeHead(h, n);
    UnbracketBrackets(h[8..], FIELDS);
    assert h[8..] == b[8..BUFF_HEAD];
    assert Encode(b, n)[..FILE_HEAD] == e && Encode(b, n)[FILE_HEAD..] == b[BUFF_HEAD..];
    assert e[10..] == Brackets(h[8..], FIELDS);
    SeqFieldText(n);
    assert e[1..9] == SeqField(n)[1..9];
  }

  lemma {:induction false} SeqFieldText(n: nat)
    ensures SeqField(n)[1..9] == SeqText(n)
  {
    DecimalWidth(n, 8);
  }

  lemma {:induction false} ImageParts(b: seq<Byte>, n: nat)
    requires |b| >= BUFF_HEAD
    ensures |Image(b, n)| >= BUFF_HEAD
    ensures Image(b, n)[..8] == SeqText(n)
    ensures Total(FIELDS) == 62 && Image(b, n)[8..BUFF_HEAD] == Texts(b[8..BUFF_HEAD], FIELDS)
    ensures Image(b, n)[BUFF_HEAD..] == b[BUFF_HEAD..]
  {
    FieldTotals();
  }

  /** The codec round trip.  Bracketing and stripping a record gives back the
      payload and every header field, with the sequence field replaced by the
      write number, exactly when no header field holds a NUL. */
  lemma {:induction false} RoundTrip(b: seq<Byte>, n: nat)
    requires |b| >= BUFF_HEAD
    ensures Strip(Encode(b, n)) == SeqText(n) + b[8..] <==> NUL !in b[8..BUFF_HEAD]
  {
    StripEncode(b, n);
    FieldTotals();
    var head, payload := b[8..BUFF_HEAD], b[BUFF_HEAD..];
    TextsExact(head, FIELDS);
    assert b[8..] == head + payload;
    assert SeqText(n) + (head + payload) == SeqText(n) + head + payload;
    SameMiddle(SeqText(n), Texts(head, FIELDS), head, payload);
  }

  lemma {:induction false} SameMiddle(a: seq<Byte>, m: seq<Byte>, m': seq<Byte>, z: seq<Byte>)
    requires |m| == |m'|
    ensures a + m + z == a + m' + z <==> m == m'
  {
    if a + m + z == a + m' + z {
      assert (a + m + z)[|a|..|a| + |m|] == m;
      assert (a + m' + z)[|a|..|a| + |m|] == m';
    }
  }

  // ---- Byte by byte ------------------------------------------------------

  /** Up to the first NUL a text is the field itself, from there on blanks. */
  lemma {:induction false} TextAt(f: seq<Byte>, k: nat)
    requires k < |f|
    ensures Text(f)[k] == if 0 in f[..k + 1] then 32 else f[k]
    decreases |f|
  {
    if k == 0 || f[0] == NUL {
      assert f[0] in f[..k + 1];
    } else {
      TextAt(f[1..], k - 1);
      assert f[..k + 1] == [f[0]] + f[1..][..k];
    }
  }

  /** The file record of `b`, position by position: every field between '[' (91)
      and ']' (93), in the order of the structure, then the payload. */
  ghost predicate Layout(e: seq<Byte>, b: seq<Byte>) {
    && |b| >= 70 && |e| == |b| + 14
    && e[0] == 91
    && e[10] == 91 && e[11..19] == Text(b[8..16]) && e[19] == 93
    && e[20] == 91 && e[21..29] == Text(b[16..24]) && e[29] == 93
    && e[30] == 91 && e[31..35] == Text(b[24..28]) && e[35] == 93
    && e[36] == 91 && e[37..47] == Text(b[28..38]) && e[47] == 93
    && e[48] == 91 && e[49..61] == Text(b[38..50]) && e[61] == 93
    && e[62] == 91 && e[63..83] == Text(b[50..70]) && e[83] == 93
    && e[84..] == b[70..]
  }

  lemma {:induction false} OneField(b: seq<Byte>, w: nat, lens: seq<nat>)
    requires |b| == Total([w] + lens)
    ensures |b| == w + Total(lens)
    ensures Brackets(b, [w] + lens) == [91] + Text(b[..w]) + [93] + Brackets(b[w..], lens)
  {
    assert ([w] + lens)[1..] == lens;
  }

  lemma {:induction false} TwoFields(b: seq<Byte>, y: nat, z: nat, lens: seq<nat>)
    requires |b| == Total([y] + ([z] + lens))
    ensures |b| == y + z + Total(lens)
    ensures Brackets(b, [y] + ([z] + lens))
         == [91] + Text(b[..y]) + [93] + ([91] + Text(b[y..y + z]) + [93] + Brackets(b[y + z..], lens))
  {
    OneField(b, y, [z] + lens);
    OneField(b[y..], z, lens);
    assert b[y..][..z] == b[y..y + z] && b[y..][z..] == b[y + z..];
  }

  lemma {:induction false} ThreeFields(b: seq<Byte>, x: nat, y: nat, z: nat, lens: seq<nat>)
    requires |b| == Total([x] + ([y] + ([z] + lens)))
    ensures |b| == x + y + z + Total(lens)
    ensures Brackets(b, [x] + ([y] + ([z] + lens)))
         == [91] + Text(b[..x]) + [93] + ([91] + Text(b[x..x + y]) + [93] + ([91] + Text(b[x + y..x + y + z]) + [93]
            + Brackets(b[x + y + z..], lens)))
  {
    OneField(b, x, [y] + ([z] + lens));
    TwoFields(b[x..], y, z, lens);
    Slices(b, x, y, z);
  }

  lemma {:induction false} Slices(b: seq<Byte>, x: nat, y: nat, z: nat)
    requires x + y + z <= |b|
    ensures b[x..][..y] == b[x..x + y] && b[x..][y..y + z] == b[x + y..x + y + z] && b[x..][y + z..] == b[x + y + z..]
  {
  }

  lemma {:induction false} SixFields(b: seq<Byte>, c: seq<Byte>, last: seq<nat>)
    requires |b| == 62 && c == b[20..] && last == [10] + ([12] + ([20] + []))
    ensures |b| == Total(FIELDS) && |c| == Total(last)
    ensures Brackets(b, FIELDS)
         == [91] + Text(b[..8]) + [93] + ([91] + Text(b[8..16]) + [93] + ([91] + Text(b[16..20]) + [93]
            + Brackets(c, last)))
    ensures Brackets(c, last)
         == [91] + Text(c[..10]) + [93] + ([91] + Text(c[10..22]) + [93] + ([91] + Text(c[22..42]) + [93] + []))
  {
    FieldTotals();
    assert FIELDS == [8] + ([8] + ([4] + last));
    ThreeFields(b, 8, 8, 4, last);
    ThreeFields(c, 10, 12, 20, []);
  }

  /** Where the parts of such a text stand. */
  lemma {:induction false} ThreePlaces(e: seq<Byte>, t0: seq<Byte>, t1: seq<Byte>, t2: seq<Byte>, z: seq<Byte>)
    requires e == [91] + t0 + [93] + ([91] + t1 + [93] + ([91] + t2 + [93] + z))
    ensures var i, j := |t0| + 2, |t0| + |t1| + 4; var k := j + |t2| + 2;
      && |e| == k + |z| && e[k..] == z
      && e[0] == 91 && e[1..i - 1] == t0 && e[i - 1] == 93
      && e[i] == 91 && e[i + 1..j - 1] == t1 && e[j - 1] == 93
      && e[j] == 91 && e[j + 1..k - 1] == t2 && e[k - 1] == 93
  {
  }

  /** The layout of every encoded record. */
  lemma {:induction false} EncodeLayout(b: seq<Byte>, n: nat)
    requires |b| >= 70
    ensures Layout(Encode(b, n), b)
  {
    var s := b[..70][8..];
    var c, last := s[20..], [10] + ([12] + ([20] + []));
    SixFields(s, c, last);
    FieldSlices(b, s, c);
    EncodeParts(b, n, Brackets(s, FIELDS), Brackets(c, last));
  }

  lemma {:induction false} EncodeParts(b: seq<Byte>, n: nat, f: seq<Byte>, g: seq<Byte>)
    requires |b| >= 70 && Total(FIELDS) == 62 && f == Brackets(b[..70][8..], FIELDS)
    requires f == [91] + Text(b[8..16]) + [93] + ([91] + Text(b[16..24]) + [93] + ([91] + Text(b[24..28]) + [93] + g))
    requires g == [91] + Text(b[28..38]) + [93] + ([91] + Text(b[38..50]) + [93] + ([91] + Text(b[50..70]) + [93] + []))
    ensures Layout(Encode(b, n), b)
  {
    ThreePlaces(f, Text(b[8..16]), Text(b[16..24]), Text(b[24..28]), g);
    ThreePlaces(g, Text(b[28..38]), Text(b[38..50]), Text(b[50..70]), []);
    Placed(Encode(b, n), SeqField(n), f, g, b[70..]);
    var e := Encode(b, n);
    assert e[0] == e[..10][0] == 91;
    assert f[26..] == g;
    assert e[10] == f[0] && e[19] == f[9] && e[20] == f[10] && e[29] == f[19] && e[30] == f[20] && e[35] == f[25];
    assert e[36] == g[0] && e[47] == g[11] && e[48] == g[12] && e[61] == g[25] && e[62] == g[26] && e[83] == g[47];
  }

  /** The number of an encoded record: its eight digits, and the bracket while there
      are no more. */
  lemma {:induction false} EncodeNumber(b: seq<Byte>, n: nat)
    requires |b| >= 70
    ensures |Decimal(n, 8)| >= 8 && Encode(b, n)[1..9] == Decimal(n, 8)[..8]
    ensures n < 1_0000_0000 ==> |Decimal(n, 8)| == 8 && Encode(b, n)[9] == 93
  {
    var e, s := Encode(b, n), SeqField(n);
    DecimalWidth(n, 8);
    Pow10Eight();
    SeqFieldText(n);
    assert e[..10] == s;
    assert e[1..9] == s[1..9] && e[9] == s[9];
  }

  lemma {:induction false} FieldSlices(b: seq<Byte>, s: seq<Byte>, c: seq<Byte>)
    requires |b| >= 70 && s == b[..70][8..] && c == s[20..]
    ensures s[..8] == b[8..16] && s[8..16] == b[16..24] && s[16..20] == b[24..28]
    ensures c[..10] == b[28..38] && c[10..22] == b[38..50] && c[22..42] == b[50..70]
  {
    assert s == b[8..70] && c == b[28..70];
    SubSlice(b, 8, 70, 0, 8);
    SubSlice(b, 8, 70, 8, 16);
    SubSlice(b, 8, 70, 16, 20);
    SubSlice(b, 28, 70, 0, 10);
    SubSlice(b, 28, 70, 10, 22);
    SubSlice(b, 28, 70, 22, 42);
  }

  lemma {:induction false} SubSlice(b: seq<Byte>, i: nat, j: nat, k: nat, l: nat)
    requires i <= j <= |b| && k <= l <= j - i
    ensures b[i..j][k..l] == b[i + k..i + l]
  {
    var x, y := b[i..j][k..l], b[i + k..i + l];
    assert |x| == |y| && forall m :: 0 <= m < l - k ==> x[m] == b[i..j][k + m] == b[i + k + m] == y[m];
  }

  /** The fields moved behind the number. */
  lemma {:induction false} Placed(e: seq<Byte>, s: seq<Byte>, f: seq<Byte>, g: seq<Byte>, z: seq<Byte>)
    requires |s| == 10 && |f| == 74 && |g| == 48 && f[26..] == g && e == s + f + z
    ensures |e| == 84 + |z| && e[..10] == s && e[84..] == z
    ensures forall i :: 0 <= i < 74 ==> e[10 + i] == f[i]
    ensures e[11..19] == f[1..9] && e[21..29] == f[11..19] && e[31..35] == f[21..25]
    ensures forall i :: 0 <= i < 48 ==> e[36 + i] == g[i]
    ensures e[37..47] == g[1..11] && e[49..61] == g[13..25] && e[63..83] == g[27..47]
  {
    assert forall i :: 0 <= i < 48 ==> g[i] == f[26 + i];
  }

  /** The write number reads back as itself exactly while it has 8 digits. */
  lemma {:induction false} SeqRoundTrip(b: seq<Byte>, n: nat)
    requires |b| >= BUFF_HEAD
    ensures AtoI(Strip(Encode(b, n))[..8]) == n <==> n < 1_0000_0000
  {
    StripEncode(b, n);
    ImageParts(b, n);
    SeqTextReadsBack(n);
  }

  /** Past 99999999 the sequence field names a much older record: record number
      100000000 carries the number 10000000. */
  lemma {:induction false} NineDigitsAlias()
    ensures AtoI(SeqText(1_0000_0000)) == 1000_0000
  {
    DecimalWidth(1000_0000, 7);
    DecimalWidth(1000_0000, 8);
    DecimalValue(1000_0000, 7);
    assert Decimal(1_0000_0000, 8) == Decimal(1000_0000, 7) + [DIGIT_0];
  }
}

/** The five-mode binary search (st01/sub/key_search.c). */
module KeySearch {
  import opened Bytes

  datatype Mode = LT | LE | EQ | GE | GT

  /** Whether a record that compares `cmp` to the key is one the mode asks for. */
  predicate Wanted(mode: Mode, cmp: int) {
    match mode
    case LT => cmp < 0
    case LE => cmp <= 0
    case EQ => cmp == 0
    case GE => cmp >= 0
    case GT => cmp > 0
  }

  /** LT and LE ask for the last wanted record, the others for the first. */
  predicate Backward(mode: Mode) { mode.LT? || mode.LE? }

  /** The linear scan BsearchMode stands for, over the comparison results of the
      records in order: scan from the far end of the mode's direction. */
  function Scan(cmps: seq<int>, mode: Mode): int {
    if Backward(mode) then ScanDown(cmps, mode, |cmps|) else ScanUp(cmps, mode, 0)
  }

  function ScanUp(cmps: seq<int>, mode: Mode, from: nat): int
    requires from <= |cmps|
    decreases |cmps| - from
  {
    if from == |cmps| then -1
    else if Wanted(mode, cmps[from]) then from
    else ScanUp(cmps, mode, from + 1)
  }

  function ScanDown(cmps: seq<int>, mode: Mode, below: nat): int
    requires below <= |cmps|
  {
    if below == 0 then -1
    else if Wanted(mode, cmps[below - 1]) then below - 1
    else ScanDown(cmps, mode, below - 1)
  }

  /** What a scan result means: -1 and nothing is wanted, or the outermost index
      that is. */
  ghost predicate Answers(cmps: seq<int>, mode: Mode, pos: int) {
    if pos == -1 then forall i :: 0 <= i < |cmps| ==> !Wanted(mode, cmps[i])
    else
      && 0 <= pos < |cmps| && Wanted(mode, cmps[pos])
      && forall i :: 0 <= i < |cmps| && Wanted(mode, cmps[i]) ==> if Backward(mode) then i <= pos else pos <= i
  }

  lemma {:induction false} ScanUpAnswers(cmps: seq<int>, mode: Mode, from: nat)
    requires from <= |cmps| && !Backward(mode)
    requires forall i :: 0 <= i < from ==> !Wanted(mode, cmps[i])
    ensures Answers(cmps, mode, ScanUp(cmps, mode, from))
    decreases |cmps| - from
  {
    if from == |cmps| || Wanted(mode, cmps[from]) {
    } else {
      ScanUpAnswers(cmps, mode, from + 1);
    }
  }

  lemma {:induction false} ScanDownAnswers(cmps: seq<int>, mode: Mode, below: nat)
    requires below <= |cmps| && Backward(mode)
    requires forall i :: below <= i < |cmps| ==> !Wanted(mode, cmps[i])
    ensures Answers(cmps, mode, ScanDown(cmps, mode, below))
  {
    if below == 0 || Wanted(mode, cmps[below - 1]) {
    } else {
      ScanDownAnswers(cmps, mode, below - 1);
    }
  }

  /** The scan gives the one index that answers the mode. */
  lemma ScanIsTheAnswer(cmps: seq<int>, mode: Mode, pos: int)
    ensures Answers(cmps, mode, pos) <==> pos == Scan(cmps, mode)
  {
    if Backward(mode) {
      ScanDownAnswers(cmps, mode, |cmps|);
    } else {
      ScanUpAnswers(cmps, mode, 0);
    }
  }

  /** The five modes in signs of the comparison results. */
  lemma ModesMean(cmps: seq<int>, mode: Mode, pos: int)
    requires pos == Scan(cmps, mode)
    ensures pos == -1 || 0 <= pos < |cmps|
    ensures mode == EQ ==> if pos == -1 then forall i :: 0 <= i < |cmps| ==> cmps[i] != 0
                           else cmps[pos] == 0 && forall i :: 0 <= i < pos ==> cmps[i] != 0
    ensures mode == LT ==> if pos == -1 then forall i :: 0 <= i < |cmps| ==> cmps[i] >= 0
                           else cmps[pos] < 0 && forall i :: pos < i < |cmps| ==> cmps[i] >= 0
    ensures mode == LE ==> if pos == -1 then forall i :: 0 <= i < |cmps| ==> cmps[i] > 0
                           else cmps[pos] <= 0 && forall i :: pos < i < |cmps| ==> cmps[i] > 0
    ensures mode == GE ==> if pos == -1 then forall i :: 0 <= i < |cmps| ==> cmps[i] < 0
                           else cmps[pos] >= 0 && forall i :: 0 <= i < pos ==> cmps[i] < 0
    ensures mode == GT ==> if pos == -1 then forall i :: 0 <= i < |cmps| ==> cmps[i] <= 0
                           else cmps[pos] > 0 && forall i :: 0 <= i < pos ==> cmps[i] <= 0
  {
    ScanIsTheAnswer(cmps, mode, pos);
  }

  /** The comparison results of the records against the key. */
  function Compared<T>(base: seq<T>, key: T, compar: (T, T) -> int): (c: seq<int>)
    ensures |c| == |base| && forall i :: 0 <= i < |base| ==> c[i] == compar(base[i], key)
  {
    seq(|base|, i requires 0 <= i < |base| => compar(base[i], key))
  }

  /** Strictly ascending as far as the key can tell: once a record is not below
      the key, every later one is above it. */
  ghost predicate Ascending(cmps: seq<int>) {
    forall i, j :: 0 <= i < j < |cmps| && cmps[i] >= 0 ==> cmps[j] > 0
  }

  /** Halving steps until one record is left. */
  function CeilLog2(n: nat): nat {
    if n <= 1 then 0 else 1 + CeilLog2((n + 1) / 2)
  }

  function Pow2(k: nat): nat { if k == 0 then 1 else 2 * Pow2(k - 1) }

  /** It is the rounded-up logarithm: the least k with n <= 2^k. */
  lemma {:induction false} CeilLog2Least(n: nat)
    requires n >= 1
    ensures n <= Pow2(CeilLog2(n)) && (n > 1 ==> Pow2(CeilLog2(n) - 1) < n)
  {
    if n == 1 {
    } else {
      CeilLog2Least((n + 1) / 2);
    }
  }

  /** Both halves of a span that k halvings bring to 1 take one halving less. */
  lemma {:induction false} HalvingPays(span: nat, half: nat, k: nat)
    requires 2 <= span <= Pow2(k) && (half == span / 2 || half == span - span / 2)
    ensures k > 0 && 1 <= half <= Pow2(k - 1)
  {
    assert k == 0 ==> Pow2(k) == 1;
  }

  lemma AtEqual(cmps: seq<int>, mode: Mode, c: nat)
    requires Ascending(cmps) && c < |cmps| && cmps[c] == 0
    ensures Scan(cmps, mode) ==
      if mode.GT? then (if c + 1 < |cmps| then c + 1 else -1) else if mode.LT? then c - 1 else c
  {
    ScanIsTheAnswer(cmps, mode,
                    if mode.GT? then (if c + 1 < |cmps| then c + 1 else -1) else if mode.LT? then c - 1 else c);
  }

  /** All records on one side of the key. */
  lemma BelowAll(cmps: seq<int>, mode: Mode)
    requires cmps != [] && forall i :: 0 <= i < |cmps| ==> cmps[i] > 0
    ensures Scan(cmps, mode) == if mode.GE? || mode.GT? then 0 else -1
  {
    ScanIsTheAnswer(cmps, mode, if mode.GE? || mode.GT? then 0 else -1);
  }

  lemma AboveAll(cmps: seq<int>, mode: Mode)
    requires cmps != [] && forall i :: 0 <= i < |cmps| ==> cmps[i] < 0
    ensures Scan(cmps, mode) == if mode.LE? || mode.LT? then |cmps| - 1 else -1
  {
    ScanIsTheAnswer(cmps, mode, if mode.LE? || mode.LT? then |cmps| - 1 else -1);
  }

  /** What the search knows: below fpos the key lies higher, above lpos lower, and
      at both ends too once they have moved. */
  ghost predicate Narrowed(cmps: seq<int>, fpos: int, lpos: int) {
    && 0 <= fpos <= lpos < |cmps|
    && (forall i :: 0 <= i < fpos ==> cmps[i] < 0)
    && (fpos > 0 ==> cmps[fpos] < 0 && fpos < lpos)
    && (forall i :: lpos < i < |cmps| ==> cmps[i] > 0)
    && (lpos < |cmps| - 1 ==> cmps[lpos] > 0)
  }

  lemma LowerHalf(cmps: seq<int>, fpos: int, lpos: int, cpos: int)
    requires Ascending(cmps) && Narrowed(cmps, fpos, lpos) && fpos <= cpos < lpos && cmps[cpos] > 0
    ensures Narrowed(cmps, fpos, cpos)
  {
  }

  lemma UpperHalf(cmps: seq<int>, fpos: int, lpos: int, cpos: int)
    requires Ascending(cmps) && Narrowed(cmps, fpos, lpos) && fpos < cpos < lpos && cmps[cpos] < 0
    ensures Narrowed(cmps, cpos, lpos)
  {
  }

  /** Every position is checked against the table before it is returned. */
  function InTable(pos: int, recnum: nat): int {
    if 0 <= pos < recnum then pos else -1
  }

  /** A table of one record. */
  method SearchOne<T>(base: seq<T>, sd: T, compar: (T, T) -> int, mode: Mode) returns (pos: int)
    requires |base| == 1
    ensures pos == Scan(Compared(base, sd, compar), mode)
  {
    ghost var cmps := Compared(base, sd, compar);
    var cmp := compar(base[0], sd);
    if cmp == 0 {
      AtEqual(cmps, mode, 0);
      if mode.EQ? || mode.LE? || mode.GE? { return 0; }
    } else if cmp < 0 {
      AboveAll(cmps, mode);
      if mode.LT? || mode.LE? { return 0; }
    } else {
      BelowAll(cmps, mode);
      if mode.GT? || mode.GE? { return 0; }
    }
    return -1;
  }

  /** Record cpos is the key's. */
  method Found(ghost cmps: seq<int>, mode: Mode, cpos: nat, recnum: nat) returns (pos: int)
    requires Ascending(cmps) && cpos < |cmps| == recnum && cmps[cpos] == 0
    ensures pos == Scan(cmps, mode)
  {
    AtEqual(cmps, mode, cpos);
    if mode.EQ? || mode.LE? || mode.GE? {
      pos := InTable(cpos, recnum);
    } else if mode.GT? {
      pos := InTable(cpos + 1, recnum);
    } else {
      pos := InTable(cpos - 1, recnum);
    }
  }

  /** The key lies below the first record. */
  method FirstRecord(ghost cmps: seq<int>, mode: Mode, cpos: nat, recnum: nat) returns (pos: int)
    requires cpos == 0 < recnum == |cmps| && forall i :: 0 <= i < |cmps| ==> cmps[i] > 0
    ensures pos == Scan(cmps, mode)
  {
    BelowAll(cmps, mode);
    if mode.LE? || mode.LT? || mode.EQ? {
      pos := -1;
    } else {
      pos := InTable(cpos, recnum);
    }
  }

  /** The end of the search: the key lies above record cpos, and lpos is the next
      one. */
  method LastPair<T>(base: seq<T>, sd: T, compar: (T, T) -> int, mode: Mode, cpos: int, lpos: int) returns (pos: int)
    requires 0 <= cpos && lpos == cpos + 1 < |base|
    requires Ascending(Compared(base, sd, compar))
    requires forall i :: 0 <= i <= cpos ==> Compared(base, sd, compar)[i] < 0
    requires lpos < |base| - 1 ==> Compared(base, sd, compar)[lpos] > 0
    requires forall i :: lpos < i < |base| ==> Compared(base, sd, compar)[i] > 0
    ensures pos == Scan(Compared(base, sd, compar), mode)
  {
    var recnum := |base|;
    var cmp := compar(base[lpos], sd);
    if cmp == 0 {
      if mode.LE? || mode.GE? || mode.EQ? {
        pos := InTable(lpos, recnum);
      } else if mode.LT? {
        pos := InTable(lpos - 1, recnum);
      } else {
        pos := -1;
      }
    } else if cmp > 0 {
      if mode.LE? || mode.LT? {
        pos := InTable(lpos - 1, recnum);
      } else if mode.GE? || mode.GT? {
        pos := InTable(cpos + 1, recnum);
      } else {
        pos := -1;
      }
    } else {
      if mode.LE? || mode.LT? {
        pos := InTable(cpos + 1, recnum);
      } else {
        pos := -1;
      }
    }
    ScanIsTheAnswer(Compared(base, sd, compar), mode, pos);
  }

  /** BsearchMode: the position, and the number of comparator calls made. */
  method BsearchMode<T>(base: seq<T>, sd: T, compar: (T, T) -> int, mode: Mode) returns (pos: int, calls: nat)
    requires Ascending(Compared(base, sd, compar))
    ensures pos == Scan(Compared(base, sd, compar), mode)
    ensures |base| >= 2 ==> calls <= CeilLog2(|base| - 1) + 2
    ensures |base| <= 1 ==> calls == |base|
  {
    var recnum := |base|;
    ghost var cmps := Compared(base, sd, compar);
    calls := 0;
    if recnum <= 0 { return -1, 0; }

    if recnum == 1 {
      pos := SearchOne(base, sd, compar, mode);
      return pos, 1;
    }

    pos, calls := Halve(base, sd, compar, mode, cmps);
  }

  /** The loop of BsearchMode, over two records or more. */
  method Halve<T>(base: seq<T>, sd: T, compar: (T, T) -> int, mode: Mode, ghost cmps: seq<int>)
    returns (pos: int, calls: nat)
    requires cmps == Compared(base, sd, compar) && Ascending(cmps) && |base| >= 2
    ensures pos == Scan(cmps, mode) && calls <= CeilLog2(|base| - 1) + 2
  {
    var recnum := |base|;
    calls := 0;
    var fpos, lpos, cpos := 0, recnum - 1, (recnum - 1) / 2;
    ghost var most := CeilLog2(recnum - 1);
    ghost var k := most;
    CeilLog2Least(recnum - 1);
    while true
      invariant Narrowed(cmps, fpos, lpos) && cpos == (fpos + lpos) / 2
      invariant if lpos == fpos then calls <= most + 1 else calls + k <= most && lpos - fpos <= Pow2(k)
      decreases lpos - fpos
    {
      var cmp := compar(base[cpos], sd);
      assert cmp == cmps[cpos];
      calls := calls + 1;
      if cmp == 0 {
        pos := Found(cmps, mode, cpos, recnum);
        return;
      } else if cmp > 0 {
        if cpos == lpos {
          pos := FirstRecord(cmps, mode, cpos, recnum);
          return;
        }
        if lpos - fpos >= 2 {
          HalvingPays(lpos - fpos, cpos - fpos, k);
          k := k - 1;
        }
        LowerHalf(cmps, fpos, lpos, cpos);
        lpos := cpos;
        cpos := (fpos + lpos) / 2;
      } else {
        if cpos == fpos {
          pos := LastPair(base, sd, compar, mode, cpos, lpos);
          calls := calls + 1;
          return;
        }
        HalvingPays(lpos - fpos, lpos - cpos, k);
        k := k - 1;
        UpperHalf(cmps, fpos, lpos, cpos);
        fpos := cpos;
        cpos := (fpos + lpos) / 2;
      }
    }
  }

  // ---- The comparator and the derivative-key lookup -----------------------

  /** memcmp over two codes of equal length: the sign of the first difference. */
  function Memcmp(a: seq<Byte>, b: seq<Byte>): int
    requires |a| == |b|
  {
    if a == [] then 0
    else if a[0] < b[0] then -1
    else if a[0] > b[0] then 1
    else Memcmp(a[1..], b[1..])
  }

  lemma {:induction false} MemcmpEqual(a: seq<Byte>, b: seq<Byte>)
    requires |a| == |b|
    ensures Memcmp(a, b) == 0 <==> a == b
    ensures Memcmp(a, b) == -Memcmp(b, a)
  {
    if a == [] {
    } else {
      MemcmpEqual(a[1..], b[1..]);
      assert a == [a[0]] + a[1..] && b == [b[0]] + b[1..];
    }
  }

  /** Which of two codes is the smaller: the one with the smaller byte where they
      first differ. */
  lemma {:induction false} MemcmpLess(a: seq<Byte>, b: seq<Byte>)
    requires |a| == |b|
    ensures Memcmp(a, b) < 0 <==> exists k :: FirstLess(a, b, k)
  {
    if a == [] {
    } else {
      MemcmpLess(a[1..], b[1..]);
      if a[0] < b[0] {
        assert FirstLess(a, b, 0);
      } else if a[0] == b[0] && Memcmp(a[1..], b[1..]) < 0 {
        var k :| FirstLess(a[1..], b[1..], k);
        FirstLessBehind(a, b, k);
      }
      if k :| FirstLess(a, b, k) {
        if k > 0 { FirstLessBehind(a, b, k - 1); }
      }
    }
  }

  /** At position k the first difference, the smaller byte in a. */
  ghost predicate FirstLess(a: seq<Byte>, b: seq<Byte>, k: int) {
    0 <= k < |a| == |b| && a[..k] == b[..k] && a[k] < b[k]
  }

  lemma {:induction false} FirstLessBehind(a: seq<Byte>, b: seq<Byte>, k: nat)
    requires |a| == |b| > 0
    ensures FirstLess(a, b, k + 1) <==> a[0] == b[0] && FirstLess(a[1..], b[1..], k)
  {
    if k + 1 < |a| {
      assert a[..k + 1] == [a[0]] + a[1..][..k] && b[..k + 1] == [b[0]] + b[1..][..k];
    }
  }

  lemma {:induction false} MemcmpTransitive(a: seq<Byte>, b: seq<Byte>, c: seq<Byte>)
    requires |a| == |b| == |c| && Memcmp(a, b) < 0 && Memcmp(b, c) <= 0
    ensures Memcmp(a, c) < 0
  {
    if a == [] || a[0] != b[0] || b[0] != c[0] {
    } else {
      MemcmpTransitive(a[1..], b[1..], c[1..]);
    }
  }

  const CODELEN: nat := 12

  type Code = c: seq<Byte> | |c| == CODELEN witness Repeat(SPACE, CODELEN)

  /** KS_EXPCODE: a standard item code and the item's data index. */
  datatype KeyRec = KeyRec(idx: int, expcode: Code)

  function CmpExpcode(a: KeyRec, b: KeyRec): int { Memcmp(a.expcode, b.expcode) }

  /** A table sorted by qsort with CmpExpcode and without duplicate codes. */
  ghost predicate SortedTable(table: seq<KeyRec>) {
    forall i, j :: 0 <= i < j < |table| ==> CmpExpcode(table[i], table[j]) < 0
  }

  /** Such a table is ascending against every key. */
  lemma SortedIsAscending(table: seq<KeyRec>, key: KeyRec)
    requires SortedTable(table)
    ensures Ascending(Compared(table, key, CmpExpcode))
  {
    forall i, j | 0 <= i < j < |table| && CmpExpcode(table[i], key) >= 0
      ensures CmpExpcode(table[j], key) > 0
    {
      MemcmpEqual(table[i].expcode, key.expcode);
      MemcmpEqual(table[j].expcode, key.expcode);
      if CmpExpcode(table[j], key) <= 0 {
        MemcmpTransitive(table[i].expcode, table[j].expcode, key.expcode);
      }
    }
  }

  /** Key_Search, DEV_MK_FIF branch: the data index stored for the code, or NOTOK
      when the code is absent or its index is negative. */
  method KeySearchFif(table: seq<KeyRec>, keybuf: KeyRec) returns (rt: int)
    requires SortedTable(table)
    ensures forall i :: 0 <= i < |table| && table[i].expcode == keybuf.expcode ==>
                          rt == if table[i].idx < 0 then NOTOK else table[i].idx
    ensures (forall i :: 0 <= i < |table| ==> table[i].expcode != keybuf.expcode) ==> rt == NOTOK
  {
    SortedIsAscending(table, keybuf);
    var pos, _ := BsearchMode(table, keybuf, CmpExpcode, EQ);
    ScanIsTheAnswer(Compared(table, keybuf, CmpExpcode), EQ, pos);
    forall i | 0 <= i < |table|
      ensures CmpExpcode(table[i], keybuf) == 0 <==> table[i].expcode == keybuf.expcode
    {
      MemcmpEqual(table[i].expcode, keybuf.expcode);
    }
    if pos < 0 || table[pos].idx < 0 { return NOTOK; }
    return table[pos].idx;
  }
}

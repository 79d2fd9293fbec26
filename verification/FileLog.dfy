/** The append-only file queue (st01/sub/file_rw.c): F_W_Proc brackets a batch of
    records and appends it, F_R_Proc reads a batch back.  The file is its
    sequence of bytes; write() and read() may handle fewer bytes than asked. */
module FileFormat {
  import opened Bytes
  import opened HeaderCodec

  /** FILE_BUF_LEN. */
  const BUFLEN: nat := 8192

  function Flatten(rs: seq<seq<Byte>>): seq<Byte> {
    if rs == [] then [] else rs[0] + Flatten(rs[1..])
  }

  ghost predicate AllSized(rs: seq<seq<Byte>>, size: nat) {
    forall k :: 0 <= k < |rs| ==> |rs[k]| == size
  }

  lemma {:induction false} FlattenAppend(a: seq<seq<Byte>>, b: seq<seq<Byte>>)
    ensures Flatten(a + b) == Flatten(a) + Flatten(b)
  {
    if a == [] {
      assert a + b == b;
    } else {
      calc {
        Flatten(a + b);
        { assert (a + b)[1..] == a[1..] + b; }
        a[0] + Flatten(a[1..] + b);
        { FlattenAppend(a[1..], b); }
        a[0] + (Flatten(a[1..]) + Flatten(b));
        (a[0] + Flatten(a[1..])) + Flatten(b);
      }
    }
  }

  lemma {:induction false} FlattenLength(rs: seq<seq<Byte>>, size: nat)
    requires AllSized(rs, size)
    ensures |Flatten(rs)| == |rs| * size
  {
    if rs == [] {
    } else {
      FlattenLength(rs[1..], size);
      Distribute(|rs| - 1, size);
    }
  }

  lemma Distribute(n: nat, size: nat)
    ensures (n + 1) * size == n * size + size
  {
  }

  lemma MoveOver(a: seq<Byte>, b: seq<Byte>, c: seq<Byte>)
    ensures a + (b + c) == (a + b) + c
  {
  }

  /** Records from number k on start at byte k * size. */
  lemma {:induction false} FlattenFrom(rs: seq<seq<Byte>>, size: nat, k: nat)
    requires AllSized(rs, size) && k <= |rs|
    ensures k * size <= |Flatten(rs)| && Flatten(rs)[k * size..] == Flatten(rs[k..])
  {
    assert rs == rs[..k] + rs[k..];
    FlattenAppend(rs[..k], rs[k..]);
    FlattenLength(rs[..k], size);
  }

  // ---- Writing -----------------------------------------------------------

  function Scrub(s: seq<Byte>): (t: seq<Byte>)
    ensures |t| == |s| && forall j :: 0 <= j < |s| ==> t[j] == if s[j] == NUL then SPACE else s[j]
  {
    seq(|s|, j requires 0 <= j < |s| => if s[j] == NUL then SPACE else s[j])
  }

  /** Record `b`, written as number n, as it stands in the file. */
  function Line(b: seq<Byte>, n: nat): (l: seq<Byte>)
    requires |b| >= BUFF_HEAD
    ensures |l| == |b| - BUFF_HEAD + FILE_HEAD && NUL !in l
  {
    Scrub(Encode(b, n))
  }

  /** How the line stands in the file: the layout of the record with the NULs of its
      payload blanked. */
  lemma {:induction false} LineLayout(b: seq<Byte>, n: nat)
    requires |b| >= 70
    ensures Layout(Line(b, n), b[..70] + Scrub(b[70..]))
    ensures |Decimal(n, 8)| >= 8 && Line(b, n)[1..9] == Decimal(n, 8)[..8]
  {
    var e, l, b' := Encode(b, n), Line(b, n), b[..70] + Scrub(b[70..]);
    EncodeLayout(b, n);
    EncodeNumber(b, n);
    KeptByScrub(e, l, 11, 19);
    KeptByScrub(e, l, 21, 29);
    KeptByScrub(e, l, 31, 35);
    KeptByScrub(e, l, 37, 47);
    KeptByScrub(e, l, 49, 61);
    KeptByScrub(e, l, 63, 83);
    NumberKept(e, l, n);
    assert b'[8..16] == b[8..16] && b'[16..24] == b[16..24] && b'[24..28] == b[24..28];
    assert b'[28..38] == b[28..38] && b'[38..50] == b[38..50] && b'[50..70] == b[50..70];
    assert l[84..] == Scrub(e[84..]) && b'[70..] == Scrub(b[70..]);
  }

  /** And no other byte is: the payload stands from byte 84 on, a blank for every NUL. */
  lemma {:induction false} LinePayload(b: seq<Byte>, n: nat, j: nat)
    requires 70 <= j < |b|
    ensures |Line(b, n)| == |b| + 14 && Line(b, n)[j + 14] == if b[j] == 0 then 32 else b[j]
  {
    var e := Encode(b, n);
    EncodeLayout(b, n);
    assert e[84..][j - 70] == b[70..][j - 70];
  }

  lemma {:induction false} KeptByScrub(e: seq<Byte>, l: seq<Byte>, i: nat, j: nat)
    requires l == Scrub(e) && i <= j <= |e| && NUL !in e[i..j]
    ensures l[i..j] == e[i..j]
  {
    assert forall k :: i <= k < j ==> e[k] == e[i..j][k - i];
  }

  lemma {:induction false} NumberKept(e: seq<Byte>, l: seq<Byte>, n: nat)
    requires l == Scrub(e) && |e| >= 9 && |Decimal(n, 8)| >= 8 && e[1..9] == Decimal(n, 8)[..8]
    ensures l[1..9] == e[1..9]
  {
    assert forall k :: 0 <= k < 8 ==> e[1..9][k] == Decimal(n, 8)[k] && IsDigit(Decimal(n, 8)[k]);
    KeptByScrub(e, l, 1, 9);
  }

  /** Nothing but whole records. */
  predicate Whole(s: seq<Byte>, size: nat)
    requires size > 0
    decreases |s|
  {
    s == [] || (|s| >= size && Whole(s[size..], size))
  }

  /** The bytes a batch of records of `size` bytes becomes, the first one
      numbered n. */
  function BatchOf(p_buf: seq<Byte>, n: nat, size: nat): (batch: seq<Byte>)
    requires size >= BUFF_HEAD
    ensures NUL !in batch
    decreases |p_buf|
  {
    if |p_buf| < size then [] else Line(p_buf[..size], n) + BatchOf(p_buf[size..], n + 1, size)
  }

  /** One record moves from what is to be done to what is done. */
  lemma {:induction false} BatchMoves(rest: seq<Byte>, n: nat, size: nat, done: seq<Byte>, line: seq<Byte>)
    requires size >= BUFF_HEAD && |rest| >= size && line == Line(rest[..size], n)
    ensures (done + line) + BatchOf(rest[size..], n + 1, size) == done + BatchOf(rest, n, size)
  {
    MoveOver(done, line, BatchOf(rest[size..], n + 1, size));
  }

  lemma {:induction false} BatchLength(p_buf: seq<Byte>, n: nat, size: nat, cnt: nat)
    requires size >= BUFF_HEAD && |p_buf| == cnt * size
    ensures |BatchOf(p_buf, n, size)| == cnt * (size - BUFF_HEAD + FILE_HEAD) && Whole(p_buf, size)
    decreases cnt
  {
    if cnt == 0 {
    } else {
      Distribute(cnt - 1, size);
      Distribute(cnt - 1, size - BUFF_HEAD + FILE_HEAD);
      BatchLength(p_buf[size..], n + 1, size, cnt - 1);
    }
  }

  lemma {:induction false} BatchFits(p_buf: seq<Byte>, n: nat, size: nat, fsize: nat, cnt: nat)
    requires size >= BUFF_HEAD && fsize == size - BUFF_HEAD + FILE_HEAD
    requires |p_buf| == cnt * size && 0 < cnt * fsize < BUFLEN
    ensures Whole(p_buf, size) && 0 < |BatchOf(p_buf, n, size)| < BUFLEN
  {
    BatchLength(p_buf, n, size, cnt);
  }

  // ---- Reading -----------------------------------------------------------

  /** The bytes F_R_Proc can see: at most `want` from the file offset. */
  function Window(file: seq<Byte>, offset: nat, want: nat): (w: seq<Byte>)
    ensures |w| <= want
  {
    if offset > |file| then [] else file[offset..offset + Min(want, |file| - offset)]
  }

  lemma {:induction false} WindowGrows(file: seq<Byte>, offset: nat, pt: nat, more: nat)
    requires |Window(file, offset, pt)| == pt
    ensures Window(file, offset, pt + more) == Window(file, offset, pt) + Window(file, offset + pt, more)
  {
  }

  /** The outcome of F_R_Proc as a function of the bytes available. */
  function ReadResult(window: seq<Byte>, size: nat): int
    requires size > 0
  {
    if |window| % size == 0 then |window| / size else NOTOK
  }

  /** The records of a window without their brackets. */
  function StripBytes(window: seq<Byte>, size: nat): seq<Byte>
    requires size >= FILE_HEAD
    decreases |window|
  {
    if |window| < size then [] else Strip(window[..size]) + StripBytes(window[size..], size)
  }

  /** Reading whole records strips them one by one. */
  lemma {:induction false} StripRecords(ls: seq<seq<Byte>>, size: nat)
    requires size >= FILE_HEAD && AllSized(ls, size)
    ensures StripBytes(Flatten(ls), size) == Flatten(StripEach(ls))
    decreases |ls|
  {
    if ls == [] {
    } else {
      var s, rest := Flatten(ls), ls[1..];
      StripRecords(rest, size);
      assert s[..size] == ls[0] && s[size..] == Flatten(rest);
    }
  }

  function StripEach(ls: seq<seq<Byte>>): (rs: seq<seq<Byte>>)
    requires forall k :: 0 <= k < |ls| ==> |ls[k]| >= FILE_HEAD
    ensures |rs| == |ls|
    decreases |ls|
  {
    if ls == [] then [] else [Strip(ls[0])] + StripEach(ls[1..])
  }

  lemma {:induction false} WholeOf(s: seq<Byte>, size: nat, n: nat)
    requires size > 0 && |s| == n * size
    ensures Whole(s, size)
    decreases n
  {
    if n == 0 {
    } else {
      Distribute(n - 1, size);
      WholeOf(s[size..], size, n - 1);
    }
  }

  lemma Division(n: nat, size: nat)
    requires size > 0
    ensures n == size * (n / size) + n % size && (n % size == 0 <==> n == size * (n / size))
  {
  }
}

module FileLog {
  import opened Bytes
  import opened HeaderCodec
  import opened FileFormat
  import opened Kernel

  class FileQueue {
    const payload: nat      // OFS + 1: data and line feed
    var file: seq<Byte>
    var w_cnt: nat

    constructor (payload: nat)
      requires payload > 0
      ensures this.payload == payload && file == [] && w_cnt == 0
    {
      this.payload := payload;
      file, w_cnt := [], 0;
    }

    function BuffSize(): nat { BUFF_HEAD + payload }

    function FileSize(): nat { FILE_HEAD + payload }

    /** strlen of a text that ends at position `end`. */
    static method StrLen(buf: array<Byte>, ghost end: nat) returns (len: nat)
      requires end < buf.Length && buf[end] == NUL && NUL !in buf[..end]
      ensures len == end
    {
      forall x | 0 <= x < end
        ensures buf[x] != NUL
      {
        assert buf[x] in buf[..end];
      }
      len := 0;
      while buf[len] != NUL
        invariant len <= end
        decreases end - len
      {
        len := len + 1;
      }
    }

    /** Brackets one record into the batch buffer at k and blanks its NULs. */
    method PutLine(buf: array<Byte>, k: nat, b: seq<Byte>, cnt: nat)
      requires |b| == BuffSize() && k + FileSize() <= buf.Length
      modifies buf
      ensures buf[..k + FileSize()] == old(buf[..k]) + Line(b, cnt)
      ensures forall x :: k + FileSize() <= x < buf.Length ==> buf[x] == old(buf[x])
    {
      var line := Encode(b, cnt);
      forall j | 0 <= j < FileSize() {
        buf[k + j] := line[j];
      }
      for j := 0 to FileSize()
        invariant forall x :: 0 <= x < k || k + FileSize() <= x < buf.Length ==> buf[x] == old(buf[x])
        invariant forall x :: 0 <= x < j ==> buf[k + x] == Scrub(line)[x]
        invariant forall x :: j <= x < FileSize() ==> buf[k + x] == line[x]
      {
        if buf[k + j] == NUL {
          buf[k + j] := SPACE;
        }
      }
    }

    /** The bracketing loop of F_W_Proc: the batch, and NULs behind it. */
    method FillBuffer(p_buf: seq<Byte>, buf: array<Byte>) returns (k: nat)
      requires Whole(p_buf, BuffSize()) && |BatchOf(p_buf, w_cnt + 1, BuffSize())| < BUFLEN == buf.Length
      requires forall x :: 0 <= x < BUFLEN ==> buf[x] == NUL
      modifies buf
      ensures k < BUFLEN && buf[..k] == BatchOf(p_buf, w_cnt + 1, BuffSize())
      ensures forall x :: k <= x < BUFLEN ==> buf[x] == NUL
    {
      var size := BuffSize();
      var i: nat, cnt: nat := 0, w_cnt + 1;
      k := 0;
      ghost var batch, rest, done: seq<Byte> := BatchOf(p_buf, cnt, size), p_buf, [];
      assert done + batch == batch && done == buf[..k];
      while i < |p_buf|
        invariant i <= |p_buf| && rest == p_buf[i..] && Whole(rest, size)
        invariant k < BUFLEN && done == buf[..k] && done + BatchOf(rest, cnt, size) == batch
        invariant forall x :: k <= x < BUFLEN ==> buf[x] == NUL
        decreases |p_buf| - i
      {
        done := PutNext(p_buf, i, cnt, buf, k, rest, done, batch);
        rest := rest[size..];
        i, k, cnt := i + size, k + FileSize(), cnt + 1;
      }
      assert rest == [] && done + [] == done;
    }

    /** The record at i goes into the buffer at k, and the rest of the batch is to follow. */
    method PutNext(p_buf: seq<Byte>, i: nat, cnt: nat, buf: array<Byte>, k: nat,
                   ghost rest: seq<Byte>, ghost done: seq<Byte>, ghost batch: seq<Byte>)
      returns (ghost done': seq<Byte>)
      requires i <= |p_buf| && rest == p_buf[i..] && |rest| >= BuffSize() && k < buf.Length
      requires done == buf[..k] && done + BatchOf(rest, cnt, BuffSize()) == batch && |batch| < buf.Length
      modifies buf
      ensures k + FileSize() < buf.Length && done' == buf[..k + FileSize()]
      ensures done' + BatchOf(rest[BuffSize()..], cnt + 1, BuffSize()) == batch
      ensures forall x :: k + FileSize() <= x < buf.Length ==> buf[x] == old(buf[x])
      ensures i + BuffSize() <= |p_buf| && p_buf[i + BuffSize()..] == rest[BuffSize()..]
    {
      assert p_buf[i..i + BuffSize()] == rest[..BuffSize()];
      ghost var line := Line(rest[..BuffSize()], cnt);
      BatchMoves(rest, cnt, BuffSize(), done, line);
      PutLine(buf, k, p_buf[i..i + BuffSize()], cnt);
      done' := done + line;
    }

    /** The write loop of F_W_Proc. */
    method WriteAll(buf: array<Byte>, total: nat, ghost text: seq<Byte>, sys: Outcomes) returns (ok: bool)
      requires 0 < total <= buf.Length && text == buf[..total]
      modifies this`file
      ensures ok == Written(sys, total).0
      ensures file == old(file) + text[..Written(sys, total).1]
      ensures ok ==> file == old(file) + text
      ensures !ok ==> old(file) <= file < old(file) + text
    {
      ok, file := WriteText(file, buf[..total], sys);
      PartBehind(old(file), text, Written(sys, total).1);
    }

    /** F_W_Proc. On success the whole bracketed batch has been appended; when a
        write() fails what was written before is in the file, and the count stays. */
    method FWProc(p_buf: seq<Byte>, p_cnt: nat, sys: Outcomes) returns (rt: int)
      requires |p_buf| == p_cnt * BuffSize() && 0 < p_cnt * FileSize() < BUFLEN
      modifies this
      ensures var text := BatchOf(p_buf, old(w_cnt) + 1, BuffSize());
        && 0 < |text| && var w := Written(sys, |text|);
        && rt == (if w.0 then p_cnt else NOTOK)
        && file == old(file) + text[..w.1]
        && w_cnt == old(w_cnt) + (if w.0 then p_cnt else 0)
      ensures rt == p_cnt ==>
                file == old(file) + BatchOf(p_buf, old(w_cnt) + 1, BuffSize()) && w_cnt == old(w_cnt) + p_cnt
      ensures rt == NOTOK ==>
                w_cnt == old(w_cnt) && old(file) <= file < old(file) + BatchOf(p_buf, w_cnt + 1, BuffSize())
    {
      ghost var text := BatchOf(p_buf, w_cnt + 1, BuffSize());
      var buf, len := BuildBatch(p_buf, p_cnt, text);
      assert |text| == len;
      var ok := WriteAll(buf, len, text, sys);
      if !ok { return NOTOK; }
      w_cnt := w_cnt + p_cnt;
      return p_cnt;
    }

    /** The batch in a buffer of its own, and its length by strlen. */
    method BuildBatch(p_buf: seq<Byte>, p_cnt: nat, ghost text: seq<Byte>) returns (buf: array<Byte>, len: nat)
      requires |p_buf| == p_cnt * BuffSize() && 0 < p_cnt * FileSize() < BUFLEN
      requires text == BatchOf(p_buf, w_cnt + 1, BuffSize())
      ensures fresh(buf) && 0 < len <= buf.Length && buf[..len] == text
    {
      buf := new Byte[BUFLEN](_ => NUL);
      BatchFits(p_buf, w_cnt + 1, BuffSize(), FileSize(), p_cnt);
      var k := FillBuffer(p_buf, buf);
      len := StrLen(buf, k);
    }
  }

  /** F_R_Proc for p_cnt records of p_size bytes from the file offset. What is there
      must fit its buffers. It fails when a read does, and only then. */
  method FRProc(file: seq<Byte>, offset: nat, p_size: nat, p_cnt: nat, sys: Outcomes)
    returns (rt: int, p_buf: seq<Byte>, failed: bool)
    requires p_size > FILE_HEAD && p_size * p_cnt > 0 && |Window(file, offset, p_size * p_cnt)| <= BUFLEN
    ensures failed == ReadFails(sys, p_size * p_cnt, |Window(file, offset, p_size * p_cnt)|)
    ensures failed ==> rt == NOTOK && p_buf == []
    ensures !failed ==> var w := Window(file, offset, p_size * p_cnt);
              rt == ReadResult(w, p_size) && p_buf == if rt > 0 then StripBytes(w, p_size) else []
  {
    var buf;
    failed, buf := ReadWindow(file, offset, p_size * p_cnt, sys);
    p_buf := [];
    if failed { return NOTOK, p_buf, failed; }
    if |buf| == 0 { return OK, p_buf, failed; }
    var cnt := Records(|buf|, p_size);
    if cnt == NOTOK { return NOTOK, p_buf, failed; }
    WholeOf(buf, p_size, cnt);
    p_buf := StripLoop(buf, p_size);
    return cnt, p_buf, failed;
  }

  /** How many records n bytes are, or NOTOK when they end within one. */
  method Records(n: nat, p_size: nat) returns (cnt: int)
    requires p_size > 0
    ensures cnt == if n % p_size == 0 then n / p_size else NOTOK
    ensures cnt != NOTOK ==> cnt >= 0 && n == cnt * p_size
  {
    cnt := n / p_size;
    Division(n, p_size);
    if n != p_size * cnt { return NOTOK; }
  }

  /** The copying loop of F_R_Proc. */
  method StripLoop(buf: seq<Byte>, p_size: nat) returns (tmp: seq<Byte>)
    requires p_size > FILE_HEAD && Whole(buf, p_size)
    ensures tmp == StripBytes(buf, p_size)
  {
    tmp := [];
    var i := 0;
    ghost var rest := buf;
    while i < |buf|
      invariant 0 <= i <= |buf| && rest == buf[i..] && Whole(rest, p_size)
      invariant tmp + StripBytes(rest, p_size) == StripBytes(buf, p_size)
      decreases |buf| - i
    {
      assert buf[i..i + p_size] == rest[..p_size];
      MoveOver(tmp, Strip(rest[..p_size]), StripBytes(rest[p_size..], p_size));
      tmp := tmp + Strip(buf[i..i + p_size]);
      rest := rest[p_size..];
      i := i + p_size;
    }
  }
}

/** Batches of fixed-size records, whatever a record is turned into. */
module Batches {
  import opened Bytes
  import opened FileFormat

  type Printer = (seq<Byte>, nat) -> seq<Byte>

  /** The records of p_buf printed one after the other, the first numbered n. */
  function Printed(p_buf: seq<Byte>, n: nat, size: nat, render: Printer): seq<Byte>
    requires size > 0
    decreases |p_buf|
  {
    if |p_buf| < size then [] else render(p_buf[..size], n) + Printed(p_buf[size..], n + 1, size, render)
  }

  function Count(s: seq<Byte>, size: nat): nat
    requires size > 0
    decreases |s|
  {
    if |s| < size then 0 else 1 + Count(s[size..], size)
  }

  lemma {:induction false} CountLength(s: seq<Byte>, size: nat)
    requires size > 0 && Whole(s, size)
    ensures |s| == Count(s, size) * size
    decreases |s|
  {
    if s == [] {
    } else {
      CountLength(s[size..], size);
      Distribute(Count(s[size..], size), size);
    }
  }

  /** Numbering goes on from one batch to the next. */
  lemma {:induction false} PrintedAppend(a: seq<Byte>, b: seq<Byte>, n: nat, size: nat, render: Printer)
    requires size > 0 && Whole(a, size) && Whole(b, size)
    ensures Whole(a + b, size) && Count(a + b, size) == Count(a, size) + Count(b, size)
    ensures Printed(a + b, n, size, render)
         == Printed(a, n, size, render) + Printed(b, n + Count(a, size), size, render)
    decreases |a|
  {
    if a == [] {
      assert a + b == b;
    } else {
      var rest := a[size..];
      PrintedAppend(rest, b, n + 1, size, render);
      assert (a + b)[size..] == rest + b && (a + b)[..size] == a[..size];
      MoveOver(render(a[..size], n), Printed(rest, n + 1, size, render),
               Printed(b, n + Count(a, size), size, render));
    }
  }

  /** The file after some batches, each numbered from the count so far. */
  function FileAfter(file: seq<Byte>, w_cnt: nat, batches: seq<seq<Byte>>, size: nat, render: Printer): seq<Byte>
    requires size > 0
    decreases |batches|
  {
    if batches == [] then file
    else
      var b := batches[0];
      FileAfter(file + Printed(b, w_cnt + 1, size, render), w_cnt + Count(b, size), batches[1..], size, render)
  }

  /** Any run of appends leaves in the file what one append of all the records
      would have written. */
  lemma {:induction false} AppendsAreOne(log: seq<Byte>, batches: seq<seq<Byte>>, size: nat, render: Printer)
    requires size > 0 && Whole(log, size) && forall b :: b in batches ==> Whole(b, size)
    ensures Whole(log + Flatten(batches), size)
    ensures FileAfter(Printed(log, 1, size, render), Count(log, size), batches, size, render)
         == Printed(log + Flatten(batches), 1, size, render)
    decreases |batches|
  {
    if batches == [] {
      assert log + Flatten(batches) == log;
    } else {
      PrintedAppend(log, batches[0], 1, size, render);
      AppendsAreOne(log + batches[0], batches[1..], size, render);
      MoveOver(log, batches[0], Flatten(batches[1..]));
    }
  }

  /** The k-th piece of `size` bytes. */
  function Nth(s: seq<Byte>, size: nat, k: nat): seq<Byte>
    requires size > 0 && k < Count(s, size)
    decreases k
  {
    if k == 0 then s[..size] else Nth(s[size..], size, k - 1)
  }

  /** It starts at byte k * size. */
  lemma {:induction false} NthSlice(s: seq<Byte>, size: nat, k: nat)
    requires size > 0 && k < Count(s, size)
    ensures k * size + size <= |s| && Nth(s, size, k) == s[k * size..k * size + size]
    decreases k
  {
    if k == 0 {
    } else {
      NthSlice(s[size..], size, k - 1);
      Distribute(k - 1, size);
      SliceBehind(s[..size], s[size..], (k - 1) * size, size);
      assert s == s[..size] + s[size..];
    }
  }

  /** Record k of the print is the print of record k, when all records print to
      the same length. */
  lemma {:induction false} PrintedAt(log: seq<Byte>, n: nat, size: nat, fsize: nat, render: Printer)
    requires size > 0 && fsize > 0
    requires forall b: seq<Byte>, m: nat :: |b| == size ==> |render(b, m)| == fsize
    ensures var file := Printed(log, n, size, render);
      && Whole(file, fsize) && Count(file, fsize) == Count(log, size)
      && forall k: nat :: k < Count(log, size) ==> Nth(file, fsize, k) == render(Nth(log, size, k), n + k)
    decreases |log|
  {
    if |log| < size {
    } else {
      var rest := log[size..];
      var file, tail := Printed(log, n, size, render), Printed(rest, n + 1, size, render);
      PrintedAt(rest, n + 1, size, fsize, render);
      assert file[fsize..] == tail && file[..fsize] == render(log[..size], n);
    }
  }

  /** The records after any run of appends to an empty file. */
  lemma {:induction false} FileAt(batches: seq<seq<Byte>>, size: nat, fsize: nat, render: Printer)
    requires size > 0 && fsize > 0 && forall b :: b in batches ==> Whole(b, size)
    requires forall b: seq<Byte>, m: nat :: |b| == size ==> |render(b, m)| == fsize
    ensures var log := Flatten(batches); var file := FileAfter([], 0, batches, size, render);
      && |file| == Count(log, size) * fsize && Count(file, fsize) == Count(log, size)
      && forall k: nat :: k < Count(log, size) ==> Nth(file, fsize, k) == render(Nth(log, size, k), k + 1)
  {
    var log := Flatten(batches);
    AppendsAreOne([], batches, size, render);
    assert [] + log == log;
    PrintedAt(log, 1, size, fsize, render);
    CountLength(Printed(log, 1, size, render), fsize);
  }

  // ---- Appends that fail -------------------------------------------------

  /** A call of F_W_Proc: the batch is appended, or write() failed after t bytes. */
  datatype Call = Appended(batch: seq<Byte>) | Failed(batch: seq<Byte>, t: nat)

  /** The file after some calls; a failed one leaves the count alone. */
  function FileWith(file: seq<Byte>, w_cnt: nat, calls: seq<Call>, size: nat, render: Printer): seq<Byte>
    requires size > 0
    decreases |calls|
  {
    if calls == [] then file
    else
      var c := calls[0];
      var text := Printed(c.batch, w_cnt + 1, size, render);
      if c.Appended? then FileWith(file + text, w_cnt + Count(c.batch, size), calls[1..], size, render)
      else FileWith(file + text[..Min(c.t, |text|)], w_cnt, calls[1..], size, render)
  }

  /** The bytes the failed calls have left. */
  function Stray(w_cnt: nat, calls: seq<Call>, size: nat, render: Printer): nat
    requires size > 0
    decreases |calls|
  {
    if calls == [] then 0
    else
      var c := calls[0];
      if c.Appended? then Stray(w_cnt + Count(c.batch, size), calls[1..], size, render)
      else Min(c.t, |Printed(c.batch, w_cnt + 1, size, render)|) + Stray(w_cnt, calls[1..], size, render)
  }

  function Succeeded(calls: seq<Call>): (bs: seq<seq<Byte>>)
    decreases |calls|
  {
    if calls == [] then []
    else (if calls[0].Appended? then [calls[0].batch] else []) + Succeeded(calls[1..])
  }

  lemma {:induction false} StrayBytes(file: seq<Byte>, w_cnt: nat, calls: seq<Call>, size: nat, render: Printer)
    requires size > 0
    ensures var f := FileAfter(file, w_cnt, Succeeded(calls), size, render);
      && |FileWith(file, w_cnt, calls, size, render)| == |f| + Stray(w_cnt, calls, size, render)
      && (Stray(w_cnt, calls, size, render) == 0 ==> FileWith(file, w_cnt, calls, size, render) == f)
    decreases |calls|
  {
    if calls == [] {
    } else {
      var c, rest := calls[0], calls[1..];
      var text := Printed(c.batch, w_cnt + 1, size, render);
      if c.Appended? {
        assert Succeeded(calls)[0] == c.batch && Succeeded(calls)[1..] == Succeeded(rest);
        StrayBytes(file + text, w_cnt + Count(c.batch, size), rest, size, render);
      } else {
        var part := text[..Min(c.t, |text|)];
        assert Succeeded(calls) == Succeeded(rest);
        StrayBytes(file + part, w_cnt, rest, size, render);
        FileAfterSize(file, file + part, w_cnt, Succeeded(rest), size, render);
        if part == [] { assert file + part == file; }
      }
    }
  }

  /** How much a run appends does not depend on what was there. */
  lemma {:induction false} FileAfterSize(f1: seq<Byte>, f2: seq<Byte>, w_cnt: nat, bs: seq<seq<Byte>>, size: nat,
                                         render: Printer)
    requires size > 0
    ensures |FileAfter(f1, w_cnt, bs, size, render)| - |f1| == |FileAfter(f2, w_cnt, bs, size, render)| - |f2|
    decreases |bs|
  {
    if bs == [] {
    } else {
      var text := Printed(bs[0], w_cnt + 1, size, render);
      FileAfterSize(f1 + text, f2 + text, w_cnt + Count(bs[0], size), bs[1..], size, render);
    }
  }

  lemma {:induction false} NthBehind(a: seq<Byte>, b: seq<Byte>, size: nat, j: nat)
    requires size > 0 && Whole(a, size) && j < Count(b, size)
    ensures Count(a + b, size) == Count(a, size) + Count(b, size)
    ensures Nth(a + b, size, Count(a, size) + j) == Nth(b, size, j)
    decreases |a|
  {
    if a == [] {
      assert a + b == b;
    } else {
      assert (a + b)[size..] == a[size..] + b;
      NthBehind(a[size..], b, size, j);
    }
  }

  lemma {:induction false} NthFront(a: seq<Byte>, b: seq<Byte>, size: nat, j: nat)
    requires size > 0 && j < Count(a, size)
    ensures j < Count(a + b, size) && Nth(a + b, size, j) == Nth(a, size, j)
    decreases |a|
  {
    assert (a + b)[size..] == a[size..] + b && (a + b)[..size] == a[..size];
    if j == 0 {
    } else {
      NthFront(a[size..], b, size, j - 1);
    }
  }

  /** A piece of text at two places. */
  lemma {:induction false} Twice(was: seq<Byte>, part: seq<Byte>, more: seq<Byte>, size: nat, j: nat)
    requires size > 0 && Whole(was, size) && Whole(part, size) && j < Count(part, size)
    ensures var file := was + (part + (part + more)); var c, k := Count(was, size), Count(part, size);
      && c + k + j < Count(file, size)
      && Nth(file, size, c + j) == Nth(file, size, c + k + j) == Nth(part, size, j)
  {
    var again := part + more;
    var c, k := Count(was, size), Count(part, size);
    NthFront(part, more, size, j);
    NthFront(part, again, size, j);
    NthBehind(part, again, size, j);
    NthBehind(was, part + again, size, j);
    NthBehind(was, part + again, size, k + j);
    assert c + (k + j) == c + k + j;
  }

  lemma {:induction false} RetryTwice(log: seq<Byte>, first: seq<Byte>, rest: seq<Byte>, size: nat, fsize: nat,
                                      render: Printer, j: nat)
    requires size > 0 && fsize > 0 && Whole(log, size) && Whole(first, size) && Whole(rest, size)
    requires forall b: seq<Byte>, m: nat :: |b| == size ==> |render(b, m)| == fsize
    requires j < Count(first, size)
    ensures var c, k := Count(log, size), Count(first, size);
            var was, part := Printed(log, 1, size, render), Printed(first, c + 1, size, render);
            var file := was + (part + Printed(first + rest, c + 1, size, render));
      && c + k + j < Count(file, fsize)
      && Nth(file, fsize, c + j) == Nth(file, fsize, c + k + j) == render(Nth(first, size, j), c + j + 1)
  {
    var c := Count(log, size);
    PrintedAppend(first, rest, c + 1, size, render);
    PrintedAt(log, 1, size, fsize, render);
    PrintedAt(first, c + 1, size, fsize, render);
    Twice(Printed(log, 1, size, render), Printed(first, c + 1, size, render),
          Printed(rest, c + 1 + Count(first, size), size, render), fsize, j);
  }

  lemma {:induction false} SliceBehind(a: seq<Byte>, b: seq<Byte>, at: nat, len: nat)
    requires at + len <= |b|
    ensures (a + b)[|a| + at..|a| + at + len] == b[at..at + len]
  {
  }
}

/** The file queue over whole runs: what a successful history of appends leaves in
    the file, and what reading it back gives. */
module FileRuns {
  import opened Bytes
  import opened HeaderCodec
  import opened FileFormat
  import opened Batches

  /** Line, on byte sequences of any length. */
  function PrintLine(b: seq<Byte>, n: nat): seq<Byte> {
    if |b| >= BUFF_HEAD then Line(b, n) else []
  }

  /** What F_W_Proc appends is its batch, printed line by line. */
  lemma {:induction false} BatchIsPrinted(p_buf: seq<Byte>, n: nat, size: nat)
    requires size >= BUFF_HEAD
    ensures BatchOf(p_buf, n, size) == Printed(p_buf, n, size, PrintLine)
    decreases |p_buf|
  {
    if |p_buf| < size {
    } else {
      BatchIsPrinted(p_buf[size..], n + 1, size);
      assert PrintLine(p_buf[..size], n) == Line(p_buf[..size], n);
    }
  }

  /** The log in the file.  After any run of successful appends the file is
      w_cnt records long and its record k is the k-th record appended, bracketed,
      with sequence number k + 1. */
  lemma {:induction false} FileIsTheLog(batches: seq<seq<Byte>>, size: nat)
    requires size >= BUFF_HEAD && forall b :: b in batches ==> Whole(b, size)
    ensures var log := Flatten(batches); var fsize := size - BUFF_HEAD + FILE_HEAD;
            var file := FileAfter([], 0, batches, size, PrintLine);
      && |file| == Count(log, size) * fsize && Count(file, fsize) == Count(log, size)
      && forall k: nat :: k < Count(log, size) ==> Nth(file, fsize, k) == PrintLine(Nth(log, size, k), k + 1)
  {
    FileAt(batches, size, size - BUFF_HEAD + FILE_HEAD, PrintLine);
  }

  /** And that number can be read in the line. */
  lemma {:induction false} LineSeq(b: seq<Byte>, n: nat)
    requires |b| >= BUFF_HEAD && n < 1_0000_0000
    ensures PrintLine(b, n) == Line(b, n) && AtoI(Line(b, n)[1..9]) == n
  {
    SeqTextReadsBack(n);
    SeqFieldText(n);
    assert Encode(b, n)[1..9] == SeqField(n)[1..9];
    assert Line(b, n)[1..9] == Scrub(Encode(b, n)[1..9]);
    assert Scrub(SeqText(n)) == SeqText(n);
  }

  /** With failed appends among them the file is still what the successful ones
      wrote exactly when no failed one had written a byte. */
  lemma {:induction false} FailedAppends(calls: seq<Call>, size: nat)
    requires size >= BUFF_HEAD
    ensures FileWith([], 0, calls, size, PrintLine) == FileAfter([], 0, Succeeded(calls), size, PrintLine)
            <==> Stray(0, calls, size, PrintLine) == 0
  {
    StrayBytes([], 0, calls, size, PrintLine);
  }

  /** A failed append that got as far as k whole records, repeated with success:
      those records are in the file twice, with the same numbers. */
  lemma {:induction false} RetryRepeats(log: seq<Byte>, first: seq<Byte>, rest: seq<Byte>, size: nat, j: nat)
    requires size >= BUFF_HEAD && Whole(log, size) && Whole(first, size) && Whole(rest, size) && j < Count(first, size)
    ensures var c, k, fsize := Count(log, size), Count(first, size), size - BUFF_HEAD + FILE_HEAD;
            var was, part := Printed(log, 1, size, PrintLine), Printed(first, c + 1, size, PrintLine);
            var file := was + (part + Printed(first + rest, c + 1, size, PrintLine));
      && c + k + j < Count(file, fsize)
      && Nth(file, fsize, c + j) == Nth(file, fsize, c + k + j) == PrintLine(Nth(first, size, j), c + j + 1)
  {
    RetryTwice(log, first, rest, size, size - BUFF_HEAD + FILE_HEAD, PrintLine, j);
  }

  // ---- Reading back ------------------------------------------------------

  lemma {:induction false} UnbracketScrub(e: seq<Byte>, lens: seq<nat>)
    requires |e| == Total(lens) + 2 * |lens|
    ensures Unbracket(Scrub(e), lens) == Scrub(Unbracket(e, lens))
    decreases |lens|
  {
    if lens == [] {
    } else {
      var n := lens[0];
      var head, rest := e[1..1 + n], e[n + 2..];
      UnbracketScrub(rest, lens[1..]);
      ScrubParts(e, n + 2);
      ScrubSlice(e, 1, 1 + n);
      ScrubAppend(head, Unbracket(rest, lens[1..]));
    }
  }

  lemma {:induction false} ScrubSlice(a: seq<Byte>, i: nat, j: nat)
    requires i <= j <= |a|
    ensures Scrub(a)[i..j] == Scrub(a[i..j])
  {
  }

  lemma {:induction false} ScrubParts(a: seq<Byte>, n: nat)
    requires n <= |a|
    ensures Scrub(a)[..n] == Scrub(a[..n]) && Scrub(a)[n..] == Scrub(a[n..])
  {
  }

  lemma {:induction false} ScrubAppend(a: seq<Byte>, b: seq<Byte>)
    ensures Scrub(a + b) == Scrub(a) + Scrub(b)
  {
  }

  lemma {:induction false} StripHeadScrub(h: seq<Byte>)
    requires |h| == FILE_HEAD
    ensures StripHead(Scrub(h)) == Scrub(StripHead(h))
  {
    FieldTotals();
    UnbracketScrub(h[10..], FIELDS);
    ScrubParts(h, 10);
    ScrubAppend(h[1..9], Unbracket(h[10..], FIELDS));
    assert Scrub(h)[1..9] == Scrub(h[1..9]);
  }

  lemma {:induction false} StripScrub(e: seq<Byte>)
    requires |e| >= FILE_HEAD
    ensures Strip(Scrub(e)) == Scrub(Strip(e))
  {
    ScrubParts(e, FILE_HEAD);
    StripHeadScrub(e[..FILE_HEAD]);
    ScrubAppend(StripHead(e[..FILE_HEAD]), e[FILE_HEAD..]);
  }

  /** What comes back of a record through the file: all of it but the sequence
      number, exactly when neither header nor payload holds a NUL. */
  lemma {:induction false} FileRoundTrip(b: seq<Byte>, n: nat)
    requires |b| >= BUFF_HEAD
    ensures Strip(Line(b, n)) == SeqText(n) + b[8..] <==> NUL !in b[8..]
  {
    StripScrub(Encode(b, n));
    RoundTrip(b, n);
    var i, whole := Strip(Encode(b, n)), SeqText(n) + b[8..];
    assert b[8..] == b[8..BUFF_HEAD] + b[BUFF_HEAD..];
    if NUL in b[8..] {
      assert whole[8..] == b[8..];
      assert NUL in whole && NUL !in Scrub(i);
    } else {
      assert NUL !in b[8..BUFF_HEAD];
      assert Scrub(whole) == whole;
    }
  }
}

/** The data-SHM queue (st01/sub/shm_rw.c): a ring of sequence-stamped records
    with a file behind it.  A reader looks at the stamp of the first record it
    wants; when it is not the one expected the file is read instead.  This module
    says what each operation does to ring, counts and file bytes, whatever they
    hold; what that means for the log of records is the matter of DshmRuns. */
module DshmRing {
  import opened Bytes
  import opened HeaderCodec
  import opened FileFormat
  import opened Kernel

  /** The slot of record k in a ring of m. */
  function Slot(k: nat, m: nat): (j: nat)
    requires m > 0
    ensures j < m
  {
    k % m
  }

  /** AtoIf(frw.Seq+1, 8) */
  function Stamp(cell: seq<Byte>): int {
    if |cell| < 9 then 0 else AtoI(cell[1..9])
  }

  function Blank(fsize: nat): (c: seq<Byte>)
    ensures |c| == fsize
  {
    Repeat(NUL, fsize)
  }

  /** The file system during one call: whether the file opens, whether lseek does its
      work, and what read() or write() come to. */
  datatype FileSys = FileSys(opens: bool, seeks: bool, calls: Outcomes)

  /** Ring, write count, file, and the sync manager's count. */
  datatype Machine = Machine(ring: seq<seq<Byte>>, w: nat, file: seq<Byte>, smr: nat, fsize: nat) {

    predicate Shape() {
      ring != [] && fsize > FILE_HEAD && forall j :: 0 <= j < |ring| ==> |ring[j]| == fsize
    }

    predicate Fits(b: seq<Byte>) { |b| + FILE_HEAD == fsize + BUFF_HEAD }

    function Cell(k: nat): (c: seq<Byte>)
      requires Shape()
      ensures |c| == fsize
    {
      ring[Slot(k, |ring|)]
    }

    /** One round of the loop of DSHM_W_Core. */
    function Write(b: seq<Byte>): (q: Machine)
      requires Shape() && Fits(b)
      ensures q.Shape() && q.fsize == fsize
    {
      this.(ring := ring[Slot(w, |ring|) := Encode(b, w + 1)], w := w + 1)
    }

    /** The sync manager moves its next record to the end of the file; a slot that
        starts with a line feed is passed over. */
    function Sync(): (q: Machine)
      requires Shape()
      ensures q.Shape() && q.fsize == fsize
    {
      if smr >= w then this
      else if Cell(smr)[0] == LF then this.(smr := smr + 1)
      else this.(file := file + Cell(smr), smr := smr + 1)
    }

    /** A new segment over the file as it is, with the manager's count `s`. */
    function Restart(s: nat): (q: Machine)
      requires Shape()
      ensures q.Shape() && q.fsize == fsize
    {
      this.(ring := Repeat(Blank(fsize), |ring|), w := |file| / fsize, smr := s)
    }

    // ---- DSHM_R for a cursor at r and at most p records -------------------

    function Ask(r: nat, p: int): int { Min(w - r, p) }

    predicate FromRing(r: nat, p: int)
      requires Shape()
    {
      Ask(r, p) <= 0 || Stamp(Cell(r)) == r + 1
    }

    function FileBytes(r: nat, p: int): seq<Byte> {
      if Ask(r, p) <= 0 then [] else Window(file, r * fsize, fsize * Ask(r, p))
    }

    /** A call fails when it goes to the file and one of the system calls does. */
    predicate Fails(r: nat, p: int, fs: FileSys)
      requires Shape()
    {
      && !FromRing(r, p)
      && (!fs.opens || !fs.seeks
          || (fsize * Ask(r, p) > 0 && ReadFails(fs.calls, fsize * Ask(r, p), |FileBytes(r, p)|)))
    }

    /** What the buffers of 8192 bytes ask of a call: one record fits, and so do the
        records copied from the ring, or the bytes there are in the file. */
    predicate Room(r: nat, p: int)
      requires Shape()
    {
      Ask(r, p) > 0 ==>
        && fsize <= BUFLEN
        && if FromRing(r, p) then (fsize - FILE_HEAD + BUFF_HEAD) * Ask(r, p) <= BUFLEN
           else |FileBytes(r, p)| <= BUFLEN
    }

    /** The records in n slots from that of r on. */
    function RingBytes(r: nat, n: nat): seq<Byte>
      requires Shape()
    {
      if n == 0 then [] else RingBytes(r, n - 1) + Strip(Cell(r + n - 1))
    }

    /** The result of the call. */
    function Count(r: nat, p: int): int
      requires Shape()
    {
      if FromRing(r, p) then Ask(r, p) else ReadResult(FileBytes(r, p), fsize)
    }

    /** The bytes it hands out. */
    function Out(r: nat, p: int): seq<Byte>
      requires Shape()
    {
      if Count(r, p) <= 0 then []
      else if FromRing(r, p) then RingBytes(r, Count(r, p))
      else StripBytes(FileBytes(r, p), fsize)
    }

    /** Where an auto-advancing cursor is afterwards: a file read moves it only
        when it returned something. */
    function Next(r: nat, p: int): (r': nat)
      requires Shape() && p >= 1
    {
      if FromRing(r, p) then r + Ask(r, p) else r + Max(0, Count(r, p))
    }
  }

  /** A buffer of records written one after the other. */
  function WriteAll(q: Machine, p_buf: seq<Byte>): (q': Machine)
    requires q.Shape()
    ensures q'.Shape() && q'.fsize == q.fsize
    decreases |p_buf|
  {
    var size := q.fsize - FILE_HEAD + BUFF_HEAD;
    if |p_buf| < size then q else WriteAll(q.Write(p_buf[..size]), p_buf[size..])
  }

  /** The i-th record the manager has still to move. */
  function Due(q: Machine, i: nat): (c: seq<Byte>)
    requires q.Shape()
    ensures |c| == q.fsize
  {
    q.Cell(q.smr + i)
  }

  function Batch(q: Machine, n: nat): (s: seq<Byte>)
    requires q.Shape()
  {
    if n == 0 then [] else Batch(q, n - 1) + Due(q, n - 1)
  }

  predicate NoFeed(q: Machine, n: nat)
    requires q.Shape()
  {
    forall i :: 0 <= i < n ==> Due(q, i)[0] != LF
  }

  /** The manager has moved n records. */
  function Moved(q: Machine, n: nat): Machine
    requires q.Shape()
  {
    q.(file := q.file + Batch(q, n), smr := q.smr + n)
  }

  lemma {:induction false} StampEncode(b: seq<Byte>, n: nat)
    requires |b| >= BUFF_HEAD && n < 1_0000_0000
    ensures Stamp(Encode(b, n)) == n && Encode(b, n)[0] == BRACKET_L
  {
    SeqTextReadsBack(n);
    SeqFieldText(n);
    assert Encode(b, n)[1..9] == SeqField(n)[1..9];
    assert Encode(b, n)[0] == SeqField(n)[0];
  }

  lemma {:induction false} RingBytesFirst(q: Machine, r: nat, n: nat)
    requires q.Shape() && n > 0
    ensures Strip(q.Cell(r)) <= q.RingBytes(r, n)
    decreases n
  {
    if n == 1 {
      assert q.RingBytes(r, 0) == [];
    } else {
      RingBytesFirst(q, r, n - 1);
    }
  }

  lemma {:induction false} CellIsReturned(q: Machine, r: nat, p: int, cell: seq<Byte>, fs: FileSys)
    requires q.Shape() && r < q.w && p >= 1 && cell == q.Cell(r) && Stamp(cell) == r + 1
    ensures !q.Fails(r, p, fs) && q.Count(r, p) == Min(q.w - r, p) >= 1 && q.Next(r, p) == r + Min(q.w - r, p)
    ensures Strip(cell) <= q.Out(r, p) && (q.Count(r, p) == 1 ==> q.Out(r, p) == Strip(cell))
  {
    RingSide(q, r, p);
    RingBytesFirst(q, r, q.Ask(r, p));
    assert q.RingBytes(r, 0) == [];
  }

  /** A call on a queue whose ring holds the reader's record: it does not fail, it
      returns as many records as there are and were asked for, and the first one is
      that record. */
  lemma {:induction false} HeldIsReturned(q: Machine, r: nat, p: int, b: seq<Byte>, fs: FileSys)
    requires q.Shape() && q.Fits(b) && r < q.w && r + 1 < 1_0000_0000 && p >= 1 && q.Cell(r) == Encode(b, r + 1)
    ensures !q.Fails(r, p, fs) && q.Count(r, p) == Min(q.w - r, p) >= 1 && q.Next(r, p) == r + Min(q.w - r, p)
    ensures Image(b, r + 1) <= q.Out(r, p) && (q.Count(r, p) == 1 ==> q.Out(r, p) == Image(b, r + 1))
  {
    StampEncode(b, r + 1);
    StripEncode(b, r + 1);
    CellIsReturned(q, r, p, Encode(b, r + 1), fs);
  }

  /** When nothing goes wrong in the file system no call fails; a call that goes to the
      file fails when it cannot be opened, positioned or, at the first try, read; one
      served from the ring never does. */
  lemma {:induction false} FailsOnError(q: Machine, r: nat, p: int, fs: FileSys)
    requires q.Shape() && p >= 1
    ensures fs.opens && fs.seeks && (forall k :: 0 <= k < |fs.calls| ==> fs.calls[k] >= 0) ==> !q.Fails(r, p, fs)
    ensures r < q.w && Stamp(q.Cell(r)) != r + 1 ==>
              (!fs.opens || !fs.seeks || (fs.calls != [] && fs.calls[0] < 0) ==> q.Fails(r, p, fs))
    ensures r >= q.w || Stamp(q.Cell(r)) == r + 1 ==> !q.Fails(r, p, fs)
  {
    var len := q.fsize * q.Ask(r, p);
    if r < q.w {
      Positive(q.fsize, q.Ask(r, p));
      if forall k :: 0 <= k < |fs.calls| ==> fs.calls[k] >= 0 {
        NoErrorReads(fs.calls, len, |q.FileBytes(r, p)|);
      }
    }
  }

  lemma Positive(a: nat, b: nat)
    requires a > 0 && b > 0
    ensures a * b > 0
  {
  }

  /** A record just written is what a reader that had read everything is given next. */
  lemma {:induction false} WriteThenRead(q: Machine, q': Machine, b: seq<Byte>, p: int, fs: FileSys)
    requires q.Shape() && q.Fits(b) && q.w + 1 < 1_0000_0000 && p >= 1 && q' == q.Write(b)
    ensures !q'.Fails(q.w, p, fs) && q'.Count(q.w, p) == 1 && q'.Next(q.w, p) == q.w + 1
    ensures q'.Out(q.w, p) == Image(b, q.w + 1)
  {
    assert q'.Shape() && q'.Fits(b) && q'.w == q.w + 1 && q'.Cell(q.w) == Encode(b, q.w + 1);
    HeldIsReturned(q', q.w, p, b, fs);
  }

  /** And how it stands in its slot. */
  lemma {:induction false} CellLayout(q: Machine, b: seq<Byte>)
    requires q.Shape() && q.Fits(b)
    ensures Layout(q.Write(b).ring[q.w % |q.ring|], b)
    ensures |Decimal(q.w + 1, 8)| >= 8 && q.Write(b).ring[q.w % |q.ring|][1..9] == Decimal(q.w + 1, 8)[..8]
  {
    EncodeLayout(b, q.w + 1);
    EncodeNumber(b, q.w + 1);
  }

  /** A call that goes to the file. */
  lemma FileSide(q: Machine, r: nat, p: int, w: seq<Byte>)
    requires q.Shape() && !q.FromRing(r, p) && w == q.FileBytes(r, p)
    ensures q.Count(r, p) == ReadResult(w, q.fsize)
    ensures q.Out(r, p) == if q.Count(r, p) > 0 then StripBytes(w, q.fsize) else []
    ensures p >= 1 ==> q.Next(r, p) == r + if q.Count(r, p) > 0 then q.Count(r, p) else 0
  {
  }

  lemma RingSide(q: Machine, r: nat, p: int)
    requires q.Shape() && q.FromRing(r, p)
    ensures q.Count(r, p) == q.Ask(r, p)
    ensures q.Out(r, p) == if q.Ask(r, p) > 0 then q.RingBytes(r, q.Ask(r, p)) else []
    ensures p >= 1 ==> q.Next(r, p) == r + q.Ask(r, p)
  {
  }
}

/** The queue itself: counts, ring and file changed in place. */
module Dshm {
  import opened Bytes
  import opened HeaderCodec
  import opened FileFormat
  import opened DshmRing
  import opened Kernel
  import FileLog

  const NCURSOR: nat := 9

  /** The arguments DSHM_R refuses. */
  predicate BadRead(p_type: int, p_cnt: int) {
    p_cnt < 1 || 45 < p_cnt || p_type / 10 < 1 || p_type / 10 > 3 || p_type % 10 > 8
  }

  class DshmQueue {
    const max_rec: nat
    const payload: nat        // IDS + 1
    const ring: array<seq<Byte>>
    var w_cnt: nat
    const r_cnt: array<int>
    var file: seq<Byte>
    var sm_r_cnt: nat         // records the sync manager has moved to the file

    function BuffSize(): nat { BUFF_HEAD + payload }

    function FileSize(): nat { FILE_HEAD + payload }

    ghost predicate Valid()
      reads ring, r_cnt
    {
      && payload > 0 && max_rec > 0 && ring.Length == max_rec
      && (forall j :: 0 <= j < max_rec ==> |ring[j]| == FileSize())
      && CursorsOk()
    }

    ghost predicate CursorsOk()
      reads r_cnt
    {
      r_cnt.Length == NCURSOR && forall i :: 0 <= i < NCURSOR ==> r_cnt[i] >= 0
    }

    ghost function View(): (q: Machine)
      requires Valid()
      reads this, ring, r_cnt
      ensures q.Shape() && q.fsize == FileSize()
    {
      Machine(ring[..], w_cnt, file, sm_r_cnt, FileSize())
    }

    /** The slot of r holds record `b`, written as number r + 1. */
    predicate InSlot(b: seq<Byte>, r: int)
      reads this, ring
    {
      && |b| == 70 + payload && 0 <= r < w_cnt && r + 1 < 1_0000_0000
      && ring.Length == max_rec > 0 && ring[r % max_rec] == Encode(b, r + 1)
    }

    /** What a call for p_cnt records is to give a reader at r whose record is `b`. */
    predicate Served(b: seq<Byte>, r: int, p_cnt: int, rt: int, p_buf: seq<Byte>)
      requires |b| >= 70 && r >= 0
      reads this
    {
      && rt == (if w_cnt - r < p_cnt then w_cnt - r else p_cnt) && rt >= 1
      && |b| <= |p_buf| && p_buf[..|b|] == Image(b, r + 1)
    }

    lemma {:induction false} SlotServes(r: nat, p_cnt: int, fs: FileSys)
      requires Valid() && p_cnt >= 1
      ensures forall b: seq<Byte> :: InSlot(b, r) ==>
                && Served(b, r, p_cnt, View().Count(r, p_cnt), View().Out(r, p_cnt))
                && !View().Fails(r, p_cnt, fs) && View().Next(r, p_cnt) == r + View().Count(r, p_cnt)
    {
      forall b: seq<Byte> | InSlot(b, r)
        ensures Served(b, r, p_cnt, View().Count(r, p_cnt), View().Out(r, p_cnt))
        ensures !View().Fails(r, p_cnt, fs) && View().Next(r, p_cnt) == r + View().Count(r, p_cnt)
      {
        assert View().Cell(r) == ring[r % max_rec];
        HeldIsReturned(View(), r, p_cnt, b, fs);
      }
    }

    /** A data-SHM queue just created over an empty file. */
    constructor (max_rec: nat, payload: nat)
      requires max_rec > 0 && payload > 0
      ensures Valid() && this.max_rec == max_rec && this.payload == payload
      ensures View() == Machine(Repeat(Blank(FileSize()), max_rec), 0, [], 0, FileSize())
      ensures forall i :: 0 <= i < NCURSOR ==> r_cnt[i] == 0
      ensures fresh(ring) && fresh(r_cnt)
    {
      this.max_rec, this.payload := max_rec, payload;
      ring := new seq<Byte>[max_rec](_ => Blank(FILE_HEAD + payload));
      r_cnt := new int[NCURSOR](_ => 0);
      w_cnt, file, sm_r_cnt := 0, [], 0;
      new;
      assert ring[..] == Repeat(Blank(FileSize()), max_rec);
    }

    /** DSHM_R. `failed` reports a read error of the file system. */
    method Read(p_type: int, p_cnt: int, fs: FileSys) returns (rt: int, p_buf: seq<Byte>, failed: bool)
      requires Valid() && (!BadRead(p_type, p_cnt) ==> View().Room(r_cnt[p_type % 10], p_cnt))
      modifies r_cnt
      ensures Valid()
      ensures failed <==> !BadRead(p_type, p_cnt) && View().Fails(old(r_cnt[p_type % 10]), p_cnt, fs)
      ensures fs.opens && fs.seeks && (forall k :: 0 <= k < |fs.calls| ==> fs.calls[k] >= 0) ==> !failed
      ensures p_type < 10 || 40 <= p_type || p_type % 10 == 9 || p_cnt < 1 || 45 < p_cnt ==>
                rt == -1 && p_buf == [] && r_cnt[..] == old(r_cnt[..])
      ensures 10 <= p_type < 40 && p_type % 10 <= 8 && 1 <= p_cnt <= 45 ==>
                forall b: seq<Byte> :: InSlot(b, old(r_cnt[p_type % 10])) ==>
                  Served(b, old(r_cnt[p_type % 10]), p_cnt, rt, p_buf) && !failed
                  && r_cnt[p_type % 10] == old(r_cnt[p_type % 10]) + if p_type < 20 then 0 else rt
      ensures BadRead(p_type, p_cnt) || failed ==> rt == NOTOK && p_buf == [] && r_cnt[..] == old(r_cnt[..])
      ensures !BadRead(p_type, p_cnt) && !failed ==>
                && var fk, ck := p_type / 10, p_type % 10;
                && var r := old(r_cnt[ck]);
                && rt == View().Count(r, p_cnt) && p_buf == View().Out(r, p_cnt)
                && r_cnt[..] == old(r_cnt[..])[ck := if fk >= 2 then View().Next(r, p_cnt) else r]
    {
      p_buf, failed := [], false;
      if p_cnt < 1 || 45 < p_cnt { return NOTOK, p_buf, failed; }
      var fk, ck := p_type / 10, p_type % 10;
      if fk < 1 || fk > 3 || ck < 0 || ck > 8 { return NOTOK, p_buf, failed; }

      SlotServes(r_cnt[ck], p_cnt, fs);
      var advance;
      rt, p_buf, failed, advance := Fetch(r_cnt[ck], p_cnt, fs);
      if fk >= 2 { r_cnt[ck] := r_cnt[ck] + advance; }
    }

    /** The body of DSHM_R: by ring or by file, and how far the cursor may go. */
    method Fetch(r: nat, p_cnt: int, fs: FileSys) returns (rt: int, p_buf: seq<Byte>, failed: bool, advance: int)
      requires Valid() && p_cnt >= 1 && View().Room(r, p_cnt)
      ensures failed == View().Fails(r, p_cnt, fs)
      ensures fs.opens && fs.seeks && (forall k :: 0 <= k < |fs.calls| ==> fs.calls[k] >= 0) ==> !failed
      ensures failed ==> rt == NOTOK && p_buf == [] && advance == 0
      ensures !failed ==> rt == View().Count(r, p_cnt) && p_buf == View().Out(r, p_cnt)
      ensures !failed ==> r + advance == View().Next(r, p_cnt)
    {
      var data_cnt := w_cnt - r;
      if p_cnt < data_cnt { data_cnt := p_cnt; }
      var lapped, tmp := CopyRecords(r, data_cnt);
      ghost var q := View();
      assert data_cnt == q.Ask(r, p_cnt);
      if lapped {
        FileSide(q, r, p_cnt, q.FileBytes(r, p_cnt));
        Positive(FileSize(), data_cnt);
        FailsOnError(q, r, p_cnt, fs);
        if !fs.opens || !fs.seeks { return NOTOK, [], true, 0; }
        rt, p_buf, failed := FileLog.FRProc(file, r * FileSize(), FileSize(), data_cnt, fs.calls);
        return rt, p_buf, failed, if rt > 0 then rt else 0;
      }
      RingSide(q, r, p_cnt);
      return data_cnt, tmp, false, data_cnt;
    }

    /** The copying loop of DSHM_R, which gives up when the first record of the
        batch does not carry the number wanted. */
    method CopyRecords(r: nat, data_cnt: int) returns (lapped: bool, tmp: seq<Byte>)
      requires Valid()
      ensures lapped <==> data_cnt > 0 && Stamp(View().Cell(r)) != r + 1
      ensures !lapped ==> tmp == if data_cnt > 0 then View().RingBytes(r, data_cnt) else []
    {
      tmp := [];
      var rc, i := r, 0;
      while i < data_cnt
        invariant 0 <= i && (i > 0 ==> i <= data_cnt) && rc == r + i
        invariant i > 0 ==> Stamp(View().Cell(r)) == r + 1
        invariant tmp == View().RingBytes(r, i)
      {
        var buf := ring[Slot(rc, max_rec)];
        assert View().Cell(rc) == buf;
        if i == 0 {
          var stamp := AtoIf(buf[1..], 8);
          assert buf[1..][..8] == buf[1..9];
          if stamp != rc + 1 { return true, tmp; }
        }
        assert View().RingBytes(r, i + 1) == tmp + Strip(buf);
        tmp := tmp + Strip(buf);
        rc := rc + 1;
        i := i + 1;
      }
      return false, tmp;
    }

    /** One round of the loop of DSHM_W_Core. */
    method PutRecord(b: seq<Byte>)
      requires Valid() && |b| == BuffSize()
      modifies this, ring
      ensures Valid() && View() == old(View()).Write(b)
    {
      var cnt := w_cnt + 1;
      var offset := Slot(w_cnt, max_rec);
      ring[offset] := Encode(b, cnt);
      w_cnt := w_cnt + 1;
    }

    /** DSHM_W_Core on a buffer of p_cnt records, as one step under the lock. */
    method WriteCore(p_buf: seq<Byte>, p_cnt: nat) returns (rt: int)
      requires Valid() && |p_buf| == p_cnt * BuffSize()
      modifies this, ring
      ensures Valid() && rt == p_cnt && View() == WriteAll(old(View()), p_buf)
    {
      WholeOf(p_buf, BuffSize(), p_cnt);
      var i: nat := 0;
      ghost var rest, goal := p_buf, WriteAll(View(), p_buf);
      while i < |p_buf|
        invariant i <= |p_buf| && rest == p_buf[i..] && Whole(rest, BuffSize())
        invariant Valid() && WriteAll(View(), rest) == goal
        decreases |p_buf| - i
      {
        PutNext(p_buf, i, rest, goal);
        rest := rest[BuffSize()..];
        i := i + BuffSize();
      }
      return p_cnt;
    }

    /** The record at i, and what is left of the buffer. */
    method PutNext(p_buf: seq<Byte>, i: nat, ghost rest: seq<Byte>, ghost goal: Machine)
      requires Valid() && i <= |p_buf| && rest == p_buf[i..] && |rest| >= BuffSize()
      requires WriteAll(View(), rest) == goal
      modifies this, ring
      ensures Valid() && WriteAll(View(), rest[BuffSize()..]) == goal
      ensures i + BuffSize() <= |p_buf| && rest[BuffSize()..] == p_buf[i + BuffSize()..]
    {
      assert p_buf[i..i + BuffSize()] == rest[..BuffSize()];
      PutRecord(p_buf[i..i + BuffSize()]);
    }

    /** One round of the sync manager: up to max_cnt records, copied from the ring
        and appended to the file.  When write() fails the thread ends: a part of the
        batch is in the file and the count has not moved. */
    method Sync(max_cnt: nat, fs: FileSys) returns (ok: bool, n: nat, passed: bool)
      requires Valid()
      modifies this`file, this`sm_r_cnt
      ensures Valid() && old(sm_r_cnt) + n <= Max(old(sm_r_cnt), w_cnt) && n <= max_cnt
      ensures NoFeed(old(View()), n)
      ensures passed ==> n == 0 && Due(old(View()), 0)[0] == LF
      ensures ok ==> View() == if passed then old(View()).(smr := old(sm_r_cnt) + 1) else Moved(old(View()), n)
      ensures ok && old(sm_r_cnt) < w_cnt && max_cnt > 0 ==> sm_r_cnt > old(sm_r_cnt)
      ensures n == 0 ==> ok
      ensures n > 0 ==> var len := |Batch(old(View()), n)|;
                len > 0 && (ok <==> fs.seeks && Written(fs.calls, len).0)
      ensures !ok ==> sm_r_cnt == old(sm_r_cnt) && old(file) <= file < old(file) + Batch(old(View()), n)
    {
      var data_cnt := w_cnt - sm_r_cnt;
      if data_cnt <= 0 { return true, 0, false; }
      var cnt := if data_cnt > max_cnt then max_cnt else data_cnt;
      var w_buf;
      n, w_buf := CopyBatch(cnt);
      if n < cnt && n == 0 {
        sm_r_cnt := sm_r_cnt + 1;
        return true, 0, true;
      }
      if n > 0 {
        if !fs.seeks { return false, n, false; }
        ok := AppendAll(w_buf, fs.calls);
        if !ok { return false, n, false; }
        sm_r_cnt := sm_r_cnt + n;
      }
      return true, n, false;
    }

    /** The manager's copying loop: it stops at a slot that starts with a line feed. */
    method CopyBatch(cnt: nat) returns (i: nat, w_buf: seq<Byte>)
      requires Valid()
      ensures i <= cnt && NoFeed(View(), i) && w_buf == Batch(View(), i)
      ensures i > 0 ==> w_buf != []
      ensures i < cnt ==> Due(View(), i)[0] == LF
    {
      i, w_buf := 0, [];
      while i < cnt
        invariant 0 <= i <= cnt && NoFeed(View(), i) && w_buf == Batch(View(), i)
        invariant i > 0 ==> w_buf != []
      {
        var cell := ring[Slot(sm_r_cnt + i, max_rec)];
        assert Due(View(), i) == cell;
        if cell[0] == LF { break; }
        w_buf := w_buf + cell;
        i := i + 1;
      }
    }

    /** The manager's write loop. */
    method AppendAll(w_buf: seq<Byte>, sys: Outcomes) returns (ok: bool)
      requires w_buf != []
      modifies this`file
      ensures ok == Written(sys, |w_buf|).0 && file == old(file) + w_buf[..Written(sys, |w_buf|).1]
      ensures ok ==> file == old(file) + w_buf
      ensures !ok ==> old(file) <= file < old(file) + w_buf
    {
      ok, file := WriteText(file, w_buf, sys);
      PartBehind(old(file), w_buf, Written(sys, |w_buf|).1);
    }

    /** A restart: the segment is created anew, w_cnt comes from the file size, and
        the ten read counts from the _dseq file when it held them all, otherwise
        they are 0 (st01/sub/config_db.c:1107-1152). */
    method Restart(saved: Option<seq<int>>)
      requires Valid()
      requires saved.Some? ==> |saved.value| == NCURSOR + 1 && forall i :: 0 <= i <= NCURSOR ==> saved.value[i] >= 0
      modifies this, ring, r_cnt
      ensures Valid()
      ensures View() == old(View()).Restart(if saved.Some? then saved.value[9] else 0)
      ensures r_cnt[..] == if saved.Some? then saved.value[..9] else Repeat(0, NCURSOR)
    {
      forall j | 0 <= j < ring.Length { ring[j] := Blank(FileSize()); }
      forall j | 0 <= j < NCURSOR { r_cnt[j] := 0; }
      assert ring[..] == Repeat(Blank(FileSize()), max_rec);
      w_cnt, sm_r_cnt := 0, 0;
      if |file| > 0 { w_cnt := |file| / FileSize(); }
      if saved.Some? {
        for i := 0 to NCURSOR
          invariant forall j :: 0 <= j < i ==> r_cnt[j] == saved.value[j]
          invariant forall j :: i <= j < NCURSOR ==> r_cnt[j] == 0
          modifies r_cnt
        {
          r_cnt[i] := saved.value[i];
        }
        sm_r_cnt := saved.value[9];
      }
    }

    /** Dshm_Add_Count: a reader that reads without advancing reports what it has
        processed. `exits` stands for Exit_Process. */
    method AddCount(p_type: int, p_cnt: int) returns (exits: bool)
      requires Valid()
      modifies r_cnt
      ensures Valid()
      ensures exits <==> p_cnt < 0 || p_type / 10 != 1 || p_type % 10 > 8
      ensures r_cnt[..] == if exits then old(r_cnt[..])
                           else old(r_cnt[..])[p_type % 10 := old(r_cnt[p_type % 10]) + p_cnt]
    {
      if p_cnt < 0 { return true; }
      var fk, ck := p_type / 10, p_type % 10;
      if fk != 1 || ck < 0 || ck > 8 { return true; }
      r_cnt[ck] := r_cnt[ck] + p_cnt;
      return false;
    }
  }
}

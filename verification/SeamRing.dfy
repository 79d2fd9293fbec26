/** The unbounded log that the SEAM staging ring stands for: every record ever
    written and, for each reader, a cursor and a count of lost records.  Nothing
    here has slots; that the 4096-slot ring behaves like this log is what the
    methods of class SeamQueue below are proved to do. */
module SeamLog {
  import opened Bytes

  const SLOTS: int := 4096
  const RECSZ: nat := 480
  const NREADER: nat := 4

  /** The bytes of one slot. */
  datatype Record = Record(bytes: seq<Byte>)

  /** One reader: r_seq[i] and dropped[i]. `w` is the number of records written. */
  datatype Cursor = Cursor(r: int, dropped: int) {

    /** 0 <= dropped[i] <= r_seq[i] <= w_seq. */
    predicate Ok(w: nat) { 0 <= dropped <= r <= w }

    /** The oldest index the reader can still be given. */
    function Start(w: nat): int { Max(r, w - SLOTS) }

    /** A lapped reader loses what was overwritten, and the loss is counted. */
    function Jump(w: nat): Cursor { Cursor(Start(w), dropped + (Start(w) - r)) }

    /** How many records a read or peek of at most `max` returns. */
    function Avail(w: nat, max: int): nat
      requires Ok(w)
    {
      if max <= 0 then 0 else Min(w - Start(w), max)
    }

    function Peek(w: nat, max: int): (c: Cursor)
      requires Ok(w)
      ensures c.Ok(w)
    {
      if max <= 0 then this else Jump(w)
    }

    function Read(w: nat, max: int): (c: Cursor)
      requires Ok(w)
      ensures c.Ok(w)
    {
      if max <= 0 then this else Cursor(Start(w) + Avail(w, max), Jump(w).dropped)
    }

    function Commit(w: nat, n: int): (c: Cursor)
      requires Ok(w)
      ensures c.Ok(w)
    {
      if n <= 0 then this else Cursor(Min(r + n, w), dropped)
    }
  }

  /** What a read or peek hands out: the log from the reader's start. */
  function Delivery<T>(written: seq<T>, c: Cursor, max: int): (d: seq<T>)
    requires c.Ok(|written|)
    ensures |d| == c.Avail(|written|, max)
  {
    if max <= 0 then []
    else written[c.Start(|written|)..c.Start(|written|) + c.Avail(|written|, max)]
  }

  function Clamp(recsz: int): nat { if recsz < 0 then 0 else Min(recsz, RECSZ) }

  /** A record as the ring stores it: cut to 480 bytes, padded with blanks. */
  function Padded(rec: seq<Byte>): (r: Record)
    requires |rec| <= RECSZ
    ensures |r.bytes| == RECSZ && rec <= r.bytes
    ensures forall j :: |rec| <= j < RECSZ ==> r.bytes[j] == SPACE
  {
    Record(rec + Repeat(SPACE, RECSZ - |rec|))
  }

  /** A buffer filled from the reader's start, as far as there is anything to copy. */
  lemma IsDelivery<T>(out: seq<T>, n: nat, written: seq<T>, c: Cursor, max: int)
    requires c.Ok(|written|) && max > 0 && n == c.Avail(|written|, max) <= |out|
    requires forall j :: 0 <= j < n ==> out[j] == written[c.Start(|written|) + j]
    ensures out[..n] == Delivery(written, c, max)
  {
  }

  predicate GoodReader(i: int) { 0 <= i < NREADER }

  /** In figures: a call for `max` > 0 records first brings a reader that is more than
      4096 behind to w - 4096 and counts the difference; a read then moves it by what
      there is, up to max, a peek does not; a commit of n > 0 moves it by n, not past
      w; any other call does nothing; and there are four readers. */
  lemma CursorMeans(c: Cursor, w: nat, max: int, n: int, i: int)
    requires c.Ok(w)
    ensures max <= 0 ==> c.Read(w, max) == c && c.Peek(w, max) == c && c.Avail(w, max) == 0
    ensures max > 0 && w - c.r <= 4096 ==>
              && c.Peek(w, max) == c && c.Read(w, max).dropped == c.dropped
              && (w - c.r <= max ==> c.Read(w, max).r == w && c.Avail(w, max) == w - c.r)
              && (w - c.r > max ==> c.Read(w, max).r == c.r + max && c.Avail(w, max) == max)
    ensures max > 0 && w - c.r > 4096 ==>
              && c.Peek(w, max).r == w - 4096 && c.Peek(w, max).dropped - c.dropped == w - 4096 - c.r
              && c.Read(w, max) == c.Peek(w, max).Read(w, max) && c.Avail(w, max) == c.Peek(w, max).Avail(w, max)
    ensures c.Commit(w, n).dropped == c.dropped
    ensures c.Commit(w, n).r == if n <= 0 then c.r else if n <= w - c.r then c.r + n else w
    ensures GoodReader(i) <==> i == 0 || i == 1 || i == 2 || i == 3
  {
  }

  /** A reader that has read everything is given the next record, and no other. */
  lemma {:induction false} NextIsGiven<T>(written: seq<T>, x: T, c: Cursor, max: int)
    requires c.Ok(|written|) && c.r == |written| && max >= 1
    ensures c.Ok(|written + [x]|) && Delivery(written + [x], c, max) == [x]
    ensures c.Read(|written + [x]|, max) == Cursor(c.r + 1, c.dropped)
  {
  }
}

/** The ring itself (st01/sub/seam_ring.c): cursors and slots changed in place. */
module SeamRing {
  import opened Bytes
  import opened SeamLog

  class SeamQueue {
    var w_seq: int
    const r_seq: array<int>
    const dropped: array<int>
    const slot: array<Record>
    ghost var written: seq<Record>

    ghost predicate Shape() {
      && r_seq.Length == NREADER && dropped.Length == NREADER && slot.Length == SLOTS
      && r_seq != dropped
    }

    /** Everything the queue consists of. */
    ghost function Parts(): set<object> { {this, r_seq, dropped, slot} }

    ghost predicate Valid()
      reads this, r_seq, dropped, slot
    {
      && Shape()
      && w_seq == |written|
      && (forall i :: 0 <= i < NREADER ==> 0 <= dropped[i] <= r_seq[i] <= w_seq)
      && forall k :: Max(0, w_seq - SLOTS) <= k < w_seq ==> slot[k % SLOTS] == written[k]
    }

    ghost function Reader(i: nat): Cursor
      requires i < r_seq.Length && i < dropped.Length
      reads r_seq, dropped
    {
      Cursor(r_seq[i], dropped[i])
    }

    /** Cursor and loss count of every reader but ridx are as they were. */
    twostate predicate OthersKept(ridx: int)
      reads r_seq, dropped
    {
      && r_seq.Length == dropped.Length
      && forall i :: 0 <= i < r_seq.Length && i != ridx ==>
                       r_seq[i] == old(r_seq[i]) && dropped[i] == old(dropped[i])
    }

    /** A zero-filled queue, as SEAM_Init leaves it. */
    constructor ()
      ensures Valid() && written == [] && forall i :: 0 <= i < NREADER ==> Reader(i) == Cursor(0, 0)
      ensures fresh(r_seq) && fresh(dropped) && fresh(slot)
    {
      w_seq := 0;
      r_seq := new int[NREADER](_ => 0);
      dropped := new int[NREADER](_ => 0);
      slot := new Record[SLOTS](_ => Record(Repeat(NUL, RECSZ)));
      written := [];
    }

    /** memset of a queue whose contents may be anything. */
    method Clear()
      requires Shape()
      modifies Parts()
      ensures Valid() && written == [] && forall i :: 0 <= i < NREADER ==> Reader(i) == Cursor(0, 0)
    {
      w_seq, written := 0, [];
      forall i | 0 <= i < NREADER { r_seq[i] := 0; }
      forall i | 0 <= i < NREADER { dropped[i] := 0; }
      forall s | 0 <= s < SLOTS { slot[s] := Record(Repeat(NUL, RECSZ)); }
    }

    /** seam_ring_write. The caller's buffer must hold the bytes it announces. */
    method Write(rec: array?<Byte>, recsz: int) returns (rt: int)
      requires Valid()
      requires rec != null ==> recsz <= rec.Length || 480 <= rec.Length
      modifies this, slot
      ensures Valid()
      ensures rt == if rec == null then -1 else 1
      ensures rec == null ==> written == old(written)
      ensures rec != null ==>
                && |written| == |old(written)| + 1 && written[..|old(written)|] == old(written)
                && var b := written[|old(written)|].bytes;
                && |b| == 480
                && forall j :: 0 <= j < 480 ==> b[j] == if j < recsz then rec[j] else 32
      ensures rec != null ==> written == old(written) + [Padded(rec[..Clamp(recsz)])]
    {
      if rec == null { return -1; }
      var n := recsz;
      if n < 0 { n := 0; }
      if n > RECSZ { n := RECSZ; }
      var s := w_seq % SLOTS;
      slot[s] := Record(Repeat(SPACE, RECSZ));
      slot[s] := Record(rec[..n] + slot[s].bytes[n..]);
      assert slot[s] == Padded(rec[..Clamp(recsz)]);
      written := written + [slot[s]];
      w_seq := w_seq + 1;
      return 1;
    }

    /** The lapped-reader step shared by read and peek. */
    method SkipLost(ridx: nat)
      requires Valid() && ridx < NREADER
      modifies r_seq, dropped
      ensures Valid() && Reader(ridx) == old(Reader(ridx)).Jump(w_seq)
      ensures OthersKept(ridx)
    {
      var avail := w_seq - r_seq[ridx];
      if avail > SLOTS {
        dropped[ridx] := dropped[ridx] + (avail - SLOTS);
        r_seq[ridx] := w_seq - SLOTS;
      }
    }

    /** seam_ring_read: at most once, the cursor moves with the copy. */
    method Read(ridx: int, out: array?<Record>, maxrec: int) returns (n: int)
      requires Valid()
      requires out != null ==> maxrec <= out.Length && out != slot
      modifies r_seq, dropped, out
      ensures Valid()
      ensures out == null || !GoodReader(ridx) ==>
                n == -1 && OthersKept(-1) && (out != null ==> out[..] == old(out[..]))
      ensures out != null && GoodReader(ridx) ==>
                && Reader(ridx) == old(Reader(ridx)).Read(w_seq, maxrec)
                && OthersKept(ridx)
                && n == old(Reader(ridx)).Avail(w_seq, maxrec) <= out.Length
                && out[..n] == Delivery(written, old(Reader(ridx)), maxrec)
                && out[n..] == old(out[..])[n..]
    {
      if out == null { return -1; }
      if ridx < 0 || ridx >= NREADER { return -1; }
      if maxrec <= 0 { return 0; }
      SkipLost(ridx);
      n := CopyOut(ridx, out, maxrec);
      IsDelivery(out[..], n, written, old(Reader(ridx)), maxrec);
    }

    /** The copying loop of seam_ring_read. */
    method CopyOut(ridx: nat, out: array<Record>, maxrec: nat) returns (n: nat)
      requires Valid() && ridx < NREADER && maxrec <= out.Length && out != slot && w_seq - r_seq[ridx] <= SLOTS
      modifies r_seq, out
      ensures Valid() && n == Min(w_seq - old(r_seq[ridx]), maxrec)
      ensures r_seq[ridx] == old(r_seq[ridx]) + n && dropped[ridx] == old(dropped[ridx]) && OthersKept(ridx)
      ensures forall j :: 0 <= j < n ==> out[j] == written[old(r_seq[ridx]) + j]
      ensures out[n..] == old(out[..])[n..]
    {
      n := 0;
      while r_seq[ridx] < w_seq && n < maxrec
        invariant 0 <= n <= maxrec && r_seq[ridx] == old(r_seq[ridx]) + n <= w_seq
        invariant OthersKept(ridx)
        invariant forall j :: 0 <= j < n ==> out[j] == written[old(r_seq[ridx]) + j]
        invariant forall j :: n <= j < out.Length ==> out[j] == old(out[j])
        decreases w_seq - r_seq[ridx]
      {
        var s := r_seq[ridx] % SLOTS;
        out[n] := slot[s];
        r_seq[ridx] := r_seq[ridx] + 1;
        n := n + 1;
      }
    }

    /** seam_ring_peek: the cursor stays, except for the lapped-reader step. */
    method Peek(ridx: int, out: array?<Record>, maxrec: int) returns (n: int)
      requires Valid()
      requires out != null ==> maxrec <= out.Length && out != slot
      modifies r_seq, dropped, out
      ensures Valid()
      ensures out == null || !GoodReader(ridx) ==>
                n == -1 && OthersKept(-1) && (out != null ==> out[..] == old(out[..]))
      ensures out != null && GoodReader(ridx) ==>
                && Reader(ridx) == old(Reader(ridx)).Peek(w_seq, maxrec)
                && OthersKept(ridx)
                && n == old(Reader(ridx)).Avail(w_seq, maxrec) <= out.Length
                && out[..n] == Delivery(written, old(Reader(ridx)), maxrec)
                && out[n..] == old(out[..])[n..]
    {
      if out == null { return -1; }
      if ridx < 0 || ridx >= NREADER { return -1; }
      if maxrec <= 0 { return 0; }
      SkipLost(ridx);
      n := LookAt(r_seq[ridx], out, maxrec);
      IsDelivery(out[..], n, written, old(Reader(ridx)), maxrec);
    }

    /** The copying loop of seam_ring_peek. */
    method LookAt(start: nat, out: array<Record>, maxrec: nat) returns (n: nat)
      requires Valid() && start <= w_seq && maxrec <= out.Length && out != slot && w_seq - start <= SLOTS
      modifies out
      ensures Valid() && n == Min(w_seq - start, maxrec)
      ensures forall j :: 0 <= j < n ==> out[j] == written[start + j]
      ensures out[n..] == old(out[..])[n..]
    {
      n := 0;
      var cur := start;
      while cur < w_seq && n < maxrec
        invariant 0 <= n <= maxrec && cur == start + n <= w_seq
        invariant forall j :: 0 <= j < n ==> out[j] == written[start + j]
        invariant forall j :: n <= j < out.Length ==> out[j] == old(out[j])
      {
        var s := cur % SLOTS;
        out[n] := slot[s];
        cur := cur + 1;
        n := n + 1;
      }
    }

    /** seam_ring_commit: advance past what was processed, never past w_seq. */
    method Commit(ridx: int, n: int)
      requires Valid()
      modifies r_seq
      ensures Valid()
      ensures GoodReader(ridx) ==> Reader(ridx) == old(Reader(ridx)).Commit(w_seq, n)
      ensures OthersKept(ridx)
    {
      if ridx < 0 || ridx >= NREADER || n <= 0 { return; }
      r_seq[ridx] := r_seq[ridx] + n;
      if r_seq[ridx] > w_seq {
        r_seq[ridx] := w_seq;
      }
    }
  }
}

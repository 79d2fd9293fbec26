/** One process's calls on the shared segment (st01/sub/seam_queue.c), each locked
    region taken as one step.  What the calls do to the segment is said in terms of
    the logs of module SeamRuns, so that every theorem about runs of a log is one
    about this class. */
module SeamSegment {
  import opened Bytes
  import opened SeamLog
  import opened SeamRing
  import SeamRuns

  const SEAM_MAGIC: int := 0x5345414D
  const NQUEUE: nat := 2

  const EMPTY_LOG := SeamRuns.Log([], [Cursor(0, 0), Cursor(0, 0), Cursor(0, 0), Cursor(0, 0)])

  predicate GoodQueue(q: int) { q == 0 || q == 1 }

  ghost function LogOf(q: SeamQueue): (l: SeamRuns.Log)
    requires q.Valid()
    reads q, q.r_seq, q.dropped, q.slot
    ensures l.Ok()
  {
    SeamRuns.Log(q.written, [q.Reader(0), q.Reader(1), q.Reader(2), q.Reader(3)])
  }

  /** The ring operation inside the lock, as a step of the queue's log. */
  method ReadQueue(q: SeamQueue, ridx: int, out: array?<Record>, maxrec: int) returns (n: int)
    requires q.Valid() && GoodReader(ridx)
    requires out != null ==> maxrec <= out.Length && out !in q.Parts()
    modifies q.r_seq, q.dropped, out
    ensures q.Valid()
    ensures LogOf(q) == if out == null then old(LogOf(q)) else SeamRuns.Step(old(LogOf(q)), SeamRuns.R(ridx, maxrec))
    ensures out == null ==> n == -1
    ensures out != null ==>
              && 0 <= n <= out.Length
              && out[..n] == Delivery(old(LogOf(q)).written, old(LogOf(q)).readers[ridx], maxrec)
  {
    n := q.Read(ridx, out, maxrec);
  }

  method PeekQueue(q: SeamQueue, ridx: int, out: array?<Record>, maxrec: int) returns (n: int)
    requires q.Valid() && GoodReader(ridx)
    requires out != null ==> maxrec <= out.Length && out !in q.Parts()
    modifies q.r_seq, q.dropped, out
    ensures q.Valid()
    ensures LogOf(q) == if out == null then old(LogOf(q)) else SeamRuns.Step(old(LogOf(q)), SeamRuns.P(ridx, maxrec))
    ensures out == null ==> n == -1
    ensures out != null ==>
              && 0 <= n <= out.Length
              && out[..n] == Delivery(old(LogOf(q)).written, old(LogOf(q)).readers[ridx], maxrec)
  {
    n := q.Peek(ridx, out, maxrec);
  }

  class Segment {
    var attached: bool            // Seam != NULL in this process
    var magic: int
    const q0: SeamQueue
    const q1: SeamQueue

    /** &Seam->q[k] */
    function Queue(k: int): SeamQueue
      requires GoodQueue(k)
    {
      if k == 0 then q0 else q1
    }

    ghost function Parts(): set<object> { q0.Parts() + q1.Parts() }

    /** Without the magic the queues may hold anything. */
    ghost predicate Valid()
      reads this, Parts()
    {
      && q0.Shape() && q1.Shape()
      && this !in Parts() && q0.Parts() !! q1.Parts()
      && (magic == SEAM_MAGIC ==> q0.Valid() && q1.Valid())
      && (attached ==> magic == SEAM_MAGIC)
    }

    /** What queue k stands for. */
    ghost function LogAt(k: int): (l: SeamRuns.Log)
      requires Valid() && GoodQueue(k)
      reads this, Parts()
      ensures l.Ok()
    {
      if magic == SEAM_MAGIC then LogOf(Queue(k)) else EMPTY_LOG
    }

    twostate predicate OthersKept(qidx: int)
      requires old(Valid()) && Valid()
      reads this, Parts()
    {
      forall k :: GoodQueue(k) && k != qidx ==> LogAt(k) == old(LogAt(k))
    }

    /** The call gets past the wrapper's own checks. */
    twostate predicate Called(qidx: int, ridx: int, attachable: bool)
      reads this
    {
      (old(attached) || attachable) && GoodQueue(qidx) && GoodReader(ridx)
    }

    /** A segment as the system hands it out: zero-filled. */
    constructor ()
      ensures Valid() && !attached && forall k :: GoodQueue(k) ==> LogAt(k) == EMPTY_LOG
    {
      attached, magic := false, 0;
      q0 := new SeamQueue();
      q1 := new SeamQueue();
    }

    /** SEAM_Init: whatever it does, and whichever process does it first, cannot be
        seen in any log. `attachable` is the outcome of the system calls. */
    method Init(attachable: bool) returns (rt: int)
      requires Valid()
      modifies this, if magic == SEAM_MAGIC then {} else Parts()
      ensures Valid() && OthersKept(-1)
      ensures rt == if old(attached) || attachable then 0 else -1
      ensures attached == (rt == 0)
    {
      if attached { return 0; }
      if !attachable { return -1; }
      if magic != SEAM_MAGIC {
        q0.Clear();
        q1.Clear();
        magic := SEAM_MAGIC;
      }
      attached := true;
      return 0;
    }

    /** SEAM_W */
    method Write(qidx: int, rec: array?<Byte>, recsz: int, attachable: bool) returns (rt: int)
      requires Valid() && (rec != null ==> recsz <= rec.Length || 480 <= rec.Length)
      modifies this, Parts()
      ensures Valid() && OthersKept(qidx)
      ensures rt == if (old(attached) || attachable) && (qidx == 0 || qidx == 1) && rec != null then 1 else -1
      ensures GoodQueue(qidx) && rt == -1 ==> LogAt(qidx) == old(LogAt(qidx))
      ensures rt == 1 ==>
                && 0 <= qidx <= 1 && rec != null
                && var w := old(LogAt(qidx)).written;
                && |LogAt(qidx).written| == |w| + 1
                && var b := LogAt(qidx).written[|w|].bytes;
                && |b| == 480 && forall j :: 0 <= j < 480 ==> b[j] == if j < recsz then rec[j] else 32
      ensures rt == 1 ==>
                LogAt(qidx) == SeamRuns.Step(old(LogAt(qidx)), SeamRuns.W(Padded(rec[..Clamp(recsz)])))
    {
      rt := Init(attachable);
      if rt != 0 { return -1; }
      if qidx < 0 || qidx >= NQUEUE { return -1; }
      rt := Queue(qidx).Write(rec, recsz);
    }

    /** SEAM_R */
    method Read(qidx: int, ridx: int, out: array?<Record>, maxrec: int, attachable: bool) returns (n: int)
      requires Valid() && (out != null ==> maxrec <= out.Length && out !in Parts())
      modifies this, Parts(), out
      ensures Valid() && OthersKept(qidx)
      ensures !(Called(qidx, ridx, attachable) && out != null) ==>
                n == -1 && (GoodQueue(qidx) ==> LogAt(qidx) == old(LogAt(qidx)))
      ensures Called(qidx, ridx, attachable) && out != null ==>
                && LogAt(qidx) == SeamRuns.Step(old(LogAt(qidx)), SeamRuns.R(ridx, maxrec))
                && 0 <= n <= out.Length
                && out[..n] == Delivery(old(LogAt(qidx)).written, old(LogAt(qidx)).readers[ridx], maxrec)
    {
      n := Init(attachable);
      if n != 0 { return -1; }
      if qidx < 0 || qidx >= NQUEUE { return -1; }
      if ridx < 0 || ridx >= NREADER { return -1; }
      n := ReadQueue(Queue(qidx), ridx, out, maxrec);
    }

    /** SEAM_Peek */
    method Peek(qidx: int, ridx: int, out: array?<Record>, maxrec: int, attachable: bool) returns (n: int)
      requires Valid() && (out != null ==> maxrec <= out.Length && out !in Parts())
      modifies this, Parts(), out
      ensures Valid() && OthersKept(qidx)
      ensures !(Called(qidx, ridx, attachable) && out != null) ==>
                n == -1 && (GoodQueue(qidx) ==> LogAt(qidx) == old(LogAt(qidx)))
      ensures Called(qidx, ridx, attachable) && out != null ==>
                && LogAt(qidx) == SeamRuns.Step(old(LogAt(qidx)), SeamRuns.P(ridx, maxrec))
                && 0 <= n <= out.Length
                && out[..n] == Delivery(old(LogAt(qidx)).written, old(LogAt(qidx)).readers[ridx], maxrec)
    {
      n := Init(attachable);
      if n != 0 { return -1; }
      if qidx < 0 || qidx >= NQUEUE { return -1; }
      if ridx < 0 || ridx >= NREADER { return -1; }
      n := PeekQueue(Queue(qidx), ridx, out, maxrec);
    }

    /** SEAM_Commit */
    method Commit(qidx: int, ridx: int, n: int, attachable: bool) returns (rt: int)
      requires Valid()
      modifies this, Parts()
      ensures Valid() && OthersKept(qidx)
      ensures !Called(qidx, ridx, attachable) ==>
                rt == -1 && (GoodQueue(qidx) ==> LogAt(qidx) == old(LogAt(qidx)))
      ensures Called(qidx, ridx, attachable) ==>
                rt == 0 && LogAt(qidx) == SeamRuns.Step(old(LogAt(qidx)), SeamRuns.C(ridx, n))
    {
      rt := Init(attachable);
      if rt != 0 { return -1; }
      if qidx < 0 || qidx >= NQUEUE { return -1; }
      if ridx < 0 || ridx >= NREADER { return -1; }
      Queue(qidx).Commit(ridx, n);
    }
  }
}

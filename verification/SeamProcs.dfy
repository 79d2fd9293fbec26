/** The shared segment under many processes (st01/sub/seam_queue.c): SEAM_Init with
    its magic guard, and locked writes, reads, peeks and commits.  Every process
    runs statement by statement, any process may take the next step, and any
    process may die anywhere; the semaphore is taken with SEM_UNDO, so a dead
    holder releases it (st01/sub/semipc.c:61-80).  The order-queue segment
    (SEAM_ORD_*) is the same code over three queues instead of two. */
module SeamProcs {
  import opened Bytes
  import opened SeamLog
  import SeamRuns

  /** One published record and the process that wrote it. */
  datatype Entry = Entry(pid: nat, rec: Record)

  /** What crashes have left on a reader: the losses that dropped counts more than
      once (or ahead of the cursor), and that r_seq may lie beyond w_seq. */
  datatype Mark = Mark(again: nat, over: bool)

  const UNMARKED := Mark(0, false)

  /** One queue of the segment. `written`, `torn` and `marks` are not in shared
      memory: the records published so far, whether the slot that the next write
      will use has been overwritten without the write being published, and the
      marks of the readers. */
  datatype Queue = Queue(
    w: nat, slots: seq<Record>, cursors: seq<Cursor>, written: seq<Entry>, torn: bool, marks: seq<Mark>)

  /** Where a read, peek or commit has got to. `c0` is the reader's cursor when the
      lock was taken, `out` what has been copied. */
  datatype Point =
    | Entered(op: SeamRuns.Op)
    | Refused(op: SeamRuns.Op)              // bad arguments, or nothing asked for
    | Jumping(op: SeamRuns.Op, c0: Cursor)  // dropped counted, r_seq not yet moved
    | Copying(op: SeamRuns.Op, c0: Cursor, start: int, out: seq<Record>)
    | Returned(op: SeamRuns.Op, c0: Cursor, start: int, out: seq<Record>)
    | Clamping(op: SeamRuns.Op, c0: Cursor) // r_seq advanced, not yet compared with w_seq
    | Committed(op: SeamRuns.Op, c0: Cursor)

  datatype PC =
    | Detached                        // Seam == NULL
    | Attached                        // in SEAM_Init, about to lock
    | InitLocked                      // about to test the magic
    | Zeroed                          // memset done, magic not yet stored
    | Ready                           // between calls
    | WLocked(q: nat, rec: Record)    // in seam_ring_write, slot not yet touched
    | Scribbled(q: nat, rec: Record)  // slot overwritten, w_seq not yet advanced
    | Calling(q: nat, at: Point)
    | Finishing                       // about to unlock

  predicate Holding(pc: PC) { !(pc.Detached? || pc.Attached? || pc.Ready?) }

  /** `owner` is the semaphore: None when its value is 1. `sent` lists what each
      process has published to each queue, in the order of its own calls. */
  datatype Sys = Sys(
    magic: bool, queues: seq<Queue>, owner: Option<nat>, pcs: seq<PC>, sent: map<(nat, nat), seq<Record>>)
  {
    function Sent(p: nat, q: nat): seq<Record> { if (p, q) in sent then sent[(p, q)] else [] }
  }

  datatype Act =
    | Attach
    | LockInit
    | TestMagic
    | SetMagic
    | BeginWrite(q: nat, rec: Record)
    | Scribble
    | Publish
    | BeginCall(q: nat, op: SeamRuns.Op)   // a read, peek or commit takes the lock
    | CallStep                             // its next statement
    | Unlock
    | Crash

  function ZeroQueue(): Queue {
    Queue(0, Repeat(Record(Repeat(NUL, RECSZ)), SLOTS), Repeat(Cursor(0, 0), NREADER), [], false,
          Repeat(UNMARKED, NREADER))
  }

  // ---- The queue under the lock ------------------------------------------

  function ScribbleSlot(q: Queue, rec: Record): Queue
    requires |q.slots| == SLOTS
  {
    q.(slots := q.slots[q.w % SLOTS := rec], torn := true)
  }

  function PublishRecord(q: Queue, p: nat, rec: Record): Queue {
    q.(w := q.w + 1, written := q.written + [Entry(p, rec)], torn := false)
  }

  /** The arguments a call goes on with. */
  predicate Asked(op: SeamRuns.Op) {
    !op.W? && GoodReader(op.i) && (if op.C? then op.n > 0 else op.max > 0)
  }

  function SetReader(q: Queue, i: nat, c: Cursor, m: Mark): Queue
    requires i < |q.cursors| && i < |q.marks|
  {
    q.(cursors := q.cursors[i := c], marks := q.marks[i := m])
  }

  predicate Done(at: Point) { at.Refused? || at.Returned? || at.Committed? }

  /** One statement of seam_ring_read, seam_ring_peek or seam_ring_commit: the
      queue it leaves and the point it goes to. */
  function Next(q: Queue, at: Point): (r: (Queue, Point))
    requires |q.cursors| == NREADER == |q.marks| && |q.slots| == SLOTS
    requires Asked(at.op) || at.Entered? || Done(at)
    requires at.Copying? ==> at.start >= 0
  {
    if Done(at) then (q, at)
    else if !Asked(at.op) then (q, Refused(at.op))
    else
      var op := at.op;
      var c, m := q.cursors[op.i], q.marks[op.i];
      match at
      case Entered(_) =>
        if op.C? then
          (SetReader(q, op.i, c.(r := c.r + op.n), m.(over := c.r + op.n > q.w)), Clamping(op, c))
        else if q.w - c.r > SLOTS then
          var lost := q.w - SLOTS - c.r;
          (SetReader(q, op.i, c.(dropped := c.dropped + lost), m.(again := m.again + lost)), Jumping(op, c))
        else (q, Copying(op, c, c.r, []))
      case Jumping(_, c0) =>
        var again := Max(0, m.again - (q.w - SLOTS - c.r));
        (SetReader(q, op.i, c.(r := q.w - SLOTS), m.(again := again)), Copying(op, c0, q.w - SLOTS, []))
      case Copying(_, c0, start, out) =>
        var cur := start + |out|;
        if cur < q.w && !op.C? && |out| < op.max then
          var q' := if op.R? then SetReader(q, op.i, c.(r := c.r + 1), m) else q;
          (q', Copying(op, c0, start, out + [q.slots[cur % SLOTS]]))
        else (q, Returned(op, c0, start, out))
      case Clamping(_, c0) =>
        (SetReader(q, op.i, c.(r := Min(c.r, q.w)), m.(over := false)), Committed(op, c0))
  }

  /** A reader's cursor, for what crashes have left on it. */
  predicate CursorOk(c: Cursor, m: Mark, w: nat) {
    && m.again <= c.dropped && c.dropped - m.again <= Min(c.r, w)
    && (!m.over ==> c.r <= w)
  }

  /** The slots hold the newest 4096 published records; while a slot is torn the
      oldest of them may be gone. */
  ghost predicate QueueOk(q: Queue) {
    && |q.slots| == SLOTS && |q.cursors| == NREADER == |q.marks|
    && q.w == |q.written|
    && (forall i :: 0 <= i < NREADER ==> CursorOk(q.cursors[i], q.marks[i], q.w))
    && (forall k :: Max(0, q.w - SLOTS) <= k < q.w && !(q.torn && k == q.w - SLOTS) ==>
                      q.slots[k % SLOTS] == q.written[k].rec)
  }

  ghost predicate Shown(slots: seq<Record>, start: int, out: seq<Record>)
    requires |slots| == SLOTS
  {
    forall j :: 0 <= j < |out| ==> out[j] == slots[(start + j) % SLOTS]
  }

  lemma ShownNext(slots: seq<Record>, start: int, out: seq<Record>)
    requires |slots| == SLOTS && Shown(slots, start, out)
    ensures Shown(slots, start, out + [slots[(start + |out|) % SLOTS]])
  {
  }

  /** The copied records are those of the slots from `start` on, and the reader's
      cursor is where the statements so far have brought it. */
  ghost predicate Copied(q: Queue, op: SeamRuns.Op, c0: Cursor, start: int, out: seq<Record>)
    requires |q.cursors| == NREADER && |q.slots| == SLOTS
  {
    && Asked(op) && !op.C? && start == c0.Start(q.w) && start >= 0 && |out| <= op.max
    && q.cursors[op.i] == Cursor(if op.R? then start + |out| else start, c0.dropped + (start - c0.r))
    && (out != [] ==> start + |out| <= q.w)
    && Shown(q.slots, start, out)
  }

  ghost predicate InCall(q: Queue, at: Point)
    requires |q.cursors| == NREADER == |q.marks| && |q.slots| == SLOTS
  {
    match at
    case Entered(op) => !op.W?
    case Refused(_) => true
    case Jumping(op, c0) =>
      && Asked(op) && !op.C? && q.w - SLOTS > c0.r
      && q.cursors[op.i] == c0.(dropped := c0.dropped + (q.w - SLOTS - c0.r))
      && q.marks[op.i].again >= q.w - SLOTS - c0.r
    case Copying(op, c0, start, out) => Copied(q, op, c0, start, out)
    case Returned(op, c0, start, out) =>
      Copied(q, op, c0, start, out) && (|out| == op.max || start + |out| >= q.w)
    case Clamping(op, c0) =>
      && Asked(op) && op.C? && q.cursors[op.i] == c0.(r := c0.r + op.n)
      && (q.marks[op.i].over <==> c0.r + op.n > q.w)
    case Committed(op, c0) =>
      Asked(op) && op.C? && q.cursors[op.i] == c0.(r := Min(c0.r + op.n, q.w))
  }

  /** What process p published, in log order. */
  function By(written: seq<Entry>, p: nat): seq<Record> {
    if written == [] then []
    else
      var last := written[|written| - 1];
      By(written[..|written| - 1], p) + (if last.pid == p then [last.rec] else [])
  }

  // ---- Steps -------------------------------------------------------------

  ghost predicate Enabled(s: Sys, p: nat, a: Act) {
    && p < |s.pcs|
    && var pc := s.pcs[p];
       match a
       case Attach => pc.Detached?
       case LockInit => pc.Attached? && s.owner.None?
       case TestMagic => pc.InitLocked?
       case SetMagic => pc.Zeroed?
       case BeginWrite(q, _) => pc.Ready? && q < |s.queues| && s.owner.None?
       case Scribble => pc.WLocked?
       case Publish => pc.Scribbled?
       case BeginCall(q, op) => pc.Ready? && q < |s.queues| && s.owner.None? && !op.W?
       case CallStep => pc.Calling? && !Done(pc.at)
       case Unlock => pc.Finishing? || (pc.Calling? && Done(pc.at))
       case Crash => true
  }

  function At(s: Sys, p: nat, pc: PC): Sys
    requires p < |s.pcs|
  {
    s.(pcs := s.pcs[p := pc])
  }

  /** Process p, inside the lock, changes one queue. */
  function Local(s: Sys, p: nat, pc: PC, q: nat, queue: Queue): Sys
    requires p < |s.pcs| && q < |s.queues|
  {
    s.(pcs := s.pcs[p := pc], queues := s.queues[q := queue])
  }

  ghost function Step(s: Sys, p: nat, a: Act): Sys
    requires Inv(s) && Enabled(s, p, a)
  {
    match a
    case Attach => At(s, p, Attached)
    case LockInit => At(s, p, InitLocked).(owner := Some(p))
    case TestMagic =>
      if s.magic then At(s, p, Finishing)
      else At(s, p, Zeroed).(queues := Repeat(ZeroQueue(), |s.queues|))
    case SetMagic => At(s, p, Finishing).(magic := true)
    case BeginWrite(q, rec) => At(s, p, WLocked(q, rec)).(owner := Some(p))
    case Scribble =>
      var q, rec := s.pcs[p].q, s.pcs[p].rec;
      Local(s, p, Scribbled(q, rec), q, ScribbleSlot(s.queues[q], rec))
    case Publish =>
      var q, rec := s.pcs[p].q, s.pcs[p].rec;
      Local(s, p, Finishing, q, PublishRecord(s.queues[q], p, rec)).(sent := s.sent[(p, q) := s.Sent(p, q) + [rec]])
    case BeginCall(q, op) => At(s, p, Calling(q, Entered(op))).(owner := Some(p))
    case CallStep =>
      var q := s.pcs[p].q;
      var r := Next(s.queues[q], s.pcs[p].at);
      Local(s, p, Calling(q, r.1), q, r.0)
    case Unlock => At(s, p, Ready).(owner := None)
    case Crash => At(s, p, Detached).(owner := if s.owner == Some(p) then None else s.owner)
  }

  /** Mutual exclusion: a process is in a locked region exactly when it owns the
      semaphore. */
  ghost predicate Exclusive(s: Sys) {
    && (forall p :: 0 <= p < |s.pcs| ==> (Holding(s.pcs[p]) <==> s.owner == Some(p)))
    && (s.owner.Some? ==> s.owner.value < |s.pcs|)
  }

  /** Where a process may be while the segment is or is not initialised. */
  ghost predicate PcOk(s: Sys, pc: PC) {
    match pc
    case Detached => true
    case Attached => true
    case InitLocked => true
    case Zeroed => !s.magic && forall q :: 0 <= q < |s.queues| ==> s.queues[q] == ZeroQueue()
    case Ready => s.magic
    case WLocked(q, _) => s.magic && q < |s.queues|
    case Scribbled(q, rec) => s.magic && q < |s.queues| && |s.queues[q].slots| == SLOTS
                              && s.queues[q].torn && s.queues[q].slots[s.queues[q].w % SLOTS] == rec
    case Calling(q, at) => s.magic && q < |s.queues| && QueueOk(s.queues[q]) && InCall(s.queues[q], at)
    case Finishing => s.magic
  }

  ghost predicate Guarded(s: Sys) {
    forall p :: 0 <= p < |s.pcs| ==> PcOk(s, s.pcs[p])
  }

  /** Once the magic is stored every queue is a ring over its log. */
  ghost predicate Rings(s: Sys) {
    s.magic ==> forall q :: 0 <= q < |s.queues| ==> QueueOk(s.queues[q])
  }

  /** Each log is an interleaving that keeps the order of every writer; before
      the magic is stored nothing has been published. */
  ghost predicate Interleaved(s: Sys) {
    if s.magic then
      forall q, p: nat :: 0 <= q < |s.queues| ==> By(s.queues[q].written, p) == s.Sent(p, q)
    else s.sent == map[]
  }

  ghost predicate Inv(s: Sys) { Exclusive(s) && Guarded(s) && Rings(s) && Interleaved(s) }

  lemma ScribbleKeeps(q: Queue, rec: Record)
    requires QueueOk(q)
    ensures QueueOk(ScribbleSlot(q, rec))
  {
  }

  lemma PublishKeeps(q: Queue, p: nat, rec: Record)
    requires QueueOk(q) && q.torn && q.slots[q.w % SLOTS] == rec
    ensures QueueOk(PublishRecord(q, p, rec))
  {
  }

  lemma ByPublish(q: Queue, p: nat, rec: Record, p': nat)
    ensures By(PublishRecord(q, p, rec).written, p') == By(q.written, p') + (if p == p' then [rec] else [])
  {
    var w := PublishRecord(q, p, rec).written;
    assert w[..|w| - 1] == q.written;
  }

  lemma SetKeeps(q: Queue, i: nat, c: Cursor, m: Mark)
    requires QueueOk(q) && i < NREADER && CursorOk(c, m, q.w)
    ensures QueueOk(SetReader(q, i, c, m))
  {
  }

  /** A statement that moves one reader keeps the ring when the reader stays sound. */
  ghost predicate Keeps(q: Queue, r: (Queue, Point)) {
    QueueOk(r.0) && InCall(r.0, r.1) && r.0.(cursors := q.cursors, marks := q.marks) == q
  }

  lemma {:induction false} EnterCommitKeeps(q: Queue, op: SeamRuns.Op)
    requires QueueOk(q) && Asked(op) && op.C?
    ensures Keeps(q, Next(q, Entered(op)))
  {
    var c, m := q.cursors[op.i], q.marks[op.i];
    assert CursorOk(c, m, q.w);
    SetKeeps(q, op.i, c.(r := c.r + op.n), m.(over := c.r + op.n > q.w));
  }

  lemma {:induction false} EnterReadKeeps(q: Queue, op: SeamRuns.Op)
    requires QueueOk(q) && Asked(op) && !op.C?
    ensures Keeps(q, Next(q, Entered(op)))
  {
    var c, m, lost := q.cursors[op.i], q.marks[op.i], q.w - SLOTS - q.cursors[op.i].r;
    assert CursorOk(c, m, q.w);
    if lost > 0 { SetKeeps(q, op.i, c.(dropped := c.dropped + lost), m.(again := m.again + lost)); }
  }

  lemma {:induction false} JumpKeeps(q: Queue, op: SeamRuns.Op, c0: Cursor)
    requires QueueOk(q) && InCall(q, Jumping(op, c0))
    ensures Keeps(q, Next(q, Jumping(op, c0)))
  {
    var c, m := q.cursors[op.i], q.marks[op.i];
    assert CursorOk(c, m, q.w);
    SetKeeps(q, op.i, c.(r := q.w - SLOTS), m.(again := Max(0, m.again - (q.w - SLOTS - c.r))));
  }

  lemma {:induction false} CopyKeeps(q: Queue, op: SeamRuns.Op, c0: Cursor, start: int, out: seq<Record>)
    requires QueueOk(q) && InCall(q, Copying(op, c0, start, out))
    ensures Keeps(q, Next(q, Copying(op, c0, start, out)))
  {
    var c, m, cur := q.cursors[op.i], q.marks[op.i], start + |out|;
    if cur < q.w && |out| < op.max {
      assert CursorOk(c, m, q.w);
      ShownNext(q.slots, start, out);
      var q' := if op.R? then SetReader(q, op.i, c.(r := c.r + 1), m) else q;
      assert Next(q, Copying(op, c0, start, out)) == (q', Copying(op, c0, start, out + [q.slots[cur % SLOTS]]));
      if op.R? { SetKeeps(q, op.i, c.(r := c.r + 1), m); }
      assert Copied(q', op, c0, start, out + [q.slots[cur % SLOTS]]);
    } else {
      assert Next(q, Copying(op, c0, start, out)) == (q, Returned(op, c0, start, out));
    }
  }

  lemma {:induction false} ClampKeeps(q: Queue, op: SeamRuns.Op, c0: Cursor)
    requires QueueOk(q) && InCall(q, Clamping(op, c0))
    ensures Keeps(q, Next(q, Clamping(op, c0)))
  {
    var c, m := q.cursors[op.i], q.marks[op.i];
    assert CursorOk(c, m, q.w);
    SetKeeps(q, op.i, c.(r := Min(c.r, q.w)), m.(over := false));
  }

  /** A statement of a call keeps the queue a ring, with the marks telling what a
      crash here would leave, and the call where it says it is. */
  lemma {:induction false} NextKeeps(q: Queue, at: Point)
    requires QueueOk(q) && InCall(q, at)
    ensures Keeps(q, Next(q, at))
  {
    if !Done(at) && Asked(at.op) {
      match at {
        case Entered(op) => if op.C? { EnterCommitKeeps(q, op); } else { EnterReadKeeps(q, op); }
        case Jumping(op, c0) => JumpKeeps(q, op, c0);
        case Copying(op, c0, start, out) => CopyKeeps(q, op, c0, start, out);
        case Clamping(op, c0) => ClampKeeps(q, op, c0);
      }
    }
  }

  // ---- What every step keeps ---------------------------------------------

  lemma StepExclusive(s: Sys, p: nat, a: Act)
    requires Inv(s) && Enabled(s, p, a)
    ensures Exclusive(Step(s, p, a))
  {
  }

  /** Outside the lock a process asks only for the magic. */
  lemma OthersOutside(s: Sys, p: nat, p': nat)
    requires Exclusive(s) && s.owner == Some(p) && p' < |s.pcs| && p' != p
    ensures !Holding(s.pcs[p'])
  {
  }

  /** The owner of the semaphore changes one queue: no other process notices. */
  lemma {:induction false} LocalKeeps(s: Sys, p: nat, pc: PC, q: nat, queue: Queue, s': Sys)
    requires Inv(s) && s.owner == Some(p) && p < |s.pcs| && s.magic && q < |s.queues|
    requires s' == Local(s, p, pc, q, queue).(sent := s'.sent)
    requires QueueOk(queue) && PcOk(s', pc)
    ensures Guarded(s') && Rings(s')
  {
    forall p' | 0 <= p' < |s'.pcs|
      ensures PcOk(s', s'.pcs[p'])
    {
      if p' != p {
        OthersOutside(s, p, p');
        assert PcOk(s, s.pcs[p']);
      }
    }
  }

  lemma {:induction false} ScribbleStep(s: Sys, p: nat)
    requires Inv(s) && Enabled(s, p, Scribble)
    ensures Guarded(Step(s, p, Scribble)) && Rings(Step(s, p, Scribble))
  {
    var q, rec := s.pcs[p].q, s.pcs[p].rec;
    assert PcOk(s, s.pcs[p]);
    ScribbleKeeps(s.queues[q], rec);
    LocalKeeps(s, p, Scribbled(q, rec), q, ScribbleSlot(s.queues[q], rec), Step(s, p, Scribble));
  }

  lemma {:induction false} PublishStep(s: Sys, p: nat)
    requires Inv(s) && Enabled(s, p, Publish)
    ensures Guarded(Step(s, p, Publish)) && Rings(Step(s, p, Publish))
  {
    var q, rec := s.pcs[p].q, s.pcs[p].rec;
    assert PcOk(s, s.pcs[p]);
    PublishKeeps(s.queues[q], p, rec);
    LocalKeeps(s, p, Finishing, q, PublishRecord(s.queues[q], p, rec), Step(s, p, Publish));
  }

  lemma {:induction false} CallStepKeeps(s: Sys, p: nat)
    requires Inv(s) && Enabled(s, p, CallStep)
    ensures Guarded(Step(s, p, CallStep)) && Rings(Step(s, p, CallStep))
  {
    var q, at := s.pcs[p].q, s.pcs[p].at;
    assert PcOk(s, s.pcs[p]);
    NextKeeps(s.queues[q], at);
    var r := Next(s.queues[q], at);
    LocalKeeps(s, p, Calling(q, r.1), q, r.0, Step(s, p, CallStep));
  }

  /** A process in the locked region sees no other process move the segment. */
  lemma {:induction false} StepGuarded(s: Sys, p: nat, a: Act)
    requires Inv(s) && Enabled(s, p, a)
    ensures Guarded(Step(s, p, a))
  {
    match a {
      case Scribble => ScribbleStep(s, p);
      case Publish => PublishStep(s, p);
      case CallStep => CallStepKeeps(s, p);
      case _ => PlainGuarded(s, p, a);
    }
  }

  /** The steps that leave the queues alone, or zero them. */
  lemma {:induction false} PlainGuarded(s: Sys, p: nat, a: Act)
    requires Inv(s) && Enabled(s, p, a) && !a.Scribble? && !a.Publish? && !a.CallStep?
    ensures Guarded(Step(s, p, a))
  {
    var s' := Step(s, p, a);
    assert PcOk(s, s.pcs[p]);
    forall p' | 0 <= p' < |s'.pcs| && p' != p
      ensures PcOk(s', s'.pcs[p'])
    {
      assert PcOk(s, s.pcs[p']);
      if s.owner == Some(p) { OthersOutside(s, p, p'); }
    }
  }

  lemma {:induction false} StepRings(s: Sys, p: nat, a: Act)
    requires Inv(s) && Enabled(s, p, a)
    ensures Rings(Step(s, p, a))
  {
    match a {
      case Scribble => ScribbleStep(s, p);
      case Publish => PublishStep(s, p);
      case CallStep => CallStepKeeps(s, p);
      case SetMagic =>
        assert PcOk(s, s.pcs[p]);
        assert QueueOk(ZeroQueue());
      case _ =>
    }
  }

  lemma {:induction false} StepInterleaved(s: Sys, p: nat, a: Act)
    requires Inv(s) && Enabled(s, p, a)
    ensures Interleaved(Step(s, p, a))
  {
    match a {
      case Publish => PublishInterleaved(s, p);
      case CallStep =>
        assert PcOk(s, s.pcs[p]);
        NextKeeps(s.queues[s.pcs[p].q], s.pcs[p].at);
      case SetMagic => assert PcOk(s, s.pcs[p]);
      case Scribble => assert PcOk(s, s.pcs[p]);
      case _ =>
    }
  }

  lemma {:induction false} PublishInterleaved(s: Sys, p: nat)
    requires Inv(s) && Enabled(s, p, Publish)
    ensures Interleaved(Step(s, p, Publish))
  {
    var s', q, rec := Step(s, p, Publish), s.pcs[p].q, s.pcs[p].rec;
    assert PcOk(s, s.pcs[p]);
    forall p': nat
      ensures By(s'.queues[q].written, p') == s'.Sent(p', q)
    {
      ByPublish(s.queues[q], p, rec, p');
    }
  }

  // ---- Runs --------------------------------------------------------------

  /** A scheduler's choices; a choice that is not possible is passed over. */
  ghost function Run(s: Sys, trace: seq<(nat, Act)>): (s': Sys)
    requires Inv(s)
    ensures Inv(s') && |s'.queues| == |s.queues| && |s'.pcs| == |s.pcs|
    decreases |trace|
  {
    if trace == [] then s
    else
      var (p, a) := trace[0];
      if Enabled(s, p, a) then
        StepKeepsAll(s, p, a);
        Run(Step(s, p, a), trace[1..])
      else Run(s, trace[1..])
  }

  lemma {:induction false} StepKeepsAll(s: Sys, p: nat, a: Act)
    requires Inv(s) && Enabled(s, p, a)
    ensures Inv(Step(s, p, a))
    ensures |Step(s, p, a).queues| == |s.queues| && |Step(s, p, a).pcs| == |s.pcs|
  {
    StepExclusive(s, p, a);
    StepGuarded(s, p, a);
    StepRings(s, p, a);
    StepInterleaved(s, p, a);
  }

  /** A new segment: contents unknown, no magic, no process attached. */
  ghost predicate Initial(s: Sys) {
    !s.magic && s.owner.None? && s.sent == map[] && forall p :: 0 <= p < |s.pcs| ==> s.pcs[p].Detached?
  }

  /** In every run of any number of processes, with crashes at any statement: the
      locked regions exclude each other, every published queue is a ring over its
      log, with readers that are sound but for what the marks say, and each log
      interleaves the writers, keeping every writer's order. */
  lemma EveryRun(s: Sys, trace: seq<(nat, Act)>, q: nat, p1: nat, p2: nat)
    requires Initial(s) && q < |s.queues| && p1 < |s.pcs| && p2 < |s.pcs|
    ensures Inv(s)
    ensures var t := Run(s, trace);
      && (t.magic ==> QueueOk(t.queues[q]) && By(t.queues[q].written, p1) == t.Sent(p1, q))
      && (!t.magic ==> t.sent == map[])
      && (Holding(t.pcs[p1]) && Holding(t.pcs[p2]) ==> p1 == p2)
  {
  }

  /** Nothing in the queue has been taken back. A commit passes w_seq for the time
      of one statement, so a cursor counts as far as the log goes. */
  ghost predicate Extends(q: Queue, q': Queue) {
    && |q.cursors| == |q'.cursors| && q.written <= q'.written && q.w <= q'.w
    && forall i :: 0 <= i < |q.cursors| ==>
                     && Min(q.cursors[i].r, q.w) <= Min(q'.cursors[i].r, q'.w)
                     && q.cursors[i].dropped <= q'.cursors[i].dropped
  }

  lemma {:induction false} NextExtends(q: Queue, at: Point)
    requires QueueOk(q) && InCall(q, at)
    ensures Extends(q, Next(q, at).0)
  {
  }

  lemma {:induction false} StepExtends(s: Sys, p: nat, a: Act, q: nat)
    requires Inv(s) && Enabled(s, p, a) && s.magic && q < |s.queues|
    ensures Step(s, p, a).magic && Extends(s.queues[q], Step(s, p, a).queues[q])
  {
    assert PcOk(s, s.pcs[p]);
    if a.CallStep? { NextExtends(s.queues[s.pcs[p].q], s.pcs[p].at); }
  }

  /** No cursor is ever reset: from the moment the magic is stored no process,
      attaching late or attaching again after a crash, moves w_seq, r_seq or
      dropped of any queue back or loses a published record from the log. */
  lemma {:induction false} NoReset(s: Sys, trace: seq<(nat, Act)>, q: nat)
    requires Inv(s) && s.magic && q < |s.queues|
    ensures Run(s, trace).magic && Extends(s.queues[q], Run(s, trace).queues[q])
    decreases |trace|
  {
    if trace == [] {
    } else {
      var (p, a) := trace[0];
      if Enabled(s, p, a) {
        StepKeepsAll(s, p, a);
        StepExtends(s, p, a, q);
        NoReset(Step(s, p, a), trace[1..], q);
      } else {
        NoReset(s, trace[1..], q);
      }
    }
  }

  /** The only step that clears a queue is taken before any write: if a step
      shortens or replaces some queue's log, nothing was ever published. */
  lemma {:induction false} ZeroingComesFirst(s: Sys, p: nat, a: Act, q: nat)
    requires Inv(s) && Enabled(s, p, a) && q < |s.queues|
    requires !Extends(s.queues[q], Step(s, p, a).queues[q])
    ensures a.TestMagic? && !s.magic && s.sent == map[]
  {
    if s.magic {
      StepExtends(s, p, a, q);
    } else {
      assert PcOk(s, s.pcs[p]);
    }
  }

  // ---- Calls are atomic, but for two crashes -----------------------------

  /** The marks while a call is at `at`, if no crash has left any. */
  function Expected(q: Queue, at: Point, i: int): Mark {
    if at.Jumping? && !at.op.W? && at.op.i == i then Mark(Max(0, q.w - SLOTS - at.c0.r), false)
    else if at.Clamping? && at.op.C? && at.op.i == i then Mark(0, at.c0.r + at.op.n > q.w)
    else UNMARKED
  }

  ghost predicate CleanQ(q: Queue, at: Point) {
    && (forall i :: 0 <= i < |q.marks| ==> q.marks[i] == Expected(q, at, i))
    && (!at.Entered? && !at.Refused? ==> at.c0.Ok(q.w))
  }

  lemma {:induction false} NextClean(q: Queue, at: Point)
    requires QueueOk(q) && InCall(q, at) && CleanQ(q, at)
    ensures CleanQ(Next(q, at).0, Next(q, at).1)
  {
    if !Done(at) && Asked(at.op) {
      assert CursorOk(q.cursors[at.op.i], q.marks[at.op.i], q.w);
    }
  }

  const NO_CALL: Point := Refused(SeamRuns.C(0, 0))

  /** The call that is inside queue q. */
  function PointAt(s: Sys, q: nat): Point {
    if s.owner.Some? && s.owner.value < |s.pcs| && s.pcs[s.owner.value].Calling? && s.pcs[s.owner.value].q == q
    then s.pcs[s.owner.value].at
    else NO_CALL
  }

  ghost predicate Clean(s: Sys) {
    s.magic ==> forall q :: 0 <= q < |s.queues| ==> CleanQ(s.queues[q], PointAt(s, q))
  }

  /** The crashes that leave something behind: between the two statements of the
      lapped-reader step, and between the two of a commit that went past w_seq. */
  predicate Harmful(s: Sys, pc: PC) {
    && pc.Calling? && pc.q < |s.queues|
    && (pc.at.Jumping?
        || (pc.at.Clamping? && !pc.at.op.W? && 0 <= pc.at.op.i < |s.queues[pc.q].cursors|
            && s.queues[pc.q].cursors[pc.at.op.i].r > s.queues[pc.q].w))
  }

  lemma {:induction false} CrashClean(s: Sys, p: nat)
    requires Inv(s) && Enabled(s, p, Crash) && Clean(s)
    ensures Clean(Step(s, p, Crash)) <==> !Harmful(s, s.pcs[p])
  {
    var s', pc := Step(s, p, Crash), s.pcs[p];
    assert PcOk(s, pc);
    if Harmful(s, pc) {
      var q, at := pc.q, pc.at;
      assert PointAt(s, q) == at && PointAt(s', q) == NO_CALL;
      assert s.queues[q].marks[at.op.i] == Expected(s.queues[q], at, at.op.i) != UNMARKED;
    } else if s.owner == Some(p) {
      forall q | 0 <= q < |s.queues| && s.magic
        ensures CleanQ(s'.queues[q], PointAt(s', q))
      {
        assert CleanQ(s.queues[q], PointAt(s, q));
      }
    }
  }

  lemma {:induction false} CallStepClean(s: Sys, p: nat)
    requires Inv(s) && Enabled(s, p, CallStep) && Clean(s)
    ensures Clean(Step(s, p, CallStep))
  {
    var s', q, at := Step(s, p, CallStep), s.pcs[p].q, s.pcs[p].at;
    assert PcOk(s, s.pcs[p]);
    assert PointAt(s, q) == at;
    NextClean(s.queues[q], at);
    forall q' | 0 <= q' < |s.queues|
      ensures CleanQ(s'.queues[q'], PointAt(s', q'))
    {
      assert CleanQ(s.queues[q'], PointAt(s, q'));
    }
  }

  lemma {:induction false} StepClean(s: Sys, p: nat, a: Act)
    requires Inv(s) && Enabled(s, p, a) && Clean(s) && !(a.Crash? && Harmful(s, s.pcs[p]))
    ensures Clean(Step(s, p, a))
  {
    assert PcOk(s, s.pcs[p]);
    match a {
      case Crash => CrashClean(s, p);
      case CallStep => CallStepClean(s, p);
      case _ => PlainClean(s, p, a);
    }
  }

  lemma {:induction false} PlainClean(s: Sys, p: nat, a: Act)
    requires Inv(s) && Enabled(s, p, a) && Clean(s) && !a.Crash? && !a.CallStep?
    ensures Clean(Step(s, p, a))
  {
    var s' := Step(s, p, a);
    assert PcOk(s, s.pcs[p]);
    forall q | 0 <= q < |s.queues| && s'.magic
      ensures CleanQ(s'.queues[q], PointAt(s', q))
    {
      if s.magic { assert CleanQ(s.queues[q], PointAt(s, q)); }
    }
  }

  /** No crash of the run hits one of the two windows. */
  ghost predicate Harmless(s: Sys, trace: seq<(nat, Act)>)
    requires Inv(s)
    decreases |trace|
  {
    trace == [] ||
    (var (p, a) := trace[0];
     if Enabled(s, p, a) then
       StepKeepsAll(s, p, a);
       !(a.Crash? && Harmful(s, s.pcs[p])) && Harmless(Step(s, p, a), trace[1..])
     else Harmless(s, trace[1..]))
  }

  lemma {:induction false} RunClean(s: Sys, trace: seq<(nat, Act)>)
    requires Inv(s) && Clean(s) && Harmless(s, trace)
    ensures Clean(Run(s, trace))
    decreases |trace|
  {
    if trace == [] {
    } else {
      var (p, a) := trace[0];
      if Enabled(s, p, a) {
        StepKeepsAll(s, p, a);
        StepClean(s, p, a);
        RunClean(Step(s, p, a), trace[1..]);
      } else {
        RunClean(s, trace[1..]);
      }
    }
  }

  /** So in every run whose crashes, if any, spare those two windows, all readers are
      sound whenever the lock is free: 0 <= dropped <= r_seq <= w_seq. */
  lemma {:induction false} ReadersSound(s: Sys, trace: seq<(nat, Act)>, q: nat, i: nat)
    requires Initial(s) && Inv(s) && Harmless(s, trace) && q < |s.queues| && i < NREADER
    ensures var t := Run(s, trace); t.magic && t.owner.None? ==> t.queues[q].cursors[i].Ok(t.queues[q].w)
  {
    RunClean(s, trace);
    var t := Run(s, trace);
    if t.magic && t.owner.None? {
      assert QueueOk(t.queues[q]) && CleanQ(t.queues[q], PointAt(t, q));
      assert CursorOk(t.queues[q].cursors[i], t.queues[q].marks[i], t.queues[q].w);
    }
  }

  // ---- What a finished call has done -------------------------------------

  function Records(written: seq<Entry>): seq<Record> {
    seq(|written|, k requires 0 <= k < |written| => written[k].rec)
  }

  /** The records that lie in the slots a read or peek is to copy. */
  function InSlots(q: Queue, c: Cursor, max: int): seq<Record>
    requires |q.slots| == SLOTS && c.Ok(q.w)
  {
    seq(c.Avail(q.w, max), j requires 0 <= j < c.Avail(q.w, max) => q.slots[(c.Start(q.w) + j) % SLOTS])
  }

  /** Statement by statement a read, peek or commit comes to what it does as one
      step of SeamRuns: the cursor moves as there, and a read or peek has copied
      just the slots it was to copy. */
  lemma {:induction false} CallIsOneStep(q: Queue, at: Point)
    requires QueueOk(q) && InCall(q, at) && CleanQ(q, at)
    ensures at.Returned? ==>
              && q.cursors[at.op.i] == SeamRuns.Moved(at.c0, q.w, at.op)
              && at.out == InSlots(q, at.c0, at.op.max)
    ensures at.Committed? ==> q.cursors[at.op.i] == SeamRuns.Moved(at.c0, q.w, at.op)
  {
    if at.Returned? {
      assert |at.out| == at.c0.Avail(q.w, at.op.max);
    }
  }

  /** And so it is for every call that comes to its end in such a run. */
  lemma {:induction false} CallsAreAtomic(s: Sys, trace: seq<(nat, Act)>, p: nat)
    requires Initial(s) && Inv(s) && Harmless(s, trace) && p < |s.pcs|
    ensures var t := Run(s, trace); var pc := t.pcs[p];
      pc.Calling? && pc.at.Returned? ==>
        && pc.q < |t.queues| && var q, at := t.queues[pc.q], pc.at;
        && QueueOk(q) && at.c0.Ok(q.w) && GoodReader(at.op.i)
        && q.cursors[at.op.i] == SeamRuns.Moved(at.c0, q.w, at.op)
        && (!q.torn || at.c0.r > q.w - SLOTS ==> at.out == Delivery(Records(q.written), at.c0, at.op.max))
    ensures var t := Run(s, trace); var pc := t.pcs[p];
      pc.Calling? && pc.at.Committed? ==>
        && pc.q < |t.queues| && var q, at := t.queues[pc.q], pc.at;
        && |q.cursors| == NREADER && at.c0.Ok(q.w) && at.op.C? && GoodReader(at.op.i)
        && q.cursors[at.op.i] == SeamRuns.Moved(at.c0, q.w, at.op)
  {
    RunClean(s, trace);
    var t := Run(s, trace);
    var pc := t.pcs[p];
    assert PcOk(t, pc);
    if pc.Calling? && (pc.at.Returned? || pc.at.Committed?) {
      var q := t.queues[pc.q];
      assert PointAt(t, pc.q) == pc.at && CleanQ(q, pc.at);
      CallIsOneStep(q, pc.at);
      if pc.at.Returned? && (!q.torn || pc.at.c0.r > q.w - SLOTS) { CopiedIsTheLog(q, pc.at.c0, pc.at.op.max); }
    }
  }

  /** A process that dies between the two statements of a commit
      (st01/sub/seam_ring.c:120-122) leaves what the commit would have left exactly
      when n is at most the unread records. Otherwise r_seq is beyond w_seq: no
      later read starts below it, so the records written in between are passed over
      and counted nowhere, unless another commit first brings r_seq down to w_seq. */
  lemma InterruptedCommit(c: Cursor, w: nat, n: nat, w': nat, m: nat)
    requires c.Ok(w) && n > 0 && m > 0 && w <= w'
    ensures var half := c.(r := c.r + n);
      && (half == c.Commit(w, n) <==> n <= w - c.r)
      && (half.Ok(w') <==> c.r + n <= w')
      && half.Start(w') >= c.r + n && half.dropped == c.dropped
      && (w' < c.r + n ==> Min(half.r + m, w') == w')
  {
  }

  // ---- A writer that dies between the copy and w_seq++ -------------------

  /** What a read copies out of the slots is the log slice, except possibly for
      its first record when a torn slot is the oldest one of the window. */
  lemma {:induction false} CopiedIsTheLog(q: Queue, c: Cursor, max: int)
    requires QueueOk(q) && c.Ok(q.w)
    requires !q.torn || c.r > q.w - SLOTS || max <= 0
    ensures InSlots(q, c, max) == Delivery(Records(q.written), c, max)
  {
  }

  /** The exact damage of a crash between st01/sub/seam_ring.c:32 and :35. A
      writer of record `rec` dies after overwriting the slot, so w_seq stays. The
      next read of a sound reader is still the log slice exactly when the reader is
      within 4095 of w_seq, or rec happens to equal the record it destroyed. */
  lemma {:induction false} TornSlot(q: Queue, rec: Record, c: Cursor, max: int)
    requires QueueOk(q) && !q.torn && q.w >= SLOTS && c.Ok(q.w) && max > 0
    ensures var t := ScribbleSlot(q, rec);
      && QueueOk(t)
      && (InSlots(t, c, max) == Delivery(Records(t.written), c, max)
          <==> c.r > q.w - SLOTS || rec == q.written[q.w - SLOTS].rec)
  {
    var t := ScribbleSlot(q, rec);
    ScribbleKeeps(q, rec);
    assert t.slots[(q.w - SLOTS) % SLOTS] == rec;
    if c.r > q.w - SLOTS {
      CopiedIsTheLog(t, c, max);
    } else {
      assert InSlots(t, c, max)[0] == rec;
      assert Delivery(Records(t.written), c, max)[0] == q.written[q.w - SLOTS].rec;
      if rec == q.written[q.w - SLOTS].rec {
        assert t.slots == q.slots;
        CopiedIsTheLog(q, c, max);
      }
    }
  }

  /** And the next completed write mends the ring. */
  lemma {:induction false} NextWriteMends(q: Queue, p: nat, rec: Record)
    requires QueueOk(q)
    ensures var t := PublishRecord(ScribbleSlot(q, rec), p, rec); QueueOk(t) && !t.torn
  {
    ScribbleKeeps(q, rec);
    PublishKeeps(ScribbleSlot(q, rec), p, rec);
  }
}

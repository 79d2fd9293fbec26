/** Many processes, statement by statement, refine the log of module SeamRuns: a run
    without the two harmful crashes does to every queue what a sequence of whole
    writes, reads, peeks and commits does, so what SeamRuns proves of every such
    sequence holds of every such run. */
module SeamRefine {
  import opened Bytes
  import opened SeamLog
  import SeamRuns
  import opened SeamProcs

  /** A call as it took effect; `whole` is false when its process died inside it. */
  datatype Deed = Deed(op: SeamRuns.Op, whole: bool)

  /** What a call that is left at a point has done, by coming to its end or by dying. */
  function DeedsAt(at: Point): seq<Deed> {
    match at
    case Entered(_) => []
    case Refused(_) => []
    case Jumping(_, _) => []
    case Copying(op, _, _, out) =>
      if !Asked(op) then []
      else if op.R? && out != [] then [Deed(SeamRuns.R(op.i, |out|), false)]
      else [Deed(SeamRuns.P(op.i, 1), false)]
    case Returned(op, _, _, _) => [Deed(op, true)]
    case Clamping(op, _) => [Deed(op, false)]
    case Committed(op, _) => [Deed(op, true)]
  }

  /** What one step adds to the history of queue q. */
  function DeedsOf(s: Sys, p: nat, a: Act, q: nat): seq<Deed>
    requires p < |s.pcs|
  {
    var pc := s.pcs[p];
    if a.Publish? && pc.Scribbled? && pc.q == q then [Deed(SeamRuns.W(pc.rec), true)]
    else if (a.Unlock? || a.Crash?) && pc.Calling? && pc.q == q then DeedsAt(pc.at)
    else []
  }

  ghost function Deeds(s: Sys, trace: seq<(nat, Act)>, q: nat): seq<Deed>
    requires Inv(s)
    decreases |trace|
  {
    if trace == [] then []
    else
      var (p, a) := trace[0];
      if Enabled(s, p, a) then
        StepKeepsAll(s, p, a);
        DeedsOf(s, p, a, q) + Deeds(Step(s, p, a), trace[1..], q)
      else Deeds(s, trace[1..], q)
  }

  function Ops(ds: seq<Deed>): (ops: seq<SeamRuns.Op>)
    ensures |ops| == |ds|
  {
    seq(|ds|, k requires 0 <= k < |ds| => ds[k].op)
  }

  // ---- The log behind a queue --------------------------------------------

  /** The queue's log as of the last finished call: a call under way has not moved
      its reader yet. */
  function Before(q: Queue, at: Point): SeamRuns.Log {
    var begun := !at.Entered? && !at.Refused? && !at.op.W? && 0 <= at.op.i < |q.cursors|;
    SeamRuns.Log(Records(q.written), if begun then q.cursors[at.op.i := at.c0] else q.cursors)
  }

  const NEW_LOG: SeamRuns.Log := SeamRuns.Log([], Repeat(Cursor(0, 0), NREADER))

  lemma {:induction false} BeforeOk(q: Queue, at: Point)
    requires QueueOk(q) && InCall(q, at) && CleanQ(q, at)
    ensures Before(q, at).Ok()
  {
    forall i | 0 <= i < NREADER
      ensures Before(q, at).readers[i].Ok(q.w)
    {
      assert CursorOk(q.cursors[i], q.marks[i], q.w);
    }
  }

  /** A statement inside a call leaves the log as it was. */
  lemma {:induction false} NextBefore(q: Queue, at: Point)
    requires QueueOk(q) && InCall(q, at) && !Done(at)
    ensures Before(Next(q, at).0, Next(q, at).1) == Before(q, at)
  {
    var r := Next(q, at);
    NextKeeps(q, at);
    assert r.0.written == q.written;
    if Asked(at.op) {
      var i := at.op.i;
      assert forall k :: 0 <= k < NREADER && k != i ==> r.0.cursors[k] == q.cursors[k];
      assert Before(r.0, r.1).readers == Before(q, at).readers;
    }
  }

  /** Where a call is left, the log moves by what it has done. */
  lemma {:induction false} LeftIsDone(q: Queue, at: Point)
    requires QueueOk(q) && InCall(q, at) && CleanQ(q, at) && Before(q, at).Ok()
    requires !at.Jumping? && !(at.Clamping? && q.cursors[at.op.i].r > q.w)
    ensures SeamRuns.Run(Before(q, at), Ops(DeedsAt(at))) == SeamRuns.Log(Records(q.written), q.cursors)
  {
    var l, ds := Before(q, at), DeedsAt(at);
    if ds == [] {
      assert Ops(ds) == [];
    } else {
      var op := ds[0].op;
      assert Ops(ds) == [op] && [op][1..] == [];
      assert |l.written| == q.w;
      LeftMoves(q, at, op);
      assert l.readers[op.i := q.cursors[op.i]] == q.cursors;
    }
  }

  lemma {:induction false} LeftMoves(q: Queue, at: Point, op: SeamRuns.Op)
    requires QueueOk(q) && InCall(q, at) && CleanQ(q, at)
    requires !at.Jumping? && !(at.Clamping? && q.cursors[at.op.i].r > q.w)
    requires DeedsAt(at) != [] && op == DeedsAt(at)[0].op
    ensures !at.Entered? && !at.Refused? && !op.W? && GoodReader(op.i) && op.i == at.op.i
    ensures at.c0.Ok(q.w) && SeamRuns.Moved(at.c0, q.w, op) == q.cursors[op.i]
  {
    if at.Returned? || at.Committed? { CallIsOneStep(q, at); }
  }

  // ---- The system --------------------------------------------------------

  function LogOf(s: Sys, q: nat): SeamRuns.Log
    requires q < |s.queues|
  {
    Before(s.queues[q], PointAt(s, q))
  }

  lemma {:induction false} LogOk(s: Sys, q: nat)
    requires Inv(s) && Clean(s) && s.magic && q < |s.queues|
    ensures LogOf(s, q).Ok()
  {
    assert QueueOk(s.queues[q]) && CleanQ(s.queues[q], PointAt(s, q));
    if s.owner.Some? { assert PcOk(s, s.pcs[s.owner.value]); }
    BeforeOk(s.queues[q], PointAt(s, q));
  }

  ghost predicate Refines(s: Sys, p: nat, a: Act, q: nat)
    requires Inv(s) && Enabled(s, p, a) && q < |s.queues|
  {
    && q < |Step(s, p, a).queues| && LogOf(s, q).Ok()
    && LogOf(Step(s, p, a), q) == SeamRuns.Run(LogOf(s, q), Ops(DeedsOf(s, p, a, q)))
  }

  lemma {:induction false} NothingDone(l: SeamRuns.Log)
    requires l.Ok()
    ensures SeamRuns.Run(l, Ops([])) == l
  {
    assert Ops([]) == [];
  }

  lemma {:induction false} PublishRefines(s: Sys, p: nat, q: nat)
    requires Inv(s) && Clean(s) && Enabled(s, p, Publish) && s.magic && q < |s.queues|
    ensures Refines(s, p, Publish, q)
  {
    var s', pc := Step(s, p, Publish), s.pcs[p];
    LogOk(s, q);
    assert PcOk(s, pc) && s.owner == Some(p);
    if pc.q == q {
      RecordAdded(LogOf(s, q), pc.rec);
      RecordsAppend(s.queues[q].written, Entry(p, pc.rec));
    } else {
      NothingDone(LogOf(s, q));
    }
  }

  lemma {:induction false} RecordAdded(l: SeamRuns.Log, rec: Record)
    requires l.Ok()
    ensures SeamRuns.Run(l, Ops([Deed(SeamRuns.W(rec), true)])) == l.(written := l.written + [rec])
  {
    var ops := Ops([Deed(SeamRuns.W(rec), true)]);
    assert ops == [SeamRuns.W(rec)] && ops[1..] == [];
  }

  lemma {:induction false} RecordsAppend(written: seq<Entry>, e: Entry)
    ensures Records(written + [e]) == Records(written) + [e.rec]
  {
  }

  lemma {:induction false} CallStepRefines(s: Sys, p: nat, q: nat)
    requires Inv(s) && Clean(s) && Enabled(s, p, CallStep) && s.magic && q < |s.queues|
    ensures Refines(s, p, CallStep, q)
  {
    var pc := s.pcs[p];
    LogOk(s, q);
    assert PcOk(s, pc) && s.owner == Some(p);
    NothingDone(LogOf(s, q));
    if pc.q == q { NextBefore(s.queues[q], pc.at); }
  }

  /** A process leaves the lock, by its own step or by dying. */
  lemma {:induction false} LeaveRefines(s: Sys, p: nat, a: Act, q: nat)
    requires Inv(s) && Clean(s) && Enabled(s, p, a) && (a.Unlock? || a.Crash?) && s.magic && q < |s.queues|
    requires !(a.Crash? && Harmful(s, s.pcs[p]))
    ensures Refines(s, p, a, q)
  {
    var s', pc := Step(s, p, a), s.pcs[p];
    LogOk(s, q);
    assert PcOk(s, pc);
    NothingDone(LogOf(s, q));
    if pc.Calling? && pc.q == q {
      assert s.owner == Some(p) && PointAt(s, q) == pc.at && PointAt(s', q) == NO_CALL;
      assert CleanQ(s.queues[q], pc.at);
      LeftIsDone(s.queues[q], pc.at);
    }
  }

  lemma {:induction false} PlainRefines(s: Sys, p: nat, a: Act, q: nat)
    requires Inv(s) && Clean(s) && Enabled(s, p, a) && s.magic && q < |s.queues|
    requires !a.Publish? && !a.CallStep? && !a.Unlock? && !a.Crash?
    ensures Refines(s, p, a, q)
  {
    LogOk(s, q);
    assert PcOk(s, s.pcs[p]);
    NothingDone(LogOf(s, q));
  }

  lemma {:induction false} StepRefines(s: Sys, p: nat, a: Act, q: nat)
    requires Inv(s) && Clean(s) && Enabled(s, p, a) && s.magic && q < |s.queues|
    requires !(a.Crash? && Harmful(s, s.pcs[p]))
    ensures Refines(s, p, a, q)
  {
    match a {
      case Publish => PublishRefines(s, p, q);
      case CallStep => CallStepRefines(s, p, q);
      case Unlock => LeaveRefines(s, p, a, q);
      case Crash => LeaveRefines(s, p, a, q);
      case _ => PlainRefines(s, p, a, q);
    }
  }

  // ---- Runs --------------------------------------------------------------

  lemma {:induction false} LogRunAppend(l: SeamRuns.Log, a: seq<SeamRuns.Op>, b: seq<SeamRuns.Op>)
    requires l.Ok()
    ensures SeamRuns.Run(l, a + b) == SeamRuns.Run(SeamRuns.Run(l, a), b)
    decreases |a|
  {
    if a == [] {
      assert a + b == b;
    } else {
      assert (a + b)[1..] == a[1..] + b;
      LogRunAppend(SeamRuns.Step(l, a[0]), a[1..], b);
    }
  }

  lemma {:induction false} OpsAppend(a: seq<Deed>, b: seq<Deed>)
    ensures Ops(a + b) == Ops(a) + Ops(b)
  {
  }

  lemma {:induction false} Together(l: SeamRuns.Log, l1: SeamRuns.Log, l2: SeamRuns.Log, a: seq<Deed>, b: seq<Deed>)
    requires l.Ok() && l1.Ok() && l1 == SeamRuns.Run(l, Ops(a)) && l2 == SeamRuns.Run(l1, Ops(b))
    ensures l2 == SeamRuns.Run(l, Ops(a + b))
  {
    OpsAppend(a, b);
    LogRunAppend(l, Ops(a), Ops(b));
  }

  /** From any state whose segment is initialised. */
  lemma {:induction false} RefinesFrom(s: Sys, trace: seq<(nat, Act)>, q: nat)
    requires Inv(s) && Clean(s) && s.magic && q < |s.queues| && Harmless(s, trace)
    ensures LogOf(s, q).Ok() && LogOf(Run(s, trace), q) == SeamRuns.Run(LogOf(s, q), Ops(Deeds(s, trace, q)))
    decreases |trace|
  {
    LogOk(s, q);
    if trace == [] {
      NothingDone(LogOf(s, q));
    } else {
      var (p, a) := trace[0];
      if Enabled(s, p, a) {
        StepKeepsAll(s, p, a);
        StepClean(s, p, a);
        StepExtends(s, p, a, q);
        StepRefines(s, p, a, q);
        var s1 := Step(s, p, a);
        RefinesFrom(s1, trace[1..], q);
        Together(LogOf(s, q), LogOf(s1, q), LogOf(Run(s1, trace[1..]), q),
                 DeedsOf(s, p, a, q), Deeds(s1, trace[1..], q));
      } else {
        RefinesFrom(s, trace[1..], q);
      }
    }
  }

  lemma {:induction false} StepsBefore(s: Sys, p: nat, a: Act, q: nat)
    requires Inv(s) && Enabled(s, p, a) && !s.magic && q < |s.queues|
    ensures DeedsOf(s, p, a, q) == []
    ensures Step(s, p, a).magic ==> q < |Step(s, p, a).queues| && LogOf(Step(s, p, a), q) == NEW_LOG
  {
    assert PcOk(s, s.pcs[p]);
    if a.SetMagic? {
      assert s.queues[q] == ZeroQueue();
      assert Records([]) == [];
    }
  }

  lemma {:induction false} RefinesAll(s: Sys, trace: seq<(nat, Act)>, q: nat)
    requires Inv(s) && !s.magic && q < |s.queues| && Harmless(s, trace)
    ensures var t := Run(s, trace); t.magic ==> LogOf(t, q) == SeamRuns.Run(NEW_LOG, Ops(Deeds(s, trace, q)))
    decreases |trace|
  {
    if trace == [] {
    } else {
      var (p, a) := trace[0];
      if Enabled(s, p, a) {
        var s1, rest := Step(s, p, a), trace[1..];
        StepKeepsAll(s, p, a);
        StepClean(s, p, a);
        StepsBefore(s, p, a, q);
        assert DeedsOf(s, p, a, q) + Deeds(s1, rest, q) == Deeds(s1, rest, q);
        if s1.magic {
          RefinesFrom(s1, rest, q);
        } else {
          RefinesAll(s1, rest, q);
        }
      } else {
        RefinesAll(s, trace[1..], q);
      }
    }
  }

  /** Refinement. After every run of any number of processes, with crashes at any
      statement but the two harmful ones, each queue is what the whole calls of the
      run, in the order they took effect, make of an empty log. */
  lemma {:induction false} RunRefines(s: Sys, trace: seq<(nat, Act)>, q: nat)
    requires Initial(s) && Inv(s) && Harmless(s, trace) && q < |s.queues|
    ensures var t := Run(s, trace);
      t.magic && t.owner.None? ==>
        SeamRuns.Log(Records(t.queues[q].written), t.queues[q].cursors)
        == SeamRuns.Run(NEW_LOG, Ops(Deeds(s, trace, q)))
  {
    RefinesAll(s, trace, q);
  }

  /** So the books balance over all processes: what reader i's calls handed out, and
      what dropped counts, is r_seq. */
  lemma {:induction false} AccountingForAll(s: Sys, trace: seq<(nat, Act)>, q: nat, i: nat)
    requires Initial(s) && Inv(s) && Harmless(s, trace) && q < |s.queues| && i < NREADER
    requires SeamRuns.NeverCommits(SeamRuns.Project(Ops(Deeds(s, trace, q)), i))
    ensures var t, ops := Run(s, trace), Ops(Deeds(s, trace, q));
      t.magic && t.owner.None? ==>
        |t.queues[q].cursors| == NREADER
        && |SeamRuns.Outputs(NEW_LOG, ops, i)| + t.queues[q].cursors[i].dropped == t.queues[q].cursors[i].r
  {
    RunRefines(s, trace, q);
    SeamRuns.Accounting(NEW_LOG, Ops(Deeds(s, trace, q)), i);
  }

  // ---- At least once, over all processes ---------------------------------

  /** What a deed is to the consumer behind reader i. */
  function EventsOf(d: Deed, i: int): (es: seq<SeamRuns.Event>) {
    match d.op
    case W(_) => [SeamRuns.Written]
    case R(_, _) => []
    case P(j, max) => if j != i then [] else if d.whole then [SeamRuns.DoPeek(max)] else [SeamRuns.CutPeek]
    case C(j, _) => if j != i then [] else [SeamRuns.DoCommit]
  }

  function Events(ds: seq<Deed>, i: int): seq<SeamRuns.Event> {
    if ds == [] then [] else EventsOf(ds[0], i) + Events(ds[1..], i)
  }

  /** Reader i is used as documented: it is only peeked and committed, and a commit
      is of the count that the last finished peek returned. Which process does it,
      and how many have died on the way, does not matter. */
  predicate Disciplined(s: SeamRuns.Consumer, ds: seq<Deed>, i: int)
    requires s.Ok()
    decreases |ds|
  {
    ds == [] ||
    (var op := ds[0].op;
     && (!op.W? && op.i == i ==>
           && !op.R?
           && (op.C? ==> s.peeked == Some(op.n))
           && (op.P? && !ds[0].whole ==> op.max > 0))
     && Disciplined(SeamRuns.Live(s, EventsOf(ds[0], i)), ds[1..], i))
  }

  lemma {:induction false} LiveAppend(s: SeamRuns.Consumer, a: seq<SeamRuns.Event>, b: seq<SeamRuns.Event>)
    requires s.Ok()
    ensures SeamRuns.Live(s, a + b) == SeamRuns.Live(SeamRuns.Live(s, a), b)
    decreases |a|
  {
    if a == [] {
      assert a + b == b;
    } else {
      assert (a + b)[1..] == a[1..] + b;
      LiveAppend(SeamRuns.Next(s, a[0]), a[1..], b);
    }
  }

  /** The consumer's view of reader i of a log. */
  predicate Views(s: SeamRuns.Consumer, l: SeamRuns.Log, i: nat) {
    i < |l.readers| && s.w == |l.written| && s.c == l.readers[i]
  }

  lemma {:induction false} DeedFollowed(l: SeamRuns.Log, s: SeamRuns.Consumer, d: Deed, i: nat)
    requires l.Ok() && s.Ok() && i < NREADER && Views(s, l, i) && Disciplined(s, [d], i)
    ensures Views(SeamRuns.Live(s, EventsOf(d, i)), SeamRuns.Step(l, d.op), i)
  {
    var es := EventsOf(d, i);
    if es != [] { assert es[1..] == []; }
  }

  lemma {:induction false} ConsumerFollows(l: SeamRuns.Log, s: SeamRuns.Consumer, ds: seq<Deed>, i: nat)
    requires l.Ok() && s.Ok() && i < NREADER && Views(s, l, i) && Disciplined(s, ds, i)
    ensures Views(SeamRuns.Live(s, Events(ds, i)), SeamRuns.Run(l, Ops(ds)), i)
    decreases |ds|
  {
    if ds == [] {
      assert Ops(ds) == [];
    } else {
      var d, rest := ds[0], ds[1..];
      assert [d][1..] == [] && [d][0] == d;
      DeedFollowed(l, s, d, i);
      assert Ops(ds)[0] == d.op && Ops(ds)[1..] == Ops(rest);
      ConsumerFollows(SeamRuns.Step(l, d.op), SeamRuns.Live(s, EventsOf(d, i)), rest, i);
      LiveAppend(s, EventsOf(d, i), Events(rest, i));
    }
  }

  /** Consumer c is the one behind reader i of queue q. */
  predicate Behind(t: Sys, q: nat, c: SeamRuns.Consumer, i: nat) {
    t.magic && t.owner.None? ==>
      && q < |t.queues| && i < |t.queues[q].cursors|
      && c.c == t.queues[q].cursors[i] && c.w == |t.queues[q].written|
  }

  /** At-least-once delivery, statement by statement and over all processes: when
      reader i is used as documented, then after every run without the two harmful
      crashes each log index below r_seq was returned by some finished peek or is
      counted once in dropped, and committed + dropped is r_seq. */
  lemma {:induction false} AtLeastOnceForAll(s: Sys, trace: seq<(nat, Act)>, q: nat, i: nat, ds: seq<Deed>,
                                             c0: SeamRuns.Consumer, c: SeamRuns.Consumer, t: Sys)
    requires Initial(s) && Inv(s) && Harmless(s, trace) && q < |s.queues| && i < NREADER && ds == Deeds(s, trace, q)
    requires SeamRuns.Fresh(c0) && c0.w == 0 && Disciplined(c0, ds, i) && c == SeamRuns.Live(c0, Events(ds, i))
    requires t == Run(s, trace)
    ensures SeamRuns.AtLeastOnce(c) && Behind(t, q, c, i)
  {
    var l := SeamRuns.Run(NEW_LOG, Ops(ds));
    FollowedOnce(NEW_LOG, c0, ds, i, l, c);
    IsAt(s, trace, q, ds, l, t);
    Concluded(t, q, l, c, i);
  }

  /** Queue q is where the log is. */
  predicate At(t: Sys, q: nat, l: SeamRuns.Log) {
    q < |t.queues|
    && (t.magic && t.owner.None? ==> SeamRuns.Log(Records(t.queues[q].written), t.queues[q].cursors) == l)
  }

  lemma {:induction false} IsAt(s: Sys, trace: seq<(nat, Act)>, q: nat, ds: seq<Deed>, l: SeamRuns.Log, t: Sys)
    requires Initial(s) && Inv(s) && Harmless(s, trace) && q < |s.queues| && ds == Deeds(s, trace, q)
    requires l == SeamRuns.Run(NEW_LOG, Ops(ds)) && t == Run(s, trace)
    ensures At(t, q, l)
  {
    RunRefines(s, trace, q);
  }

  lemma {:induction false} Concluded(t: Sys, q: nat, l: SeamRuns.Log, c: SeamRuns.Consumer, i: nat)
    requires At(t, q, l) && Views(c, l, i) && l.Ok()
    ensures Behind(t, q, c, i)
  {
  }

  lemma {:induction false} FollowedOnce(l0: SeamRuns.Log, c0: SeamRuns.Consumer, ds: seq<Deed>, i: nat,
                                        l: SeamRuns.Log, c: SeamRuns.Consumer)
    requires l0.Ok() && i < NREADER && SeamRuns.Fresh(c0) && Views(c0, l0, i) && Disciplined(c0, ds, i)
    requires l == SeamRuns.Run(l0, Ops(ds)) && c == SeamRuns.Live(c0, Events(ds, i))
    ensures SeamRuns.AtLeastOnce(c) && Views(c, l, i) && l.Ok()
  {
    ConsumerFollows(l0, c0, ds, i);
    SeamRuns.AtLeastOnceAlways(c0, Events(ds, i));
  }
}

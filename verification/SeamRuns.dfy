/** Whole runs over the staging ring: any sequence of writes, reads, peeks and
    commits by four readers, and a consumer that may crash between any two steps. */
module SeamRuns {
  import opened Bytes
  import opened SeamLog

  /** One queue: the records ever written and its four readers. */
  datatype Log = Log(written: seq<Record>, readers: seq<Cursor>) {
    ghost predicate Ok() {
      && |readers| == NREADER
      && forall i :: 0 <= i < NREADER ==> readers[i].Ok(|written|)
    }
  }

  datatype Op =
    | W(rec: Record)
    | R(i: int, max: int)
    | P(i: int, max: int)
    | C(i: int, n: int)

  /** The effect of one call on one reader. */
  function Moved(c: Cursor, w: nat, op: Op): (c': Cursor)
    requires c.Ok(w)
    ensures c'.Ok(w)
  {
    match op
    case W(_) => c
    case R(_, max) => c.Read(w, max)
    case P(_, max) => c.Peek(w, max)
    case C(_, n) => c.Commit(w, n)
  }

  function Step(q: Log, op: Op): (q': Log)
    requires q.Ok()
    ensures q'.Ok()
  {
    if op.W? then q.(written := q.written + [op.rec])
    else if GoodReader(op.i) then
      q.(readers := q.readers[op.i := Moved(q.readers[op.i], |q.written|, op)])
    else q
  }

  function Run(q: Log, ops: seq<Op>): (q': Log)
    requires q.Ok()
    ensures q'.Ok()
    decreases |ops|
  {
    if ops == [] then q else Run(Step(q, ops[0]), ops[1..])
  }

  /** The records one call hands to reader i by a read. */
  function Output(q: Log, op: Op, i: nat): seq<Record>
    requires q.Ok() && i < NREADER
  {
    if op.R? && op.i == i then Delivery(q.written, q.readers[i], op.max) else []
  }

  /** The records reader i is handed by read calls, in order. */
  function Outputs(q: Log, ops: seq<Op>, i: nat): seq<Record>
    requires q.Ok() && i < NREADER
    decreases |ops|
  {
    if ops == [] then [] else Output(q, ops[0], i) + Outputs(Step(q, ops[0]), ops[1..], i)
  }

  // ---- One reader at a time ----------------------------------------------

  /** The calls of a run that concern reader i: every write and its own calls. */
  function Project(ops: seq<Op>, i: int): seq<Op> {
    if ops == [] then []
    else if ops[0].W? || ops[0].i == i then [ops[0]] + Project(ops[1..], i)
    else Project(ops[1..], i)
  }

  /** The log as a single reader sees it, the others left out altogether. */
  datatype One = One(written: seq<Record>, c: Cursor) {
    predicate Ok() { c.Ok(|written|) }
  }

  function StepOne(s: One, op: Op): (s': One)
    requires s.Ok()
    ensures s'.Ok()
  {
    if op.W? then s.(written := s.written + [op.rec]) else s.(c := Moved(s.c, |s.written|, op))
  }

  function RunOne(s: One, ops: seq<Op>): (s': One)
    requires s.Ok()
    ensures s'.Ok()
    decreases |ops|
  {
    if ops == [] then s else RunOne(StepOne(s, ops[0]), ops[1..])
  }

  function OutputOne(s: One, op: Op): seq<Record>
    requires s.Ok()
  {
    if op.R? then Delivery(s.written, s.c, op.max) else []
  }

  function OutputsOne(s: One, ops: seq<Op>): seq<Record>
    requires s.Ok()
    decreases |ops|
  {
    if ops == [] then [] else OutputOne(s, ops[0]) + OutputsOne(StepOne(s, ops[0]), ops[1..])
  }

  function Only(q: Log, i: nat): One
    requires q.Ok() && i < NREADER
  {
    One(q.written, q.readers[i])
  }

  /** Readers are independent: what reader i is given, its cursor and its losses
      are those of a queue whose other readers never existed. */
  lemma {:induction false} Independence(q: Log, ops: seq<Op>, i: nat)
    requires q.Ok() && i < NREADER
    ensures Only(Run(q, ops), i) == RunOne(Only(q, i), Project(ops, i))
    ensures Outputs(q, ops, i) == OutputsOne(Only(q, i), Project(ops, i))
    decreases |ops|
  {
    if ops == [] {
    } else {
      var op, rest := ops[0], ops[1..];
      var q1 := Step(q, op);
      Independence(q1, rest, i);
      if op.W? || op.i == i {
        assert Only(q1, i) == StepOne(Only(q, i), op);
        var mine := Project(ops, i);
        assert mine[0] == op && mine[1..] == Project(rest, i);
      } else {
        assert Only(q1, i) == Only(q, i);
      }
    }
  }

  // ---- Conservation ------------------------------------------------------

  /** What happens to each log index the cursor passes in one call: false when
      it was overwritten unread, true when it was handed out. */
  function StepFates(s: One, op: Op): seq<bool>
    requires s.Ok()
  {
    if (op.R? || op.P?) && op.max > 0 then
      Repeat(false, s.c.Start(|s.written|) - s.c.r)
      + Repeat(true, if op.R? then s.c.Avail(|s.written|, op.max) else 0)
    else []
  }

  function Fates(s: One, ops: seq<Op>): seq<bool>
    requires s.Ok()
    decreases |ops|
  {
    if ops == [] then [] else StepFates(s, ops[0]) + Fates(StepOne(s, ops[0]), ops[1..])
  }

  /** The elements whose flag is set. */
  function Keep<T>(s: seq<T>, flags: seq<bool>): seq<T>
    requires |s| == |flags|
  {
    if s == [] then [] else (if flags[0] then [s[0]] else []) + Keep(s[1..], flags[1..])
  }

  function Lost(flags: seq<bool>): nat {
    if flags == [] then 0 else (if flags[0] then 0 else 1) + Lost(flags[1..])
  }

  predicate NeverCommits(ops: seq<Op>) {
    forall op :: op in ops ==> !op.C?
  }

  lemma {:induction false} KeepFirst<T>(x: T, flag: bool, s: seq<T>, flags: seq<bool>)
    requires |s| == |flags|
    ensures Keep([x] + s, [flag] + flags) == (if flag then [x] else []) + Keep(s, flags)
  {
    assert ([x] + s)[1..] == s && ([flag] + flags)[1..] == flags;
  }

  lemma {:induction false} KeepAppend<T>(a: seq<T>, b: seq<T>, fa: seq<bool>, fb: seq<bool>)
    requires |a| == |fa| && |b| == |fb|
    ensures Keep(a + b, fa + fb) == Keep(a, fa) + Keep(b, fb)
  {
    if a == [] {
      assert a + b == b && fa + fb == fb;
    } else {
      var rest, flags := a[1..], fa[1..];
      KeepAppend(rest, b, flags, fb);
      KeepFirst(a[0], fa[0], rest, flags);
      KeepFirst(a[0], fa[0], rest + b, flags + fb);
      assert a == [a[0]] + rest && fa == [fa[0]] + flags;
      assert a + b == [a[0]] + (rest + b) && fa + fb == [fa[0]] + (flags + fb);
    }
  }

  lemma {:induction false} LostAppend(fa: seq<bool>, fb: seq<bool>)
    ensures Lost(fa + fb) == Lost(fa) + Lost(fb)
  {
    if fa == [] {
      assert fa + fb == fb;
    } else {
      LostAppend(fa[1..], fb);
      assert (fa + fb)[1..] == fa[1..] + fb;
    }
  }

  lemma {:induction false} KeepUniform<T>(s: seq<T>, flag: bool)
    ensures Keep(s, Repeat(flag, |s|)) == if flag then s else []
    ensures Lost(Repeat(flag, |s|)) == if flag then 0 else |s|
  {
    if s == [] {
    } else {
      KeepUniform(s[1..], flag);
      assert Repeat(flag, |s|)[1..] == Repeat(flag, |s| - 1);
    }
  }

  lemma {:induction false} KeepCounts<T>(s: seq<T>, flags: seq<bool>)
    requires |s| == |flags|
    ensures |Keep(s, flags)| + Lost(flags) == |s|
  {
    if s == [] {
    } else {
      KeepCounts(s[1..], flags[1..]);
    }
  }

  /** A prefix lost, the rest kept. */
  lemma {:induction false} LostThenKept<T>(s: seq<T>, lost: nat)
    requires lost <= |s|
    ensures var f := Repeat(false, lost) + Repeat(true, |s| - lost);
      Keep(s, f) == s[lost..] && Lost(f) == lost
  {
    var f := Repeat(false, lost) + Repeat(true, |s| - lost);
    if lost == 0 {
      assert f == Repeat(true, |s|);
      KeepUniform(s, true);
    } else {
      LostThenKept(s[1..], lost - 1);
      assert f[1..] == Repeat(false, lost - 1) + Repeat(true, |s| - lost);
    }
  }

  /** In any run the log only grows and neither cursor nor loss count goes back. */
  lemma {:induction false} NothingGoesBack(s: One, ops: seq<Op>)
    requires s.Ok()
    ensures var s' := RunOne(s, ops);
      s.written <= s'.written && s.c.r <= s'.c.r && s.c.dropped <= s'.c.dropped
    decreases |ops|
  {
    if ops == [] {
    } else {
      NothingGoesBack(StepOne(s, ops[0]), ops[1..]);
    }
  }

  lemma {:induction false} StepFate(s: One, op: Op)
    requires s.Ok() && !op.C?
    ensures var s' := StepOne(s, op); var f := StepFates(s, op);
      && s.written <= s'.written
      && |f| == s'.c.r - s.c.r
      && Lost(f) == s'.c.dropped - s.c.dropped
      && Keep(s'.written[s.c.r..s'.c.r], f) == OutputOne(s, op)
  {
    var s' := StepOne(s, op);
    if (op.R? || op.P?) && op.max > 0 {
      PassedFate(s.written, s.c.r, s.c.Start(|s.written|), s'.c.r);
    } else {
      assert s'.written[s.c.r..s'.c.r] == [];
    }
  }

  /** The log from r on: lost before `start`, handed out from there to r'. */
  lemma {:induction false} PassedFate(w: seq<Record>, r: nat, start: nat, r': nat)
    requires r <= start <= r' <= |w|
    ensures var f := Repeat(false, start - r) + Repeat(true, r' - start);
      |f| == r' - r && Lost(f) == start - r && Keep(w[r..r'], f) == w[start..r']
  {
    LostThenKept(w[r..r'], start - r);
    assert w[r..r'][start - r..] == w[start..r'];
  }

  /** Two stretches of a run, put together. */
  lemma Glue(w1: seq<Record>, w2: seq<Record>, r: nat, r1: nat, r2: nat, fa: seq<bool>, fb: seq<bool>)
    requires w1 <= w2 && r <= r1 <= |w1| && r1 <= r2 <= |w2| && |fa| == r1 - r && |fb| == r2 - r1
    ensures |fa + fb| == r2 - r && Lost(fa + fb) == Lost(fa) + Lost(fb)
    ensures Keep(w2[r..r2], fa + fb) == Keep(w1[r..r1], fa) + Keep(w2[r1..r2], fb)
  {
    assert w2[r..r1] == w1[r..r1];
    assert w2[r..r2] == w1[r..r1] + w2[r1..r2];
    KeepAppend(w1[r..r1], w2[r1..r2], fa, fb);
    LostAppend(fa, fb);
  }

  /** Conservation. For a consumer that only reads and peeks: every index its
      cursor passes was either handed out, once and in order, or counted in
      dropped. */
  lemma {:induction false} Conservation(s: One, ops: seq<Op>)
    requires s.Ok() && NeverCommits(ops)
    ensures var s' := RunOne(s, ops); var f := Fates(s, ops);
      && s.written <= s'.written
      && |f| == s'.c.r - s.c.r
      && Lost(f) == s'.c.dropped - s.c.dropped
      && OutputsOne(s, ops) == Keep(s'.written[s.c.r..s'.c.r], f)
    decreases |ops|
  {
    if ops == [] {
      assert s.written[s.c.r..s.c.r] == [];
    } else {
      var s1 := StepOne(s, ops[0]);
      var s' := RunOne(s1, ops[1..]);
      StepFate(s, ops[0]);
      Conservation(s1, ops[1..]);
      Glue(s1.written, s'.written, s.c.r, s1.c.r, s'.c.r, StepFates(s, ops[0]), Fates(s1, ops[1..]));
    }
  }

  /** The reader loses only what the writer has lapped. */
  lemma {:induction false} OnlyLappedAreLost(s: One, ops: seq<Op>, j: nat)
    requires s.Ok() && NeverCommits(ops)
    requires j < |Fates(s, ops)| && !Fates(s, ops)[j]
    ensures s.c.r + j < |RunOne(s, ops).written| - SLOTS
    decreases |ops|
  {
    var f := StepFates(s, ops[0]);
    var s1 := StepOne(s, ops[0]);
    StepFate(s, ops[0]);
    if j < |f| {
      assert j < s.c.Start(|s.written|) - s.c.r;
      NothingGoesBack(s, ops);
    } else {
      OnlyLappedAreLost(s1, ops[1..], j - |f|);
    }
  }

  /** A reader that was never lapped is given the log, with nothing missing. */
  lemma NeverLapped(s: One, ops: seq<Op>)
    requires s.Ok() && NeverCommits(ops) && |RunOne(s, ops).written| <= SLOTS
    ensures var s' := RunOne(s, ops);
      s.c.r <= s'.c.r && s'.c.dropped == s.c.dropped && OutputsOne(s, ops) == s'.written[s.c.r..s'.c.r]
  {
    var s', f := RunOne(s, ops), Fates(s, ops);
    Conservation(s, ops);
    forall j | 0 <= j < |f|
      ensures f[j]
    {
      if !f[j] { OnlyLappedAreLost(s, ops, j); }
    }
    assert f == Repeat(true, |f|);
    KeepUniform(s'.written[s.c.r..s'.c.r], true);
  }

  /** The books of a fresh queue balance for every reader, whatever the other
      readers do: delivered + dropped is r_seq, and one more read of a whole ring
      brings delivered + dropped to w_seq. */
  lemma {:induction false} Accounting(q: Log, ops: seq<Op>, i: nat)
    requires q.Ok() && i < NREADER && q.readers[i] == Cursor(0, 0) && NeverCommits(Project(ops, i))
    ensures var q' := Run(q, ops); var c := q'.readers[i]; var given := Outputs(q, ops, i);
      && |given| + c.dropped == c.r
      && |given| + |Delivery(q'.written, c, SLOTS)| + c.Read(|q'.written|, SLOTS).dropped == |q'.written|
  {
    Independence(q, ops, i);
    var s, mine := Only(q, i), Project(ops, i);
    Conservation(s, mine);
    KeepCounts(RunOne(s, mine).written[0..RunOne(s, mine).c.r], Fates(s, mine));
  }

  // ---- Read, peek and commit ---------------------------------------------

  /** A read is a peek followed by the commit of what the peek returned: the
      same records and the same state; and peeking again changes nothing. */
  lemma ReadIsPeekThenCommit(written: seq<Record>, c: Cursor, max: int)
    requires c.Ok(|written|)
    ensures var w := |written|; var p := c.Peek(w, max);
      && c.Read(w, max) == p.Commit(w, |Delivery(written, c, max)|)
      && Delivery(written, p, max) == Delivery(written, c, max)
      && p.Peek(w, max) == p
  {
  }

  function Sum(ms: seq<nat>): nat { if ms == [] then 0 else ms[0] + Sum(ms[1..]) }

  function ReadsOf(i: int, ms: seq<nat>): seq<Op> {
    seq(|ms|, k requires 0 <= k < |ms| => R(i, ms[k]))
  }

  /** Reads of m1, ..., mk records with no write between them deliver what one
      read of m1 + ... + mk would, and leave the same cursor. */
  lemma {:induction false} ReadsCompose(s: One, i: int, ms: seq<nat>)
    requires s.Ok()
    ensures RunOne(s, ReadsOf(i, ms)) == StepOne(s, R(i, Sum(ms)))
    ensures OutputsOne(s, ReadsOf(i, ms)) == OutputOne(s, R(i, Sum(ms)))
    decreases |ms|
  {
    var ops := ReadsOf(i, ms);
    if ms == [] {
    } else {
      var s1 := StepOne(s, ops[0]);
      assert ops[1..] == ReadsOf(i, ms[1..]);
      ReadsCompose(s1, i, ms[1..]);
      TwoReads(s, i, ms[0], Sum(ms[1..]));
    }
  }

  lemma TwoReads(s: One, i: int, m: nat, n: nat)
    requires s.Ok()
    ensures StepOne(StepOne(s, R(i, m)), R(i, n)) == StepOne(s, R(i, m + n))
    ensures OutputOne(s, R(i, m)) + OutputOne(StepOne(s, R(i, m)), R(i, n)) == OutputOne(s, R(i, m + n))
  {
  }

  // ---- At least once, with crashes ---------------------------------------

  /** One consumer. `peeked` is its process-local memory and dies with it;
      `returned` and `lost` record, for the statement only, which log indices
      some peek handed out and which ones dropped counts. */
  datatype Consumer = Consumer(
    w: nat, c: Cursor, peeked: Option<nat>, returned: seq<int>, lost: seq<int>, committed: nat)
  {
    predicate Ok() { c.Ok(w) }
  }

  datatype Event =
    | Written                 // some process writes one record
    | DoPeek(max: int)
    | CutPeek                 // the process dies inside a peek, behind the lapped-reader step
    | DoCommit                // commits the count the last peek returned
    | Crash                   // and restart: the local count is forgotten

  function Range(lo: int, hi: int): (r: seq<int>)
    requires lo <= hi
    ensures |r| == hi - lo && forall j :: 0 <= j < |r| ==> r[j] == lo + j
    ensures forall k :: k in r <==> lo <= k < hi
    decreases hi - lo
  {
    if lo == hi then [] else Range(lo, hi - 1) + [hi - 1]
  }

  function Next(s: Consumer, e: Event): (s': Consumer)
    requires s.Ok()
    ensures s'.Ok()
  {
    match e
    case Written => s.(w := s.w + 1)
    case DoPeek(max) =>
      if max <= 0 then s.(peeked := Some(0))
      else
        var start, n := s.c.Start(s.w), s.c.Avail(s.w, max);
        s.(c := s.c.Peek(s.w, max), peeked := Some(n),
           returned := s.returned + Range(start, start + n), lost := s.lost + Range(s.c.r, start))
    case CutPeek =>
      s.(c := s.c.Jump(s.w), peeked := None, lost := s.lost + Range(s.c.r, s.c.Start(s.w)))
    case DoCommit =>
      if s.peeked.None? then s
      else s.(c := s.c.Commit(s.w, s.peeked.value), peeked := None, committed := s.committed + s.peeked.value)
    case Crash => s.(peeked := None)
  }

  function Live(s: Consumer, es: seq<Event>): (s': Consumer)
    requires s.Ok()
    ensures s'.Ok()
    decreases |es|
  {
    if es == [] then s else Live(Next(s, es[0]), es[1..])
  }

  /** Every index below the cursor was returned by some peek or is counted, once,
      in dropped; and committed + dropped == r_seq. */
  ghost predicate AtLeastOnce(s: Consumer) {
    && (forall k :: 0 <= k < s.c.r ==> k in s.returned || k in s.lost)
    && (forall a, b :: 0 <= a < b < |s.lost| ==> s.lost[a] < s.lost[b])
    && (forall k :: k in s.lost ==> 0 <= k < s.c.r)
    && |s.lost| == s.c.dropped
    && s.committed + s.c.dropped == s.c.r
  }

  /** The count a live consumer remembers is a count of returned records that
      still lie directly above the cursor. */
  ghost predicate Remembers(s: Consumer) {
    s.peeked.Some? ==>
      && s.c.r + s.peeked.value <= s.w
      && forall k :: s.c.r <= k < s.c.r + s.peeked.value ==> k in s.returned
  }

  lemma AtLeastOnceStep(s: Consumer, e: Event)
    requires s.Ok() && AtLeastOnce(s) && Remembers(s)
    ensures AtLeastOnce(Next(s, e)) && Remembers(Next(s, e))
  {
    if e.CutPeek? || (e.DoPeek? && e.max > 0) {
      var more := Range(s.c.r, s.c.Start(s.w));
      assert forall k :: k in Next(s, e).lost <==> k in s.lost || k in more;
      assert forall a :: 0 <= a < |s.lost| ==> s.lost[a] in s.lost;
    }
  }

  lemma {:induction false} AtLeastOnceFrom(s: Consumer, es: seq<Event>)
    requires s.Ok() && AtLeastOnce(s) && Remembers(s)
    ensures AtLeastOnce(Live(s, es)) && Remembers(Live(s, es))
    decreases |es|
  {
    if es == [] {
    } else {
      AtLeastOnceStep(s, es[0]);
      AtLeastOnceFrom(Next(s, es[0]), es[1..]);
    }
  }

  /** A consumer that has not yet peeked anything; records may be waiting. */
  predicate Fresh(s: Consumer) {
    s.c == Cursor(0, 0) && s.peeked == None && s.returned == [] && s.lost == [] && s.committed == 0
  }

  /** At-least-once delivery under crashes: it holds after every run of writes,
      peeks, commits of the returned count, crashes and restarts. */
  lemma {:induction false} AtLeastOnceAlways(s: Consumer, es: seq<Event>)
    requires Fresh(s)
    ensures AtLeastOnce(Live(s, es))
  {
    AtLeastOnceFrom(s, es);
  }

  /** seam_ring_commit does not know what was peeked.  After a peek of n records,
      with nothing above them returned yet, committing m keeps every passed
      index covered exactly when m <= n or the clamp at w_seq stops the cursor
      within the peeked records. */
  lemma CommitCovers(s: Consumer, n: nat, m: nat)
    requires s.Ok() && AtLeastOnce(s) && Remembers(s) && s.peeked == Some(n)
    requires forall k :: k in s.returned ==> k < s.c.r + n
    ensures (forall k :: 0 <= k < s.c.Commit(s.w, m).r ==> k in s.returned || k in s.lost)
            <==> m <= n || s.w - s.c.r <= n
  {
    if !(m <= n || s.w - s.c.r <= n) {
      var k := s.c.r + n;
      assert 0 <= k < s.c.Commit(s.w, m).r && k !in s.returned && k !in s.lost;
    }
  }

  /** Crash inside the lapped-reader step (st01/sub/seam_ring.c:61-62): the loss
      is added to dropped, the process dies before the cursor moves, and the
      restarted reader adds it again. */
  function HalfJump(c: Cursor, w: nat): Cursor { c.(dropped := c.dropped + (c.Start(w) - c.r)) }

  /** So the loss count stays exact across such a crash only when there was
      nothing to skip; otherwise it is too high by the size of the skip. */
  lemma CrashInsideJump(c: Cursor, w: nat)
    requires c.Ok(w)
    ensures var again := HalfJump(c, w).Jump(w);
      && again.r == c.Jump(w).r
      && again.dropped == c.Jump(w).dropped + (c.Start(w) - c.r)
      && (again == c.Jump(w) <==> w - c.r <= SLOTS)
  {
  }
}

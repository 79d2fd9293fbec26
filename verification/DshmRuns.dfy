/** What the data-SHM queue guarantees about its log of records: the machine of
    DshmRing, with the records ever written and what each slot holds beside it.
    Whole runs of an auto-advancing reader, with any number of writes, any lapping,
    the sync manager at its own pace, and restarts. */
module DshmRuns {
  import opened Bytes
  import opened HeaderCodec
  import opened FileFormat
  import opened DshmRing

  const LIMIT: nat := 1_0000_0000

  // ---- Slots -------------------------------------------------------------

  lemma SmallMultiple(m: int, q: int)
    requires m > 0
    ensures -m < m * q < m ==> q == 0
  {
    assert q >= 1 ==> m * q >= m;
    assert q <= -1 ==> m * q <= -m;
  }

  lemma Euclid(a: nat, m: nat)
    requires m > 0
    ensures a == m * (a / m) + a % m && 0 <= a % m < m
  {
  }

  /** Records less than one lap apart use different slots. */
  lemma SlotsDiffer(a: nat, b: nat, m: nat)
    requires m > 0 && a < b < a + m
    ensures Slot(a, m) != Slot(b, m)
  {
    Euclid(a, m);
    Euclid(b, m);
    var q := b / m - a / m;
    SmallMultiple(m, q);
    assert b - a == m * q + (b % m - a % m);
  }

  /** One lap on, the same slot. */
  lemma NextLap(a: nat, m: nat)
    requires m > 0
    ensures Slot(a + m, m) == Slot(a, m)
  {
    Euclid(a, m);
    Euclid(a + m, m);
    var d := (a + m) / m - a / m - 1;
    SmallMultiple(m, d);
    assert m * d == a % m - (a + m) % m;
  }

  /** Every record has the file record size and carries its own number. */
  ghost predicate Stamped(log: seq<seq<Byte>>, fsize: nat) {
    && AllSized(log, fsize) && fsize > FILE_HEAD && |log| < LIMIT
    && forall k :: 0 <= k < |log| ==> Stamp(log[k]) == k + 1 && log[k][0] == BRACKET_L
  }

  predicate InRing(k: int, m: nat, base: nat, w: nat) { base <= k && w - m <= k < w }

  /** Which record each slot holds (-1: none since the segment was created):
      exactly the last `m` written since `base`. */
  ghost predicate Holds(held: seq<int>, m: nat, base: nat, w: nat) {
    && m > 0 && |held| == m && base <= w
    && (forall j :: 0 <= j < m ==> held[j] == -1 || (InRing(held[j], m, base, w) && Slot(held[j], m) == j))
    && (forall k: nat :: InRing(k, m, base, w) ==> held[Slot(k, m)] == k)
  }

  ghost predicate Shows(ring: seq<seq<Byte>>, held: seq<int>, log: seq<seq<Byte>>) {
    && |ring| == |held|
    && forall j :: 0 <= j < |held| ==> if 0 <= held[j] < |log| then ring[j] == log[held[j]] else Stamp(ring[j]) == 0
  }

  lemma HoldsNext(held: seq<int>, m: nat, base: nat, w: nat)
    requires Holds(held, m, base, w)
    ensures Holds(held[Slot(w, m) := w], m, base, w + 1)
  {
    var held' := held[Slot(w, m) := w];
    forall j | 0 <= j < m && j != Slot(w, m) && held[j] != -1
      ensures InRing(held[j], m, base, w + 1)
    {
      if held[j] == w - m { NextLap(held[j], m); }
    }
    forall k: nat | InRing(k, m, base, w + 1)
      ensures held'[Slot(k, m)] == k
    {
      if k < w { SlotsDiffer(k, w, m); }
    }
  }

  /** The check of the first stamp decides for the whole batch: the slot of r
      carries number r + 1 exactly when the ring still holds r, and then it holds
      every record from r on. */
  lemma FirstStampDecides(ring: seq<seq<Byte>>, held: seq<int>, log: seq<seq<Byte>>, fsize: nat,
                          m: nat, base: nat, r: nat)
    requires Stamped(log, fsize) && Holds(held, m, base, |log|) && Shows(ring, held, log) && r < |log|
    ensures Stamp(ring[Slot(r, m)]) == r + 1 <==> InRing(r, m, base, |log|)
    ensures InRing(r, m, base, |log|) ==> forall k: nat :: r <= k < |log| ==> ring[Slot(k, m)] == log[k]
  {
    var j := Slot(r, m);
    if held[j] != -1 {
      assert ring[j] == log[held[j]];
    }
    if InRing(r, m, base, |log|) {
      forall k: nat | r <= k < |log|
        ensures ring[Slot(k, m)] == log[k]
      {
        assert InRing(k, m, base, |log|);
        assert held[Slot(k, m)] == k;
      }
    }
  }

  // ---- Bytes of the log --------------------------------------------------

  ghost predicate Strippable(log: seq<seq<Byte>>) {
    forall k :: 0 <= k < |log| ==> |log[k]| >= FILE_HEAD
  }

  /** What a reader is to be given of records r to r + n. */
  function Handed(log: seq<seq<Byte>>, r: nat, n: nat): seq<Byte>
    requires r + n <= |log| && forall k :: 0 <= k < |log| ==> |log[k]| >= FILE_HEAD
  {
    if n == 0 then [] else Handed(log, r, n - 1) + Strip(log[r + n - 1])
  }

  lemma {:induction false} HandedAppend(log: seq<seq<Byte>>, r: nat, n: nat, n': nat)
    requires r + n + n' <= |log| && Strippable(log)
    ensures Handed(log, r, n + n') == Handed(log, r, n) + Handed(log, r + n, n')
    decreases n'
  {
    if n' == 0 {
    } else {
      HandedAppend(log, r, n, n' - 1);
      MoveOver(Handed(log, r, n), Handed(log, r + n, n' - 1), Strip(log[r + n + n' - 1]));
    }
  }

  lemma {:induction false} HandedOne(log: seq<seq<Byte>>, r: nat)
    requires r < |log| && Strippable(log)
    ensures Handed(log, r, 1) == Strip(log[r])
  {
    assert Handed(log, r, 0) == [];
  }

  /** It depends on those records alone. */
  lemma {:induction false} HandedSame(a: seq<seq<Byte>>, b: seq<seq<Byte>>, r: nat, n: nat)
    requires r + n <= |a| && r + n <= |b| && Strippable(a) && Strippable(b)
    requires forall k :: r <= k < r + n ==> a[k] == b[k]
    ensures Handed(a, r, n) == Handed(b, r, n)
    decreases n
  {
    if n == 0 {
    } else {
      assert Handed(a, r, n - 1) == Handed(b, r, n - 1) by { HandedSame(a, b, r, n - 1); }
    }
  }

  lemma {:induction false} HandedFirst(log: seq<seq<Byte>>, r: nat, n: nat)
    requires 0 < n && r + n <= |log| && Strippable(log)
    ensures Handed(log, r, n) == Strip(log[r]) + Handed(log, r + 1, n - 1)
  {
    HandedOne(log, r);
    HandedAppend(log, r, 1, n - 1);
  }

  /** Stripping the text of these records one after the other. */
  lemma {:induction false} StripIsHanded(log: seq<seq<Byte>>, fsize: nat, r: nat, n: nat, mine: seq<seq<Byte>>)
    requires AllSized(log, fsize) && fsize > FILE_HEAD && r + n <= |log| && mine == log[r..r + n]
    ensures StripBytes(Flatten(mine), fsize) == Handed(log, r, n)
    decreases n
  {
    if n == 0 {
    } else {
      var x, rest := log[r], mine[1..];
      assert mine == [x] + rest;
      StripIsHanded(log, fsize, r + 1, n - 1, rest);
      StripFirst(x, rest, fsize);
      HandedFirst(log, r, n);
    }
  }

  lemma {:induction false} StripFirst(x: seq<Byte>, rest: seq<seq<Byte>>, fsize: nat)
    requires |x| == fsize > FILE_HEAD
    ensures StripBytes(Flatten([x] + rest), fsize) == Strip(x) + StripBytes(Flatten(rest), fsize)
  {
    assert ([x] + rest)[1..] == rest;
    var s := Flatten([x] + rest);
    assert s[..fsize] == x && s[fsize..] == Flatten(rest);
  }

  /** The file side: the window of F_R_Proc is the records themselves. */
  lemma {:induction false} FileWindow(log: seq<seq<Byte>>, fsize: nat, r: nat, n: nat)
    requires AllSized(log, fsize) && fsize > FILE_HEAD && n > 0 && r < |log|
    ensures var c := Min(n, |log| - r); var w := Window(Flatten(log), r * fsize, fsize * n);
      ReadResult(w, fsize) == c && StripBytes(w, fsize) == Handed(log, r, c)
  {
    var c := Min(n, |log| - r);
    var mine, more := log[r..r + c], log[r + c..];
    FlattenFrom(log, fsize, r);
    FlattenLength(mine, fsize);
    Beyond(c, n, fsize);
    assert log[r..] == mine + more;
    FlattenAppend(mine, more);
    WindowFrom(Flatten(log), r * fsize, fsize * n, Flatten(mine), Flatten(more), c == n);
    NextMultiple(c, fsize);
    StripIsHanded(log, fsize, r, c, mine);
  }

  lemma {:induction false} FileWindowBeyond(log: seq<seq<Byte>>, fsize: nat, r: nat, n: nat)
    requires AllSized(log, fsize) && fsize > FILE_HEAD && r >= |log|
    ensures ReadResult(Window(Flatten(log), r * fsize, fsize * n), fsize) == 0
  {
    FlattenLength(log, fsize);
    Beyond(|log|, r, fsize);
  }

  lemma {:induction false} NextMultiple(c: nat, m: nat)
    requires m > 0
    ensures (c * m) % m == 0 && (c * m) / m == c
  {
    Euclid(c * m, m);
    SmallMultiple(m, (c * m) / m - c);
  }

  lemma Beyond(n: nat, r: nat, fsize: nat)
    requires n <= r
    ensures n * fsize <= r * fsize
  {
  }

  lemma {:induction false} WindowFrom(file: seq<Byte>, at: nat, want: nat, mine: seq<Byte>, rest: seq<Byte>, all: bool)
    requires at <= |file| && file[at..] == mine + rest && |mine| <= want
    requires if all then |mine| == want else rest == []
    ensures Window(file, at, want) == mine
  {
  }

  /** A blank cell carries number 0, which no reader waits for. */
  lemma {:induction false} BlankStamp(fsize: nat)
    ensures Stamp(Blank(fsize)) == 0
  {
    if fsize >= 9 {
      assert Blank(fsize)[1..9] == Repeat(NUL, 8);
      NoDigits(8);
    }
  }

  /** What a reader is handed of a cell begins with the cell's number. */
  lemma {:induction false} StripStamp(cell: seq<Byte>)
    requires |cell| >= FILE_HEAD
    ensures AtoI(Strip(cell)[..8]) == Stamp(cell)
  {
    FieldTotals();
    assert cell[..FILE_HEAD][1..9] == cell[1..9];
    assert Strip(cell)[..8] == cell[1..9];
  }

  // ---- One step ----------------------------------------------------------

  /** The machine, the records it has written, what each slot holds of them, and
      how many there were at the last start. */
  datatype History = History(q: Machine, log: seq<seq<Byte>>, held: seq<int>, base: nat)

  /** The slots hold the newest records and the file a whole prefix of the log. */
  ghost predicate Intact(h: History) {
    && h.q.Shape() && Stamped(h.log, h.q.fsize)
    && h.q.w == |h.log| && h.base <= h.q.smr <= |h.log|
    && Holds(h.held, |h.q.ring|, h.base, |h.log|) && Shows(h.q.ring, h.held, h.log)
    && h.q.file == Flatten(h.log[..h.q.smr])
  }

  /** A queue just created over an empty file. */
  lemma {:induction false} NewQueueIsIntact(m: nat, fsize: nat)
    requires m > 0 && fsize > FILE_HEAD
    ensures Intact(History(Machine(Repeat(Blank(fsize), m), 0, [], 0, fsize), [], Repeat(-1, m), 0))
  {
    BlankStamp(fsize);
  }

  function Wrote(h: History, b: seq<Byte>): History
    requires h.q.Shape() && h.q.Fits(b) && |h.held| == |h.q.ring|
  {
    History(h.q.Write(b), h.log + [Encode(b, h.q.w + 1)], h.held[Slot(h.q.w, |h.held|) := h.q.w], h.base)
  }

  lemma {:induction false} WriteKeeps(h: History, b: seq<Byte>)
    requires Intact(h) && h.q.Fits(b) && h.q.w + 1 < LIMIT
    ensures Intact(Wrote(h, b))
  {
    var q, cell := h.q, Encode(b, h.q.w + 1);
    var j, h' := Slot(q.w, |q.ring|), Wrote(h, b);
    assert h'.q == q.(ring := q.ring[j := cell], w := q.w + 1);
    assert h'.held == h.held[j := q.w] && h'.log == h.log + [cell] && h'.base == h.base;
    HoldsNext(h.held, |q.ring|, h.base, |h.log|);
    StampEncode(b, q.w + 1);
    StampedNext(h.log, q.fsize, cell);
    ShowsNext(q.ring, h.held, h.log, h.base, cell);
    assert h'.log[..q.smr] == h.log[..q.smr];
  }

  lemma StampedNext(log: seq<seq<Byte>>, fsize: nat, cell: seq<Byte>)
    requires Stamped(log, fsize) && |log| + 1 < LIMIT
    requires |cell| == fsize && Stamp(cell) == |log| + 1 && cell[0] == BRACKET_L
    ensures Stamped(log + [cell], fsize)
  {
  }

  lemma ShowsNext(ring: seq<seq<Byte>>, held: seq<int>, log: seq<seq<Byte>>, base: nat, cell: seq<Byte>)
    requires Holds(held, |ring|, base, |log|) && Shows(ring, held, log)
    ensures var j := Slot(|log|, |ring|); Shows(ring[j := cell], held[j := |log|], log + [cell])
  {
  }

  /** The sync manager copies the slot of its next record unchecked. The file goes
      on being the log exactly when the manager has not itself been lapped. */
  lemma {:induction false} SyncIsRight(h: History)
    requires Intact(h) && h.q.smr < h.q.w
    ensures h.q.Sync().smr == h.q.smr + 1
    ensures h.q.Sync().file == Flatten(h.log[..h.q.smr + 1]) <==> h.q.w - h.q.smr <= |h.q.ring|
  {
    var k, cell := h.q.smr, h.q.Cell(h.q.smr);
    FirstStampDecides(h.q.ring, h.held, h.log, h.q.fsize, |h.q.ring|, h.base, k);
    AppendCell(h.log, k);
    SameTail(h.q.file, h.log[k], cell);
    assert |Flatten(h.log[..k + 1])| == |h.q.file| + h.q.fsize;
  }

  lemma {:induction false} SyncKeeps(h: History)
    requires Intact(h) && h.q.w - h.q.smr <= |h.q.ring|
    ensures Intact(h.(q := h.q.Sync()))
  {
    if h.q.smr < h.q.w { SyncIsRight(h); }
  }

  lemma {:induction false} AppendCell(log: seq<seq<Byte>>, k: nat)
    requires k < |log|
    ensures Flatten(log[..k + 1]) == Flatten(log[..k]) + log[k]
  {
    assert log[..k + 1] == log[..k] + [log[k]];
    FlattenAppend(log[..k], [log[k]]);
    assert Flatten([log[k]]) == log[k];
  }

  lemma {:induction false} SameTail(a: seq<Byte>, x: seq<Byte>, y: seq<Byte>)
    ensures a + x == a + y <==> x == y
  {
    assert (a + x)[|a|..] == x && (a + y)[|a|..] == y;
  }

  /** What a call for at most p records returns to a reader at r: the records left
      if the ring still holds r, else as many as the file has. */
  function ReadCount(r: nat, p: int, m: nat, base: nat, synced: nat, w: nat): (n: nat)
    requires p >= 1 && r <= w
    ensures r + n <= w
  {
    var n := Min(w - r, p);
    if n == 0 || InRing(r, m, base, w) then n else if synced > r then Min(n, Max(0, Min(synced, w) - r)) else 0
  }

  lemma {:induction false} RingIsTheLog(q: Machine, log: seq<seq<Byte>>, r: nat, n: nat)
    requires q.Shape() && r + n <= |log| && Strippable(log)
    requires forall k: nat :: r <= k < r + n ==> q.Cell(k) == log[k]
    ensures q.RingBytes(r, n) == Handed(log, r, n)
    decreases n
  {
    if n == 0 {
    } else {
      RingIsTheLog(q, log, r, n - 1);
      OneMoreCell(q, log, r, n - 1);
    }
  }

  lemma {:induction false} OneMoreCell(q: Machine, log: seq<seq<Byte>>, r: nat, n: nat)
    requires q.Shape() && r + n < |log| && Strippable(log) && q.Cell(r + n) == log[r + n]
    requires q.RingBytes(r, n) == Handed(log, r, n)
    ensures q.RingBytes(r, n + 1) == Handed(log, r, n + 1)
  {
  }

  /** A call hands out the log from the cursor on, by ring or by file, and moves
      the cursor by as much. */
  lemma {:induction false} ReadIsTheLog(h: History, r: nat, p: int)
    requires Intact(h) && r <= |h.log| && p >= 1
    ensures var n := ReadCount(r, p, |h.q.ring|, h.base, h.q.smr, |h.log|);
      h.q.Count(r, p) == n && h.q.Out(r, p) == Handed(h.log, r, n) && h.q.Next(r, p) == r + n
  {
    var q, log, ask := h.q, h.log, h.q.Ask(r, p);
    if ask == 0 {
      assert log[r..r] == [];
    } else {
      FirstStampDecides(q.ring, h.held, log, q.fsize, |q.ring|, h.base, r);
      if q.FromRing(r, p) {
        RingIsTheLog(q, log, r, ask);
      } else {
        FileIsTheLog(h, r, p);
      }
    }
  }

  lemma {:induction false} FileIsTheLog(h: History, r: nat, p: int)
    requires Intact(h) && r < |h.log| && p >= 1 && !h.q.FromRing(r, p)
    ensures var n := if h.q.smr > r then Min(h.q.Ask(r, p), h.q.smr - r) else 0;
      h.q.Count(r, p) == n && h.q.Out(r, p) == Handed(h.log, r, n) && h.q.Next(r, p) == r + n
  {
    FileSide(h.q, r, p, h.q.FileBytes(r, p));
    SyncedWindow(h.log, h.q.smr, h.q.fsize, r, h.q.Ask(r, p));
  }

  lemma {:induction false} SyncedWindow(log: seq<seq<Byte>>, smr: nat, fsize: nat, r: nat, ask: nat)
    requires AllSized(log, fsize) && fsize > FILE_HEAD && smr <= |log| && r + ask <= |log| && ask > 0
    ensures var w := Window(Flatten(log[..smr]), r * fsize, fsize * ask);
      if smr > r then
        var n := Min(ask, smr - r);
        ReadResult(w, fsize) == n && StripBytes(w, fsize) == Handed(log, r, n)
      else ReadResult(w, fsize) == 0 && Handed(log, r, 0) == []
  {
    var synced := log[..smr];
    if smr > r {
      FileWindow(synced, fsize, r, ask);
      var n := Min(ask, smr - r);
      HandedSame(synced, log, r, n);
    } else {
      FileWindowBeyond(synced, fsize, r, ask);
    }
  }

  function Restarted(h: History, s: nat): History
    requires h.q.Shape() && s <= |h.log|
  {
    History(h.q.Restart(s), h.log[..s], Repeat(-1, |h.q.ring|), s)
  }

  /** A start over a file that is a whole prefix of the log, with as many records
      counted by the manager. */
  lemma {:induction false} RestartKeeps(h: History, s: nat)
    requires h.q.Shape() && Stamped(h.log, h.q.fsize) && s <= |h.log| && h.q.file == Flatten(h.log[..s])
    ensures Intact(Restarted(h, s))
  {
    BlankStamp(h.q.fsize);
    FlattenLength(h.log[..s], h.q.fsize);
    NextMultiple(s, h.q.fsize);
    assert h.log[..s][..s] == h.log[..s];
  }

  // ---- Runs --------------------------------------------------------------

  /** The machine and one auto-advancing cursor. */
  datatype State = State(q: Machine, r: nat)

  datatype Event =
    | Write(b: seq<Byte>)
    | Sync
    | Read(p: int)
    | Restart(s: nat, r: nat)      // with the counts that are restored

  function Step(s: State, e: Event): (s': State)
    requires s.q.Shape()
    ensures s'.q.Shape() && s'.q.fsize == s.q.fsize
  {
    match e
    case Write(b) => if s.q.Fits(b) then s.(q := s.q.Write(b)) else s
    case Sync => s.(q := s.q.Sync())
    case Read(p) => if 1 <= p <= 45 then s.(r := s.q.Next(s.r, p)) else s
    case Restart(n, r) => State(s.q.Restart(n), r)
  }

  /** The bytes one event hands to the reader. */
  function Output(s: State, e: Event): seq<Byte>
    requires s.q.Shape()
  {
    if e.Read? && 1 <= e.p <= 45 then s.q.Out(s.r, e.p) else []
  }

  function Run(s: State, es: seq<Event>): (s': State)
    requires s.q.Shape()
    ensures s'.q.Shape() && s'.q.fsize == s.q.fsize
    decreases |es|
  {
    if es == [] then s else Run(Step(s, es[0]), es[1..])
  }

  function Outputs(s: State, es: seq<Event>): seq<Byte>
    requires s.q.Shape()
    decreases |es|
  {
    if es == [] then [] else Output(s, es[0]) + Outputs(Step(s, es[0]), es[1..])
  }

  function LogStep(log: seq<seq<Byte>>, s: State, e: Event): seq<seq<Byte>>
    requires s.q.Shape()
  {
    match e
    case Write(b) => if s.q.Fits(b) then log + [Encode(b, s.q.w + 1)] else log
    case Restart(n, _) => log[..Min(n, |log|)]
    case _ => log
  }

  function LogAfter(log: seq<seq<Byte>>, s: State, es: seq<Event>): seq<seq<Byte>>
    requires s.q.Shape()
    decreases |es|
  {
    if es == [] then log else LogAfter(LogStep(log, s, es[0]), Step(s, es[0]), es[1..])
  }

  /** What one event asks of its surroundings: numbers of at most 8 digits; the
      writer not more than a lap ahead of the manager (records from before the
      start are in the file already); a restart only with the cursor and the
      manager's count as they were, the cursor not beyond the file. */
  predicate Fair(s: State, base: nat, e: Event) {
    match e
    case Write(b) => s.q.Fits(b) && s.q.w + 1 < LIMIT
    case Sync => s.q.smr < s.q.w ==> s.q.w - Max(s.q.smr, base) <= |s.q.ring|
    case Read(_) => true
    case Restart(n, r) => n == s.q.smr && r == s.r <= n
  }

  predicate Covered(s: State, base: nat, es: seq<Event>)
    requires s.q.Shape()
    decreases |es|
  {
    es == [] ||
    (Fair(s, base, es[0]) && Covered(Step(s, es[0]), if es[0].Restart? then es[0].s else base, es[1..]))
  }

  /** The reader went from r to r' and was given just that part of the log, what
      it had been given before is still there, and the file is a whole prefix. */
  ghost predicate Right(log: seq<seq<Byte>>, r: nat, out: seq<Byte>, s': State, log': seq<seq<Byte>>) {
    && Strippable(log')
    && r <= |log| && r <= s'.r <= |log'| && log'[..r] == log[..r]
    && out == Handed(log', r, s'.r - r)
    && s'.q.smr <= |log'| && s'.q.file == Flatten(log'[..s'.q.smr])
  }

  function After(h: History, r: nat, e: Event): History
    requires Intact(h)
  {
    match e
    case Write(b) => if h.q.Fits(b) then Wrote(h, b) else h
    case Sync => h.(q := h.q.Sync())
    case Read(_) => h
    case Restart(s, _) => if s <= |h.log| then Restarted(h, s) else h
  }

  lemma {:induction false} StepKeeps(h: History, r: nat, e: Event)
    requires Intact(h) && r <= |h.log| && Fair(State(h.q, r), h.base, e)
    ensures var s, h' := State(h.q, r), After(h, r, e);
      && Intact(h') && h'.q == Step(s, e).q && h'.log == LogStep(h.log, s, e)
      && h'.base == (if e.Restart? then e.s else h.base)
  {
    match e {
      case Write(b) => WriteKeeps(h, b);
      case Sync => SyncKeeps(h);
      case Read(_) =>
      case Restart(s, _) => RestartKeeps(h, s);
    }
  }

  lemma {:induction false} ReadDelivers(h: History, r: nat, p: int)
    requires Intact(h) && r <= |h.log| && 1 <= p <= 45
    ensures Right(h.log, r, h.q.Out(r, p), State(h.q, h.q.Next(r, p)), h.log)
  {
    ReadIsTheLog(h, r, p);
  }

  /** An event that hands out nothing. */
  lemma {:induction false} NothingHanded(log: seq<seq<Byte>>, h': History, r: nat)
    requires Intact(h') && r <= |log| && r <= |h'.log| && h'.log[..r] == log[..r]
    ensures Right(log, r, [], State(h'.q, r), h'.log)
  {
    assert h'.log[r..r] == [];
  }

  lemma {:induction false} StepDelivers(h: History, r: nat, e: Event)
    requires Intact(h) && r <= |h.log| && Fair(State(h.q, r), h.base, e)
    ensures var s := State(h.q, r); Right(h.log, r, Output(s, e), Step(s, e), LogStep(h.log, s, e))
  {
    if e.Read? && 1 <= e.p <= 45 {
      ReadDelivers(h, r, e.p);
    } else {
      StepKeeps(h, r, e);
      NothingHanded(h.log, After(h, r, e), r);
    }
  }

  lemma {:induction false} RightThenRight(log: seq<seq<Byte>>, log1: seq<seq<Byte>>, log2: seq<seq<Byte>>,
                                          r: nat, out1: seq<Byte>, out2: seq<Byte>, s1: State, s2: State)
    requires Right(log, r, out1, s1, log1) && Right(log1, s1.r, out2, s2, log2)
    ensures Right(log, r, out1 + out2, s2, log2)
  {
    SamePrefix(log1, log2, s1.r, r);
    HandedSame(log1, log2, r, s1.r - r);
    HandedAppend(log2, r, s1.r - r, s2.r - s1.r);
  }

  lemma {:induction false} SamePrefix(a: seq<seq<Byte>>, b: seq<seq<Byte>>, n: nat, r: nat)
    requires r <= n <= |a| && n <= |b| && a[..n] == b[..n]
    ensures a[..r] == b[..r] && forall k :: 0 <= k < n ==> a[k] == b[k]
  {
    assert a[..r] == a[..n][..r] && b[..r] == b[..n][..r];
    forall k | 0 <= k < n
      ensures a[k] == b[k]
    {
      assert a[k] == a[..n][k] && b[k] == b[..n][k];
    }
  }

  /** Gap-free delivery.  However often the writer laps the ring and however the
      calls fall between ring and file, the bytes handed out are the log from the
      reader's first cursor to its last, stripped: no gap, no repetition; no later
      event, restarts included, changes the log below the cursor; and the file is
      a whole prefix of the log. */
  lemma {:induction false} GapFree(h: History, r: nat, es: seq<Event>)
    requires Intact(h) && r <= |h.log| && Covered(State(h.q, r), h.base, es)
    ensures var s := State(h.q, r); Right(h.log, r, Outputs(s, es), Run(s, es), LogAfter(h.log, s, es))
    decreases |es|
  {
    var s := State(h.q, r);
    if es == [] {
      assert h.log[r..r] == [];
    } else {
      var s1, h1 := Step(s, es[0]), After(h, r, es[0]);
      StepKeeps(h, r, es[0]);
      StepDelivers(h, r, es[0]);
      GapFree(h1, s1.r, es[1..]);
      RightThenRight(h.log, h1.log, LogAfter(h1.log, s1, es[1..]), r,
                     Output(s, es[0]), Outputs(s1, es[1..]), s1, Run(s1, es[1..]));
    }
  }

  /** A reader with records to come always gets some, as long as the sync manager
      itself is not lapped. */
  lemma {:induction false} NeverStarved(h: History, r: nat, p: int)
    requires Intact(h) && r < |h.log| && 1 <= p && h.q.w - h.q.smr <= |h.q.ring|
    ensures h.q.Count(r, p) > 0
  {
    ReadIsTheLog(h, r, p);
  }

  // ---- The class's steps as events ---------------------------------------

  /** A buffer of records as events of a run. */
  function Records(p_buf: seq<Byte>, size: nat): seq<Event>
    requires size > 0
    decreases |p_buf|
  {
    if |p_buf| < size then [] else [Write(p_buf[..size])] + Records(p_buf[size..], size)
  }

  /** WriteCore is a run of its records. */
  lemma {:induction false} WriteAllIsRun(s: State, p_buf: seq<Byte>, size: nat)
    requires s.q.Shape() && size + FILE_HEAD == s.q.fsize + BUFF_HEAD
    ensures Run(s, Records(p_buf, size)) == State(WriteAll(s.q, p_buf), s.r)
    decreases |p_buf|
  {
    if |p_buf| < size {
      assert Records(p_buf, size) == [];
    } else {
      var es, b := Records(p_buf, size), p_buf[..size];
      assert es[0] == Write(b) && es[1..] == Records(p_buf[size..], size);
      WriteAllIsRun(Step(s, Write(b)), p_buf[size..], size);
    }
  }

  lemma {:induction false} BatchFirst(q: Machine, q1: Machine, n: nat)
    requires q.Shape() && q1.Shape() && n > 0 && q1.ring == q.ring && q1.smr == q.smr + 1
    ensures Batch(q, n) == Due(q, 0) + Batch(q1, n - 1)
    decreases n
  {
    if n == 1 {
      assert Batch(q, 0) == [] && Batch(q1, 0) == [];
    } else {
      BatchFirst(q, q1, n - 1);
      assert Due(q, n - 1) == Due(q1, n - 2);
      MoveOver(Due(q, 0), Batch(q1, n - 2), Due(q1, n - 2));
    }
  }

  /** A round of the manager is that many syncs. */
  lemma {:induction false} MovedIsSyncs(q: Machine, r: nat, n: nat)
    requires q.Shape() && NoFeed(q, n) && q.smr + n <= q.w
    ensures Run(State(q, r), Repeat(Sync, n)) == State(Moved(q, n), r)
    decreases n
  {
    var es := Repeat(Sync, n);
    if n == 0 {
    } else {
      var q1 := q.Sync();
      assert Due(q, 0)[0] != LF;
      BatchFirst(q, q1, n);
      MoveOver(q.file, Due(q, 0), Batch(q1, n - 1));
      forall i | 0 <= i < n - 1
        ensures Due(q1, i)[0] != LF
      {
        assert Due(q1, i) == Due(q, i + 1);
      }
      assert es[1..] == Repeat(Sync, n - 1);
      MovedIsSyncs(q1, r, n - 1);
    }
  }

  lemma {:induction false} DueIsLog(h: History, i: nat)
    requires Intact(h) && h.q.w - h.q.smr <= |h.q.ring| && h.q.smr + i < h.q.w
    ensures Due(h.q, i) == h.log[h.q.smr + i] && Due(h.q, i)[0] == BRACKET_L
  {
    FirstStampDecides(h.q.ring, h.held, h.log, h.q.fsize, |h.q.ring|, h.base, h.q.smr + i);
  }

  lemma {:induction false} BatchSlice(q: Machine, log: seq<seq<Byte>>, n: nat)
    requires q.Shape() && q.smr + n <= |log|
    requires forall i: nat :: i < n ==> Due(q, i) == log[q.smr + i]
    ensures Batch(q, n) == Flatten(log[q.smr..q.smr + n])
    decreases n
  {
    if n == 0 {
      assert log[q.smr..q.smr] == [];
    } else {
      BatchSlice(q, log, n - 1);
      SliceGrows(log, q.smr, n - 1);
    }
  }

  /** What a manager that is not lapped copies is the log, so what it leaves in the
      file when it dies in the middle is a part of the log. */
  lemma {:induction false} BatchIsLog(h: History, n: nat)
    requires Intact(h) && h.q.w - h.q.smr <= |h.q.ring| && h.q.smr + n <= h.q.w
    ensures NoFeed(h.q, n)
    ensures Batch(h.q, n) == Flatten(h.log[h.q.smr..h.q.smr + n]) <= Flatten(h.log[h.q.smr..])
  {
    AllDue(h, n);
    DueBatch(h.q, h.log, n);
  }

  lemma {:induction false} DueBatch(q: Machine, log: seq<seq<Byte>>, n: nat)
    requires q.Shape() && q.smr + n <= |log|
    requires forall i: nat :: i < n ==> Due(q, i) == log[q.smr + i] && Due(q, i)[0] != LF
    ensures NoFeed(q, n) && Batch(q, n) == Flatten(log[q.smr..q.smr + n]) <= Flatten(log[q.smr..])
  {
    BatchSlice(q, log, n);
    FrontSlice(log, q.smr, n);
  }

  lemma {:induction false} AllDue(h: History, n: nat)
    requires Intact(h) && h.q.w - h.q.smr <= |h.q.ring| && h.q.smr + n <= h.q.w
    ensures forall i: nat :: i < n ==> Due(h.q, i) == h.log[h.q.smr + i] && Due(h.q, i)[0] != LF
  {
    forall i: nat | i < n
      ensures Due(h.q, i) == h.log[h.q.smr + i] && Due(h.q, i)[0] != LF
    {
      DueIsLog(h, i);
    }
  }

  lemma {:induction false} SliceGrows(log: seq<seq<Byte>>, smr: nat, n: nat)
    requires smr + n < |log|
    ensures Flatten(log[smr..smr + n + 1]) == Flatten(log[smr..smr + n]) + log[smr + n]
  {
    AppendCell(log[smr..], n);
    assert log[smr..][..n + 1] == log[smr..smr + n + 1] && log[smr..][..n] == log[smr..smr + n];
  }

  lemma {:induction false} FrontSlice(log: seq<seq<Byte>>, smr: nat, n: nat)
    requires smr + n <= |log|
    ensures Flatten(log[smr..smr + n]) <= Flatten(log[smr..])
  {
    assert log[smr..] == log[smr..smr + n] + log[smr + n..];
    FlattenAppend(log[smr..smr + n], log[smr + n..]);
  }

  // ---- The manager lapped ------------------------------------------------

  /** A reader whose next record is the last one of the file, and no longer in the
      ring. */
  lemma {:induction false} LastOfFile(q: Machine, r: nat, front: seq<Byte>, cell: seq<Byte>)
    requires q.Shape() && |front| == r * q.fsize && |cell| == q.fsize && q.file == front + cell
    requires r < q.w && Stamp(q.Cell(r)) != r + 1
    ensures q.Count(r, 1) == 1 && q.Out(r, 1) == Strip(cell) && q.Next(r, 1) == r + 1
  {
    assert Window(q.file, r * q.fsize, q.fsize) == cell;
    assert q.Ask(r, 1) == 1 && q.FileBytes(r, 1) == cell;
    NextMultiple(1, q.fsize);
    FileSide(q, r, 1, cell);
    assert cell[..q.fsize] == cell && cell[q.fsize..] == [];
    assert StripBytes([], q.fsize) == [];
  }

  /** Once the manager has been lapped by one record and moves on, a reader at its
      place is handed another record for the one it waits for, and passes it. */
  lemma {:induction false} LappedManagerMisleads(h: History)
    requires Intact(h) && h.q.w - h.q.smr > |h.q.ring| && h.q.Cell(h.q.smr)[0] != LF
    ensures var q, r := h.q.Sync(), h.q.smr;
      q.Count(r, 1) == 1 && q.Next(r, 1) == r + 1 && q.Out(r, 1) != Handed(h.log, r, 1)
  {
    var r, cell := h.q.smr, h.q.Cell(h.q.smr);
    FirstStampDecides(h.q.ring, h.held, h.log, h.q.fsize, |h.q.ring|, h.base, r);
    FlattenLength(h.log[..r], h.q.fsize);
    LastOfFile(h.q.Sync(), r, h.q.file, cell);
    HandedOne(h.log, r);
    StripStamp(cell);
    StripStamp(h.log[r]);
  }

  // ---- Restarts ----------------------------------------------------------

  /** The file is a whole prefix of the log. */
  ghost predicate WholePrefix(file: seq<Byte>, log: seq<seq<Byte>>) {
    exists k: nat :: k <= |log| && file == Flatten(log[..k])
  }

  /** What a run may be asked for: the cursor did not go back, what was handed out
      is the log between its old and its new place, and the file is the log. */
  ghost predicate Served(r: nat, out: seq<Byte>, s': State, log': seq<seq<Byte>>) {
    && Strippable(log') && r <= s'.r && WholePrefix(s'.q.file, log')
    && (r < s'.r || out != [] ==> s'.r <= |log'| && out == Handed(log', r, s'.r - r))
  }

  ghost predicate AlwaysServed(s: State, log: seq<seq<Byte>>, base: nat)
    requires s.q.Shape()
  {
    forall es :: Covered(s, base, es) ==> Served(s.r, Outputs(s, es), Run(s, es), LogAfter(log, s, es))
  }

  lemma {:induction false} PrefixSize(file: seq<Byte>, log: seq<seq<Byte>>, fsize: nat)
    requires WholePrefix(file, log) && AllSized(log, fsize) && fsize > 0
    ensures |file| % fsize == 0 && |file| <= |log| * fsize
  {
    var k: nat :| k <= |log| && file == Flatten(log[..k]);
    FlattenLength(log[..k], fsize);
    NextMultiple(k, fsize);
    Beyond(k, |log|, fsize);
  }

  /** The first bytes of a log, as many as whole records have. */
  lemma {:induction false} FrontOf(log: seq<seq<Byte>>, fsize: nat, file: seq<Byte>, f: nat)
    requires AllSized(log, fsize) && fsize > 0 && file <= Flatten(log) && f == |file| / fsize
    ensures f <= |log| && (|file| % fsize == 0 ==> file == Flatten(log[..f]))
  {
    FlattenLength(log, fsize);
    Quotient(|file|, |log|, fsize);
    FrontRecords(log, fsize, f);
    if |file| % fsize == 0 {
      Exact(|file|, fsize);
      TwoPrefixes(file, Flatten(log[..f]), Flatten(log));
    }
  }

  lemma {:induction false} Exact(n: nat, fsize: nat)
    requires fsize > 0 && n % fsize == 0
    ensures n == (n / fsize) * fsize
  {
    Euclid(n, fsize);
  }

  lemma {:induction false} Quotient(n: nat, k: nat, fsize: nat)
    requires fsize > 0 && n <= k * fsize
    ensures n / fsize <= k
  {
    var f := n / fsize;
    Euclid(n, fsize);
    if f > k {
      Beyond(k + 1, f, fsize);
      Distribute(k, fsize);
    }
  }

  lemma {:induction false} FrontRecords(log: seq<seq<Byte>>, fsize: nat, f: nat)
    requires AllSized(log, fsize) && f <= |log|
    ensures |Flatten(log[..f])| == f * fsize && Flatten(log[..f]) <= Flatten(log)
  {
    FlattenLength(log[..f], fsize);
    assert log == log[..f] + log[f..];
    FlattenAppend(log[..f], log[f..]);
  }

  lemma TwoPrefixes(a: seq<Byte>, b: seq<Byte>, s: seq<Byte>)
    requires a <= s && b <= s && |a| == |b|
    ensures a == b
  {
  }

  lemma {:induction false} FileAndTail(h: History, part: seq<Byte>)
    requires Intact(h) && part <= Flatten(h.log[h.q.smr..])
    ensures h.q.file + part <= Flatten(h.log)
  {
    var smr := h.q.smr;
    assert h.log == h.log[..smr] + h.log[smr..];
    FlattenAppend(h.log[..smr], h.log[smr..]);
  }

  // Four ways to start badly, each with a run that shows it.

  lemma {:induction false} ReaderBeyondFile(s: State, log: seq<seq<Byte>>)
    requires s.q.Shape() && s.q.w < s.r
    ensures Covered(s, s.q.w, [Read(1)])
    ensures s.q.Count(s.r, 1) == s.q.w - s.r < 0 && Run(s, [Read(1)]).r == s.q.w
    ensures !Served(s.r, Outputs(s, [Read(1)]), Run(s, [Read(1)]), LogAfter(log, s, [Read(1)]))
  {
    var es := [Read(1)];
    assert es[1..] == [];
  }

  lemma {:induction false} PartOfARecord(s: State, log: seq<seq<Byte>>)
    requires s.q.Shape() && AllSized(log, s.q.fsize) && |s.q.file| % s.q.fsize != 0
    ensures Covered(s, s.q.w, []) && !Served(s.r, Outputs(s, []), Run(s, []), LogAfter(log, s, []))
  {
    if WholePrefix(s.q.file, log) { PrefixSize(s.q.file, log, s.q.fsize); }
  }

  /** The manager behind its own file appends a blank. */
  lemma {:induction false} ManagerBehind(s: State, log: seq<seq<Byte>>)
    requires s.q.Shape() && AllSized(log, s.q.fsize) && |log| == s.q.w && |s.q.file| == s.q.w * s.q.fsize
    requires s.q.smr < s.q.w && s.q.Cell(s.q.smr) == Blank(s.q.fsize)
    ensures Covered(s, s.q.w, [Sync])
    ensures Run(s, [Sync]).q == s.q.(file := s.q.file + Blank(s.q.fsize), smr := s.q.smr + 1)
    ensures !Served(s.r, Outputs(s, [Sync]), Run(s, [Sync]), LogAfter(log, s, [Sync]))
  {
    var es := [Sync];
    assert es[1..] == [];
    var file := s.q.file + Blank(s.q.fsize);
    if WholePrefix(file, log) { PrefixSize(file, log, s.q.fsize); }
  }

  // A run of n writes.

  lemma {:induction false} RunAppend(s: State, log: seq<seq<Byte>>, base: nat, es: seq<Event>, e: Event)
    requires s.q.Shape() && forall x :: x in es ==> x.Write?
    requires Covered(s, base, es) && Fair(Run(s, es), base, e)
    ensures Covered(s, base, es + [e]) && Run(s, es + [e]) == Step(Run(s, es), e)
    ensures LogAfter(log, s, es + [e]) == LogStep(LogAfter(log, s, es), Run(s, es), e)
    decreases |es|
  {
    var all := es + [e];
    if es == [] {
      assert all[1..] == [];
    } else {
      assert all[1..] == es[1..] + [e];
      RunAppend(Step(s, es[0]), LogStep(log, s, es[0]), base, es[1..], e);
    }
  }

  function Writes(b: seq<Byte>, n: nat): (es: seq<Event>)
    ensures |es| == n && forall x :: x in es ==> x == Write(b)
  {
    if n == 0 then [] else Writes(b, n - 1) + [Write(b)]
  }

  /** After n writes: the counts, the newest record in its slot, and the log. */
  ghost predicate Grown(s: State, t: State, log: seq<seq<Byte>>, log': seq<seq<Byte>>, b: seq<Byte>, n: nat) {
    && t.q.Shape() && t.q == s.q.(ring := t.q.ring, w := s.q.w + n) && t.r == s.r && |t.q.ring| == |s.q.ring|
    && (n > 0 && |b| >= BUFF_HEAD ==> t.q.Cell(s.q.w + n - 1) == Encode(b, s.q.w + n))
    && log <= log' && |log'| == |log| + n
    && forall k :: |log| <= k < |log'| && |b| >= BUFF_HEAD ==> log'[k] == Encode(b, k + 1)
  }

  lemma {:induction false} GrowsOn(s: State, t: State, log: seq<seq<Byte>>, log': seq<seq<Byte>>, b: seq<Byte>, n: nat)
    requires s.q.Fits(b) && s.q.Shape() && |log| == s.q.w && Grown(s, t, log, log', b, n)
    ensures Grown(s, Step(t, Write(b)), log, LogStep(log', t, Write(b)), b, n + 1)
  {
  }

  lemma {:induction false} AfterWrites(s: State, log: seq<seq<Byte>>, base: nat, b: seq<Byte>, n: nat)
    requires s.q.Shape() && s.q.Fits(b) && s.q.w + n < LIMIT && |log| == s.q.w
    ensures Covered(s, base, Writes(b, n))
    ensures Grown(s, Run(s, Writes(b, n)), log, LogAfter(log, s, Writes(b, n)), b, n)
    decreases n
  {
    if n == 0 {
      assert Writes(b, 0) == [];
    } else {
      var es := Writes(b, n - 1);
      AfterWrites(s, log, base, b, n - 1);
      RunAppend(s, log, base, es, Write(b));
      GrowsOn(s, Run(s, es), log, LogAfter(log, s, es), b, n - 1);
    }
  }

  function AnyRecord(q: Machine): (b: seq<Byte>)
    requires q.Shape()
    ensures q.Fits(b)
  {
    Repeat(SPACE, q.fsize - FILE_HEAD + BUFF_HEAD)
  }

  lemma {:induction false} PrefixAt(file: seq<Byte>, log: seq<seq<Byte>>, fsize: nat, n: nat)
    requires WholePrefix(file, log) && AllSized(log, fsize) && fsize > 0 && |file| == n * fsize
    ensures n <= |log| && file == Flatten(log[..n])
  {
    var k: nat :| k <= |log| && file == Flatten(log[..k]);
    FlattenLength(log[..k], fsize);
    NextMultiple(k, fsize);
    NextMultiple(n, fsize);
  }

  lemma {:induction false} WholeGrows(log: seq<seq<Byte>>, fsize: nat, cell: seq<Byte>)
    requires AllSized(log, fsize) && |cell| == fsize
    ensures |Flatten(log) + cell| == (|log| + 1) * fsize
  {
    FlattenLength(log, fsize);
    Distribute(|log|, fsize);
  }

  /** Another record at the place of record |log|. */
  lemma {:induction false} WrongRecord(log: seq<seq<Byte>>, log': seq<seq<Byte>>, fsize: nat, cell: seq<Byte>)
    requires AllSized(log', fsize) && fsize > FILE_HEAD && log <= log' && |log'| > |log|
    requires |cell| == fsize && cell != log'[|log|]
    ensures !WholePrefix(Flatten(log) + cell, log')
  {
    var f := |log|;
    if WholePrefix(Flatten(log) + cell, log') {
      assert log == log'[..f];
      WholeGrows(log, fsize, cell);
      PrefixAt(Flatten(log) + cell, log', fsize, f + 1);
      AppendCell(log', f);
      SameTail(Flatten(log), cell, log'[f]);
    }
  }

  lemma {:induction false} GrownSized(s: State, t: State, log: seq<seq<Byte>>, log': seq<seq<Byte>>,
                                      b: seq<Byte>, n: nat)
    requires Grown(s, t, log, log', b, n) && AllSized(log, s.q.fsize) && s.q.Fits(b)
    ensures AllSized(log', s.q.fsize)
  {
    forall k | 0 <= k < |log'|
      ensures |log'[k]| == s.q.fsize
    {
      if k < |log| { assert log'[k] == log[k]; }
    }
  }

  function Overtaking(s: State): (es: seq<Event>)
    requires s.q.Shape() && s.q.smr >= s.q.w
  {
    Writes(AnyRecord(s.q), s.q.smr - s.q.w + 1) + [Sync]
  }

  /** When the writer has passed the manager by one record, the manager appends that
      one, behind records it never saw. */
  lemma {:induction false} LeftOut(s: State, t: State, log: seq<seq<Byte>>, log': seq<seq<Byte>>, b: seq<Byte>, n: nat)
    requires s.q.Shape() && s.q.Fits(b) && AllSized(log, s.q.fsize) && |log| == s.q.w && s.q.file == Flatten(log)
    requires s.q.smr > s.q.w && s.q.smr + 1 < LIMIT && n == s.q.smr - s.q.w + 1 && Grown(s, t, log, log', b, n)
    ensures Fair(t, s.q.w, Sync) && LogStep(log', t, Sync) == log'
    ensures !WholePrefix(Step(t, Sync).q.file, log')
  {
    var cell := Encode(b, s.q.smr + 1);
    assert t.q.Cell(t.q.smr) == cell;
    StampEncode(b, s.q.smr + 1);
    StampEncode(b, |log| + 1);
    assert t.q.Sync().file == Flatten(log) + cell;
    GrownSized(s, t, log, log', b, n);
    WrongRecord(log, log', s.q.fsize, cell);
  }

  /** The manager ahead of its own file leaves records out. */
  lemma {:induction false} ManagerAhead(s: State, log: seq<seq<Byte>>, es: seq<Event>)
    requires s.q.Shape() && AllSized(log, s.q.fsize) && |log| == s.q.w && s.q.file == Flatten(log)
    requires s.q.smr > s.q.w && s.q.smr + 1 < LIMIT && es == Overtaking(s)
    ensures Covered(s, s.q.w, es) && !Served(s.r, Outputs(s, es), Run(s, es), LogAfter(log, s, es))
  {
    var b, n := AnyRecord(s.q), s.q.smr - s.q.w + 1;
    var ws := Writes(b, n);
    AfterWrites(s, log, s.q.w, b, n);
    LeftOut(s, Run(s, ws), log, LogAfter(log, s, ws), b, n);
    RunAppend(s, log, s.q.w, ws, Sync);
  }

  /** The exact condition of a restart. The segment is created anew over the file as
      the last process left it: the records the manager had counted and `part`, what
      it had appended uncounted when it died, with the manager's count s and the
      reader's cursor r restored. Every run from there serves the reader rightly and
      keeps the file a whole prefix of the log if and only if the cursor is not
      beyond the file, the file holds whole records, and s is their number. */
  lemma {:induction false} RestartIsSafe(h: History, part: seq<Byte>, file: seq<Byte>, f: nat, s: nat, r: nat)
    requires Intact(h) && part <= Flatten(h.log[h.q.smr..]) && s + 1 < LIMIT
    requires file == h.q.file + part && f == |file| / h.q.fsize
    ensures f <= |h.log|
    ensures AlwaysServed(State(h.q.(file := file).Restart(s), r), h.log[..f], f)
            <==> r <= f && |file| % h.q.fsize == 0 && s == f
  {
    FileAndTail(h, part);
    FrontOf(h.log, h.q.fsize, file, f);
    if r <= f && |file| % h.q.fsize == 0 && s == f {
      StartsWell(h, file, f, r);
    } else {
      StartsBadly(State(h.q.(file := file).Restart(s), r), h.log[..f]);
    }
  }

  lemma {:induction false} StartsWell(h: History, file: seq<Byte>, f: nat, r: nat)
    requires Intact(h) && r <= f <= |h.log| && file == Flatten(h.log[..f])
    ensures AlwaysServed(State(h.q.(file := file).Restart(f), r), h.log[..f], f)
  {
    var h1 := Restarted(h.(q := h.q.(file := file)), f);
    RestartKeeps(h.(q := h.q.(file := file)), f);
    var t := State(h1.q, r);
    forall es | Covered(t, f, es)
      ensures Served(r, Outputs(t, es), Run(t, es), LogAfter(h1.log, t, es))
    {
      GapFree(h1, r, es);
      RightIsServed(h1.log, r, Outputs(t, es), Run(t, es), LogAfter(h1.log, t, es));
    }
  }

  lemma {:induction false} RightIsServed(log: seq<seq<Byte>>, r: nat, out: seq<Byte>, s': State, log': seq<seq<Byte>>)
    requires Right(log, r, out, s', log')
    ensures Served(r, out, s', log')
  {
    assert s'.q.file == Flatten(log'[..s'.q.smr]);
  }

  lemma {:induction false} StartsBadly(t: State, log: seq<seq<Byte>>)
    requires t.q.Shape() && AllSized(log, t.q.fsize) && |log| == t.q.w == |t.q.file| / t.q.fsize
    requires t.q.ring == Repeat(Blank(t.q.fsize), |t.q.ring|) && t.q.smr + 1 < LIMIT
    requires |t.q.file| % t.q.fsize == 0 ==> t.q.file == Flatten(log)
    requires !(t.r <= t.q.w && |t.q.file| % t.q.fsize == 0 && t.q.smr == t.q.w)
    ensures !AlwaysServed(t, log, t.q.w)
  {
    Euclid(|t.q.file|, t.q.fsize);
    if t.r > t.q.w {
      ReaderBeyondFile(t, log);
    } else if |t.q.file| % t.q.fsize != 0 {
      PartOfARecord(t, log);
    } else if t.q.smr < t.q.w {
      ManagerBehind(t, log);
    } else {
      ManagerAhead(t, log, Overtaking(t));
    }
  }

  lemma {:induction false} OtherStamp(log: seq<seq<Byte>>, r: nat, b: seq<Byte>, fsize: nat)
    requires r < |log| && r + 1 < LIMIT && |b| >= BUFF_HEAD && fsize >= FILE_HEAD
    requires log[r] == Encode(b, r + 1)
    ensures Strip(Blank(fsize)) != Strip(log[r])
  {
    StampEncode(b, r + 1);
    BlankStamp(fsize);
    StripStamp(Blank(fsize));
    StripStamp(log[r]);
  }

  lemma {:induction false} BlankForRecord(t: State, t': State, log: seq<seq<Byte>>, log': seq<seq<Byte>>,
                                          b: seq<Byte>, n: nat)
    requires t.q.Shape() && t.q.Fits(b) && AllSized(log, t.q.fsize) && |log| == t.q.w == t.r
    requires t.q.file == Flatten(log) + Blank(t.q.fsize)
    requires n == |t.q.ring| + 1 && t.q.w + n < LIMIT && Grown(t, t', log, log', b, n)
    ensures t'.r == t.r < |log'| && Strippable(log')
    ensures t'.q.Count(t.r, 1) == 1 && t'.q.Next(t.r, 1) == t.r + 1
    ensures t'.q.Out(t.r, 1) == Strip(Blank(t.q.fsize)) != Handed(log', t.r, 1)
  {
    FlattenLength(log, t.q.fsize);
    GrownSized(t, t', log, log', b, n);
    assert t'.q.Cell(t.r) == Encode(b, t.r + n) by { NextLap(t.r, |t.q.ring|); }
    StampEncode(b, t.r + n);
    LastOfFile(t'.q, t.r, Flatten(log), Blank(t.q.fsize));
    HandedOne(log', t.r);
    OtherStamp(log', t.r, b, t.q.fsize);
  }

  /** A reader's end of it: the manager's count is restored one or more below the
      file's records. It appends a blank; when the writer has gone a lap further, a
      reader at the end of the old file is handed that blank for its next record,
      and its cursor passes it. */
  lemma {:induction false} BlankIsHandedOut(t: State, log: seq<seq<Byte>>, t1: State, b: seq<Byte>, n: nat)
    requires t.q.Shape() && AllSized(log, t.q.fsize) && |log| == t.q.w && t.q.file == Flatten(log)
    requires t.q.ring == Repeat(Blank(t.q.fsize), |t.q.ring|) && t.q.smr < t.q.w == t.r
    requires t1 == Step(t, Sync) && t.q.Fits(b) && n == |t.q.ring| + 1 && t.q.w + n < LIMIT
    ensures var t' := Run(t1, Writes(b, n)); var log' := LogAfter(log, t1, Writes(b, n));
      && t'.r == t.r < |log'| && Strippable(log')
      && t'.q.Count(t.r, 1) == 1 && t'.q.Next(t.r, 1) == t.r + 1
      && t'.q.Out(t.r, 1) == Strip(Blank(t.q.fsize)) != Handed(log', t.r, 1)
  {
    assert t.q.Cell(t.q.smr) == Blank(t.q.fsize);
    AfterWrites(t1, log, t.q.w, b, n);
    BlankForRecord(t1, Run(t1, Writes(b, n)), log, LogAfter(log, t1, Writes(b, n)), b, n);
  }
}

/** Cursor persistence over whole runs with a monotone clock: the saved cursors
    never run ahead of the live ones, a skipped save means a recent one, and a
    flush brings every cached file up to date. */
module SeqSaveRuns {
  import opened Bytes
  import opened CursorText
  import opened Throttle
  import opened SeqSave

  /** File names fit FILE_INFO.file_name and hold no colon; positions are small. */
  ghost predicate GoodName(name: seq<Byte>) { |name| <= 19 && COLON !in name }

  predicate GoodPlace(p: Place) { p.dk < 1_0000_0000 && p.fk < 1_0000_0000 }

  datatype Op =
    | Advance(place: Place, i: nat, n: nat)    // a reader consumes n records
    | DoSave(name: seq<Byte>, place: Place, now: int, stuck: set<Path>)
    | DoFlush(now: int, stuck: set<Path>)

  ghost predicate GoodOp(op: Op) {
    match op
    case Advance(_, i, _) => i < NCURSOR
    case DoSave(name, place, _, _) => GoodName(name) && GoodPlace(place)
    case DoFlush(_, _) => true
  }

  function Step(s: State, interval: nat, op: Op): State {
    match op
    case Advance(place, i, n) =>
      if i < NCURSOR then s.(live := s.live[place := s.Live(place)[i := s.Live(place)[i] + n]]) else s
    case DoSave(name, place, now, stuck) => Save(s, interval, name, place, now, stuck).0
    case DoFlush(now, stuck) => FlushFrom(s, 0, now, stuck)
  }

  function Run(s: State, interval: nat, ops: seq<Op>): State
    decreases |ops|
  {
    if ops == [] then s else Run(Step(s, interval, ops[0]), interval, ops[1..])
  }

  // ---- Throttle keys -----------------------------------------------------

  function FirstColon(s: seq<Byte>): nat {
    if s == [] || s[0] == COLON then 0 else 1 + FirstColon(s[1..])
  }

  lemma {:induction false} FirstColonAt(a: seq<Byte>, x: seq<Byte>)
    requires COLON !in a
    ensures FirstColon(a + [COLON] + x) == |a|
    decreases |a|
  {
    if a == [] {
    } else {
      FirstColonAt(a[1..], x);
      assert (a + [COLON] + x)[1..] == a[1..] + [COLON] + x;
    }
  }

  lemma {:induction false} ColonSplits(a: seq<Byte>, x: seq<Byte>, b: seq<Byte>, y: seq<Byte>)
    requires COLON !in a && COLON !in b && a + [COLON] + x == b + [COLON] + y
    ensures a == b && x == y
  {
    FirstColonAt(a, x);
    FirstColonAt(b, y);
    var s, t := a + [COLON] + x, b + [COLON] + y;
    assert a == s[..|a|] && b == t[..|b|];
    assert x == s[|a| + 1..] && y == t[|b| + 1..];
  }

  lemma {:induction false} DecimalInjective(m: nat, n: nat)
    ensures Decimal(m, 1) == Decimal(n, 1) ==> m == n
  {
    DecimalValue(m, 1);
    DecimalValue(n, 1);
  }

  lemma {:induction false} DecimalNoColon(n: nat)
    ensures COLON !in Decimal(n, 1)
  {
    assert forall i :: 0 <= i < |Decimal(n, 1)| ==> IsDigit(Decimal(n, 1)[i]);
  }

  /** Different files have different throttle keys. */
  lemma {:induction false} KeyInjective(n1: seq<Byte>, p1: Place, n2: seq<Byte>, p2: Place)
    requires GoodName(n1) && GoodName(n2) && ThrottleKey(n1, p1) == ThrottleKey(n2, p2)
    ensures n1 == n2 && p1 == p2
  {
    var d1, f1, d2, f2 := Decimal(p1.dk, 1), Decimal(p1.fk, 1), Decimal(p2.dk, 1), Decimal(p2.fk, 1);
    KeyShape(n1, p1);
    KeyShape(n2, p2);
    ColonSplits(n1, d1 + [COLON] + f1, n2, d2 + [COLON] + f2);
    DecimalNoColon(p1.dk);
    DecimalNoColon(p2.dk);
    ColonSplits(d1, f1, d2, f2);
    DecimalInjective(p1.dk, p2.dk);
    DecimalInjective(p1.fk, p2.fk);
  }

  lemma {:induction false} KeyShape(n: seq<Byte>, p: Place)
    requires |n| <= 19
    ensures ThrottleKey(n, p) == n + [COLON] + (Decimal(p.dk, 1) + [COLON] + Decimal(p.fk, 1))
  {
    assert n[..Min(|n|, 64)] == n;
    var d, f := Decimal(p.dk, 1), Decimal(p.fk, 1);
    assert n + [COLON] + d + [COLON] + f == n + [COLON] + (d + [COLON] + f);
  }

  lemma {:induction false} DecimalShort(n: nat, k: nat)
    requires n < Pow10(k) && k >= 1
    ensures |Decimal(n, 1)| <= k
    decreases k
  {
    if n < 10 {
    } else {
      assert k > 1;
      DecimalShort(n / 10, k - 1);
      DecimalDrop(n / 10);
    }
  }

  lemma {:induction false} DecimalDrop(n: nat)
    requires n >= 1
    ensures Decimal(n, 0) == Decimal(n, 1)
    decreases n
  {
  }

  /** A key of this kind is stored whole. */
  lemma {:induction false} KeyStored(n: seq<Byte>, p: Place)
    requires GoodName(n) && GoodPlace(p)
    ensures Stored(ThrottleKey(n, p)) == ThrottleKey(n, p)
  {
    Pow10Eight();
    DecimalShort(p.dk, 8);
    DecimalShort(p.fk, 8);
    KeyShape(n, p);
  }

  // ---- Invariants --------------------------------------------------------

  ghost predicate Below(file: seq<Byte>, c: Cursors) {
    forall i :: 0 <= i < NCURSOR ==> Cursor(file, i) <= c[i]
  }

  /** The file shows every cursor of at most 8 digits as it is, and any other as
      less. */
  ghost predicate Shows(file: seq<Byte>, c: Cursors) {
    forall i :: 0 <= i < NCURSOR ==> Cursor(file, i) <= c[i] && (Cursor(file, i) == c[i] <==> c[i] < 1_0000_0000)
  }

  ghost predicate AtMost(c: Cursors, d: Cursors) {
    forall i :: 0 <= i < NCURSOR ==> c[i] <= d[i]
  }

  /** Every file this process has written shows the snapshot it took, and live
      cursors have only grown since. */
  ghost predicate Persisted(s: State) {
    forall p :: p in s.snap ==> p in s.disk && Shows(s.disk[p], s.snap[p].1) && AtMost(s.snap[p].1, s.Live(s.snap[p].0))
  }

  ghost predicate Backed(s: State, slot: Slot) {
    exists n, pl ::
      GoodName(n) && slot.key == ThrottleKey(n, pl) && SeqFile(n) in s.time && slot.last <= s.time[SeqFile(n)]
  }

  /** Behind every throttle entry stands a save of its file at that time or later. */
  ghost predicate AllBacked(s: State) {
    forall j :: 0 <= j < |s.table| ==> Backed(s, s.table[j])
  }

  ghost predicate Timed(s: State, clock: int) {
    forall p :: p in s.time ==> s.time[p] <= clock && p in s.snap
  }

  ghost predicate Cached(s: State) {
    && |s.cache| <= FD_MAX
    && (forall i :: 0 <= i < |s.cache| ==> s.cache[i].path in s.disk)
    && (forall i, j :: 0 <= i < j < |s.cache| ==> s.cache[i].path != s.cache[j].path)
  }

  ghost predicate Inv(s: State, clock: int) { Persisted(s) && Timed(s, clock) && Cached(s) }

  lemma {:induction false} WriteShows(file: seq<Byte>, c: Cursors)
    ensures Shows(Overwrite(file, 0, SaveText(c)), c)
  {
    var f := Overwrite(file, 0, SaveText(c));
    forall i | 0 <= i < NCURSOR
      ensures Cursor(f, i) <= c[i] && (Cursor(f, i) == c[i] <==> c[i] < 1_0000_0000)
    {
      SavedReadsBack(file, c, i);
      SavedAtMost(file, c, i);
    }
  }

  lemma {:induction false} WriteKeeps(s: State, st: Stream, clock: int, now: int)
    requires Inv(s, clock) && clock <= now
    ensures Inv(WriteSlot(s, st, now), now)
  {
    var t := WriteSlot(s, st, now);
    assert Persisted(t) by {
      WriteShows(if st.path in s.disk then s.disk[st.path] else [], s.Live(st.place));
      forall p | p in t.snap
        ensures p in t.disk && Shows(t.disk[p], t.snap[p].1) && AtMost(t.snap[p].1, t.Live(t.snap[p].0))
      {
        if p != st.path { assert p in s.snap && t.Live(t.snap[p].0) == s.Live(s.snap[p].0); }
      }
    }
    assert Cached(t);
    assert Timed(t, now);
  }

  /** Saves come later and later, so what was behind an entry stays behind it. */
  lemma {:induction false} StillBacked(s: State, s': State)
    requires AllBacked(s) && s'.table == s.table
    requires forall p :: p in s.time ==> p in s'.time && s.time[p] <= s'.time[p]
    ensures AllBacked(s')
  {
    forall j | 0 <= j < |s'.table|
      ensures Backed(s', s'.table[j])
    {
      assert Backed(s, s.table[j]);
      var n, pl :|
        GoodName(n) && s.table[j].key == ThrottleKey(n, pl) && SeqFile(n) in s.time
        && s.table[j].last <= s.time[SeqFile(n)];
      assert SeqFile(n) in s'.time && s.table[j].last <= s'.time[SeqFile(n)];
    }
  }

  lemma {:induction false} LookupFinds(cache: seq<Stream>, path: Path, from: nat, i: nat)
    requires from <= i < |cache| && cache[i].path == path
    ensures from <= Lookup(cache, path, from) <= i
    decreases i - from
  {
    if cache[from].path == path {
    } else {
      LookupFinds(cache, path, from + 1, i);
    }
  }

  /** Opening a stream changes nothing but the cache. */
  lemma {:induction false} OpenKeeps(s: State, path: Path, place: Place, clock: int)
    requires Inv(s, clock) && Opened(s, path, place).Some?
    ensures var cache := Opened(s, path, place).value;
      && Inv(s.(cache := cache), clock)
      && 0 <= Lookup(cache, path, 0) < |cache| && cache[Lookup(cache, path, 0)].path == path
  {
    if Lookup(s.cache, path, 0) < 0 {
      LookupLast(s.cache, Stream(path, place), 0);
    }
  }

  lemma {:induction false} SaveKeeps(s: State, interval: nat, name: seq<Byte>, place: Place, clock: int, now: int,
                                     stuck: set<Path>)
    requires Inv(s, clock) && clock <= now
    ensures Inv(Save(s, interval, name, place, now, stuck).0, now)
  {
    var path, key := SeqFile(name), ThrottleKey(name, place);
    if Opened(s, path, place).Some? {
      var cache := Opened(s, path, place).value;
      OpenKeeps(s, path, place, clock);
      var s1 := s.(cache := cache, table := After(s.table, interval, key, now));
      assert Inv(s1, clock);
      if !Skips(s.table, interval, key, now) && path !in stuck {
        WriteKeeps(s1, cache[Lookup(cache, path, 0)], clock, now);
      }
    }
  }

  /** A save that goes through backs the throttle entry it leaves. */
  lemma {:induction false} SaveBacked(s: State, interval: nat, name: seq<Byte>, place: Place, clock: int, now: int,
                                      stuck: set<Path>)
    requires Inv(s, clock) && AllBacked(s) && clock <= now && GoodName(name) && GoodPlace(place)
    requires SeqFile(name) !in stuck
    ensures AllBacked(Save(s, interval, name, place, now, stuck).0)
  {
    var path, key := SeqFile(name), ThrottleKey(name, place);
    var s' := Save(s, interval, name, place, now, stuck).0;
    if Opened(s, path, place).Some? {
      var cache := Opened(s, path, place).value;
      OpenKeeps(s, path, place, clock);
      if Skips(s.table, interval, key, now) {
        StillBacked(s, s');
      } else {
        var st := cache[Lookup(cache, path, 0)];
        var s1 := WriteSlot(s.(cache := cache), st, now);
        StillBacked(s, s1);
        TableBacked(s1, interval, name, place, now);
        assert s' == s1.(table := After(s.table, interval, key, now));
      }
    }
  }

  lemma {:induction false} TableBacked(s: State, interval: nat, name: seq<Byte>, place: Place, now: int)
    requires AllBacked(s) && GoodName(name) && GoodPlace(place)
    requires SeqFile(name) in s.time && s.time[SeqFile(name)] == now
    ensures AllBacked(s.(table := After(s.table, interval, ThrottleKey(name, place), now)))
  {
    var key := ThrottleKey(name, place);
    var s' := s.(table := After(s.table, interval, key, now));
    KeyStored(name, place);
    forall j | 0 <= j < |s'.table|
      ensures Backed(s', s'.table[j])
    {
      if j < |s.table| && s'.table[j] == s.table[j] {
        assert Backed(s, s.table[j]);
      } else {
        assert s'.table[j].key == key && s'.table[j].last == now;
      }
    }
  }

  lemma {:induction false} FlushKeeps(s: State, i: nat, clock: int, now: int, stuck: set<Path>)
    requires Inv(s, clock) && clock <= now && i <= |s.cache|
    ensures Inv(FlushFrom(s, i, now, stuck), now)
    ensures AllBacked(s) ==> AllBacked(FlushFrom(s, i, now, stuck))
    decreases |s.cache| - i
  {
    if i == |s.cache| {
    } else {
      var s1 := Flushed(s, s.cache[i], now, stuck);
      if s1 != s { WriteKeeps(s, s.cache[i], clock, now); }
      if AllBacked(s) { StillBacked(s, s1); }
      FlushKeeps(s1, i + 1, now, now, stuck);
    }
  }

  lemma {:induction false} AdvanceKeeps(s: State, interval: nat, place: Place, i: nat, n: nat, clock: int)
    requires Inv(s, clock) && i < NCURSOR
    ensures Inv(Step(s, interval, Advance(place, i, n)), clock)
  {
  }

  // ---- The theorems ------------------------------------------------------

  function TimeOf(op: Op, clock: int): int { if op.Advance? then clock else op.now }

  /** A run the properties are about: a monotone clock, proper names and places. */
  ghost predicate Fair(s: State, interval: nat, ops: seq<Op>, clock: int)
    decreases |ops|
  {
    ops == [] ||
    (var op := ops[0];
     && GoodOp(op) && clock <= TimeOf(op, clock)
     && Fair(Step(s, interval, op), interval, ops[1..], TimeOf(op, clock)))
  }

  /** No Seq_Save of the run is refused the lock of its file. */
  predicate AlwaysLocked(ops: seq<Op>) {
    forall op :: op in ops && op.DoSave? ==> SeqFile(op.name) !in op.stuck
  }

  function EndTime(ops: seq<Op>, clock: int): int
    decreases |ops|
  {
    if ops == [] then clock else EndTime(ops[1..], TimeOf(ops[0], clock))
  }

  lemma {:induction false} StepKeeps(s: State, interval: nat, op: Op, clock: int)
    requires Inv(s, clock) && Fair(s, interval, [op], clock)
    ensures Inv(Step(s, interval, op), TimeOf(op, clock))
    ensures AllBacked(s) && AlwaysLocked([op]) ==> AllBacked(Step(s, interval, op))
  {
    assert op in [op];
    match op {
      case Advance(place, i, n) =>
        AdvanceKeeps(s, interval, place, i, n, clock);
        if AllBacked(s) { StillBacked(s, Step(s, interval, op)); }
      case DoSave(name, place, now, stuck) =>
        SaveKeeps(s, interval, name, place, clock, now, stuck);
        if AllBacked(s) && AlwaysLocked([op]) { SaveBacked(s, interval, name, place, clock, now, stuck); }
      case DoFlush(now, stuck) => FlushKeeps(s, 0, clock, now, stuck);
    }
  }

  lemma {:induction false} RunKeeps(s: State, interval: nat, ops: seq<Op>, clock: int)
    requires Inv(s, clock) && Fair(s, interval, ops, clock)
    ensures Inv(Run(s, interval, ops), EndTime(ops, clock))
    ensures AllBacked(s) && AlwaysLocked(ops) ==> AllBacked(Run(s, interval, ops))
    decreases |ops|
  {
    if ops == [] {
    } else {
      assert AlwaysLocked(ops) ==> AlwaysLocked([ops[0]]) && AlwaysLocked(ops[1..]);
      StepKeeps(s, interval, ops[0], clock);
      RunKeeps(Step(s, interval, ops[0]), interval, ops[1..], TimeOf(ops[0], clock));
    }
  }

  /** A process that has just started: nothing cached, nothing saved yet. */
  ghost predicate Started(s: State) {
    s.cache == [] && s.table == [] && s.snap == map[] && s.time == map[]
  }

  /** In every run the persisted cursors never exceed the live ones. */
  lemma {:induction false} NeverAhead(s: State, interval: nat, ops: seq<Op>, clock: int, p: Path)
    requires Started(s) && Fair(s, interval, ops, clock)
    ensures var t := Run(s, interval, ops);
      p in t.snap ==> p in t.disk && Below(t.disk[p], t.Live(t.snap[p].0))
  {
    RunKeeps(s, interval, ops, clock);
  }

  /** A Seq_Save that the throttle skips at time `now` follows a save of the same
      file less than the interval ago, whose snapshot the file still shows. */
  lemma {:induction false} SkipFollowsSave(s: State, interval: nat, ops: seq<Op>, clock: int,
                                           name: seq<Byte>, place: Place, now: int)
    requires Started(s) && Fair(s, interval, ops, clock) && AlwaysLocked(ops) && EndTime(ops, clock) <= now
    requires GoodName(name) && GoodPlace(place)
    requires Skips(Run(s, interval, ops).table, interval, ThrottleKey(name, place), now)
    ensures var t := Run(s, interval, ops); var f := SeqFile(name);
      && f in t.time && now - interval < t.time[f] <= now
      && f in t.snap && f in t.disk && Shows(t.disk[f], t.snap[f].1)
  {
    RunKeeps(s, interval, ops, clock);
    var t := Run(s, interval, ops);
    var j := Find(t.table, ThrottleKey(name, place), 0);
    assert Backed(t, t.table[j]);
    var n, pl :|
      GoodName(n) && t.table[j].key == ThrottleKey(n, pl) && SeqFile(n) in t.time
      && t.table[j].last <= t.time[SeqFile(n)];
    KeyInjective(n, pl, name, place);
  }

  lemma {:induction false} FindUpdated(table: seq<Slot>, key: seq<Byte>, from: nat, i: nat, now: int)
    requires from <= i < |table| && Find(table, key, from) == i
    ensures Find(table[i := table[i].(last := now)], key, from) == i
    decreases i - from
  {
    if from == i {
    } else {
      FindUpdated(table, key, from + 1, i, now);
    }
  }

  lemma {:induction false} FindAppended(table: seq<Slot>, key: seq<Byte>, from: nat, now: int)
    requires from <= |table| && Find(table, key, from) == -1
    ensures Find(table + [Slot(key, now)], key, from) == |table|
    decreases |table| - from
  {
    if from == |table| {
    } else {
      FindAppended(table, key, from + 1, now);
    }
  }

  /** An attempt that the throttle lets through is noted under its key, if the table
      has the key or room for it. */
  lemma {:induction false} AttemptNoted(table: seq<Slot>, interval: nat, key: seq<Byte>, now: int)
    requires interval > 0 && !Skips(table, interval, key, now) && Stored(key) == key
    ensures var t, i := After(table, interval, key, now), Find(After(table, interval, key, now), key, 0);
      if Find(table, key, 0) >= 0 || |table| < SLOT_MAX then i >= 0 && t[i].last == now else t == table && i == -1
  {
    var i := Find(table, key, 0);
    if i >= 0 {
      FindUpdated(table, key, 0, i, now);
    } else if |table| < SLOT_MAX {
      FindAppended(table, key, 0, now);
    }
  }

  /** What the throttle does with the next Seq_Save within the interval after one it
      has let through: it skips it exactly when the key is or fits in the table. */
  lemma {:induction false} NextSkips(table: seq<Slot>, interval: nat, key: seq<Byte>, t0: int, t1: int)
    requires t0 <= t1 < t0 + interval && !Skips(table, interval, key, t0) && Stored(key) == key
    ensures Skips(After(table, interval, key, t0), interval, key, t1)
            <==> Find(table, key, 0) >= 0 || |table| < SLOT_MAX
  {
    AttemptNoted(table, interval, key, t0);
  }

  /** The throttle notes the time before the file is locked. So after any run, when
      a save is let through at t0 and the next one, within the interval, is skipped,
      that skip has a save of the file less than the interval behind it exactly when
      the first was given the lock, or some earlier save or flush was that recent.
      A refused lock is reported, and the file stays as it was. */
  lemma {:induction false} RefusedLockMutes(s: State, interval: nat, name: seq<Byte>, place: Place, clock: int,
                                            t0: int, t1: int, stuck: set<Path>, stuck1: set<Path>)
    requires Inv(s, clock) && clock <= t0 <= t1 < t0 + interval && GoodName(name) && GoodPlace(place)
    requires Opened(s, SeqFile(name), place).Some? && !Skips(s.table, interval, ThrottleKey(name, place), t0)
    requires Find(s.table, ThrottleKey(name, place), 0) >= 0 || |s.table| < SLOT_MAX
    ensures var r, f := Save(s, interval, name, place, t0, stuck), SeqFile(name);
      && r.1 == (if f in stuck then NOTOK else OK)
      && Save(r.0, interval, name, place, t1, stuck1) == (r.0, OK)
      && (f in r.0.time && t1 - interval < r.0.time[f]
          <==> f !in stuck || (f in s.time && t1 - interval < s.time[f]))
      && (f in stuck ==> r.0.disk == s.disk && r.0.time == s.time)
  {
    var key, path := ThrottleKey(name, place), SeqFile(name);
    var r := Save(s, interval, name, place, t0, stuck);
    KeyStored(name, place);
    OpenKeeps(s, path, place, clock);
    AttemptNoted(s.table, interval, key, t0);
    NextSkips(s.table, interval, key, t0, t1);
    assert r.0.table == After(s.table, interval, key, t0);
    assert r.0.cache == Opened(s, path, place).value;
    assert After(r.0.table, interval, key, t1) == r.0.table;
  }

  lemma {:induction false} FlushedOne(s: State, i: nat, now: int, stuck: set<Path>)
    requires Cached(s) && i < |s.cache|
    ensures var st := s.cache[i]; var t := Flushed(s, st, now, stuck);
      && t == s.(disk := t.disk, snap := t.snap, time := t.time) && Cached(t)
      && t.disk.Keys == s.disk.Keys
      && (forall p :: p in s.disk && p != st.path ==> t.disk[p] == s.disk[p])
      && (st.path.SeqFile? && st.path !in stuck ==> Shows(t.disk[st.path], s.Live(st.place)))
  {
    WriteShows(s.disk[s.cache[i].path], s.Live(s.cache[i].place));
  }

  /** What a flush from position i on leaves alone. */
  lemma {:induction false} FlushFrame(s: State, i: nat, now: int, stuck: set<Path>)
    requires Cached(s) && i <= |s.cache|
    ensures var t := FlushFrom(s, i, now, stuck);
      && t.cache == s.cache && t.live == s.live && t.disk.Keys == s.disk.Keys
      && forall p :: p in s.disk && (forall j :: i <= j < |s.cache| ==> s.cache[j].path != p) ==> t.disk[p] == s.disk[p]
    decreases |s.cache| - i
  {
    if i == |s.cache| {
    } else {
      FlushedOne(s, i, now, stuck);
      FlushFrame(Flushed(s, s.cache[i], now, stuck), i + 1, now, stuck);
    }
  }

  lemma {:induction false} FlushShows(s: State, i: nat, now: int, stuck: set<Path>, j: nat)
    requires Cached(s) && i <= j < |s.cache|
    requires s.cache[j].path.SeqFile? && s.cache[j].path !in stuck
    ensures s.cache[j].path in FlushFrom(s, i, now, stuck).disk
    ensures Shows(FlushFrom(s, i, now, stuck).disk[s.cache[j].path], s.Live(s.cache[j].place))
    decreases |s.cache| - i
  {
    var s1, p := Flushed(s, s.cache[i], now, stuck), s.cache[j].path;
    FlushedOne(s, i, now, stuck);
    assert s1.cache == s.cache && FlushFrom(s, i, now, stuck) == FlushFrom(s1, i + 1, now, stuck);
    if i == j {
      assert Shows(s1.disk[p], s.Live(s.cache[j].place));
      FlushFrame(s1, i + 1, now, stuck);
      assert FlushFrom(s1, i + 1, now, stuck).disk[p] == s1.disk[p];
    } else {
      FlushShows(s1, i + 1, now, stuck, j);
    }
  }

  /** A flush makes every cached _seq file that can be locked show the live cursors
      and leaves the cache and them alone. */
  lemma {:induction false} FlushCatchesUp(s: State, now: int, stuck: set<Path>)
    requires Cached(s)
    ensures var t := FlushFrom(s, 0, now, stuck);
      && t.cache == s.cache && t.live == s.live
      && forall j :: 0 <= j < |s.cache| && s.cache[j].path.SeqFile? && s.cache[j].path !in stuck ==>
                       s.cache[j].path in t.disk && Shows(t.disk[s.cache[j].path], s.Live(s.cache[j].place))
  {
    FlushFrame(s, 0, now, stuck);
    forall j | 0 <= j < |s.cache| && s.cache[j].path.SeqFile? && s.cache[j].path !in stuck
      ensures s.cache[j].path in FlushFrom(s, 0, now, stuck).disk
      ensures Shows(FlushFrom(s, 0, now, stuck).disk[s.cache[j].path], s.Live(s.cache[j].place))
    {
      FlushShows(s, 0, now, stuck, j);
    }
  }

  /** So at the end of any run a flush leaves nothing behind. */
  lemma {:induction false} FlushIsComplete(s: State, interval: nat, ops: seq<Op>, clock: int, now: int,
                                           stuck: set<Path>)
    requires Started(s) && Fair(s, interval, ops, clock)
    ensures var t := FlushFrom(Run(s, interval, ops), 0, now, stuck);
      forall j :: 0 <= j < |t.cache| && t.cache[j].path.SeqFile? && t.cache[j].path !in stuck ==>
                    t.cache[j].path in t.disk && Shows(t.disk[t.cache[j].path], t.Live(t.cache[j].place))
  {
    RunKeeps(s, interval, ops, clock);
    FlushCatchesUp(Run(s, interval, ops), now, stuck);
  }

  // ---- Whose cursors a file holds ----------------------------------------

  /** The caller's files and places: `name` is cached, and has been written, with
      `place` only. */
  ghost predicate Placed(s: State, name: seq<Byte>, place: Place) {
    && (forall i :: 0 <= i < |s.cache| && s.cache[i].path == SeqFile(name) ==> s.cache[i].place == place)
    && (SeqFile(name) in s.snap ==> s.snap[SeqFile(name)].0 == place)
  }

  /** Every save of `name` in the run is for `place`. */
  predicate SamePlace(ops: seq<Op>, name: seq<Byte>, place: Place) {
    forall op :: op in ops && op.DoSave? && op.name == name ==> op.place == place
  }

  /** What Seq_Save returns, for every state: -1 when the file has no stream yet and
      does not exist or eight streams are open, and when an attempt that is not
      skipped is refused the lock. */
  lemma {:induction false} SaveResult(s: State, interval: nat, name: seq<Byte>, place: Place, now: int,
                                      stuck: set<Path>)
    ensures var f := SeqFile(name); var rt := Save(s, interval, name, place, now, stuck).1;
      && (rt == 0 || rt == -1)
      && (rt == -1 <==>
            || ((forall i :: 0 <= i < |s.cache| ==> s.cache[i].path != f) && (f !in s.disk || |s.cache| >= 8))
            || (!Skips(s.table, interval, ThrottleKey(name, place), now) && f in stuck))
  {
    var f := SeqFile(name);
    if i :| 0 <= i < |s.cache| && s.cache[i].path == f {
      LookupFinds(s.cache, f, 0, i);
    }
  }

  /** A save that is neither skipped nor refused puts the cursors of the caller's
      place into the file, if earlier saves of the name were for that place. */
  lemma {:induction false} SaveShowsPlace(s: State, interval: nat, name: seq<Byte>, place: Place, now: int,
                                          stuck: set<Path>)
    requires Placed(s, name, place) && SeqFile(name) !in stuck && Opened(s, SeqFile(name), place).Some?
    requires !Skips(s.table, interval, ThrottleKey(name, place), now)
    ensures var t := Save(s, interval, name, place, now, stuck).0; var f := SeqFile(name);
      && f in t.disk && Shows(t.disk[f], if place in s.live then s.live[place] else Repeat(0, 9))
      && t.live == s.live && Placed(t, name, place)
      && forall p :: p in s.disk && p != f ==> p in t.disk && t.disk[p] == s.disk[p]
  {
    var f := SeqFile(name);
    var cache := Opened(s, f, place).value;
    assert Lookup(cache, f, 0) >= 0 && cache[Lookup(cache, f, 0)] == Stream(f, place) by {
      if Lookup(s.cache, f, 0) < 0 { LookupLast(s.cache, Stream(f, place), 0); }
    }
    assert s.Live(place) == if place in s.live then s.live[place] else Repeat(0, 9);
    WriteShows(if f in s.disk then s.disk[f] else [], s.Live(place));
    SavePlaced(s, interval, name, place, now, stuck, name, place);
  }

  /** A name that was first saved for one place keeps it: a later save of the same
      name for another one writes the cursors of the first. */
  lemma {:induction false} FirstPlaceStays(s: State, interval: nat, name: seq<Byte>, first: Place, place: Place,
                                           now: int, stuck: set<Path>)
    requires Placed(s, name, first) && SeqFile(name) !in stuck && Lookup(s.cache, SeqFile(name), 0) >= 0
    requires !Skips(s.table, interval, ThrottleKey(name, place), now)
    ensures var t := Save(s, interval, name, place, now, stuck).0; var f := SeqFile(name);
      f in t.disk && Shows(t.disk[f], s.Live(first)) && Placed(t, name, first)
  {
    var f := SeqFile(name);
    WriteShows(if f in s.disk then s.disk[f] else [], s.Live(first));
  }

  lemma {:induction false} WritePlaced(s: State, st: Stream, now: int, name: seq<Byte>, place: Place)
    requires Placed(s, name, place) && (st.path == SeqFile(name) ==> st.place == place)
    ensures Placed(WriteSlot(s, st, now), name, place)
  {
    var t, f := WriteSlot(s, st, now), SeqFile(name);
    assert t.cache == s.cache && t.snap == s.snap[st.path := (st.place, s.Live(st.place))];
    if f in t.snap { assert t.snap[f].0 == place; }
  }

  /** Opening a file caches it last, with the caller's place. */
  lemma {:induction false} OpenPlaced(s: State, table: seq<Slot>, name': seq<Byte>, place': Place, name: seq<Byte>,
                                      place: Place)
    requires Placed(s, name, place) && (name' == name ==> place' == place) && Opened(s, SeqFile(name'), place').Some?
    ensures var cache, f := Opened(s, SeqFile(name'), place').value, SeqFile(name');
      && Placed(s.(cache := cache, table := table), name, place)
      && Lookup(cache, f, 0) >= 0
  {
    if Lookup(s.cache, SeqFile(name'), 0) < 0 { LookupLast(s.cache, Stream(SeqFile(name'), place'), 0); }
  }

  lemma {:induction false} SavePlaced(s: State, interval: nat, name': seq<Byte>, place': Place, now: int,
                                      stuck: set<Path>, name: seq<Byte>, place: Place)
    requires Placed(s, name, place) && (name' == name ==> place' == place)
    ensures Placed(Save(s, interval, name', place', now, stuck).0, name, place)
  {
    var f := SeqFile(name');
    if Opened(s, f, place').Some? {
      var cache, table := Opened(s, f, place').value, After(s.table, interval, ThrottleKey(name', place'), now);
      OpenPlaced(s, table, name', place', name, place);
      WritePlaced(s.(cache := cache, table := table), cache[Lookup(cache, f, 0)], now, name, place);
    }
  }

  lemma {:induction false} FlushPlaced(s: State, i: nat, now: int, stuck: set<Path>, name: seq<Byte>, place: Place)
    requires Placed(s, name, place) && i <= |s.cache|
    ensures Placed(FlushFrom(s, i, now, stuck), name, place)
    decreases |s.cache| - i
  {
    if i == |s.cache| {
    } else {
      FlushPlaced(Flushed(s, s.cache[i], now, stuck), i + 1, now, stuck, name, place);
    }
  }

  lemma {:induction false} RunPlaced(s: State, interval: nat, ops: seq<Op>, name: seq<Byte>, place: Place)
    requires Placed(s, name, place) && SamePlace(ops, name, place)
    ensures Placed(Run(s, interval, ops), name, place)
    decreases |ops|
  {
    if ops == [] {
    } else {
      var op := ops[0];
      assert op in ops && forall x :: x in ops[1..] ==> x in ops;
      match op {
        case Advance(_, _, _) =>
        case DoSave(n, pl, now, stuck) => SavePlaced(s, interval, n, pl, now, stuck, name, place);
        case DoFlush(now, stuck) => FlushPlaced(s, 0, now, stuck, name, place);
      }
      RunPlaced(Step(s, interval, op), interval, ops[1..], name, place);
    }
  }

  /** After any run that has saved `name` for `place` only, its file is never ahead of
      the live cursors of that place, and the next save that goes through makes it
      show them. */
  lemma {:induction false} FileIsOfPlace(s: State, interval: nat, ops: seq<Op>, clock: int, name: seq<Byte>,
                                         place: Place, now: int, stuck: set<Path>)
    requires Started(s) && Fair(s, interval, ops, clock) && SamePlace(ops, name, place)
    ensures var t, f := Run(s, interval, ops), SeqFile(name);
      f in t.snap ==> f in t.disk && Below(t.disk[f], t.Live(place))
    ensures var t, f := Run(s, interval, ops), SeqFile(name);
      f !in stuck && Opened(t, f, place).Some? && !Skips(t.table, interval, ThrottleKey(name, place), now) ==>
        var u := Save(t, interval, name, place, now, stuck).0; f in u.disk && Shows(u.disk[f], t.Live(place))
  {
    var t, f := Run(s, interval, ops), SeqFile(name);
    RunKeeps(s, interval, ops, clock);
    RunPlaced(s, interval, ops, name, place);
    if f !in stuck && Opened(t, f, place).Some? && !Skips(t.table, interval, ThrottleKey(name, place), now) {
      SaveShowsPlace(t, interval, name, place, now, stuck);
    }
  }

  /** And a flush makes it show them, if it was ever opened. */
  lemma {:induction false} FlushShowsPlace(s: State, interval: nat, ops: seq<Op>, clock: int, name: seq<Byte>,
                                           place: Place, now: int, stuck: set<Path>, j: nat)
    requires Started(s) && Fair(s, interval, ops, clock) && SamePlace(ops, name, place) && SeqFile(name) !in stuck
    requires j < |Run(s, interval, ops).cache| && Run(s, interval, ops).cache[j].path == SeqFile(name)
    ensures var t := Run(s, interval, ops); var u, f := FlushFrom(t, 0, now, stuck), SeqFile(name);
      f in u.disk && Shows(u.disk[f], t.Live(place)) && u.live == t.live
  {
    var t := Run(s, interval, ops);
    RunKeeps(s, interval, ops, clock);
    RunPlaced(s, interval, ops, name, place);
    FlushShows(t, 0, now, stuck, j);
    FlushFrame(t, 0, now, stuck);
  }
}

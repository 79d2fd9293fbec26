/** The text form of the nine read cursors (st01/sub/seq_save.c): "%08d" for each,
    printed one behind the other into one buffer, and read back eight characters
    at a time with AtoIf. */
module CursorText {
  import opened Bytes

  const NCURSOR: nat := 9

  /** sprintf to &buf[8*i] for i = 0..8: each text overwrites what the previous
      one left beyond its eight places; only the last can run over. */
  function SaveText(c: seq<nat>): (t: seq<Byte>)
    ensures |c| > 0 ==> |t| >= 8 * |c|
  {
    if c == [] then []
    else
      DecimalWidth(c[0], 8);
      if |c| == 1 then Decimal(c[0], 8) else Decimal(c[0], 8)[..8] + SaveText(c[1..])
  }

  /** fseek and fwrite: a hole before `at` reads as NULs. */
  function Overwrite(file: seq<Byte>, at: nat, text: seq<Byte>): (f: seq<Byte>)
    ensures |f| >= at + |text| && f[at..at + |text|] == text
  {
    var head := if |file| >= at then file[..at] else file + Repeat(NUL, at - |file|);
    head + text + (if |file| >= at + |text| then file[at + |text|..] else [])
  }

  /** AtoIf(&seq_buf[8*i], 8); places beyond the end of the file read as 0. */
  function Cursor(file: seq<Byte>, i: nat): int {
    if |file| < 8 * i + 8 then 0 else AtoI(file[8 * i..8 * i + 8])
  }

  lemma {:induction false} TextCursor(c: seq<nat>, i: nat)
    requires i < |c|
    ensures SaveText(c)[8 * i..8 * i + 8] == DecimalHead(c[i])
    decreases |c|
  {
    if i == 0 {
    } else {
      TextCursor(c[1..], i - 1);
      var t := SaveText(c);
      assert t == DecimalHead(c[0]) + SaveText(c[1..]);
      Shifted(DecimalHead(c[0]), SaveText(c[1..]), i - 1);
    }
  }

  lemma {:induction false} Shifted(a: seq<Byte>, b: seq<Byte>, i: nat)
    requires |a| == 8 && 8 * i + 8 <= |b|
    ensures (a + b)[8 * (i + 1)..8 * (i + 1) + 8] == b[8 * i..8 * i + 8]
  {
  }

  function DecimalHead(n: nat): (t: seq<Byte>)
    ensures |t| == 8
  {
    DecimalWidth(n, 8);
    Decimal(n, 8)[..8]
  }

  /** A saved cursor reads back as itself exactly while it has 8 digits. */
  lemma {:induction false} SavedReadsBack(file: seq<Byte>, c: seq<nat>, i: nat)
    requires i < |c|
    ensures Cursor(Overwrite(file, 0, SaveText(c)), i) == c[i] <==> c[i] < 1_0000_0000
  {
    var t := SaveText(c);
    var f := Overwrite(file, 0, t);
    TextCursor(c, i);
    SeqTextReadsBack(c[i]);
    assert f[8 * i..8 * i + 8] == f[0..|t|][8 * i..8 * i + 8];
  }

  /** With more digits it reads back as less. */
  lemma {:induction false} SavedAtMost(file: seq<Byte>, c: seq<nat>, i: nat)
    requires i < |c|
    ensures Cursor(Overwrite(file, 0, SaveText(c)), i) <= c[i]
  {
    var t, d := SaveText(c), Decimal(c[i], 8);
    var f := Overwrite(file, 0, t);
    TextCursor(c, i);
    assert f[8 * i..8 * i + 8] == f[0..|t|][8 * i..8 * i + 8];
    DecimalWidth(c[i], 8);
    DecimalValue(c[i], 8);
    FrontValue(d, 8);
  }

  /** Where the cursors stand in the file: cursor i in the eight bytes from 8 * i, as
      "%08d". */
  lemma {:induction false} SavedTextAt(file: seq<Byte>, c: seq<nat>, i: nat)
    requires i < |c|
    ensures var f := Overwrite(file, 0, SaveText(c));
      && |f| >= 8 * i + 8 && |Decimal(c[i], 8)| >= 8
      && f[8 * i..8 * i + 8] == Decimal(c[i], 8)[..8]
  {
    var t := SaveText(c);
    var f := Overwrite(file, 0, t);
    TextCursor(c, i);
    DecimalWidth(c[i], 8);
    assert f[8 * i..8 * i + 8] == f[0..|t|][8 * i..8 * i + 8];
  }

  lemma {:induction false} OverwriteElsewhere(file: seq<Byte>, at: nat, text: seq<Byte>, x: nat)
    requires x + 8 <= at || at + |text| <= x
    ensures |file| >= x + 8 ==> Overwrite(file, at, text)[x..x + 8] == file[x..x + 8]
    ensures |file| <= x && x + 8 <= at ==> Overwrite(file, at, text)[x..x + 8] == Repeat(NUL, 8)
    ensures |file| < x + 8 && at + |text| <= x ==> |Overwrite(file, at, text)| < x + 8
  {
    if x + 8 <= at {
      OverwriteBefore(file, at, text, x);
    } else if |file| >= x + 8 {
      OverwriteBehind(file, at, text, x);
    }
  }

  lemma {:induction false} OverwriteBefore(file: seq<Byte>, at: nat, text: seq<Byte>, x: nat)
    requires x + 8 <= at
    ensures |file| >= x + 8 ==> Overwrite(file, at, text)[x..x + 8] == file[x..x + 8]
    ensures |file| <= x ==> Overwrite(file, at, text)[x..x + 8] == Repeat(NUL, 8)
  {
    var head := if |file| >= at then file[..at] else file + Repeat(NUL, at - |file|);
    assert Overwrite(file, at, text)[..at] == head;
    assert Overwrite(file, at, text)[x..x + 8] == head[x..x + 8];
  }

  lemma {:induction false} OverwriteBehind(file: seq<Byte>, at: nat, text: seq<Byte>, x: nat)
    requires at + |text| <= x && |file| >= x + 8
    ensures Overwrite(file, at, text)[x..x + 8] == file[x..x + 8]
  {
    var end := at + |text|;
    var f := Overwrite(file, at, text);
    assert f[end..] == file[end..];
    assert f[x..x + 8] == f[end..][x - end..x - end + 8];
    assert file[x..x + 8] == file[end..][x - end..x - end + 8];
  }

  /** Dshm_Seq_Save writes one of them in place, in a file of whole cursors: that
      one reads back, and the others are untouched, while it has 8 digits. */
  lemma {:induction false} OneSavedReadsBack(file: seq<Byte>, ck: nat, n: nat, i: nat)
    requires n < 1_0000_0000 && |file| % 8 == 0
    ensures Cursor(Overwrite(file, 8 * ck, Decimal(n, 8)), i) == if i == ck then n else Cursor(file, i)
  {
    SeqTextReadsBack(n);
    DecimalWidth(n, 8);
    Pow10Eight();
    assert |Decimal(n, 8)| == 8 && Decimal(n, 8)[..8] == Decimal(n, 8);
    if i != ck { OthersReadBack(file, ck, Decimal(n, 8), i); }
  }

  lemma {:induction false} OthersReadBack(file: seq<Byte>, ck: nat, text: seq<Byte>, i: nat)
    requires |text| == 8 && |file| % 8 == 0 && i != ck
    ensures Cursor(Overwrite(file, 8 * ck, text), i) == Cursor(file, i)
  {
    OverwriteElsewhere(file, 8 * ck, text, 8 * i);
    NoDigits(8);
  }
}

/** The save throttle (st01/sub/seq_throttle.c): a table of at most eight keys with
    the time of the last save of each. */
module Throttle {
  import opened Bytes

  const SLOT_MAX: nat := 8
  const KEY_LEN: nat := 64

  datatype Slot = Slot(key: seq<Byte>, last: int)

  /** strncpy into a 64-byte field that always ends in a NUL. */
  function Stored(key: seq<Byte>): seq<Byte> { key[..Min(|key|, KEY_LEN - 1)] }

  /** The slot whose key equals `key` in its first 64 characters, or -1.  A key
      of 64 characters or more equals no stored key. */
  function Find(table: seq<Slot>, key: seq<Byte>, from: nat): (i: int)
    requires from <= |table|
    ensures i == -1 || (from <= i < |table| && table[i].key == key)
    ensures i == -1 ==> forall j :: from <= j < |table| ==> table[j].key != key
    decreases |table| - from
  {
    if from == |table| then -1 else if table[from].key == key then from else Find(table, key, from + 1)
  }

  function Skips(table: seq<Slot>, interval: nat, key: seq<Byte>, now: int): bool {
    interval != 0 && Find(table, key, 0) >= 0 && now - table[Find(table, key, 0)].last < interval
  }

  function After(table: seq<Slot>, interval: nat, key: seq<Byte>, now: int): seq<Slot> {
    var i := Find(table, key, 0);
    if interval == 0 || Skips(table, interval, key, now) then table
    else if i >= 0 then table[i := table[i].(last := now)]
    else if |table| < SLOT_MAX then table + [Slot(Stored(key), now)]
    else table
  }

  /** The check in figures: with an interval set, a save is skipped when its key is
      in the table and was last noted less than the interval ago; if it is not
      skipped the time is noted under the key, under a new entry of at most 63
      characters while there are fewer than eight; nothing else changes. */
  lemma {:induction false} CheckMeans(table: seq<Slot>, interval: nat, key: seq<Byte>, now: int, i: int)
    requires i == Find(table, key, 0)
    ensures -1 <= i < |table| && (i >= 0 ==> table[i].key == key)
    ensures forall j :: 0 <= j < (if i >= 0 then i else |table|) ==> table[j].key != key
    ensures Skips(table, interval, key, now) <==> interval > 0 && i >= 0 && now - table[i].last < interval
    ensures var t := After(table, interval, key, now);
      && (interval == 0 || Skips(table, interval, key, now) ==> t == table)
      && (interval > 0 && i >= 0 && now - table[i].last >= interval ==> t == table[i := Slot(key, now)])
      && (interval > 0 && i < 0 && |table| < 8 ==>
            t == table + [Slot(if |key| <= 63 then key else key[..63], now)])
      && (interval > 0 && i < 0 && |table| >= 8 ==> t == table)
  {
    FindFirst(table, key, 0);
    assert key[..|key|] == key;
  }

  lemma {:induction false} FindFirst(table: seq<Slot>, key: seq<Byte>, from: nat)
    requires from <= |table|
    ensures var i := Find(table, key, from);
      forall j :: from <= j < (if i >= 0 then i else |table|) ==> table[j].key != key
    decreases |table| - from
  {
    if from == |table| || table[from].key == key {
    } else {
      FindFirst(table, key, from + 1);
    }
  }

  /** Seq_Throttle_Check over the static table: whether to skip the save. */
  method Check(table: seq<Slot>, interval: nat, key: seq<Byte>, now: int) returns (skip: bool, table': seq<Slot>)
    ensures skip == Skips(table, interval, key, now) && table' == After(table, interval, key, now)
  {
    table' := table;
    if interval == 0 { return false, table'; }
    for i := 0 to |table|
      invariant Find(table, key, 0) == Find(table, key, i)
    {
      if table[i].key == key {
        if now - table[i].last < interval { return true, table'; }
        table' := table[i := table[i].(last := now)];
        return false, table';
      }
    }
    if |table| < SLOT_MAX { table' := table + [Slot(Stored(key), now)]; }
    return false, table';
  }
}

/** The saver (st01/sub/seq_save.c): cached streams, throttled saves, the flush. */
module SeqSave {
  import opened Bytes
  import opened CursorText
  import opened Throttle

  const FD_MAX: nat := 8
  const COLON: Byte := 58

  /** A cursor file: <name>_seq or <name>_dseq. */
  datatype Path = SeqFile(name: seq<Byte>) | DseqFile(name: seq<Byte>)

  /** FILEM(dk,fk): where nine live cursors are kept in shared memory. */
  datatype Place = Place(dk: nat, fk: nat)

  datatype Stream = Stream(path: Path, place: Place)

  type Cursors = c: seq<nat> | |c| == NCURSOR witness Repeat(0, NCURSOR)

  /** `snap` and `time` are not in the program: the cursors last written to each
      _seq file with the place they were read from, and when. */
  datatype State = State(
    cache: seq<Stream>, table: seq<Slot>, disk: map<Path, seq<Byte>>, live: map<Place, Cursors>,
    snap: map<Path, (Place, Cursors)>, time: map<Path, int>)
  {
    function Live(p: Place): Cursors { if p in live then live[p] else Repeat(0, NCURSOR) }
  }

  /** seq_fd_get: the cache position of a path, opened if need be; None when the
      file does not exist or the cache is full. */
  function Lookup(cache: seq<Stream>, path: Path, from: nat): (i: int)
    requires from <= |cache|
    ensures i == -1 || (from <= i < |cache| && cache[i].path == path)
    ensures i == -1 ==> forall j :: from <= j < |cache| ==> cache[j].path != path
    decreases |cache| - from
  {
    if from == |cache| then -1 else if cache[from].path == path then from else Lookup(cache, path, from + 1)
  }

  function Opened(s: State, path: Path, place: Place): Option<seq<Stream>> {
    if Lookup(s.cache, path, 0) >= 0 then Some(s.cache)
    else if path !in s.disk || |s.cache| >= FD_MAX then None
    else Some(s.cache + [Stream(path, place)])
  }

  /** seq_write_slot: a snapshot of the live cursors goes over the file. */
  function WriteSlot(s: State, st: Stream, now: int): State {
    var c := s.Live(st.place);
    var was := if st.path in s.disk then s.disk[st.path] else [];
    s.(disk := s.disk[st.path := Overwrite(was, 0, SaveText(c))],
       snap := s.snap[st.path := (st.place, c)], time := s.time[st.path := now])
  }

  /** "%.64s:%d:%d" */
  function ThrottleKey(name: seq<Byte>, place: Place): seq<Byte> {
    name[..Min(|name|, 64)] + [COLON] + Decimal(place.dk, 1) + [COLON] + Decimal(place.fk, 1)
  }

  /** Seq_Save; `stuck` are the files that cannot be locked at that moment. */
  function Save(s: State, interval: nat, name: seq<Byte>, place: Place, now: int, stuck: set<Path>): (r: (State, int)) {
    var path, key := SeqFile(name), ThrottleKey(name, place);
    match Opened(s, path, place)
    case None => (s, NOTOK)
    case Some(cache) =>
      var s1 := s.(cache := cache, table := After(s.table, interval, key, now));
      if Skips(s.table, interval, key, now) then (s1, OK)
      else if path in stuck then (s1, NOTOK)
      else (WriteSlot(s1, cache[Max(0, Lookup(cache, path, 0))], now), OK)
  }

  /** Seq_Save_Flush: every cached _seq stream from position i on. */
  function FlushFrom(s: State, i: nat, now: int, stuck: set<Path>): State
    requires i <= |s.cache|
    decreases |s.cache| - i
  {
    if i == |s.cache| then s
    else FlushFrom(Flushed(s, s.cache[i], now, stuck), i + 1, now, stuck)
  }

  function Flushed(s: State, st: Stream, now: int, stuck: set<Path>): State {
    if st.path.SeqFile? && st.path !in stuck then WriteSlot(s, st, now) else s
  }

  class Saver {
    const interval: nat
    var s: State

    constructor (interval: nat, s: State)
      ensures this.interval == interval && this.s == s
    {
      this.interval, this.s := interval, s;
    }

    /** seq_fd_get */
    method FdGet(path: Path, place: Place) returns (slot: int)
      modifies this
      ensures match Opened(old(s), path, place)
              case None => slot == -1 && s == old(s)
              case Some(cache) => s == old(s).(cache := cache) && 0 <= slot < |cache| && slot == Lookup(cache, path, 0)
    {
      for i := 0 to |s.cache|
        invariant s == old(s) && Lookup(s.cache, path, 0) == Lookup(s.cache, path, i)
      {
        if s.cache[i].path == path { return i; }
      }
      if path !in s.disk { return -1; }
      if |s.cache| >= FD_MAX { return -1; }
      LookupLast(s.cache, Stream(path, place), 0);
      s := s.(cache := s.cache + [Stream(path, place)]);
      return |s.cache| - 1;
    }

    method SeqSave(name: seq<Byte>, place: Place, now: int, stuck: set<Path>) returns (rt: int)
      modifies this
      ensures (s, rt) == Save(old(s), interval, name, place, now, stuck)
    {
      var slot := FdGet(SeqFile(name), place);
      if slot == -1 { return NOTOK; }
      var skip, table := Check(s.table, interval, ThrottleKey(name, place), now);
      s := s.(table := table);
      if skip { return OK; }
      rt := WriteSlotOf(slot, now, stuck);
    }

    /** seq_write_slot: fcntl may refuse the lock. */
    method WriteSlotOf(slot: nat, now: int, stuck: set<Path>) returns (rt: int)
      requires slot < |s.cache|
      modifies this
      ensures s == if old(s).cache[slot].path in stuck then old(s) else WriteSlot(old(s), old(s).cache[slot], now)
      ensures rt == if old(s).cache[slot].path in stuck then NOTOK else OK
    {
      if s.cache[slot].path in stuck { return NOTOK; }
      s := WriteSlot(s, s.cache[slot], now);
      return OK;
    }

    method Flush(now: int, stuck: set<Path>)
      modifies this
      ensures s == FlushFrom(old(s), 0, now, stuck)
    {
      var i := 0;
      while i < |s.cache|
        invariant 0 <= i <= |s.cache| && FlushFrom(s, i, now, stuck) == FlushFrom(old(s), 0, now, stuck)
        invariant s.cache == old(s).cache
      {
        if s.cache[i].path.SeqFile? {
          var _ := WriteSlotOf(i, now, stuck);
        }
        i := i + 1;
      }
    }
  }

  lemma {:induction false} LookupLast(cache: seq<Stream>, st: Stream, from: nat)
    requires from <= |cache| && Lookup(cache, st.path, from) == -1
    ensures Lookup(cache + [st], st.path, from) == |cache|
    decreases |cache| - from
  {
    if from == |cache| {
    } else {
      LookupLast(cache, st, from + 1);
    }
  }
}

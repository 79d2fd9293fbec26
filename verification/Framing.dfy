/** Splitting the market-data stream into packets (Sise_Select_Receive in
    st01/sub/select_recv.c): bytes accumulate in a buffer, and each call that
    receives something hands out at most one packet, up to and including the
    first FF 0D 0A. */
module Framing {
  import opened Bytes

  const CAPACITY: nat := 8192

  /** The delimiter ends at position e. */
  predicate Ends(s: seq<Byte>, e: int) {
    3 <= e <= |s| && s[e - 3] == 0xFF && s[e - 2] == 0x0D && s[e - 1] == 0x0A
  }

  /** The end of the first delimiter at or after position `from`, or 0. */
  function EndFrom(s: seq<Byte>, from: nat): (e: nat)
    ensures e > 0 ==> from <= e && Ends(s, e)
    ensures forall x :: from <= x && (e == 0 || x < e) ==> !Ends(s, x)
    decreases |s| - from
  {
    if from > |s| then 0 else if Ends(s, from) then from else EndFrom(s, from + 1)
  }

  function FirstEnd(s: seq<Byte>): nat { EndFrom(s, 0) }

  ghost predicate IsPacket(p: seq<Byte>) { p != [] && FirstEnd(p) == |p| }

  /** What one call does to the accumulated bytes when recv hands over `taken`. */
  function Rest(buf: seq<Byte>, taken: seq<Byte>): seq<Byte> {
    (buf + taken)[FirstEnd(buf + taken)..]
  }

  function Packet(buf: seq<Byte>, taken: seq<Byte>): seq<Byte> {
    (buf + taken)[..FirstEnd(buf + taken)]
  }

  /** What select and recv report to one call. `Arrived` carries the bytes waiting
      in the socket; recv takes as many as the buffer has room for. */
  datatype Event = SelectFailed | Timeout | RecvFailed | Disconnected | Arrived(bytes: seq<Byte>)

  function Taken(room: nat, ev: Event): seq<Byte> {
    if ev.Arrived? then ev.bytes[..Min(|ev.bytes|, room)] else []
  }

  class Receiver {
    const sockbuff: array<Byte>
    var sockpos: nat

    ghost predicate Valid()
      reads this
    {
      sockbuff.Length == 8192 && sockpos <= 8192
    }

    ghost function Pending(): seq<Byte>
      requires Valid()
      reads this, sockbuff
    {
      sockbuff[..sockpos]
    }

    constructor ()
      ensures Valid() && Pending() == [] && fresh(sockbuff)
    {
      sockbuff := new Byte[CAPACITY](_ => NUL);
      sockpos := 0;
    }

    /** Sise_Select_Receive: the packet length, 0 when there is no packet yet, or
        NOTOK. */
    method Receive(ev: Event, recv: array<Byte>) returns (rt: int)
      requires Valid() && recv.Length >= 8192 && recv != sockbuff
      modifies this, sockbuff, recv
      ensures Valid()
      ensures var taken := Taken(8192 - old(sockpos), ev);
        if ev.Timeout? then rt == OK && Pending() == old(Pending()) && recv[..] == old(recv[..])
        else if taken == [] then rt == NOTOK && Pending() == old(Pending()) && recv[..] == old(recv[..])
        else
          && rt == |Packet(old(Pending()), taken)|
          && Pending() == Rest(old(Pending()), taken)
          && (rt > 0 ==> recv[..rt] == Packet(old(Pending()), taken))
    {
      if ev.SelectFailed? { return NOTOK; }
      if ev.Timeout? { return OK; }
      var taken := Taken(CAPACITY - sockpos, ev);
      if |taken| <= 0 { return NOTOK; }
      Accumulate(taken);
      rt := Scan(recv);
    }

    /** The search for the delimiter, copying as it goes. */
    method Scan(recv: array<Byte>) returns (rt: nat)
      requires Valid() && recv.Length >= 8192 && recv != sockbuff
      modifies this, sockbuff, recv
      ensures Valid() && rt == FirstEnd(old(Pending())) <= recv.Length
      ensures Pending() == old(Pending())[rt..] && recv[..rt] == old(Pending())[..rt]
    {
      ghost var all := Pending();
      var ipos := 0;
      while ipos < sockpos
        invariant Valid() && Pending() == all
        invariant 0 <= ipos <= sockpos == |all|
        invariant forall j :: 0 <= j < ipos ==> recv[j] == all[j]
        invariant EndFrom(all, 0) == EndFrom(all, ipos + 1)
      {
        recv[ipos] := sockbuff[ipos];
        if ipos >= 2 && sockbuff[ipos - 2] == 0xFF && sockbuff[ipos - 1] == 0x0D && sockbuff[ipos] == 0x0A {
          assert Ends(all, ipos + 1);
          ipos := ipos + 1;
          assert recv[..ipos] == all[..ipos];
          ShiftDown(ipos);
          return ipos;
        }
        assert !Ends(all, ipos + 1);
        ipos := ipos + 1;
      }
      return 0;
    }

    /** What recv does to the buffer. */
    method Accumulate(taken: seq<Byte>)
      requires Valid() && sockpos + |taken| <= CAPACITY
      modifies this, sockbuff
      ensures Valid() && Pending() == old(Pending()) + taken
    {
      forall j | 0 <= j < |taken| {
        sockbuff[sockpos + j] := taken[j];
      }
      sockpos := sockpos + |taken|;
    }

    /** The memmove that drops the first n bytes. */
    method ShiftDown(n: nat)
      requires Valid() && n <= sockpos
      modifies this, sockbuff
      ensures Valid() && Pending() == old(Pending())[n..]
    {
      forall j | 0 <= j < sockpos - n {
        sockbuff[j] := sockbuff[n + j];
      }
      sockpos := sockpos - n;
    }
  }

  // ---- Runs --------------------------------------------------------------

  function Concat(ss: seq<seq<Byte>>): seq<Byte> {
    if ss == [] then [] else ss[0] + Concat(ss[1..])
  }

  /** The bytes left over after a run in which recv handed over `chunks`. */
  function Residue(buf: seq<Byte>, chunks: seq<seq<Byte>>): seq<Byte>
    decreases |chunks|
  {
    if chunks == [] then buf else Residue(Rest(buf, chunks[0]), chunks[1..])
  }

  /** The packets the run has returned. */
  function Packets(buf: seq<Byte>, chunks: seq<seq<Byte>>): seq<seq<Byte>>
    decreases |chunks|
  {
    if chunks == [] then []
    else
      var p := Packet(buf, chunks[0]);
      (if p == [] then [] else [p]) + Packets(Rest(buf, chunks[0]), chunks[1..])
  }

  /** The packets of a stream, defined on the stream alone. */
  function Split(s: seq<Byte>): seq<seq<Byte>>
    decreases |s|
  {
    var e := FirstEnd(s);
    if e == 0 then [] else [s[..e]] + Split(s[e..])
  }

  /** Bytes appended behind the first delimiter do not move it. */
  lemma FirstEndPrefix(s: seq<Byte>, e: nat)
    requires e == FirstEnd(s) > 0
    ensures IsPacket(s[..e])
  {
    var p := s[..e];
    assert Ends(p, e);
    forall x | 0 <= x < e
      ensures !Ends(p, x)
    {
      assert !Ends(s, x);
    }
    EndIs(p, 0, e);
  }

  lemma {:induction false} EndIs(s: seq<Byte>, from: nat, e: nat)
    requires from <= e && e > 0 && Ends(s, e) && forall x :: from <= x < e ==> !Ends(s, x)
    ensures EndFrom(s, from) == e
    decreases e - from
  {
    if from == e {
    } else {
      EndIs(s, from + 1, e);
    }
  }

  lemma PacketHeads(p: seq<Byte>, rest: seq<Byte>)
    requires IsPacket(p)
    ensures FirstEnd(p + rest) == |p| && Split(p + rest) == [p] + Split(rest)
  {
    var s := p + rest;
    assert Ends(p, |p|);
    assert Ends(s, |p|);
    forall x | 0 <= x < |p|
      ensures !Ends(s, x)
    {
      assert !Ends(p, x);
    }
    EndIs(s, 0, |p|);
    assert s[..|p|] == p && s[|p|..] == rest;
  }

  /** Conservation: however recv cuts the stream, the packets returned and the
      residue put together are the bytes received, nothing lost or repeated. */
  lemma {:induction false} NothingLost(buf: seq<Byte>, chunks: seq<seq<Byte>>)
    ensures Concat(Packets(buf, chunks)) + Residue(buf, chunks) == buf + Concat(chunks)
    decreases |chunks|
  {
    if chunks == [] {
    } else {
      var p, rest := Packet(buf, chunks[0]), Rest(buf, chunks[0]);
      var tail := Packets(rest, chunks[1..]);
      NothingLost(rest, chunks[1..]);
      ConcatFront(p, tail);
      assert p + rest == buf + chunks[0];
      Reordered(p, Concat(tail), Residue(rest, chunks[1..]), rest, Concat(chunks[1..]), buf, chunks[0]);
    }
  }

  lemma {:induction false} Reordered(p: seq<Byte>, a: seq<Byte>, r: seq<Byte>, rest: seq<Byte>, c: seq<Byte>,
                                     buf: seq<Byte>, chunk: seq<Byte>)
    requires a + r == rest + c && p + rest == buf + chunk
    ensures (p + a) + r == buf + (chunk + c)
  {
    calc {
      (p + a) + r;
      p + (a + r);
      (p + rest) + c;
      buf + (chunk + c);
    }
  }

  lemma ConcatFront(p: seq<Byte>, tail: seq<seq<Byte>>)
    ensures Concat((if p == [] then [] else [p]) + tail) == p + Concat(tail)
  {
    if p == [] {
      assert [] + tail == tail;
    } else {
      assert ([p] + tail)[1..] == tail;
    }
  }

  lemma {:induction false} AllPackets(buf: seq<Byte>, chunks: seq<seq<Byte>>)
    ensures forall p :: p in Packets(buf, chunks) ==> IsPacket(p)
    decreases |chunks|
  {
    if chunks == [] {
    } else {
      var s := buf + chunks[0];
      AllPackets(Rest(buf, chunks[0]), chunks[1..]);
      if FirstEnd(s) > 0 { FirstEndPrefix(s, FirstEnd(s)); }
    }
  }

  /** A stream splits into packets in one way only. */
  lemma {:induction false} SplitUnique(ps: seq<seq<Byte>>, rest: seq<Byte>)
    requires forall p :: p in ps ==> IsPacket(p)
    ensures Split(Concat(ps) + rest) == ps + Split(rest)
    decreases |ps|
  {
    if ps == [] {
      assert Concat(ps) + rest == rest && ps + Split(rest) == Split(rest);
    } else {
      SplitUnique(ps[1..], rest);
      PacketHeads(ps[0], Concat(ps[1..]) + rest);
      assert Concat(ps) + rest == ps[0] + (Concat(ps[1..]) + rest);
      assert ps == [ps[0]] + ps[1..];
    }
  }

  /** The framing theorem: the packets returned are the first ones of the stream's
      own split, for every way recv cuts the stream, and the rest of the split is
      that of the residue. */
  lemma {:induction false} OutputIsTheSplit(buf: seq<Byte>, chunks: seq<seq<Byte>>)
    ensures Split(buf + Concat(chunks)) == Packets(buf, chunks) + Split(Residue(buf, chunks))
  {
    NothingLost(buf, chunks);
    AllPackets(buf, chunks);
    SplitUnique(Packets(buf, chunks), Residue(buf, chunks));
  }

  /** So two runs over the same bytes, cut differently, agree as far as both go. */
  lemma {:induction false} CutsDoNotMatter(a: seq<seq<Byte>>, b: seq<seq<Byte>>)
    requires Concat(a) == Concat(b)
    ensures Packets([], a) <= Packets([], b) || Packets([], b) <= Packets([], a)
  {
    OutputIsTheSplit([], a);
    OutputIsTheSplit([], b);
    var pa, pb, s := Packets([], a), Packets([], b), Split([] + Concat(a));
    assert pa == s[..|pa|] && pb == s[..|pb|];
  }

  /** One packet at most per call: a run catches up with the stream exactly when
      its residue holds no complete packet. */
  lemma {:induction false} CaughtUp(chunks: seq<seq<Byte>>)
    ensures Packets([], chunks) == Split(Concat(chunks)) <==> FirstEnd(Residue([], chunks)) == 0
    ensures |Packets([], chunks)| <= |chunks|
  {
    OutputIsTheSplit([], chunks);
    assert [] + Concat(chunks) == Concat(chunks);
    PacketCount([], chunks);
    var r := Split(Residue([], chunks));
    assert r == [] <==> FirstEnd(Residue([], chunks)) == 0;
    assert |Packets([], chunks) + r| == |Packets([], chunks)| + |r|;
  }

  lemma {:induction false} PacketCount(buf: seq<Byte>, chunks: seq<seq<Byte>>)
    ensures |Packets(buf, chunks)| <= |chunks|
    decreases |chunks|
  {
    if chunks == [] {
    } else {
      PacketCount(Rest(buf, chunks[0]), chunks[1..]);
    }
  }

  // ---- What arrives ------------------------------------------------------

  /** recv takes what waits in the socket, from the front, as far as there is room. */
  lemma TakenIs(room: nat, ev: Event)
    ensures !ev.Arrived? ==> Taken(room, ev) == []
    ensures ev.Arrived? && |ev.bytes| <= room ==> Taken(room, ev) == ev.bytes
    ensures ev.Arrived? && |ev.bytes| > room ==> Taken(room, ev) == ev.bytes[..room]
  {
  }

  /** The pieces recv hands over in a run. */
  function Took(buf: seq<Byte>, evs: seq<Event>): seq<seq<Byte>>
    decreases |evs|
  {
    if evs == [] then []
    else
      var t := if |buf| <= 8192 then Taken(8192 - |buf|, evs[0]) else [];
      if t == [] then Took(buf, evs[1..]) else [t] + Took(Rest(buf, t), evs[1..])
  }

  function BytesOf(evs: seq<Event>): seq<Byte> {
    if evs == [] then [] else (if evs[0].Arrived? then evs[0].bytes else []) + BytesOf(evs[1..])
  }

  /** There is room for what arrives, every time. */
  ghost predicate Roomy(buf: seq<Byte>, evs: seq<Event>)
    decreases |evs|
  {
    evs == [] ||
    if evs[0].Arrived? && evs[0].bytes != [] then
      |buf| + |evs[0].bytes| <= 8192 && Roomy(Rest(buf, evs[0].bytes), evs[1..])
    else Roomy(buf, evs[1..])
  }

  lemma {:induction false} TookAll(buf: seq<Byte>, evs: seq<Event>)
    requires Roomy(buf, evs)
    ensures Concat(Took(buf, evs)) == BytesOf(evs)
    decreases |evs|
  {
    if evs == [] {
    } else {
      var ev, rest := evs[0], evs[1..];
      if ev.Arrived? && ev.bytes != [] {
        TookAll(Rest(buf, ev.bytes), rest);
        TookOne(buf, evs, ev.bytes);
        ConcatFront(ev.bytes, Took(Rest(buf, ev.bytes), rest));
      } else {
        TookAll(buf, rest);
        TakenIs(if |buf| <= 8192 then 8192 - |buf| else 0, ev);
        assert Took(buf, evs) == Took(buf, rest);
      }
    }
  }

  lemma {:induction false} TookOne(buf: seq<Byte>, evs: seq<Event>, t: seq<Byte>)
    requires evs != [] && evs[0] == Arrived(t) && t != [] && |buf| + |t| <= 8192
    ensures Took(buf, evs) == [t] + Took(Rest(buf, t), evs[1..])
  {
    TakenIs(8192 - |buf|, evs[0]);
  }

  /** While there is room, the packets returned and the residue are the bytes that
      have arrived, every one of them; timeouts and errors in between lose nothing. */
  lemma {:induction false} NothingArrivedIsLost(buf: seq<Byte>, evs: seq<Event>, took: seq<seq<Byte>>)
    requires Roomy(buf, evs) && took == Took(buf, evs)
    ensures Concat(Packets(buf, took)) + Residue(buf, took) == buf + BytesOf(evs)
  {
    TookAll(buf, evs);
    NothingLost(buf, took);
  }

  /** FF 0D 0A at position i. */
  predicate Delimits(p: seq<Byte>, i: nat) { i + 3 <= |p| && p[i] == 255 && p[i + 1] == 13 && p[i + 2] == 10 }

  /** A packet in figures. */
  lemma {:induction false} PacketMeans(p: seq<Byte>)
    ensures IsPacket(p) <==> |p| >= 3 && Delimits(p, |p| - 3) && forall i: nat :: i + 3 < |p| ==> !Delimits(p, i)
  {
    assert forall x :: 3 <= x <= |p| ==> (Ends(p, x) <==> Delimits(p, x - 3));
    if IsPacket(p) {
      forall i: nat | i + 3 < |p|
        ensures !Delimits(p, i)
      {
        assert !Ends(p, i + 3);
      }
    }
    if |p| >= 3 && Delimits(p, |p| - 3) && forall i: nat :: i + 3 < |p| ==> !Delimits(p, i) {
      EndIs(p, 0, |p|);
    }
  }

  // ---- The full buffer ---------------------------------------------------

  /** The chunks that fit: recv never takes more than the room left. */
  ghost predicate Fits(buf: seq<Byte>, chunks: seq<seq<Byte>>)
    decreases |chunks|
  {
    chunks == [] ||
    (chunks[0] != [] && |buf| + |chunks[0]| <= 8192 && Fits(Rest(buf, chunks[0]), chunks[1..]))
  }

  /** A full buffer holds no delimiter, and no run that fits can go on from it. */
  lemma {:induction false} FullMeansNoDelimiter(buf: seq<Byte>, chunks: seq<seq<Byte>>)
    requires Fits(buf, chunks) && |buf| <= CAPACITY && (|buf| == CAPACITY ==> FirstEnd(buf) == 0)
    ensures var r := Residue(buf, chunks);
      && |r| <= 8192
      && (|r| == 8192 ==> FirstEnd(r) == 0 && forall c :: !Fits(r, [c]))
    decreases |chunks|
  {
    if chunks == [] {
    } else {
      var s := buf + chunks[0];
      if FirstEnd(s) == 0 { assert Rest(buf, chunks[0]) == s; }
      FullMeansNoDelimiter(Rest(buf, chunks[0]), chunks[1..]);
    }
  }

  /** The bytes behind the last packet of a stream. */
  function Left(s: seq<Byte>): seq<Byte>
    decreases |s|
  {
    if FirstEnd(s) == 0 then s else Left(s[FirstEnd(s)..])
  }

  /** A packet that the buffer cannot hold, or as many bytes without an end. */
  predicate Oversize(s: seq<Byte>) {
    (exists p :: p in Split(s) && |p| > 8192) || |Left(s)| >= 8192
  }

  lemma {:induction false} LeftUnique(ps: seq<seq<Byte>>, rest: seq<Byte>)
    requires forall p :: p in ps ==> IsPacket(p)
    ensures Left(Concat(ps) + rest) == Left(rest)
    decreases |ps|
  {
    if ps == [] {
      assert Concat(ps) + rest == rest;
    } else {
      var tail := Concat(ps[1..]) + rest;
      LeftUnique(ps[1..], rest);
      PacketHeads(ps[0], tail);
      assert Concat(ps) + rest == ps[0] + tail && (ps[0] + tail)[|ps[0]|..] == tail;
    }
  }

  lemma {:induction false} LaterEnd(r: seq<Byte>, more: seq<Byte>)
    requires FirstEnd(r) == 0
    ensures FirstEnd(r + more) == 0 || FirstEnd(r + more) > |r|
  {
    var e := FirstEnd(r + more);
    if 0 < e <= |r| {
      assert Ends(r + more, e) && Ends(r, e);
    }
  }

  /** A run over a beginning of s, seen from s. */
  lemma {:induction false} RunInStream(s: seq<Byte>, chunks: seq<seq<Byte>>)
    requires Concat(chunks) <= s
    ensures var ps, behind := Packets([], chunks), Residue([], chunks) + s[|Concat(chunks)|..];
      s == Concat(ps) + behind && Split(s) == ps + Split(behind) && Left(s) == Left(behind)
  {
    var ps, r, more := Packets([], chunks), Residue([], chunks), s[|Concat(chunks)|..];
    NothingLost([], chunks);
    assert [] + Concat(chunks) == Concat(chunks);
    Behind(s, Concat(chunks), Concat(ps), r);
    AllPackets([], chunks);
    SplitUnique(ps, r + more);
    LeftUnique(ps, r + more);
  }

  lemma {:induction false} Behind(s: seq<Byte>, taken: seq<Byte>, a: seq<Byte>, r: seq<Byte>)
    requires taken <= s && a + r == taken
    ensures s == a + (r + s[|taken|..])
  {
  }

  lemma {:induction false} FullMeansOversize(s: seq<Byte>, chunks: seq<seq<Byte>>)
    requires Concat(chunks) <= s && Fits([], chunks) && |Residue([], chunks)| == CAPACITY
    ensures Oversize(s)
  {
    var r, more := Residue([], chunks), s[|Concat(chunks)|..];
    RunInStream(s, chunks);
    FullMeansNoDelimiter([], chunks);
    LaterEnd(r, more);
    if FirstEnd(r + more) > 0 {
      var p := (r + more)[..FirstEnd(r + more)];
      assert p == Split(r + more)[0] && p in Split(s);
    }
  }

  /** The cut that fills the buffer: packet by packet, then 8192 bytes. */
  function FillingCut(s: seq<Byte>): seq<seq<Byte>>
    requires Oversize(s)
    decreases |s|
  {
    var e := FirstEnd(s);
    if 0 < e <= CAPACITY then
      OversizeBehind(s);
      [s[..e]] + FillingCut(s[e..])
    else [s[..Min(CAPACITY, |s|)]]
  }

  lemma {:induction false} OversizeBehind(s: seq<Byte>)
    requires Oversize(s) && 0 < FirstEnd(s) <= CAPACITY
    ensures Oversize(s[FirstEnd(s)..])
  {
    var e := FirstEnd(s);
    if |Left(s)| < CAPACITY {
      var p :| p in Split(s) && |p| > CAPACITY;
      assert p in Split(s[e..]);
    }
  }

  /** A packet of its own in front of a run. */
  lemma {:induction false} PacketFirst(p: seq<Byte>, cut: seq<seq<Byte>>)
    requires IsPacket(p) && |p| <= CAPACITY && Fits([], cut)
    ensures Fits([], [p] + cut) && Residue([], [p] + cut) == Residue([], cut) && Concat([p] + cut) == p + Concat(cut)
  {
    assert ([p] + cut)[1..] == cut && [] + p == p && p[|p|..] == [];
  }

  lemma {:induction false} OversizeFills(s: seq<Byte>, cut: seq<seq<Byte>>)
    requires Oversize(s) && cut == FillingCut(s)
    ensures Fits([], cut) && Concat(cut) <= s && |Residue([], cut)| == CAPACITY
    decreases |s|
  {
    var e := FirstEnd(s);
    if 0 < e <= CAPACITY {
      var p, tail := s[..e], s[e..];
      OversizeBehind(s);
      OversizeFills(tail, FillingCut(tail));
      FirstEndPrefix(s, e);
      PacketFirst(p, FillingCut(tail));
      assert s == p + tail;
    } else {
      NoEarlyEnd(s);
      OneChunk(s[..CAPACITY]);
    }
  }

  lemma {:induction false} OneChunk(c: seq<Byte>)
    requires |c| == CAPACITY && FirstEnd(c) == 0
    ensures Fits([], [c]) && Concat([c]) == c && Residue([], [c]) == c
  {
    assert [c][1..] == [] && [] + c == c && c[0..] == c;
  }

  lemma {:induction false} NoEarlyEnd(s: seq<Byte>)
    requires Oversize(s) && (FirstEnd(s) == 0 || FirstEnd(s) > CAPACITY)
    ensures |s| >= CAPACITY && FirstEnd(s[..CAPACITY]) == 0
  {
    var c := s[..Min(CAPACITY, |s|)];
    if FirstEnd(s) == 0 { assert Split(s) == []; }
    var e := FirstEnd(c);
    if e > 0 {
      assert Ends(c, e) && Ends(s, e);
    }
  }

  /** When the receiver can wedge: there is a way for recv to cut a beginning of the
      stream so that the buffer fills up if and only if the stream has a packet of
      more than 8192 bytes, or 8192 bytes or more behind its last packet. */
  lemma {:induction false} WedgesExactlyWhen(s: seq<Byte>)
    ensures (exists cut :: Fits([], cut) && Concat(cut) <= s && |Residue([], cut)| == 8192) <==> Oversize(s)
  {
    if Oversize(s) {
      OversizeFills(s, FillingCut(s));
    }
    if cut :| Fits([], cut) && Concat(cut) <= s && |Residue([], cut)| == CAPACITY {
      FullMeansOversize(s, cut);
    }
  }

  /** Where the first packet that does not fit begins, or what is left. */
  function StuckAt(s: seq<Byte>): (n: nat)
    decreases |s|
  {
    var e := FirstEnd(s);
    if 0 < e <= CAPACITY then e + StuckAt(s[e..]) else 0
  }

  lemma {:induction false} SmallPackets(buf: seq<Byte>, chunks: seq<seq<Byte>>)
    requires Fits(buf, chunks)
    ensures forall p :: p in Packets(buf, chunks) ==> |p| <= CAPACITY
    decreases |chunks|
  {
    if chunks == [] {
    } else {
      SmallPackets(Rest(buf, chunks[0]), chunks[1..]);
    }
  }

  lemma {:induction false} StuckBehind(ps: seq<seq<Byte>>, rest: seq<Byte>)
    requires forall p :: p in ps ==> IsPacket(p) && |p| <= CAPACITY
    ensures StuckAt(Concat(ps) + rest) == |Concat(ps)| + StuckAt(rest)
    decreases |ps|
  {
    if ps == [] {
      assert Concat(ps) + rest == rest;
    } else {
      var tail := Concat(ps[1..]) + rest;
      StuckBehind(ps[1..], rest);
      PacketHeads(ps[0], tail);
      assert Concat(ps) + rest == ps[0] + tail && (ps[0] + tail)[|ps[0]|..] == tail;
    }
  }

  /** And it is for good: no run, however recv cuts the stream, takes in more than
      8192 bytes from where the first packet begins that does not fit. */
  lemma {:induction false} NoRunGetsPast(s: seq<Byte>, chunks: seq<seq<Byte>>)
    requires Fits([], chunks) && Concat(chunks) <= s
    ensures |Concat(chunks)| <= StuckAt(s) + 8192
  {
    var ps, r := Packets([], chunks), Residue([], chunks);
    RunInStream(s, chunks);
    AllPackets([], chunks);
    SmallPackets([], chunks);
    StuckBehind(ps, r + s[|Concat(chunks)|..]);
    NothingLost([], chunks);
    FullMeansNoDelimiter([], chunks);
    assert |Concat(ps) + r| == |[] + Concat(chunks)|;
  }
}

/** read() and write() as the programs meet them. What each call comes to is an
    input: a list of outcomes in the order of the calls, negative for an error, else
    how many bytes are moved, as far as there are that many and never none when there
    are some. A call beyond the list moves all it can. */
module Kernel {
  import opened Bytes
  import opened FileFormat

  type Outcomes = seq<int>

  function Rest(sys: Outcomes): Outcomes { if sys == [] then [] else sys[1..] }

  /** One of 1 to most. */
  function Between(n: int, most: int): (m: int)
    requires most >= 1
    ensures 1 <= m <= most
  {
    if n < 1 then 1 else if n > most then most else n
  }

  // ---- write -------------------------------------------------------------

  function WriteStep(sys: Outcomes, len: nat): (rt: int)
    requires len > 0
    ensures rt == -1 || 1 <= rt <= len
  {
    if sys == [] then len else if sys[0] < 0 then -1 else Between(sys[0], len)
  }

  /** A loop that writes until all is written or a call fails: whether all of it is,
      and how much. */
  function Written(sys: Outcomes, total: nat): (r: (bool, nat))
    requires total > 0
    ensures r.1 <= total && (r.0 <==> r.1 == total)
    decreases total
  {
    var rt := WriteStep(sys, total);
    if rt < 0 then (false, 0)
    else if rt == total then (true, total)
    else var (ok, n) := Written(Rest(sys), total - rt); (ok, rt + n)
  }

  /** The kernel's write on an O_APPEND descriptor. */
  method SysWrite(file: seq<Byte>, bytes: seq<Byte>, sys: Outcomes) returns (rt: int, file': seq<Byte>, sys': Outcomes)
    requires bytes != []
    ensures rt == WriteStep(sys, |bytes|) && sys' == Rest(sys)
    ensures file' == file + if rt == -1 then [] else bytes[..rt]
  {
    rt, sys' := WriteStep(sys, |bytes|), Rest(sys);
    file' := if rt == -1 then file else file + bytes[..rt];
  }

  /** The loop fails only when a call has failed. */
  lemma {:induction false} NoErrorWrites(sys: Outcomes, total: nat)
    requires total > 0 && forall k :: 0 <= k < |sys| ==> sys[k] >= 0
    ensures Written(sys, total) == (true, total)
    decreases total
  {
    var rt := WriteStep(sys, total);
    if rt == total {
    } else {
      assert forall k :: 0 <= k < |Rest(sys)| ==> Rest(sys)[k] == sys[k + 1];
      NoErrorWrites(Rest(sys), total - rt);
    }
  }

  /** One round of the write loop. */
  lemma {:induction false} WriteRound(sys: Outcomes, len: nat, rt: int)
    requires len > 0 && rt == WriteStep(sys, len)
    ensures rt < 0 ==> Written(sys, len) == (false, 0)
    ensures rt == len ==> Written(sys, len) == (true, len)
    ensures 0 < rt < len ==> Written(sys, len) == (Written(Rest(sys), len - rt).0, rt + Written(Rest(sys), len - rt).1)
  {
  }

  /** The write loop of F_W_Proc (st01/sub/file_rw.c:363-376) and of the sync manager
      (st01/src/PW/pw_1000_mp.c:246-264): what is left to write gets shorter until
      nothing is left or a write fails. */
  method WriteText(file: seq<Byte>, text: seq<Byte>, sys: Outcomes) returns (ok: bool, file': seq<Byte>)
    requires text != []
    ensures ok == Written(sys, |text|).0 && file' == file + text[..Written(sys, |text|).1]
  {
    var len: nat, pt: nat, todo := |text|, 0, sys;
    ghost var all := Written(sys, |text|);
    file' := file;
    assert file + [] == file && text[..0] == [];
    while true
      invariant 0 < len && pt + len == |text|
      invariant file' == file + text[..pt]
      invariant all == (Written(todo, len).0, pt + Written(todo, len).1)
      decreases len
    {
      var rt, todo';
      rt, file', todo' := SysWrite(file', text[pt..], todo);
      WriteRound(todo, len, rt);
      if rt == -1 { return false, file'; }
      MorePrefix(file, text, pt, rt);
      if rt == len { return true, file'; }
      len, pt, todo := len - rt, pt + rt, todo';
    }
  }

  lemma {:induction false} MorePrefix(file: seq<Byte>, text: seq<Byte>, pt: nat, n: nat)
    requires pt + n <= |text|
    ensures file + text[..pt] + text[pt..][..n] == file + text[..pt + n]
  {
    assert text[..pt] + text[pt..][..n] == text[..pt + n];
  }

  /** Less than the whole text behind the file. */
  lemma {:induction false} PartBehind(file: seq<Byte>, text: seq<Byte>, n: nat)
    requires n <= |text|
    ensures file <= file + text[..n] && (n == |text| ==> text[..n] == text)
    ensures n < |text| ==> file + text[..n] < file + text
  {
    assert text == text[..n] + text[n..];
  }

  // ---- read --------------------------------------------------------------

  function ReadStep(sys: Outcomes, len: nat, avail: nat): (rt: int)
    requires len > 0
    ensures rt == -1 || (0 <= rt <= len && rt <= avail && (rt == 0 <==> avail == 0))
  {
    if sys != [] && sys[0] < 0 then -1
    else if avail == 0 then 0
    else if sys == [] then Min(len, avail)
    else Between(sys[0], Min(len, avail))
  }

  /** A loop that reads until it has all, the file ends, or a call fails: whether it
      fails. */
  function ReadFails(sys: Outcomes, len: nat, avail: nat): bool
    requires len > 0
    decreases len
  {
    var rt := ReadStep(sys, len, avail);
    rt < 0 || (0 < rt && rt < len && ReadFails(Rest(sys), len - rt, avail - rt))
  }

  /** The kernel's read at a file position. */
  method SysRead(file: seq<Byte>, pos: nat, len: nat, sys: Outcomes) returns (rt: int, got: seq<Byte>, sys': Outcomes)
    requires len > 0
    ensures rt == ReadStep(sys, len, |Window(file, pos, len)|) && sys' == Rest(sys)
    ensures rt >= 0 ==> |got| == rt && got == Window(file, pos, rt)
  {
    rt, sys' := ReadStep(sys, len, |Window(file, pos, len)|), Rest(sys);
    got := if rt > 0 then file[pos..pos + rt] else [];
  }

  lemma {:induction false} NoErrorReads(sys: Outcomes, len: nat, avail: nat)
    requires len > 0 && forall k :: 0 <= k < |sys| ==> sys[k] >= 0
    ensures !ReadFails(sys, len, avail)
    decreases len
  {
    var rt := ReadStep(sys, len, avail);
    if rt == 0 || rt == len {
    } else {
      assert forall k :: 0 <= k < |Rest(sys)| ==> Rest(sys)[k] == sys[k + 1];
      NoErrorReads(Rest(sys), len - rt, avail - rt);
    }
  }

  /** One round of such a loop. */
  lemma {:induction false} ReadRound(sys: Outcomes, len: nat, avail: nat, rt: int)
    requires len > 0 && rt == ReadStep(sys, len, avail)
    ensures rt < 0 ==> ReadFails(sys, len, avail)
    ensures rt == 0 || rt == len ==> !ReadFails(sys, len, avail)
    ensures 0 < rt < len ==> ReadFails(sys, len, avail) == ReadFails(Rest(sys), len - rt, avail - rt)
  {
  }

  /** What is left of a window when n bytes have been read. */
  lemma {:induction false} WindowLeft(file: seq<Byte>, pos: nat, len: nat, n: nat)
    requires n <= len && n <= |Window(file, pos, len)|
    ensures Window(file, pos, n) + Window(file, pos + n, len - n) == Window(file, pos, len)
    ensures |Window(file, pos, n)| == n
  {
    if pos <= |file| {
      var all := Window(file, pos, len);
      assert Window(file, pos, n) == all[..n] && Window(file, pos + n, len - n) == all[n..];
    }
  }

  /** The read loop of F_R_Proc (st01/sub/file_rw.c:137-163) and of the start
      (st01/sub/config_db.c:858-872, 1129-1142): the whole window, in whatever pieces
      read gives it, unless a read fails. */
  method ReadWindow(file: seq<Byte>, offset: nat, want: nat, sys: Outcomes) returns (failed: bool, buf: seq<Byte>)
    requires want > 0
    ensures failed == ReadFails(sys, want, |Window(file, offset, want)|)
    ensures !failed ==> buf == Window(file, offset, want)
  {
    buf := [];
    var len: nat, pos: nat, todo := want, offset, sys;
    ghost var rest, all := Window(file, offset, want), Window(file, offset, want);
    ghost var fails := ReadFails(sys, want, |all|);
    while true
      invariant 0 < len && rest == Window(file, pos, len) && buf + rest == all
      invariant fails == ReadFails(todo, len, |rest|)
      decreases len
    {
      var rt, got, todo';
      rt, got, todo' := SysRead(file, pos, len, todo);
      ReadRound(todo, len, |rest|, rt);
      if rt < 0 { return true, buf; }
      rest := ReadOn(file, pos, len, got, rt, buf, rest, all);
      buf := buf + got;
      if rt == 0 || rt == len { return false, buf; }
      len, pos, todo := len - rt, pos + rt, todo';
      assert rest == Window(file, pos, len);
    }
  }

  /** What has been read and what there still is make up the window. */
  lemma {:induction false} ReadOn(file: seq<Byte>, pos: nat, len: nat, got: seq<Byte>, n: nat, buf: seq<Byte>,
                                  rest: seq<Byte>, all: seq<Byte>) returns (more: seq<Byte>)
    requires rest == Window(file, pos, len) && buf + rest == all && n <= len && n <= |rest|
    requires got == Window(file, pos, n)
    ensures more == Window(file, pos + n, len - n) && |more| == |rest| - n
    ensures (buf + got) + more == all && (more == [] ==> buf + got == all)
  {
    more := Window(file, pos + n, len - n);
    WindowLeft(file, pos, len, n);
    Pieces(buf, got, more, rest, all);
  }

  lemma {:induction false} Pieces(buf: seq<Byte>, got: seq<Byte>, more: seq<Byte>, rest: seq<Byte>, all: seq<Byte>)
    requires got + more == rest && buf + rest == all
    ensures (buf + got) + more == all && |rest| == |got| + |more|
    ensures more == [] ==> buf + got == all
  {
  }
}

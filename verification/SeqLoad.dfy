/** Restoring the read cursors when the segment is created anew
    (st01/sub/config_db.c:845-880 and 1116-1155): nine numbers from a _seq file,
    ten from a _dseq file, and only if the read loop got all of them. */
module SeqLoad {
  import opened Bytes
  import opened CursorText
  import opened FileFormat
  import opened Kernel

  /** What a start makes of a cursor file of n numbers. */
  function Restored(file: seq<Byte>, n: nat): (r: Option<seq<int>>)
    ensures r.Some? <==> |file| >= 8 * n
  {
    if |file| < 8 * n then None else Some(seq(n, i requires 0 <= i < n => Cursor(file, i)))
  }

  /** The read loop: `full` is its rt > 0 at the end. */
  method ReadSeq(file: seq<Byte>, want: nat, sys: Outcomes) returns (failed: bool, full: bool, seq_buf: seq<Byte>)
    requires want > 0
    ensures failed == ReadFails(sys, want, Min(|file|, want))
    ensures full <==> !failed && |file| >= want
    ensures full ==> seq_buf == file[..want]
  {
    failed, seq_buf := ReadWindow(file, 0, want, sys);
    full := !failed && |seq_buf| == want;
  }

  /** The AtoIf loop over the buffer. */
  method ParseSeq(seq_buf: seq<Byte>, n: nat) returns (cursors: seq<int>)
    requires |seq_buf| == 8 * n
    ensures |cursors| == n && forall j :: 0 <= j < n ==> cursors[j] == Cursor(seq_buf, j)
  {
    cursors := [];
    for i := 0 to n
      invariant |cursors| == i && forall j :: 0 <= j < i ==> cursors[j] == Cursor(seq_buf, j)
    {
      assert seq_buf[8 * i..][..8] == seq_buf[8 * i..8 * i + 8];
      var v := AtoIf(seq_buf[8 * i..], 8);
      cursors := cursors + [v];
    }
  }

  method Load(file: seq<Byte>, n: nat, sys: Outcomes) returns (failed: bool, cursors: Option<seq<int>>)
    requires n > 0
    ensures failed == ReadFails(sys, 8 * n, Min(|file|, 8 * n))
    ensures cursors == if failed then None else Restored(file, n)
  {
    var full, seq_buf;
    failed, full, seq_buf := ReadSeq(file, 8 * n, sys);
    cursors := None;
    if full {
      var values := ParseSeq(seq_buf, n);
      forall j | 0 <= j < n
        ensures Cursor(seq_buf, j) == Cursor(file, j)
      {
        assert seq_buf[8 * j..8 * j + 8] == file[8 * j..8 * j + 8];
      }
      assert values == Restored(file, n).value;
      cursors := Some(values);
    }
  }

  /** What a start makes of a data file and its _seq file: over an empty data file
      the cursors are left at 0. */
  function RestoredSeq(size: nat, file: seq<Byte>, n: nat): (r: Option<seq<int>>)
    ensures r.Some? <==> size > 0 && |file| >= 8 * n
  {
    if size > 0 then Restored(file, n) else None
  }

  /** The part of the start that deals with one file queue: nothing is read for a
      data file without a byte. */
  method LoadSeq(size: nat, file: seq<Byte>, sys: Outcomes) returns (failed: bool, cursors: Option<seq<int>>)
    ensures failed <==> size > 0 && ReadFails(sys, 72, Min(|file|, 72))
    ensures cursors == if failed then None else RestoredSeq(size, file, NCURSOR)
  {
    failed, cursors := false, None;
    if size > 0 {
      failed, cursors := Load(file, NCURSOR, sys);
    }
  }

  /** The cursors after the start, in a segment that begins as zeros. */
  function AfterStart(r: Option<seq<int>>, n: nat): seq<int> {
    if r.Some? then r.value else Repeat(0, n)
  }

  /** Persistence across a restart: what Seq_Save wrote comes back, all of it,
      exactly when every cursor has at most 8 digits; over an empty data file,
      exactly when there was nothing to come back. */
  lemma {:induction false} SavedIsRestored(size: nat, file: seq<Byte>, c: seq<nat>)
    requires c != []
    ensures AfterStart(RestoredSeq(size, Overwrite(file, 0, SaveText(c)), |c|), |c|) == c
            <==> forall i :: 0 <= i < |c| ==> if size > 0 then c[i] < 1_0000_0000 else c[i] == 0
  {
    var f := Overwrite(file, 0, SaveText(c));
    if size == 0 {
      if forall i :: 0 <= i < |c| ==> c[i] == 0 { assert Repeat(0, |c|) == c; }
    } else {
      var r := Restored(f, |c|).value;
      forall i | 0 <= i < |c|
        ensures r[i] == c[i] <==> c[i] < 1_0000_0000
      {
        SavedReadsBack(file, c, i);
      }
      if forall i :: 0 <= i < |c| ==> c[i] < 1_0000_0000 {
        assert r == c;
      }
    }
  }

  const NDSEQ: nat := 10

  lemma {:induction false} SaveLength(file: seq<Byte>, ck: nat, n: nat)
    requires n < 1_0000_0000
    ensures |Overwrite(file, 8 * ck, Decimal(n, 8))| == Max(|file|, 8 * ck + 8)
  {
    DecimalWidth(n, 8);
    Pow10Eight();
  }

  /** The data-SHM cursors are saved one at a time. A start restores any of them
      exactly when the file has all ten, that is when the last one, the sync
      manager's, has been saved: then the saved one and the others as they were. */
  lemma {:induction false} DseqRestored(file: seq<Byte>, ck: nat, n: nat)
    requires n < 1_0000_0000 && |file| % 8 == 0 && ck < NDSEQ
    ensures var r := Restored(Overwrite(file, 8 * ck, Decimal(n, 8)), NDSEQ);
      && (r.Some? <==> |file| >= 80 || ck == 9)
      && (r.Some? ==> |r.value| == NDSEQ && forall i :: 0 <= i < NDSEQ ==>
            r.value[i] == if i == ck then n else Cursor(file, i))
  {
    SaveLength(file, ck, n);
    forall i | 0 <= i < NDSEQ
      ensures Cursor(Overwrite(file, 8 * ck, Decimal(n, 8)), i) == if i == ck then n else Cursor(file, i)
    {
      OneSavedReadsBack(file, ck, n, i);
    }
  }

  /** Dshm_Seq_Save calls of a run: position and count. */
  function Saves(file: seq<Byte>, calls: seq<(nat, nat)>): seq<Byte>
    decreases |calls|
  {
    if calls == [] then file
    else Saves(Overwrite(file, 8 * calls[0].0, Decimal(calls[0].1, 8)), calls[1..])
  }

  /** So however many reads have been saved, none is restored before the sync
      manager has saved its own count, and every one can be after that. */
  lemma {:induction false} NothingBeforeTheLast(file: seq<Byte>, calls: seq<(nat, nat)>)
    requires |file| <= 80 && forall c :: c in calls ==> c.0 < NDSEQ && c.1 < 1_0000_0000
    ensures Restored(Saves(file, calls), NDSEQ).Some? <==> |file| == 80 || exists c :: c in calls && c.0 == 9
    decreases |calls|
  {
    if calls == [] {
    } else {
      var next := Overwrite(file, 8 * calls[0].0, Decimal(calls[0].1, 8));
      SaveLength(file, calls[0].0, calls[0].1);
      NothingBeforeTheLast(next, calls[1..]);
      assert forall c :: c in calls <==> c == calls[0] || c in calls[1..];
    }
  }
}

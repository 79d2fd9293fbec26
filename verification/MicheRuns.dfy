/** What the order-number cache guarantees over every run of Put calls since a
    Reset: a hit is never wrong, when it is an exact map, and what an
    exhausted probe costs. */
module MicheRuns {
  import opened Bytes
  import opened MicheTable

  /** The table with, for the statements, the last value put for every key. */
  datatype History = History(t: Table, latest: map<Key, int>)

  datatype Entry = Entry(k: Key, v: int)

  function Step(h: History, e: Entry): (h': History)
    requires h.t.Shape()
    ensures h'.t.Shape()
  {
    History(h.t.Put(e.k, e.v), h.latest[e.k := e.v])
  }

  function Run(h: History, puts: seq<Entry>): (h': History)
    requires h.t.Shape()
    ensures h'.t.Shape()
    decreases |puts|
  {
    if puts == [] then h else Run(Step(h, puts[0]), puts[1..])
  }

  /** Just after Reset. */
  ghost predicate IsReset(h: History) {
    h.t.Shape() && h.latest == map[] && forall c :: 0 <= c < HASH ==> h.t.slot[c] == EMPTY
  }

  /** The slots stored are slot numbers, never the empty mark. */
  ghost predicate RealSlots(puts: seq<Entry>) {
    forall e :: e in puts ==> e.v != EMPTY
  }

  // ---- Cells -------------------------------------------------------------

  function Distance(k: Key, c: int): (d: nat) { (c - Hash(k)) % 16384 }

  lemma CellDistance(k: Key, c: int)
    requires 0 <= c < HASH
    ensures Cell(k, Distance(k, c)) == c
  {
  }

  lemma DistanceCell(k: Key, p: nat)
    requires p < HASH
    ensures Distance(k, Cell(k, p)) == p
  {
  }

  /** Every stored key lies within 32 cells of its hash, and every nearer cell is
      taken by another key. */
  ghost predicate Placed(t: Table)
    requires t.Shape()
  {
    forall c :: 0 <= c < HASH && t.slot[c] != EMPTY ==> InPlace(t, c)
  }

  ghost predicate InPlace(t: Table, c: int)
    requires t.Shape() && 0 <= c < HASH
  {
    && Distance(t.key[c], c) <= PROBE
    && forall e: nat :: e < Distance(t.key[c], c) ==> !t.Stops(t.key[c], e)
  }

  /** Every stored value is the last one put for its key. */
  ghost predicate Current(h: History)
    requires h.t.Shape()
  {
    forall c :: 0 <= c < HASH && h.t.slot[c] != EMPTY ==>
                  h.t.key[c] in h.latest && h.latest[h.t.key[c]] == h.t.slot[c]
  }

  /** No key occupies two cells. */
  lemma OneCellPerKey(t: Table, c: int, c': int)
    requires t.Shape() && Placed(t)
    requires 0 <= c < HASH && 0 <= c' < HASH
    requires t.slot[c] != EMPTY && t.slot[c'] != EMPTY && t.key[c] == t.key[c']
    ensures c == c'
  {
    var k := t.key[c];
    CellDistance(k, c);
    CellDistance(k, c');
    assert InPlace(t, c) && InPlace(t, c');
    if Distance(k, c) < Distance(k, c') {
      assert t.Stops(k, Distance(k, c));
    } else if Distance(k, c') < Distance(k, c) {
      assert t.Stops(k, Distance(k, c'));
    }
  }

  /** A cell other than the one written keeps its key in place. */
  lemma StaysInPlace(t: Table, k: Key, v: int, c: int)
    requires t.Shape() && Placed(t) && v != EMPTY
    requires 0 <= c < HASH && t.slot[c] != EMPTY && c != Cell(k, t.Probe(k, 0))
    ensures InPlace(t.Put(k, v), c)
  {
    var p0 := t.Probe(k, 0);
    var t', k1 := t.Put(k, v), t.key[c];
    assert InPlace(t, c);
    forall e: nat | e < Distance(k1, c)
      ensures !t'.Stops(k1, e)
    {
      assert !t.Stops(k1, e);
      if Cell(k1, e) == Cell(k, p0) && k1 == k {
        DistanceCell(k, e);
        DistanceCell(k, p0);
        assert false;
      }
    }
  }

  /** The written cell holds its key in place. */
  lemma PutInPlace(t: Table, k: Key, v: int)
    requires t.Shape() && v != EMPTY
    ensures InPlace(t.Put(k, v), Cell(k, t.Probe(k, 0)))
  {
    var p0 := t.Probe(k, 0);
    var t' := t.Put(k, v);
    DistanceCell(k, p0);
    forall e: nat | e < p0
      ensures !t'.Stops(k, e)
    {
      DistanceCell(k, e);
      assert !t.Stops(k, e);
    }
  }

  lemma StepKeeps(h: History, e: Entry)
    requires h.t.Shape() && Placed(h.t) && Current(h) && e.v != EMPTY
    ensures Placed(Step(h, e).t) && Current(Step(h, e))
  {
    var t' := Step(h, e).t;
    var c0 := Cell(e.k, h.t.Probe(e.k, 0));
    forall c | 0 <= c < HASH && t'.slot[c] != EMPTY
      ensures InPlace(t', c)
      ensures t'.key[c] in Step(h, e).latest && Step(h, e).latest[t'.key[c]] == t'.slot[c]
    {
      if c == c0 {
        PutInPlace(h.t, e.k, e.v);
      } else {
        StaysInPlace(h.t, e.k, e.v, c);
        NotElsewhere(h.t, e.k, c);
      }
    }
  }

  /** A key about to be put is stored nowhere but in the cell Put chooses. */
  lemma {:induction false} NotElsewhere(t: Table, k: Key, c: int)
    requires t.Shape() && Placed(t)
    requires 0 <= c < HASH && t.slot[c] != EMPTY && c != Cell(k, t.Probe(k, 0))
    ensures t.key[c] != k
  {
    ProbeOfStored(t, c);
  }

  /** The probe of a stored key ends in its cell. */
  lemma {:induction false} ProbeOfStored(t: Table, c: int)
    requires t.Shape() && Placed(t) && 0 <= c < HASH && t.slot[c] != EMPTY
    ensures c == Cell(t.key[c], t.Probe(t.key[c], 0))
  {
    var k := t.key[c];
    assert InPlace(t, c);
    CellDistance(k, c);
    ProbeIs(t, k, 0, Distance(k, c));
  }

  /** In every run since Reset, evictions included. */
  lemma {:induction false} RunKeeps(h: History, puts: seq<Entry>)
    requires h.t.Shape() && Placed(h.t) && Current(h) && RealSlots(puts)
    ensures Placed(Run(h, puts).t) && Current(Run(h, puts))
    decreases |puts|
  {
    if puts == [] {
    } else {
      StepKeeps(h, puts[0]);
      RunKeeps(Step(h, puts[0]), puts[1..]);
    }
  }

  /** A hit is never wrong: whatever was put and evicted since Reset, a value
      that Get returns is the last one put for that key. */
  lemma {:induction false} HitsAreRight(h: History, puts: seq<Entry>, k: Key)
    requires IsReset(h) && RealSlots(puts)
    ensures var h' := Run(h, puts);
      h'.t.Get(k) != EMPTY ==> k in h'.latest && h'.t.Get(k) == h'.latest[k]
  {
    RunKeeps(h, puts);
  }

  // ---- Exhausted probes --------------------------------------------------

  lemma {:induction false} ProbeIs(t: Table, k: Key, from: nat, p: nat)
    requires t.Shape() && from <= p <= PROBE && (p < PROBE ==> t.Stops(k, p))
    requires forall e: nat :: from <= e < p ==> !t.Stops(k, e)
    ensures t.Probe(k, from) == p
    decreases p - from
  {
    if from == p {
    } else {
      assert !t.Stops(k, from);
      ProbeIs(t, k, from + 1, p);
    }
  }

  /** A key just put is found again exactly when its probe found a cell.  When
      all 32 probes meet other keys, Put writes the cell at distance 32, which
      Get never looks at: the new value is lost as it is stored. */
  lemma PutThenGet(t: Table, k: Key, v: int)
    requires t.Shape() && v != EMPTY
    ensures t.Put(k, v).Get(k) == if t.Full(k) then EMPTY else v
  {
    var p0, t' := t.Probe(k, 0), t.Put(k, v);
    forall e: nat | e < p0
      ensures !t'.Stops(k, e)
    {
      DistanceCell(k, e);
      DistanceCell(k, p0);
      assert !t.Stops(k, e);
    }
    ProbeIs(t', k, 0, p0);
  }

  lemma FullStays(t: Table, k: Key, k1: Key, v: int)
    requires t.Shape() && t.Full(k) && v != EMPTY
    ensures t.Put(k1, v).Full(k)
  {
    var t' := t.Put(k1, v);
    forall e: nat | e < PROBE
      ensures !t'.Stops(k, e)
    {
      assert !t.Stops(k, e);
      DistanceCell(k, e);
      DistanceCell(k, PROBE);
    }
    ProbeIs(t', k, 0, PROBE);
  }

  /** And it stays lost: once the window of a key is full, no later Put, not even
      of that key, makes Get find it before the next Reset. */
  lemma {:induction false} FullForever(h: History, puts: seq<Entry>, k: Key)
    requires h.t.Shape() && h.t.Full(k) && RealSlots(puts)
    ensures Run(h, puts).t.Full(k) && Run(h, puts).t.Get(k) == EMPTY
    decreases |puts|
  {
    if puts == [] {
    } else {
      FullStays(h.t, k, puts[0].k, puts[0].v);
      FullForever(Step(h, puts[0]), puts[1..], k);
    }
  }

  // ---- When the cache is a map -------------------------------------------

  /** No Put of the run uses up its 32 probes. */
  ghost predicate NeverFull(h: History, puts: seq<Entry>)
    requires h.t.Shape()
    decreases |puts|
  {
    puts == [] || (!h.t.Full(puts[0].k) && NeverFull(Step(h, puts[0]), puts[1..]))
  }

  ghost predicate Found(h: History)
    requires h.t.Shape()
  {
    forall k :: k in h.latest ==> h.t.Get(k) == h.latest[k] != EMPTY
  }

  /** A Put that finds its cell disturbs no other key. */
  lemma PutKeepsOthers(t: Table, k: Key, v: int, k1: Key)
    requires t.Shape() && !t.Full(k) && v != EMPTY && k1 != k && t.Get(k1) != EMPTY
    ensures t.Put(k, v).Get(k1) == t.Get(k1)
  {
    var t' := t.Put(k, v);
    var p0, p := t.Probe(k, 0), t.Probe(k1, 0);
    assert t.Stops(k, p0) && t.Stops(k1, p);
    assert Cell(k1, p) != Cell(k, p0);
    forall e: nat | e < p
      ensures !t'.Stops(k1, e)
    {
      assert !t.Stops(k1, e);
    }
    ProbeIs(t', k1, 0, p);
  }

  lemma {:induction false} MapFrom(h: History, puts: seq<Entry>)
    requires h.t.Shape() && Found(h) && RealSlots(puts) && NeverFull(h, puts)
    ensures Found(Run(h, puts))
    decreases |puts|
  {
    if puts == [] {
    } else {
      var e := puts[0];
      var h1 := Step(h, e);
      PutThenGet(h.t, e.k, e.v);
      forall k | k in h1.latest
        ensures h1.t.Get(k) == h1.latest[k] != EMPTY
      {
        if k != e.k { PutKeepsOthers(h.t, e.k, e.v, k); }
      }
      MapFrom(h1, puts[1..]);
    }
  }

  /** As long as no Put has used up its probes the cache is exactly a map. */
  lemma {:induction false} ExactMap(h: History, puts: seq<Entry>, k: Key)
    requires IsReset(h) && RealSlots(puts) && NeverFull(h, puts)
    ensures var h' := Run(h, puts);
      h'.t.Get(k) == if k in h'.latest then h'.latest[k] else EMPTY
  {
    MapFrom(h, puts);
    HitsAreRight(h, puts, k);
  }

  // ---- Pigeonhole --------------------------------------------------------

  function Keys(puts: seq<Entry>): set<Key> {
    if puts == [] then {} else {puts[0].k} + Keys(puts[1..])
  }

  /** The keys in the first n cells of a window. */
  function Window(t: Table, k: Key, n: nat): set<Key>
    requires t.Shape()
  {
    if n == 0 then {} else Window(t, k, n - 1) + {t.key[Cell(k, n - 1)]}
  }

  lemma {:induction false} WindowOf(t: Table, k: Key, n: nat, x: Key)
    requires t.Shape()
    ensures x in Window(t, k, n) <==> exists e: nat :: e < n && t.key[Cell(k, e)] == x
  {
    if n == 0 {
    } else {
      WindowOf(t, k, n - 1, x);
    }
  }

  lemma {:induction false} WindowSize(t: Table, k: Key, n: nat)
    requires t.Shape() && Placed(t) && n <= PROBE
    requires forall e: nat :: e < n ==> t.slot[Cell(k, e)] != EMPTY
    ensures |Window(t, k, n)| == n
  {
    if n == 0 {
    } else {
      WindowSize(t, k, n - 1);
      var x := t.key[Cell(k, n - 1)];
      WindowOf(t, k, n - 1, x);
      if x in Window(t, k, n - 1) {
        var e: nat :| e < n - 1 && t.key[Cell(k, e)] == x;
        OneCellPerKey(t, Cell(k, e), Cell(k, n - 1));
        DistanceCell(k, e);
        DistanceCell(k, n - 1);
        assert false;
      }
    }
  }

  lemma {:induction false} SubsetSize<T>(a: set<T>, b: set<T>)
    requires a <= b
    ensures |a| <= |b|
  {
    if a == {} {
    } else {
      var x :| x in a;
      SubsetSize(a - {x}, b - {x});
    }
  }

  /** n occupied cells and the key that passes them take n + 1 distinct keys. */
  lemma OccupantsAndOne(h: History, k: Key, keys: set<Key>, n: nat)
    requires h.t.Shape() && Placed(h.t) && Current(h) && n <= PROBE
    requires forall e: nat :: e < n ==> !h.t.Stops(k, e)
    requires h.latest.Keys <= keys && k in keys
    ensures |keys| >= n + 1
  {
    var w := Window(h.t, k, n);
    assert forall e: nat :: e < n ==> !h.t.Stops(k, e) && h.t.slot[Cell(k, e)] != EMPTY;
    WindowSize(h.t, k, n);
    forall x | x in w
      ensures x in keys && x != k
    {
      WindowOf(h.t, k, n, x);
      var e: nat :| e < n && h.t.key[Cell(k, e)] == x;
      assert !h.t.Stops(k, e);
    }
    SubsetSize(w + {k}, keys);
  }

  lemma {:induction false} FewKeysFrom(h: History, puts: seq<Entry>, keys: set<Key>)
    requires h.t.Shape() && Placed(h.t) && Current(h) && RealSlots(puts)
    requires h.latest.Keys <= keys && Keys(puts) <= keys && |keys| <= 32
    ensures NeverFull(h, puts)
    decreases |puts|
  {
    if puts == [] {
    } else {
      if h.t.Full(puts[0].k) { OccupantsAndOne(h, puts[0].k, keys, PROBE); }
      StepKeeps(h, puts[0]);
      FewKeysFrom(Step(h, puts[0]), puts[1..], keys);
    }
  }

  /** At most 32 distinct keys since Reset: the cache is exactly a map, whatever
      their hashes. */
  lemma {:induction false} FewKeysExact(h: History, puts: seq<Entry>, k: Key)
    requires IsReset(h) && RealSlots(puts) && |Keys(puts)| <= 32
    ensures var h' := Run(h, puts);
      h'.t.Get(k) == if k in h'.latest then h'.latest[k] else EMPTY
  {
    FewKeysFrom(h, puts, Keys(puts));
    ExactMap(h, puts, k);
  }
}

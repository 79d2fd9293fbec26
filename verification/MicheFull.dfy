/** That a probe of the order-number cache can be exhausted: among enough order
    numbers 33 have the same hash, and the 33rd of them put into a fresh table
    cannot be found.  So the 32 distinct keys of MicheRuns.FewKeysExact are the
    most for which the cache is always a map. */
module MicheFull {
  import opened Bytes
  import opened MicheTable
  import opened MicheRuns

  /** Order number n in ten digits. */
  function OrderNo(n: nat): (k: Key)
    ensures |k| >= 10 && forall i :: 0 <= i < |k| ==> IsDigit(k[i])
  {
    DecimalWidth(n, 10);
    Decimal(n, 10)
  }

  lemma {:induction false} OrderNoIsKey(n: nat)
    requires n < 1_0000_0000
    ensures |OrderNo(n)| == 10
  {
    DecimalWidth(n, 10);
    Pow10Eight();
    assert Pow10(10) == 10 * (10 * Pow10(8));
  }

  lemma {:induction false} OrderNosDiffer(a: nat, b: nat)
    requires OrderNo(a) == OrderNo(b)
    ensures a == b
  {
    DecimalValue(a, 10);
    DecimalValue(b, 10);
  }

  // ---- Pigeonhole --------------------------------------------------------

  /** The numbers below n that f sends to h, ascending. */
  function Class(f: nat -> int, h: int, n: nat): (xs: seq<nat>)
    ensures forall i :: 0 <= i < |xs| ==> xs[i] < n && f(xs[i]) == h
    ensures forall i, j :: 0 <= i < j < |xs| ==> xs[i] < xs[j]
  {
    if n == 0 then [] else Class(f, h, n - 1) + if f(n - 1) == h then [n - 1] else []
  }

  /** The members of the first m classes. */
  function Members(f: nat -> int, m: nat, n: nat): nat {
    if m == 0 then 0 else Members(f, m - 1, n) + |Class(f, m - 1, n)|
  }

  lemma {:induction false} NoMembers(f: nat -> int, m: nat)
    ensures Members(f, m, 0) == 0
  {
    if m == 0 {
    } else {
      NoMembers(f, m - 1);
    }
  }

  lemma {:induction false} OneMember(f: nat -> int, m: nat, n: nat)
    requires f(n) >= 0
    ensures Members(f, m, n + 1) == Members(f, m, n) + if f(n) < m then 1 else 0
  {
    if m == 0 {
    } else {
      OneMember(f, m - 1, n);
      assert |Class(f, m - 1, n + 1)| == |Class(f, m - 1, n)| + if f(n) == m - 1 then 1 else 0;
    }
  }

  /** Everything is a member of some class. */
  lemma {:induction false} EveryMember(f: nat -> int, m: nat, n: nat)
    requires forall i: nat :: 0 <= f(i) < m
    ensures Members(f, m, n) == n
    decreases n
  {
    if n == 0 {
      NoMembers(f, m);
    } else {
      EveryMember(f, m, n - 1);
      OneMember(f, m, n - 1);
    }
  }

  lemma {:induction false} LargeClass(f: nat -> int, m: nat, n: nat, c: nat) returns (h: int)
    requires Members(f, m, n) > m * c
    ensures |Class(f, h, n)| > c
    decreases m
  {
    if m == 0 {
      h := 0;
    } else if |Class(f, m - 1, n)| > c {
      h := m - 1;
    } else {
      assert m * c == (m - 1) * c + c;
      h := LargeClass(f, m - 1, n, c);
    }
  }

  /** More than m * c numbers in m classes: c + 1 of them are in one class. */
  lemma {:induction false} Pigeonhole(f: nat -> int, m: nat, c: nat) returns (xs: seq<nat>)
    requires forall i: nat :: 0 <= f(i) < m
    ensures |xs| == c + 1 && forall i :: 0 <= i < |xs| ==> xs[i] <= m * c && f(xs[i]) == f(xs[0])
    ensures forall i, j :: 0 <= i < j < |xs| ==> xs[i] < xs[j]
  {
    EveryMember(f, m, m * c + 1);
    var h := LargeClass(f, m, m * c + 1, c);
    xs := Class(f, h, m * c + 1)[..c + 1];
  }

  // ---- Filling a window --------------------------------------------------

  function Puts(xs: seq<nat>): (puts: seq<Entry>)
    ensures |puts| == |xs| && forall i :: 0 <= i < |xs| ==> puts[i] == Entry(OrderNo(xs[i]), xs[i])
  {
    seq(|xs|, i requires 0 <= i < |xs| => Entry(OrderNo(xs[i]), xs[i]))
  }

  lemma {:induction false} RunThenPut(h: History, puts: seq<Entry>, e: Entry)
    requires h.t.Shape()
    ensures Run(h, puts + [e]) == Step(Run(h, puts), e)
    decreases |puts|
  {
    var all := puts + [e];
    if puts == [] {
      assert all[1..] == [];
    } else {
      assert all[1..] == puts[1..] + [e];
      RunThenPut(Step(h, puts[0]), puts[1..], e);
    }
  }

  /** The first |xs| cells of the window of k hold these numbers, the others are
      empty. */
  ghost predicate Filled(t: Table, k: Key, xs: seq<nat>)
    requires t.Shape()
  {
    && (forall p: nat :: p < |xs| ==> t.key[Cell(k, p)] == OrderNo(xs[p]) && t.slot[Cell(k, p)] != EMPTY)
    && (forall p: nat :: |xs| <= p < PROBE ==> t.slot[Cell(k, p)] == EMPTY)
  }

  lemma SameWindow(a: Key, b: Key, p: nat)
    requires Hash(a) == Hash(b)
    ensures Cell(a, p) == Cell(b, p)
  {
  }

  lemma {:induction false} ProbeFilled(t: Table, k: Key, xs: seq<nat>, x: nat)
    requires t.Shape() && |xs| <= PROBE && Filled(t, k, xs)
    requires Hash(OrderNo(x)) == Hash(k) && x !in xs
    ensures t.Probe(OrderNo(x), 0) == |xs|
  {
    forall e: nat | e < |xs|
      ensures !t.Stops(OrderNo(x), e)
    {
      SameWindow(OrderNo(x), k, e);
      if OrderNo(x) == OrderNo(xs[e]) {
        OrderNosDiffer(x, xs[e]);
        assert false;
      }
    }
    SameWindow(OrderNo(x), k, |xs|);
    ProbeIs(t, OrderNo(x), 0, |xs|);
  }

  lemma {:induction false} FillNext(t: Table, k: Key, xs: seq<nat>, x: nat)
    requires t.Shape() && |xs| < PROBE && Filled(t, k, xs)
    requires Hash(OrderNo(x)) == Hash(k) && x !in xs
    ensures Filled(t.Put(OrderNo(x), x), k, xs + [x])
  {
    ProbeFilled(t, k, xs, x);
    SameWindow(OrderNo(x), k, |xs|);
    DistanceCell(k, |xs|);
    forall p: nat | p < PROBE
      ensures p != |xs| ==> Cell(k, p) != Cell(k, |xs|)
    {
      DistanceCell(k, p);
    }
  }

  lemma {:induction false} FillWindow(h: History, k: Key, xs: seq<nat>)
    requires IsReset(h) && |xs| <= PROBE
    requires forall i :: 0 <= i < |xs| ==> Hash(OrderNo(xs[i])) == Hash(k)
    requires forall i, j :: 0 <= i < j < |xs| ==> xs[i] < xs[j]
    ensures Filled(Run(h, Puts(xs)).t, k, xs)
    decreases |xs|
  {
    if xs == [] {
      assert Puts(xs) == [];
    } else {
      var n := |xs| - 1;
      var front := xs[..n];
      FillWindow(h, k, front);
      assert Puts(xs) == Puts(front) + [Entry(OrderNo(xs[n]), xs[n])];
      RunThenPut(h, Puts(front), Entry(OrderNo(xs[n]), xs[n]));
      FillNext(Run(h, Puts(front)).t, k, front, xs[n]);
      assert xs == front + [xs[n]];
    }
  }

  lemma {:induction false} ThirtyThird(h: History, xs: seq<nat>)
    requires IsReset(h) && |xs| == PROBE + 1
    requires forall i :: 0 <= i < |xs| ==> Hash(OrderNo(xs[i])) == Hash(OrderNo(xs[0]))
    requires forall i, j :: 0 <= i < j < |xs| ==> xs[i] < xs[j]
    ensures Run(h, Puts(xs)).t.Get(OrderNo(xs[PROBE])) == EMPTY
  {
    var front, x := xs[..PROBE], xs[PROBE];
    var k, t := OrderNo(x), Run(h, Puts(front)).t;
    FillWindow(h, k, front);
    ProbeFilled(t, k, front, x);
    assert Puts(xs) == Puts(front) + [Entry(k, x)];
    RunThenPut(h, Puts(front), Entry(k, x));
    PutThenGet(t, k, x);
  }

  /** From any Reset there are 33 different ten-digit order numbers after whose Puts
      Get does not find the last one. */
  lemma {:induction false} PutsThatLose(h: History)
    requires IsReset(h)
    ensures exists puts: seq<Entry> ::
              && |puts| == 33 && RealSlots(puts)
              && (forall i :: 0 <= i < |puts| ==> |puts[i].k| == 10)
              && (forall i, j :: 0 <= i < j < |puts| ==> puts[i].k != puts[j].k)
              && Run(h, puts).t.Get(puts[32].k) == -1
  {
    var xs := Pigeonhole((n: nat) => Hash(OrderNo(n)), HASH, PROBE);
    ThirtyThird(h, xs);
    DifferentKeys(xs);
    assert RealSlots(Puts(xs));
  }

  lemma {:induction false} DifferentKeys(xs: seq<nat>)
    requires forall i :: 0 <= i < |xs| ==> xs[i] < 1_0000_0000
    requires forall i, j :: 0 <= i < j < |xs| ==> xs[i] < xs[j]
    ensures forall i :: 0 <= i < |xs| ==> |Puts(xs)[i].k| == 10
    ensures forall i, j :: 0 <= i < j < |xs| ==> Puts(xs)[i].k != Puts(xs)[j].k
  {
    forall i | 0 <= i < |xs|
      ensures |Puts(xs)[i].k| == 10
    {
      OrderNoIsKey(xs[i]);
    }
    forall i, j | 0 <= i < j < |xs|
      ensures Puts(xs)[i].k != Puts(xs)[j].k
    {
      if Puts(xs)[i].k == Puts(xs)[j].k { OrderNosDiffer(xs[i], xs[j]); }
    }
  }
}

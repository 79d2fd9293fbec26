/** The order-number cache (st01/sub/miche_idx.c): 16384 cells, linear probing
    over at most 32 of them, and eviction when all 32 are taken by other keys. */
module MicheTable {
  import opened Bytes

  const HASH: int := 16384
  const PROBE: int := 32
  const KEYLEN: nat := 10
  const EMPTY: int := -1

  type Key = seq<Byte>

  /** Exclusive or of the low `bits` bits. */
  function Xor(a: nat, b: nat, bits: nat): nat {
    if bits == 0 then 0 else 2 * Xor(a / 2, b / 2, bits - 1) + (if a % 2 == b % 2 then 0 else 1)
  }

  /** One round of FNV-1a in 32-bit arithmetic that wraps: the byte goes into
      the low 8 bits, then the multiplication is cut to 32 bits. */
  function Round(h: nat, b: Byte): nat {
    ((h - h % 256 + Xor(h % 256, b, 8)) * 16777619) % 0x1_0000_0000
  }

  function Fnv(key: seq<Byte>): nat {
    if key == [] then 2166136261 else Round(Fnv(key[..|key| - 1]), key[|key| - 1])
  }

  /** miche_hash: the low 14 bits. */
  function Hash(key: Key): (h: int)
    ensures 0 <= h < HASH
  {
    Fnv(key) % 16384
  }

  lemma {:induction false} FnvNext(key: seq<Byte>, b: Byte)
    ensures Fnv(key + [b]) == Round(Fnv(key), b)
  {
    assert (key + [b])[..|key|] == key;
  }

  /** The bit worth p of an exclusive or. */
  function Bit(a: nat, b: nat, p: nat): nat
    requires p > 0
  {
    if (a / p) % 2 == (b / p) % 2 then 0 else 1
  }

  lemma {:induction false} XorStep(a: nat, b: nat, bits: nat)
    requires bits > 0
    ensures Xor(a, b, bits) == Bit(a, b, 1) + 2 * Xor(a / 2, b / 2, bits - 1)
  {
  }

  lemma {:induction false} XorTwo(a: nat, b: nat, bits: nat)
    requires bits > 1
    ensures Xor(a, b, bits) == Bit(a, b, 1) + 2 * Bit(a, b, 2) + 4 * Xor(a / 4, b / 4, bits - 2)
  {
    XorStep(a, b, bits);
    XorStep(a / 2, b / 2, bits - 1);
    assert a / 2 / 2 == a / 4 && b / 2 / 2 == b / 4;
  }

  lemma {:induction false} XorFour(a: nat, b: nat, bits: nat)
    requires bits > 3
    ensures Xor(a, b, bits)
         == Bit(a, b, 1) + 2 * Bit(a, b, 2) + 4 * Bit(a, b, 4) + 8 * Bit(a, b, 8) + 16 * Xor(a / 16, b / 16, bits - 4)
  {
    XorTwo(a, b, bits);
    XorTwo(a / 4, b / 4, bits - 2);
    assert a / 4 / 2 == a / 8 && b / 4 / 2 == b / 8;
    assert a / 4 / 4 == a / 16 && b / 4 / 4 == b / 16;
  }

  /** The exclusive or of two bytes, bit by bit. */
  lemma {:induction false} XorOfBytes(a: nat, b: nat, bits: nat)
    requires bits == 8
    ensures Xor(a, b, bits)
         == Bit(a, b, 1) + 2 * Bit(a, b, 2) + 4 * Bit(a, b, 4) + 8 * Bit(a, b, 8)
            + 16 * Bit(a, b, 16) + 32 * Bit(a, b, 32) + 64 * Bit(a, b, 64) + 128 * Bit(a, b, 128)
  {
    XorFour(a, b, bits);
    XorFour(a / 16, b / 16, bits - 4);
    assert a / 16 / 2 == a / 32 && b / 16 / 2 == b / 32;
    assert a / 16 / 4 == a / 64 && b / 16 / 4 == b / 64;
    assert a / 16 / 8 == a / 128 && b / 16 / 8 == b / 128;
  }

  /** The hash in figures: it starts at 2166136261; every byte goes into the low byte
      by an exclusive or, bit by bit, then comes the product with 16777619 modulo
      2^32; the cell is the remainder modulo 16384. */
  lemma {:induction false} HashMeans(key: seq<Byte>, b: Byte, low: nat, x: nat)
    requires low == Fnv(key) % 256
    requires x == Bit(low, b, 1) + 2 * Bit(low, b, 2) + 4 * Bit(low, b, 4) + 8 * Bit(low, b, 8)
                  + 16 * Bit(low, b, 16) + 32 * Bit(low, b, 32) + 64 * Bit(low, b, 64) + 128 * Bit(low, b, 128)
    ensures Fnv([]) == 2166136261
    ensures Fnv(key + [b]) == ((Fnv(key) - low + x) * 16777619) % 4294967296
    ensures Hash(key) == Fnv(key) % 16384
  {
    FnvNext(key, b);
    XorOfBytes(low, b, 8);
  }

  /** The hash of the one character '1'. */
  lemma {:induction false} HashOfOne(k: seq<Byte>)
    requires k == []
    ensures Fnv(k + [49]) == 873244444 && Hash(k + [49]) == 10012
  {
    HashMeans(k, 49, 197, 244);
    assert Hash(k + [49]) == Fnv(k + [49]) % 16384;
  }

  /** The cell at distance p from a key's hash. */
  function Cell(k: Key, p: nat): (c: int)
    ensures 0 <= c < HASH
  {
    (Hash(k) + p) % 16384
  }

  lemma NextCell(k: Key, p: nat)
    ensures (Cell(k, p) + 1) % 16384 == Cell(k, p + 1)
  {
  }

  datatype Table = Table(key: seq<Key>, slot: seq<int>) {

    ghost predicate Shape() { |key| == HASH && |slot| == HASH }

    /** A probe of key k stops here: the cell is empty or holds k. */
    predicate Stops(k: Key, p: nat)
      requires Shape()
    {
      slot[Cell(k, p)] == EMPTY || key[Cell(k, p)] == k
    }

    /** The first distance at which a probe stops, or 32. */
    function Probe(k: Key, p: nat): (q: nat)
      requires Shape() && p <= PROBE
      ensures p <= q <= PROBE && (q < PROBE ==> Stops(k, q))
      ensures forall e: nat :: p <= e < q ==> !Stops(k, e)
      decreases PROBE - p
    {
      if p == PROBE || Stops(k, p) then p else Probe(k, p + 1)
    }

    function Put(k: Key, v: int): (t: Table)
      requires Shape()
      ensures t.Shape()
    {
      var c := Cell(k, Probe(k, 0));
      Table(key[c := k], slot[c := v])
    }

    function Get(k: Key): int
      requires Shape()
    {
      var p := Probe(k, 0);
      if p == PROBE then EMPTY else slot[Cell(k, p)]
    }

    /** All 32 probes of k meet other keys. */
    predicate Full(k: Key)
      requires Shape()
    {
      Probe(k, 0) == PROBE
    }
  }
}

module MicheIdx {
  import opened Bytes
  import opened MicheTable

  class Index {
    const key: array<Key>
    const slot: array<int>

    ghost predicate Valid()
      reads this
    {
      key.Length == HASH && slot.Length == HASH
    }

    ghost function View(): (t: Table)
      requires Valid()
      reads this, key, slot
      ensures t.Shape()
    {
      Table(key[..], slot[..])
    }

    /** Storage as a C static leaves it: zero-filled, not yet reset. */
    constructor ()
      ensures Valid() && fresh(key) && fresh(slot)
    {
      key := new Key[HASH](_ => Repeat(NUL, KEYLEN));
      slot := new int[HASH](_ => 0);
    }

    method Reset()
      requires Valid()
      modifies slot
      ensures View() == Table(old(key[..]), Repeat(EMPTY, HASH))
    {
      for i := 0 to HASH
        invariant forall j :: 0 <= j < i ==> slot[j] == EMPTY
      {
        slot[i] := EMPTY;
      }
      assert slot[..] == Repeat(EMPTY, HASH);
    }

    /** miche_hash over the first 10 bytes; the text need not end there. */
    static method HashOf(key10: seq<Byte>) returns (h: int)
      requires |key10| >= 10
      ensures h == Hash(key10[..10])
    {
      var f: nat := 2166136261;
      for i := 0 to KEYLEN
        invariant f == Fnv(key10[..i])
      {
        assert key10[..i + 1] == key10[..i] + [key10[i]];
        f := Round(f, key10[i]);
      }
      h := f % 16384;
    }

    method Put(key10: seq<Byte>, v: int)
      requires Valid() && |key10| >= 10
      modifies key, slot
      ensures View() == old(View()).Put(key10[..10], v)
    {
      var k := key10[..KEYLEN];
      var h := Seek(key10);
      key[h] := k;
      slot[h] := v;
      assert key[..] == old(key[..])[h := k];
      assert slot[..] == old(slot[..])[h := v];
    }

    /** The probe loop of Miche_Idx_Put. */
    method Seek(key10: seq<Byte>) returns (h: int)
      requires Valid() && |key10| >= 10
      ensures h == Cell(key10[..10], View().Probe(key10[..10], 0))
    {
      var k := key10[..KEYLEN];
      h := HashOf(key10);
      var p := 0;
      while p < PROBE
        invariant 0 <= p <= PROBE && h == Cell(k, p)
        invariant View().Probe(k, 0) == View().Probe(k, p)
      {
        if slot[h] == EMPTY || key[h] == k { break; }
        NextCell(k, p);
        h := (h + 1) % 16384;
        p := p + 1;
      }
    }

    method Get(key10: seq<Byte>) returns (v: int)
      requires Valid() && |key10| >= 10
      ensures v == View().Get(key10[..10])
    {
      var k := key10[..KEYLEN];
      var h := HashOf(key10);
      var p := 0;
      while p < PROBE
        invariant 0 <= p <= PROBE && h == Cell(k, p)
        invariant View().Probe(k, 0) == View().Probe(k, p)
      {
        if slot[h] == EMPTY { return EMPTY; }
        if key[h] == k { return slot[h]; }
        NextCell(k, p);
        h := (h + 1) % 16384;
        p := p + 1;
      }
      return EMPTY;
    }
  }
}

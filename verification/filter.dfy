/** A bloom filter, first as a set of bit numbers that only grows, then as an array
    of words that is proved to hold that set. */
module Filters {
  import opened Codec

  /** How large the set of possible bits is, for each key that is planned for. */
  const BITS_PER_KEY := 10
  /** How many of them each key turns on. */
  const PROBES := 8
  /** Words in a block, and bits in one. */
  const BLOCK := 8
  const BLOCK_BITS := 512
  const LEAST_CAPACITY := 1024

  const TWO32 := 0x1_0000_0000
  const TWO64 := 0x1_0000_0000_0000_0000
  const STEP := 0x9e37_79b9_7f4a_7c15

  /** The hash of a key, and the mixing of a 64 bit number. */
  datatype Hashing = Hashing(hash: Bytes -> nat, mix: nat -> nat)

  function Mixed(h: Hashing, n: nat): (r: nat)
    ensures r < TWO64
  {
    h.mix(n) % TWO64
  }

  /** The block of a key: the high bits of its mixed hash, scaled. */
  function BlockOf(h: Hashing, blocks: nat, key: Bytes): nat {
    ((Mixed(h, h.hash(key) % TWO64) / TWO32) * blocks) / TWO32
  }

  lemma BlockIsInRange(h: Hashing, blocks: nat, key: Bytes)
    requires blocks > 0
    ensures BlockOf(h, blocks, key) < blocks
  {
    ScaledDown(Mixed(h, h.hash(key) % TWO64) / TWO32, blocks);
  }

  lemma ScaledDown(high: nat, blocks: nat)
    requires high <= TWO32 - 1 && blocks > 0
    ensures (high * blocks) / TWO32 < blocks
  {
    var rest: nat := TWO32 - 1 - high;
    assert (high + rest) * blocks == high * blocks + rest * blocks;
    assert rest * blocks >= 0;
    assert high * blocks <= 0xffff_ffff * blocks;
  }

  /** The number that is hashed for one probe: equal steps from the key's own. */
  function Seed(h: Hashing, key: Bytes, probe: nat): nat {
    if probe == 0 then h.hash(key) % TWO64 else (Seed(h, key, probe - 1) + STEP) % TWO64
  }

  /** The bit a probe looks at, counted from the first of the filter. */
  function BitOf(h: Hashing, blocks: nat, key: Bytes, probe: nat): nat {
    BlockOf(h, blocks, key) * BLOCK_BITS + Mixed(h, Seed(h, key, probe + 1)) % BLOCK_BITS
  }

  function BitsOf(h: Hashing, blocks: nat, key: Bytes): set<nat> {
    set probe | 0 <= probe < PROBES :: BitOf(h, blocks, key, probe)
  }

  /** What a filter holds. */
  datatype Filter = Filter(blocks: nat, capacity: nat, bits: set<nat>, added: nat)

  function BlocksFor(capacity: nat): (r: nat)
    ensures capacity > 0 ==> r > 0
  {
    (capacity * BITS_PER_KEY + BLOCK_BITS - 1) / BLOCK_BITS
  }

  /** An empty filter sized for `expected` keys. */
  function EmptyFilter(expected: nat): (r: Filter)
    ensures r.blocks > 0 && r.bits == {} && r.added == 0
  {
    var capacity := if expected < LEAST_CAPACITY then LEAST_CAPACITY else expected;
    Filter(BlocksFor(capacity), capacity, {}, 0)
  }

  function Add(h: Hashing, f: Filter, key: Bytes): Filter {
    f.(bits := f.bits + BitsOf(h, f.blocks, key), added := f.added + 1)
  }

  /** The filter's answer. Never false of a key that was added, by `AllAreKept`; of
      others it may be either. */
  predicate MayContain(h: Hashing, f: Filter, key: Bytes) { BitsOf(h, f.blocks, key) <= f.bits }

  /** What is left of the planned number of keys. */
  function Room(f: Filter): nat { if f.added <= f.capacity then f.capacity - f.added else 0 }

  predicate IsFull(f: Filter) { f.added > f.capacity }

  function AddAll(h: Hashing, f: Filter, keys: seq<Bytes>): (r: Filter)
    ensures r.blocks == f.blocks && r.capacity == f.capacity && f.bits <= r.bits && r.added == f.added + |keys|
  {
    if keys == [] then f else Add(h, AddAll(h, f, keys[..|keys| - 1]), keys[|keys| - 1])
  }

  /** What was ever added may be contained, and nothing is ever lost. */
  lemma {:induction false} AllAreKept(h: Hashing, f: Filter, keys: seq<Bytes>)
    ensures forall key :: key in keys ==> MayContain(h, AddAll(h, f, keys), key)
    ensures forall other :: MayContain(h, f, other) ==> MayContain(h, AddAll(h, f, keys), other)
  {
    if keys != [] {
      AllAreKept(h, f, keys[..|keys| - 1]);
      assert keys == keys[..|keys| - 1] + [keys[|keys| - 1]];
    }
  }

  /** A 64 bit word as the set of its bits. */
  type Word = set<nat>

  /** A blocked bloom filter over words. */
  class Bloom {
    const h: Hashing
    const blocks: nat
    const capacity: nat
    const words: array<Word>
    var added: nat

    ghost predicate Valid()
      reads this
    {
      blocks > 0 && words.Length == blocks * BLOCK
    }

    /** The words are those of `f`, whose bits are all within them. */
    ghost predicate Holds(f: Filter)
      requires Valid()
      reads this, words
    {
      && f.blocks == blocks && f.capacity == capacity && f.added == added
      && (forall bit :: bit in f.bits ==> bit < blocks * BLOCK_BITS)
      && (forall bit :: 0 <= bit < blocks * BLOCK_BITS ==> (bit % 64 in words[bit / 64] <==> bit in f.bits))
    }

    constructor (h: Hashing, expected: nat)
      ensures Valid() && Holds(EmptyFilter(expected)) && fresh(words) && this.h == h
    {
      this.h := h;
      var sized := if expected < LEAST_CAPACITY then LEAST_CAPACITY else expected;
      capacity, blocks, added := sized, BlocksFor(sized), 0;
      words := new Word[BlocksFor(sized) * BLOCK](_ => {});
    }

    /** Adds a key to the filter the words hold. */
    method AddKey(key: Bytes, ghost f: Filter)
      requires Valid() && Holds(f)
      modifies this`added, words
      ensures Valid() && Holds(Add(h, f, key))
    {
      added := added + 1;
      BlockIsInRange(h, blocks, key);
      var block, state := BlockOf(h, blocks, key), h.hash(key) % TWO64;
      ghost var g := f.(added := added);
      for probe := 0 to PROBES
        invariant state == Seed(h, key, probe) && Valid() && Holds(g)
                  && g == f.(added := old(added) + 1, bits := g.bits)
        invariant g.bits == f.bits + set p | 0 <= p < probe :: BitOf(h, blocks, key, p)
      {
        state := (state + STEP) % TWO64;
        var position := Mixed(h, state) % BLOCK_BITS;
        ghost var bit := BitOf(h, blocks, key, probe);
        assert bit == block * BLOCK_BITS + position;
        var word := block * BLOCK + position / 64;
        words[word] := words[word] + {position % 64};
        assert bit / 64 == word && bit % 64 == position % 64;
        g := g.(bits := g.bits + {bit});
      }
      assert g == Add(h, f, key);
    }

    /** The words are read where a key's bits are. */
    method Probe(key: Bytes, ghost f: Filter) returns (may: bool)
      requires Valid() && Holds(f)
      ensures may <==> MayContain(h, f, key)
    {
      BlockIsInRange(h, blocks, key);
      var block, state := BlockOf(h, blocks, key), h.hash(key) % TWO64;
      for probe := 0 to PROBES
        invariant state == Seed(h, key, probe)
        invariant forall p :: 0 <= p < probe ==> BitOf(h, blocks, key, p) in f.bits
      {
        state := (state + STEP) % TWO64;
        var position := Mixed(h, state) % BLOCK_BITS;
        ghost var bit := BitOf(h, blocks, key, probe);
        var word := block * BLOCK + position / 64;
        assert bit == block * BLOCK_BITS + position && bit / 64 == word && bit % 64 == position % 64;
        if position % 64 !in words[word] {
          assert bit in BitsOf(h, blocks, key);
          return false;
        }
      }
      may := true;
    }
  }
}

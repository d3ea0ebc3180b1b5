/** Addresses, and the networks that hold them. */
module Addresses {

  /** An address, as the number its bits write. */
  datatype Address = V4(bits: nat) | V6(bits: nat)

  /** The bits of an address of a family. */
  function Width(a: Address): nat { if a.V4? then 32 else 128 }

  function Pow2(n: nat): (r: nat)
    ensures r > 0
  {
    if n == 0 then 1 else 2 * Pow2(n - 1)
  }

  predicate InFamily(a: Address) { a.bits < Pow2(Width(a)) }

  function WithBits(a: Address, bits: nat): Address { if a.V4? then V4(bits) else V6(bits) }

  /** An address with its host bits zeroed, as the sum of the part of it that a
      prefix keeps: length 0 keeps nothing, and needs its own case where no shift is as
      wide as the word. */
  function Masked(a: Address, length: nat): (r: Address)
    requires length <= Width(a)
    ensures r.V4? == a.V4? && r.bits <= a.bits
  {
    RestIsLess(a.bits, Pow2(Width(a) - length));
    WithBits(a, a.bits - a.bits % Pow2(Width(a) - length))
  }

  lemma RestIsLess(x: nat, m: nat)
    requires m > 0
    ensures 0 <= x % m <= x
  {
    assert x == m * (x / m) + x % m;
    assert m * (x / m) >= 0;
  }

  /** The first `length` bits of `a` are those of `network`. */
  predicate Holds(network: Address, length: nat, a: Address) {
    && network.V4? == a.V4? && length <= Width(a)
    && network.bits / Pow2(Width(a) - length) == a.bits / Pow2(Width(a) - length)
  }

  /** A network without host bits. */
  predicate Canonical(network: Address, length: nat) {
    length <= Width(network) && Masked(network, length) == network
  }

  lemma NextMultiple(m: nat, p: nat, q: nat)
    requires p < q
    ensures m * q >= m * p + m
  {
    var d: nat := q - p - 1;
    assert m * (p + 1 + d) == m * p + m + m * d;
    assert m * d >= 0;
  }

  /** Division is determined by its rest being small. */
  lemma DivisionIsUnique(m: nat, p: nat, r: nat, q: nat, s: nat)
    requires m * p + r == m * q + s && r < m && s < m
    ensures p == q && r == s
  {
    if p < q { NextMultiple(m, p, q); } else if q < p { NextMultiple(m, q, p); }
  }

  /** What masking keeps is the bits a network is known by: a network without
      host bits holds an address exactly when masking the address to its
      length gives the network, at every length. */
  lemma HoldsIsMasked(network: Address, length: nat, a: Address)
    requires Canonical(network, length) && network.V4? == a.V4?
    ensures Holds(network, length, a) <==> Masked(a, length) == network
  {
    hide Pow2;
    KeptAlike(a.bits, network.bits, Pow2(Width(a) - length));
  }

  /** A multiple is what is kept of a number exactly when both have one quotient. */
  lemma KeptAlike(x: nat, kept: nat, m: nat)
    requires m > 0 && kept - kept % m == kept
    ensures kept / m == x / m <==> x - x % m == kept
  {
    var p, q := x / m, kept / m;
    assert x == m * p + x % m;
    assert kept == m * q + 0;
    if x - x % m == kept { DivisionIsUnique(m, p, 0, q, 0); }
  }

  lemma KeptIsMultiple(x: nat, m: nat)
    requires m > 0
    ensures (x - x % m) % m == 0 && (x - x % m) / m == x / m
  {
    var kept := x - x % m;
    assert m * (x / m) + 0 == m * (kept / m) + kept % m;
    DivisionIsUnique(m, x / m, 0, kept / m, kept % m);
  }

  lemma MaskedIsCanonical(a: Address, length: nat)
    requires length <= Width(a)
    ensures Canonical(Masked(a, length), length) && Holds(Masked(a, length), length, a)
  {
    hide Pow2;
    KeptIsMultiple(a.bits, Pow2(Width(a) - length));
  }
}

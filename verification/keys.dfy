/** What indicators are stored and asked for under, and the bitmap that keeps
    lookups of an address to the lengths in use. */
module Keys {
  import opened Base
  import opened Addresses

  /** What an indicator is about. Networks are kept as numbers, since their
      containment matters here; of the rest only equality does. */
  datatype Key =
    | Plain(tag: nat, value: string)
    | Ip(address: Address)
    | Cidr(network: Address, length: nat)

  /** Networks are canonical and are never one address: such a one is stored as an
      `Ip`. */
  predicate KeyOk(key: Key) {
    match key
    case Plain(_, _) => true
    case Ip(address) => InFamily(address)
    case Cidr(network, length) => InFamily(network) && length < Width(network) && Canonical(network, length)
  }

  /** How a network is keyed, whatever host bits it was given with. The full length
      gives the address. */
  function NetworkKey(address: Address, length: nat): Option<Key> {
    if length == Width(address) then Some(Ip(address))
    else if length < Width(address) then Some(Cidr(Masked(address, length), length))
    else None
  }

  lemma NetworkKeyIsOk(address: Address, length: nat)
    requires InFamily(address)
    ensures NetworkKey(address, length).Some? <==> length <= Width(address)
    ensures NetworkKey(address, length).Some? ==> KeyOk(NetworkKey(address, length).value)
  {
    if length <= Width(address) { MaskedIsCanonical(address, length); }
  }

  /** The lengths in use, each a bit of a bitmap of its family's width. */
  datatype PrefixLengths = PrefixLengths(v4: set<nat>, v6: set<nat>)

  const NO_LENGTHS := PrefixLengths({}, {})

  /** Sets the bit of a network's length. Other keys, and lengths outside the
      bitmap, leave it alone. */
  function AddLength(lengths: PrefixLengths, key: Key): PrefixLengths {
    match key
    case Cidr(V4(_), length) => if length < 32 then lengths.(v4 := lengths.v4 + {length}) else lengths
    case Cidr(V6(_), length) => if length < 128 then lengths.(v6 := lengths.v6 + {length}) else lengths
    case _ => lengths
  }

  predicate HasLength(lengths: PrefixLengths, address: Address, length: nat) {
    if address.V4? then length in lengths.v4 else length in lengths.v6
  }

  /** The bit of the key's own length is set, or the key needs none. */
  predicate Covers(lengths: PrefixLengths, key: Key) {
    key.Cidr? ==> HasLength(lengths, key.network, key.length)
  }

  lemma AddedIsCovered(lengths: PrefixLengths, key: Key, other: Key)
    requires KeyOk(key)
    ensures Covers(AddLength(lengths, key), key)
    ensures Covers(lengths, other) ==> Covers(AddLength(lengths, key), other)
  {
  }

  function AddLengths(lengths: PrefixLengths, keys: seq<Key>): PrefixLengths {
    if keys == [] then lengths else AddLength(AddLengths(lengths, keys[..|keys| - 1]), keys[|keys| - 1])
  }

  lemma {:induction false} AllAreCovered(lengths: PrefixLengths, keys: seq<Key>)
    requires forall key :: key in keys ==> KeyOk(key)
    ensures forall key :: key in keys ==> Covers(AddLengths(lengths, keys), key)
    ensures forall other :: Covers(lengths, other) ==> Covers(AddLengths(lengths, keys), other)
  {
    if keys != [] {
      var rest, last := keys[..|keys| - 1], keys[|keys| - 1];
      AllAreCovered(lengths, rest);
      assert keys == rest + [last];
      forall other { AddedIsCovered(AddLengths(lengths, rest), last, other); }
    }
  }

  /** One candidate for each bit set, from `below` down, masked from the address. */
  function NetworksFor(lengths: PrefixLengths, address: Address, below: nat): (r: seq<Key>)
    requires below <= Width(address)
  {
    if below == 0 then []
    else
      (if HasLength(lengths, address, below - 1) then [Cidr(Masked(address, below - 1), below - 1)] else [])
      + NetworksFor(lengths, address, below - 1)
  }

  ghost predicate LongestFirst(networks: seq<Key>) {
    && (forall i :: 0 <= i < |networks| ==> networks[i].Cidr?)
    && (forall i, j :: 0 <= i < j < |networks| ==> networks[i].length > networks[j].length)
  }

  /** They are the networks of the lengths in use that masking the address gives. */
  lemma {:induction false} NetworksAreThese(lengths: PrefixLengths, address: Address, below: nat)
    requires below <= Width(address)
    ensures forall key :: key in NetworksFor(lengths, address, below) <==>
              key.Cidr? && key.length < below && HasLength(lengths, address, key.length)
              && key.network == Masked(address, key.length)
  {
    hide Masked;
    if below > 0 { NetworksAreThese(lengths, address, below - 1); }
  }

  lemma {:induction false} NetworksAreLongestFirst(lengths: PrefixLengths, address: Address, below: nat)
    requires below <= Width(address)
    ensures LongestFirst(NetworksFor(lengths, address, below))
  {
    hide Masked;
    if below > 0 {
      var rest := NetworksFor(lengths, address, below - 1);
      NetworksAreLongestFirst(lengths, address, below - 1);
      NetworksAreThese(lengths, address, below - 1);
      forall i | 0 <= i < |rest| ensures rest[i].Cidr? && rest[i].length < below - 1 { assert rest[i] in rest; }
      hide NetworksFor, HasLength;
      LongerBefore(Cidr(Masked(address, below - 1), below - 1), rest);
    }
  }

  lemma LongerBefore(key: Key, rest: seq<Key>)
    requires key.Cidr? && LongestFirst(rest) && forall i :: 0 <= i < |rest| ==>
             rest[i].Cidr? && rest[i].length < key.length
    ensures LongestFirst([key] + rest) && [] + rest == rest
  {
  }
}

/**
 * The 'addr' message: a list of peer addresses, at most 1024 of them on the
 * wire. Covers its serialisation, the parse that rejects an oversized count
 * before reading any entry, and the AddressMessage object whose addAddress and
 * removeAddress keep the cached length in step.
 */
module Addresses {
  import opened Wrappers
  import opened Bytes
  import opened TxWire
  import opened TxRoundTrip

  /** AddressMessage.MAX_ADDRESSES. */
  const MAX_ADDRESSES: nat := 1024
  /** PeerAddress.MESSAGE_SIZE: the size of an address that carries its timestamp. */
  const MESSAGE_SIZE: nat := 30
  /** Addresses carry a 4-byte timestamp only above this protocol version. */
  const TIMESTAMP_VERSION: nat := 31402

  /** A network endpoint: last-seen time, services bitmask, 16-byte IPv6 (or IPv4-mapped) address, port. */
  datatype PeerAddress = PeerAddress(time: nat, services: nat, addr: seq<byte>, port: nat)

  predicate WellFormedAddress(a: PeerAddress)
  {
    a.time < UINT32_LIMIT && a.services < UINT64_LIMIT && |a.addr| == 16 && a.port < 0x1_0000
  }

  predicate HasTimestamp(protocolVersion: nat)
  {
    protocolVersion > TIMESTAMP_VERSION
  }

  /** PeerAddress.getMessageSize: 30 bytes, or 26 without the timestamp. */
  function AddressSize(protocolVersion: nat): nat
  {
    if HasTimestamp(protocolVersion) then MESSAGE_SIZE else MESSAGE_SIZE - 4
  }

  /** PeerAddress serialisation: [time, uint32 LE], services (uint64 LE), the address bytes, the port big-endian. */
  function EncodeAddress(a: PeerAddress, protocolVersion: nat): (r: seq<byte>)
    ensures WellFormedAddress(a) ==> |r| == AddressSize(protocolVersion)
  {
    (if HasTimestamp(protocolVersion) then ToLE(a.time, 4) else [])
    + ToLE(a.services, 8) + a.addr + [(a.port / 0x100) % 0x100, a.port % 0x100]
  }

  /** PeerAddress parse at `at`: the address and the bytes it takes, or None when the buffer is too short. */
  function ParseAddress(buf: seq<byte>, at: nat, protocolVersion: nat): (r: Option<(PeerAddress, nat)>)
    ensures r.Some? <==> at + AddressSize(protocolVersion) <= |buf|
    ensures r.Some? ==> r.value.1 == AddressSize(protocolVersion) && WellFormedAddress(r.value.0)
  {
    var t := if HasTimestamp(protocolVersion) then 4 else 0;
    if at + AddressSize(protocolVersion) > |buf| then None
    else
      var time := if HasTimestamp(protocolVersion) then ReadUint32(buf, at) else 0;
      var port := (buf[at + t + 24] as int) * 0x100 + buf[at + t + 25] as int;
      Some((PeerAddress(time, ReadUint64(buf, at + t), buf[at + t + 8..at + t + 24], port), AddressSize(protocolVersion)))
  }

  /** What parsing an encoded address gives back: without a timestamp field on the wire, the time reads as 0. */
  function AsParsedAddress(a: PeerAddress, protocolVersion: nat): PeerAddress
  {
    if HasTimestamp(protocolVersion) then a else a.(time := 0)
  }

  /** An encoded well-formed address parses back, taking its whole size. */
  lemma ParseAddressRoundTrip(buf: seq<byte>, at: nat, a: PeerAddress, protocolVersion: nat)
    requires WellFormedAddress(a) && At(buf, at, EncodeAddress(a, protocolVersion))
    ensures ParseAddress(buf, at, protocolVersion) == Some((AsParsedAddress(a, protocolVersion), AddressSize(protocolVersion)))
  {
    var head := if HasTimestamp(protocolVersion) then ToLE(a.time, 4) else [];
    var port := [(a.port / 0x100) % 0x100, a.port % 0x100];
    assert EncodeAddress(a, protocolVersion) == head + (ToLE(a.services, 8) + (a.addr + port));
    AtSplit(buf, at, head, ToLE(a.services, 8) + (a.addr + port));
    AtSplit(buf, at + |head|, ToLE(a.services, 8), a.addr + port);
    AtSplit(buf, at + |head| + 8, a.addr, port);
    if HasTimestamp(protocolVersion) {
      ReadUint32RoundTrip(buf, at, a.time);
    }
    ReadUint64RoundTrip(buf, at + |head|, a.services);
    AtSlice(buf, at + |head| + 8, a.addr);
    AtSlice(buf, at + |head| + 24, port);
  }

  function AddressStep(protocolVersion: nat): (seq<byte>, nat) -> Option<(PeerAddress, nat)>
  {
    (buf, at) => ParseAddress(buf, at, protocolVersion)
  }

  function AddressEncoder(protocolVersion: nat): PeerAddress -> seq<byte>
  {
    a => EncodeAddress(a, protocolVersion)
  }

  function AddressNorm(protocolVersion: nat): PeerAddress -> PeerAddress
  {
    a => AsParsedAddress(a, protocolVersion)
  }

  /** bitcoinSerializeToStream: the VarInt count, then each address in list order. */
  function EncodeAddressMessage(addresses: seq<PeerAddress>, protocolVersion: nat): seq<byte>
  {
    EncodeVarInt(|addresses|) + EncodeAll(AddressEncoder(protocolVersion), addresses)
  }

  /** Parse failures: a truncated buffer, or a count over MAX_ADDRESSES (the ProtocolException). */
  datatype AddressError = Malformed | TooLarge

  /**
   * AddressMessage.parse at `offset`: the addresses and the bytes consumed. A count over 1024 is rejected
   * as soon as it is read, whatever follows it.
   */
  function ParseAddressMessage(buf: seq<byte>, offset: nat, protocolVersion: nat)
    : (r: Result<(seq<PeerAddress>, nat), AddressError>)
    ensures r == Failure(TooLarge) <==> ReadVarInt(buf, offset).Some? && ReadVarInt(buf, offset).value.0 > MAX_ADDRESSES
    ensures r.Success? ==> ReadVarInt(buf, offset).Some? && |r.value.0| == ReadVarInt(buf, offset).value.0 <= MAX_ADDRESSES
  {
    match ReadVarInt(buf, offset)
    case None => Failure(Malformed)
    case Some((count, size)) =>
      if count > MAX_ADDRESSES then Failure(TooLarge)
      else
        match ParseListFrom(AddressStep(protocolVersion), buf, offset + size, count, [])
        case None => Failure(Malformed)
        case Some((addresses, cursor)) => Success((addresses, cursor - offset))
  }

  /** Well-formed addresses encode to AddressSize bytes each. */
  lemma {:induction false} AddressesSize(addresses: seq<PeerAddress>, protocolVersion: nat)
    requires forall a <- addresses :: WellFormedAddress(a)
    ensures |EncodeAll(AddressEncoder(protocolVersion), addresses)| == |addresses| * AddressSize(protocolVersion)
  {
    hide EncodeAddress;
    if addresses != [] {
      var n := |addresses|;
      var size := AddressSize(protocolVersion);
      assert WellFormedAddress(addresses[0]) by {
        assert addresses[0] in addresses;
      }
      assert |AddressEncoder(protocolVersion)(addresses[0])| == size;
      AddressesSize(addresses[1..], protocolVersion);
      assert (n - 1) * size + size == n * size;
    }
  }

  /** getMessageSize's formula, the count's VarInt size plus a fixed size per address, is the serialised size. */
  function DerivedSize(count: nat, protocolVersion: nat): nat
  {
    VarIntSize(count) + count * AddressSize(protocolVersion)
  }

  lemma EncodedMessageSize(addresses: seq<PeerAddress>, protocolVersion: nat)
    requires forall a <- addresses :: WellFormedAddress(a)
    ensures |EncodeAddressMessage(addresses, protocolVersion)| == DerivedSize(|addresses|, protocolVersion)
  {
    AddressesSize(addresses, protocolVersion);
  }

  /** Every list step reads AddressSize bytes, so the list of `count` addresses ends count * AddressSize later. */
  lemma {:induction false} ParsedListEnd(buf: seq<byte>, cursor: nat, count: nat, acc: seq<PeerAddress>, protocolVersion: nat)
    requires ParseListFrom(AddressStep(protocolVersion), buf, cursor, count, acc).Some?
    ensures ParseListFrom(AddressStep(protocolVersion), buf, cursor, count, acc).value.1
            == cursor + count * AddressSize(protocolVersion)
    decreases count
  {
    if count > 0 {
      var (a, size) := ParseAddress(buf, cursor, protocolVersion).value;
      ParsedListEnd(buf, cursor + size, count - 1, acc + [a], protocolVersion);
    }
  }

  /** The length parse records is the count's VarInt width plus AddressSize per address read. */
  lemma ParsedLength(buf: seq<byte>, offset: nat, protocolVersion: nat)
    requires ParseAddressMessage(buf, offset, protocolVersion).Success?
    ensures var (addresses, length) := ParseAddressMessage(buf, offset, protocolVersion).value;
            length == ReadVarInt(buf, offset).value.1 + |addresses| * AddressSize(protocolVersion)
  {
    var (count, size) := ReadVarInt(buf, offset).value;
    ParsedListEnd(buf, offset + size, count, [], protocolVersion);
  }

  lemma AddressesReadBack(buf: seq<byte>, at: nat, addresses: seq<PeerAddress>, protocolVersion: nat)
    requires forall a <- addresses :: WellFormedAddress(a)
    requires At(buf, at, EncodeAll(AddressEncoder(protocolVersion), addresses))
    ensures ParseListFrom(AddressStep(protocolVersion), buf, at, |addresses|, [])
            == Some((MapAll(AddressNorm(protocolVersion), addresses),
                     at + |EncodeAll(AddressEncoder(protocolVersion), addresses)|))
  {
    hide EncodeAll, ParseListFrom, MapAll, ParseAddress, EncodeAddress, At;
    forall a, p: nat | a in addresses && At(buf, p, AddressEncoder(protocolVersion)(a))
      ensures AddressStep(protocolVersion)(buf, p) == Some((AddressNorm(protocolVersion)(a), |AddressEncoder(protocolVersion)(a)|))
    {
      ParseAddressRoundTrip(buf, p, a, protocolVersion);
    }
    ListRoundTrip(AddressStep(protocolVersion), AddressEncoder(protocolVersion), AddressNorm(protocolVersion), buf, at, addresses);
  }

  /** A serialised message of at most 1024 well-formed addresses parses back to them, consuming all of it. */
  lemma ParseSerializedMessage(buf: seq<byte>, offset: nat, addresses: seq<PeerAddress>, protocolVersion: nat)
    requires |addresses| <= MAX_ADDRESSES && forall a <- addresses :: WellFormedAddress(a)
    requires At(buf, offset, EncodeAddressMessage(addresses, protocolVersion))
    ensures ParseAddressMessage(buf, offset, protocolVersion)
            == Success((MapAll(AddressNorm(protocolVersion), addresses), |EncodeAddressMessage(addresses, protocolVersion)|))
  {
    hide EncodeAll, ParseListFrom, ReadVarInt, MapAll, At;
    var count := EncodeVarInt(|addresses|);
    AtSplit(buf, offset, count, EncodeAll(AddressEncoder(protocolVersion), addresses));
    VarIntRoundTrip(buf, offset, |addresses|);
    AddressesReadBack(buf, offset + |count|, addresses, protocolVersion);
  }

  /** A payload whose count says 1025 is rejected whatever follows it. */
  lemma RejectsOversizedCount(rest: seq<byte>, protocolVersion: nat)
    ensures ParseAddressMessage([253, 0x01, 0x04] + rest, 0, protocolVersion) == Failure(TooLarge)
  {
    var buf := [253, 0x01, 0x04] + rest;
    assert buf[0] == 253 && buf[1] == 0x01 && buf[2] == 0x04;
    assert ReadLE(buf, 1, 2) == 1025;
    assert ReadVarInt(buf, 0) == Some((1025, 3));
  }

  // ---------------------------------------------------------------------
  // The message object's list and cached length

  /** The part of AddressMessage that addAddress, removeAddress and getMessageSize change. */
  datatype Listing = Listing(addresses: seq<PeerAddress>, length: int)

  /** getMessageSize: a known length stands; an unknown one is derived from the count. */
  function Sized(s: Listing, protocolVersion: nat): Listing
  {
    if s.length == UNKNOWN_LENGTH then s.(length := DerivedSize(|s.addresses|, protocolVersion)) else s
  }

  /** addAddress: appended; a known length grows by the address's size, an unknown one is derived. */
  function Added(s: Listing, a: PeerAddress, protocolVersion: nat): Listing
  {
    var addresses := s.addresses + [a];
    if s.length == UNKNOWN_LENGTH then Sized(Listing(addresses, UNKNOWN_LENGTH), protocolVersion)
    else Listing(addresses, s.length + AddressSize(protocolVersion))
  }

  /**
   * removeAddress(index): the address at `index` is taken out and the others keep their order; a known
   * length shrinks by the address's size, an unknown one is derived. An index out of range (the
   * IndexOutOfBoundsException) removes nothing.
   */
  function Removed(s: Listing, index: int, protocolVersion: nat): (Option<PeerAddress>, Listing)
  {
    if !(0 <= index < |s.addresses|) then (None, s)
    else
      var addresses := s.addresses[..index] + s.addresses[index + 1..];
      (Some(s.addresses[index]),
       if s.length == UNKNOWN_LENGTH then Sized(Listing(addresses, UNKNOWN_LENGTH), protocolVersion)
       else Listing(addresses, s.length - AddressSize(protocolVersion)))
  }

  /** The cached length is the size of the serialisation. */
  predicate LengthExact(s: Listing, protocolVersion: nat)
  {
    s.length == |EncodeAddressMessage(s.addresses, protocolVersion)|
  }

  /** getMessageSize leaves the length exact for well-formed addresses, whether it was known or derived. */
  lemma SizedExact(s: Listing, protocolVersion: nat)
    requires forall a <- s.addresses :: WellFormedAddress(a)
    requires s.length == UNKNOWN_LENGTH || LengthExact(s, protocolVersion)
    ensures LengthExact(Sized(s, protocolVersion), protocolVersion)
    ensures Sized(s, protocolVersion).addresses == s.addresses
  {
    EncodedMessageSize(s.addresses, protocolVersion);
  }

  /**
   * After addAddress a derived length is exact; a known exact length stays exact exactly when the count's
   * VarInt keeps its width, since only the address's own size is added.
   */
  lemma AddedLength(s: Listing, a: PeerAddress, protocolVersion: nat)
    requires WellFormedAddress(a) && forall x <- s.addresses :: WellFormedAddress(x)
    ensures s.length == UNKNOWN_LENGTH ==> LengthExact(Added(s, a, protocolVersion), protocolVersion)
    ensures LengthExact(s, protocolVersion) ==>
              (LengthExact(Added(s, a, protocolVersion), protocolVersion)
               <==> VarIntSize(|s.addresses|) == VarIntSize(|s.addresses| + 1))
  {
    EncodedMessageSize(s.addresses, protocolVersion);
    EncodedMessageSize(s.addresses + [a], protocolVersion);
  }

  /** The same for removeAddress. */
  lemma RemovedLength(s: Listing, index: int, protocolVersion: nat)
    requires 0 <= index < |s.addresses| && forall x <- s.addresses :: WellFormedAddress(x)
    ensures var s' := Removed(s, index, protocolVersion).1;
            (s.length == UNKNOWN_LENGTH ==> LengthExact(s', protocolVersion))
            && (LengthExact(s, protocolVersion) ==>
                  (LengthExact(s', protocolVersion) <==> VarIntSize(|s.addresses|) == VarIntSize(|s.addresses| - 1)))
  {
    hide EncodeAddressMessage, EncodeAll, EncodeAddress;
    var rest := s.addresses[..index] + s.addresses[index + 1..];
    assert Removed(s, index, protocolVersion).1.addresses == rest;
    assert forall j :: 0 <= j < |rest| ==> rest[j] == s.addresses[if j < index then j else j + 1];
    EncodedMessageSize(s.addresses, protocolVersion);
    EncodedMessageSize(rest, protocolVersion);
  }

  /** addAddress then removeAddress of the last index gives back the list and a known length. */
  lemma AddThenRemoveRestores(s: Listing, a: PeerAddress, protocolVersion: nat)
    requires s.length >= 0
    ensures Removed(Added(s, a, protocolVersion), |s.addresses|, protocolVersion) == (Some(a), s)
  {
    var added := s.addresses + [a];
    assert added[..|s.addresses|] == s.addresses;
    assert added[|s.addresses| + 1..] == [];
    assert added[..|s.addresses|] + added[|s.addresses| + 1..] == s.addresses;
  }

  /** Removing an address and adding it back yields the same multiset of addresses, the removed one last. */
  lemma RemoveThenAddSameAddresses(s: Listing, index: int, protocolVersion: nat)
    requires 0 <= index < |s.addresses|
    ensures var (removed, s') := Removed(s, index, protocolVersion);
            removed.Some? && multiset(Added(s', removed.value, protocolVersion).addresses) == multiset(s.addresses)
  {
    assert s.addresses == s.addresses[..index] + [s.addresses[index]] + s.addresses[index + 1..];
  }

  class AddressMessage {
    var addresses: seq<PeerAddress>
    /** The cached length (Message.length), or UNKNOWN_LENGTH. */
    var length: int
    const protocolVersion: nat

    function State(): Listing
      reads this
    {
      Listing(addresses, length)
    }

    constructor (addresses: seq<PeerAddress>, length: int, protocolVersion: nat)
      ensures State() == Listing(addresses, length) && this.protocolVersion == protocolVersion
    {
      this.addresses := addresses;
      this.length := length;
      this.protocolVersion := protocolVersion;
    }

    /**
     * The constructors from a payload, which run parse: the count is read and checked against
     * MAX_ADDRESSES before any address is read, then the loop reads that many addresses and the length is
     * the bytes consumed.
     */
    static method Parse(buf: seq<byte>, offset: nat, protocolVersion: nat) returns (r: Result<AddressMessage, AddressError>)
      ensures r.Failure? <==> ParseAddressMessage(buf, offset, protocolVersion).Failure?
      ensures r.Failure? ==> r.error == ParseAddressMessage(buf, offset, protocolVersion).error
      ensures r.Success? ==> fresh(r.value) && r.value.protocolVersion == protocolVersion
                             && r.value.State() == Listing(ParseAddressMessage(buf, offset, protocolVersion).value.0,
                                                          ParseAddressMessage(buf, offset, protocolVersion).value.1)
    {
      var varint := ReadVarInt(buf, offset);
      if varint.None? {
        return Failure(Malformed);
      }
      var (numAddresses, size) := varint.value;
      if numAddresses > MAX_ADDRESSES {
        return Failure(TooLarge);
      }
      var parsed := ParseListLoop(AddressStep(protocolVersion), buf, offset + size, numAddresses);
      if parsed.None? {
        return Failure(Malformed);
      }
      var (addresses, cursor) := parsed.value;
      var m := new AddressMessage(addresses, cursor - offset, protocolVersion);
      return Success(m);
    }

    /** bitcoinSerializeToStream: the count, then the addresses in order. */
    method Serialize() returns (bytes: seq<byte>)
      ensures bytes == EncodeAddressMessage(addresses, protocolVersion)
    {
      bytes := EncodeVarInt(|addresses|);
      var i := 0;
      while i < |addresses|
        invariant 0 <= i <= |addresses|
        invariant bytes == EncodeVarInt(|addresses|) + EncodeAll(AddressEncoder(protocolVersion), addresses[..i])
      {
        EncodeAllAppend(AddressEncoder(protocolVersion), addresses[..i], addresses[i]);
        assert addresses[..i + 1] == addresses[..i] + [addresses[i]];
        bytes := bytes + EncodeAddress(addresses[i], protocolVersion);
        i := i + 1;
      }
      assert addresses[..i] == addresses;
    }

    /** getMessageSize: the cached length, derived from the count when unknown and then cached. */
    method GetMessageSize() returns (size: int)
      modifies this
      ensures State() == Sized(old(State()), protocolVersion) && size == length
    {
      if length != UNKNOWN_LENGTH {
        return length;
      }
      length := VarIntSize(|addresses|);
      length := length + |addresses| * (if protocolVersion > TIMESTAMP_VERSION then MESSAGE_SIZE else MESSAGE_SIZE - 4);
      return length;
    }

    /** addAddress. */
    method AddAddress(address: PeerAddress)
      modifies this
      ensures State() == Added(old(State()), address, protocolVersion)
    {
      addresses := addresses + [address];
      if length == UNKNOWN_LENGTH {
        var _ := GetMessageSize();
      } else {
        length := length + AddressSize(protocolVersion);
      }
    }

    /** removeAddress(index): the removed address, or None (the exception) when `index` is out of range. */
    method RemoveAddress(index: int) returns (removed: Option<PeerAddress>)
      modifies this
      ensures (removed, State()) == Removed(old(State()), index, protocolVersion)
    {
      if !(0 <= index < |addresses|) {
        return None;
      }
      var address := addresses[index];
      addresses := addresses[..index] + addresses[index + 1..];
      if length == UNKNOWN_LENGTH {
        var _ := GetMessageSize();
      } else {
        length := length - AddressSize(protocolVersion);
      }
      return Some(address);
    }
  }
}

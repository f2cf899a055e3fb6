/** `rip_packet.rs`: the RIP header and entries, their big-endian wire form, and the parser. */
module RipPacket {
  import opened Wrappers

  datatype RipHeader = RipHeader(command: byte, version: byte, padding: u16)

  datatype RipEntry = RipEntry(
    routingFamilyId: u16,
    routeTag: u16,
    ipAddress: u32,
    subnetMask: u32,
    nextHop: u32,
    metric: u32)
  {
    /** `to_be`: every field as the integer whose host representation is its big-endian bytes. */
    function ToBe(order: HostOrder): RipEntry {
      RipEntry(
        ToBe16(routingFamilyId, order), ToBe16(routeTag, order), ToBe32(ipAddress, order),
        ToBe32(subnetMask, order), ToBe32(nextHop, order), ToBe32(metric, order))
    }
  }

  datatype RipIfInfo = RipIfInfo(ifName: string, ifIndex: u32)

  datatype RipPacketData = RipPacketData(header: RipHeader, entries: seq<RipEntry>) {
    predicate IsRequest() {
      header.command == RIP_CMD_REQUEST && |entries| == 1 && entries[0] == RIP_ENTRY_REQUEST
    }

    predicate IsResponse() {
      header.command == RIP_CMD_RESPONSE
    }
  }

  /** A received datagram; `source` and `port` are the two parts of its sender address. */
  datatype RipPacket = RipPacket(data: RipPacketData, ifInfo: RipIfInfo, source: u32, port: u16)

  const RIP_HEADER_SIZE := 4
  const RIP_ENTRY_SIZE := 20
  const RIP_ENTRY_REQUEST := RipEntry(0, 0, 0, 0, 0, 16)

  // ----- integers and bytes

  datatype HostOrder = LittleEndian | BigEndian

  function FromBe16(b: seq<byte>): u16
    requires |b| == 2
  {
    b[0] as int * 0x100 + b[1]
  }

  function FromBe32(b: seq<byte>): u32
    requires |b| == 4
  {
    b[0] as int * 0x100_0000 + b[1] as int * 0x1_0000 + b[2] as int * 0x100 + b[3]
  }

  /** The bytes of an integer as they lie in the memory of a host of the given byte order. */
  function Memory16(x: u16, order: HostOrder): (b: seq<byte>)
    ensures |b| == 2
  {
    match order
    case BigEndian => [x / 0x100, x % 0x100]
    case LittleEndian => [x % 0x100, x / 0x100]
  }

  function Memory32(x: u32, order: HostOrder): (b: seq<byte>)
    ensures |b| == 4
  {
    match order
    case BigEndian => [x / 0x100_0000, x / 0x1_0000 % 0x100, x / 0x100 % 0x100, x % 0x100]
    case LittleEndian => [x % 0x100, x / 0x100 % 0x100, x / 0x1_0000 % 0x100, x / 0x100_0000]
  }

  /** `to_be`: the identity on a big-endian host, a byte swap on a little-endian one. */
  function ToBe16(x: u16, order: HostOrder): u16 {
    match order
    case BigEndian => x
    case LittleEndian => FromBe16(Memory16(x, LittleEndian))
  }

  function ToBe32(x: u32, order: HostOrder): u32 {
    match order
    case BigEndian => x
    case LittleEndian => FromBe32(Memory32(x, LittleEndian))
  }

  /** `as_bytes` of the `repr(C)` entry, which has no padding. */
  function EntryMemory(e: RipEntry, order: HostOrder): (b: seq<byte>)
    ensures |b| == RIP_ENTRY_SIZE
  {
    Memory16(e.routingFamilyId, order) + Memory16(e.routeTag, order) + Memory32(e.ipAddress, order)
    + Memory32(e.subnetMask, order) + Memory32(e.nextHop, order) + Memory32(e.metric, order)
  }

  function HeaderMemory(h: RipHeader, order: HostOrder): (b: seq<byte>)
    ensures |b| == RIP_HEADER_SIZE
  {
    [h.command, h.version] + Memory16(h.padding, order)
  }

  /** The wire form of an entry: each field big-endian, in the order of section 4 of RFC 2453. */
  function EntryBytes(e: RipEntry): (b: seq<byte>)
    ensures |b| == RIP_ENTRY_SIZE
  {
    EntryMemory(e, BigEndian)
  }

  lemma ToBeMemory16(x: u16, order: HostOrder)
    ensures Memory16(ToBe16(x, order), order) == Memory16(x, BigEndian)
  {
  }

  lemma ToBeMemory32(x: u32, order: HostOrder)
    ensures Memory32(ToBe32(x, order), order) == Memory32(x, BigEndian)
  {
    if order == LittleEndian {
      var a, b, c, d := x / 0x100_0000, x / 0x1_0000 % 0x100, x / 0x100 % 0x100, x % 0x100;
      SplitWord(d, c, b, a);
    }
  }

  /** Four bytes are recovered from the word they make up. */
  lemma SplitWord(a: byte, b: byte, c: byte, d: byte)
    ensures var x := a * 0x100_0000 + b * 0x1_0000 + c * 0x100 + d;
            && x / 0x100_0000 == a
            && x / 0x1_0000 % 0x100 == b
            && x / 0x100 % 0x100 == c
            && x % 0x100 == d
  {
    var x := a * 0x100_0000 + b * 0x1_0000 + c * 0x100 + d;
    assert x / 0x1_0000 == a * 0x100 + b;
    assert x / 0x100 == (a * 0x100 + b) * 0x100 + c;
  }

  lemma FromBeInvertsMemory(x: u32)
    ensures FromBe32(Memory32(x, BigEndian)) == x
  {
    var y := x / 0x100;
    var z := y / 0x100;
    assert x / 0x1_0000 == z;
    assert x / 0x100_0000 == z / 0x100;
    assert x == y * 0x100 + x % 0x100 && y == z * 0x100 + y % 0x100 && z == z / 0x100 * 0x100 + z % 0x100;
  }

  lemma MemoryInvertsFromBe(b: seq<byte>)
    requires |b| == 4
    ensures Memory32(FromBe32(b), BigEndian) == b
  {
    SplitWord(b[0], b[1], b[2], b[3]);
  }

  /** On a host of either byte order, `to_be` then `as_bytes` yields the same wire form. */
  lemma WireFormIsHostIndependent(e: RipEntry, order: HostOrder)
    ensures EntryMemory(e.ToBe(order), order) == EntryBytes(e)
  {
    if order == LittleEndian {
      ToBeMemory16(e.routingFamilyId, order);
      ToBeMemory16(e.routeTag, order);
      ToBeMemory32(e.ipAddress, order);
      ToBeMemory32(e.subnetMask, order);
      ToBeMemory32(e.nextHop, order);
      ToBeMemory32(e.metric, order);
    }
  }

  // ----- parsing

  function HeaderFromSlice(data: seq<byte>): RipResult<RipHeader> {
    if |data| != RIP_HEADER_SIZE then Failure(MalformedPacket)
    else Success(RipHeader(data[0], data[1], FromBe16(data[2..4])))
  }

  function EntryFromSlice(data: seq<byte>): RipResult<RipEntry> {
    if |data| != RIP_ENTRY_SIZE then Failure(MalformedPacket)
    else Success(RipEntry(
      FromBe16(data[0..2]), FromBe16(data[2..4]), FromBe32(data[4..8]),
      FromBe32(data[8..12]), FromBe32(data[12..16]), FromBe32(data[16..20])))
  }

  /** The concatenated wire forms of a list of entries. */
  function EntriesBytes(entries: seq<RipEntry>): (b: seq<byte>)
    ensures |b| == RIP_ENTRY_SIZE * |entries|
  {
    if entries == [] then [] else EntryBytes(entries[0]) + EntriesBytes(entries[1..])
  }

  lemma EntryRoundTrip(e: RipEntry)
    ensures EntryFromSlice(EntryBytes(e)) == Success(e)
  {
    var b := EntryBytes(e);
    assert b[0..2] == Memory16(e.routingFamilyId, BigEndian);
    assert b[2..4] == Memory16(e.routeTag, BigEndian);
    assert b[4..8] == Memory32(e.ipAddress, BigEndian);
    assert b[8..12] == Memory32(e.subnetMask, BigEndian);
    assert b[12..16] == Memory32(e.nextHop, BigEndian);
    assert b[16..20] == Memory32(e.metric, BigEndian);
    FromBeInvertsMemory(e.ipAddress);
    FromBeInvertsMemory(e.subnetMask);
    FromBeInvertsMemory(e.nextHop);
    FromBeInvertsMemory(e.metric);
  }

  lemma EntryBytesOfParsed(data: seq<byte>)
    requires |data| == RIP_ENTRY_SIZE
    ensures EntryFromSlice(data).Success? && EntryBytes(EntryFromSlice(data).value) == data
  {
    MemoryInvertsFromBe(data[4..8]);
    MemoryInvertsFromBe(data[8..12]);
    MemoryInvertsFromBe(data[12..16]);
    MemoryInvertsFromBe(data[16..20]);
    assert data == data[0..2] + data[2..4] + data[4..8] + data[8..12] + data[12..16] + data[16..20];
  }

  /** The entries of a datagram body. */
  function ParseEntries(data: seq<byte>): (entries: seq<RipEntry>)
    requires |data| % RIP_ENTRY_SIZE == 0
  {
    if data == [] then []
    else [EntryFromSlice(data[..RIP_ENTRY_SIZE]).value] + ParseEntries(data[RIP_ENTRY_SIZE..])
  }

  /** A datagram is well formed when it is a header followed by whole entries. */
  function ParsePacket(data: seq<byte>): RipResult<RipPacketData> {
    if |data| < RIP_HEADER_SIZE || (|data| - RIP_HEADER_SIZE) % RIP_ENTRY_SIZE != 0 then Failure(MalformedPacket)
    else
      Success(RipPacketData(HeaderFromSlice(data[..RIP_HEADER_SIZE]).value, ParseEntries(data[RIP_HEADER_SIZE..])))
  }

  /** `RipPacketData::from_slice`. The subtraction wraps as in a release build, where the size
      test then also rejects every datagram shorter than a header. */
  method FromSlice(data: seq<byte>) returns (r: RipResult<RipPacketData>)
    requires |data| < U64_COUNT
    ensures r == ParsePacket(data)
  {
    if (|data| - RIP_HEADER_SIZE) % U64_COUNT % RIP_ENTRY_SIZE != 0 {
      return Failure(MalformedPacket);
    }
    // The two inner parsers fail on slices of another length only, so `?` never returns here.
    var header := HeaderFromSlice(data[..RIP_HEADER_SIZE]).value;
    var rest := data[RIP_HEADER_SIZE..];
    var entries: seq<RipEntry> := [];
    while |rest| > 0
      invariant |rest| % RIP_ENTRY_SIZE == 0
      invariant entries + ParseEntries(rest) == ParseEntries(data[RIP_HEADER_SIZE..])
    {
      var entry := EntryFromSlice(rest[..RIP_ENTRY_SIZE]).value;
      rest := rest[RIP_ENTRY_SIZE..];
      entries := entries + [entry];
    }
    assert rest == [] && entries + [] == entries;
    r := Success(RipPacketData(header, entries));
  }

  /** Parsing gives back exactly the encoded list. */
  lemma {:induction false} ParseInvertsEncode(entries: seq<RipEntry>)
    ensures |EntriesBytes(entries)| % RIP_ENTRY_SIZE == 0 && ParseEntries(EntriesBytes(entries)) == entries
  {
    hide EntryBytes, EntryFromSlice;
    if entries == [] {
    } else {
      EntryRoundTrip(entries[0]);
      ParseInvertsEncode(entries[1..]);
      var data := EntriesBytes(entries);
      assert data[..RIP_ENTRY_SIZE] == EntryBytes(entries[0]);
      assert data[RIP_ENTRY_SIZE..] == EntriesBytes(entries[1..]);
    }
  }

  /** Encoding what was parsed restores the bytes. */
  lemma {:induction false} EncodeInvertsParse(data: seq<byte>)
    requires |data| % RIP_ENTRY_SIZE == 0
    ensures EntriesBytes(ParseEntries(data)) == data
  {
    if data == [] {
    } else {
      EntryBytesOfParsed(data[..RIP_ENTRY_SIZE]);
      EncodeInvertsParse(data[RIP_ENTRY_SIZE..]);
      assert data == data[..RIP_ENTRY_SIZE] + data[RIP_ENTRY_SIZE..];
    }
  }

  lemma {:induction false} EntriesBytesAppend(entries: seq<RipEntry>, e: RipEntry)
    ensures EntriesBytes(entries + [e]) == EntriesBytes(entries) + EntryBytes(e)
  {
    var all, b := entries + [e], EntryBytes(e);
    if entries == [] {
      assert all == [e] && all[1..] == [];
      assert EntriesBytes(all) == b + [];
    } else {
      EntriesBytesAppend(entries[1..], e);
      assert all[0] == entries[0] && all[1..] == entries[1..] + [e];
      var first, rest := EntryBytes(entries[0]), EntriesBytes(entries[1..]);
      assert first + (rest + b) == (first + rest) + b;
    }
  }
}

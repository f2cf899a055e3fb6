/** The wire format by octets: where each field of each entry lies in a datagram (sections 3.6 and 4
    of RFC 2453). */
module WireLayout {
  import opened Wrappers
  import opened RipPacket
  import opened Updater

  /** Two octets in network order. */
  function HalfAt(b: seq<byte>, i: nat): int
    requires i + 2 <= |b|
  {
    b[i] as int * 256 + b[i + 1]
  }

  /** Four octets in network order. */
  function WordAt(b: seq<byte>, i: nat): int
    requires i + 4 <= |b|
  {
    HalfAt(b, i) * 65536 + HalfAt(b, i + 2)
  }

  /** The entry occupies the 20 octets from i on: family, tag, address, mask, next hop, metric. */
  predicate IsAt(e: RipEntry, b: seq<byte>, i: nat)
    requires i + 20 <= |b|
  {
    && HalfAt(b, i) == e.routingFamilyId && HalfAt(b, i + 2) == e.routeTag
    && WordAt(b, i + 4) == e.ipAddress && WordAt(b, i + 8) == e.subnetMask
    && WordAt(b, i + 12) == e.nextHop && WordAt(b, i + 16) == e.metric
  }

  lemma ParsedEntryIsAt(b: seq<byte>)
    requires |b| == 20
    ensures EntryFromSlice(b).Success? && IsAt(EntryFromSlice(b).value, b, 0)
  {
  }

  lemma {:induction false} EntryCount(b: seq<byte>)
    requires |b| % 20 == 0
    ensures |ParseEntries(b)| == |b| / 20
  {
    hide EntryFromSlice;
    if b != [] {
      EntryCount(b[20..]);
    }
  }

  lemma {:induction false} ParsedEntriesAreAt(b: seq<byte>, i: nat)
    requires |b| % 20 == 0 && 20 * i < |b|
    ensures |ParseEntries(b)| == |b| / 20
    ensures IsAt(ParseEntries(b)[i], b, 20 * i)
  {
    hide EntryFromSlice, IsAt;
    EntryCount(b);
    if i == 0 {
      ParsedEntryIsAt(b[..20]);
      AtPrefix(ParseEntries(b)[0], b);
    } else {
      ParsedEntriesAreAt(b[20..], i - 1);
      AtShifted(ParseEntries(b)[i], b, 20, 20 * (i - 1));
    }
  }

  lemma AtPrefix(e: RipEntry, b: seq<byte>)
    requires |b| >= 20
    ensures IsAt(e, b[..20], 0) <==> IsAt(e, b, 0)
  {
  }

  /** Every datagram of 4 octets and any number of times 20 more is a packet, and no other is:
      command, version, padding, and the entries one after the other. */
  lemma PacketLayout(data: seq<byte>)
    ensures ParsePacket(data).Success? <==> |data| >= 4 && (|data| - 4) % 20 == 0
    ensures ParsePacket(data).Success? ==>
              var p := ParsePacket(data).value;
              && p.header.command == data[0] && p.header.version == data[1] && p.header.padding == HalfAt(data, 2)
              && |p.entries| == (|data| - 4) / 20
              && forall i :: 0 <= i < |p.entries| ==> IsAt(p.entries[i], data, 4 + 20 * i)
  {
    hide EntryFromSlice, ParseEntries, IsAt;
    if ParsePacket(data).Success? {
      var body := data[4..];
      EntryCount(body);
      forall i | 0 <= i < (|data| - 4) / 20 ensures IsAt(ParseEntries(body)[i], data, 4 + 20 * i) {
        ParsedEntriesAreAt(body, i);
        AtShifted(ParseEntries(body)[i], data, 4, 20 * i);
      }
    }
  }

  lemma AtShifted(e: RipEntry, data: seq<byte>, offset: nat, i: nat)
    requires offset + i + 20 <= |data|
    ensures IsAt(e, data[offset..], i) <==> IsAt(e, data, offset + i)
  {
  }

  /** A response is the octets 2, 2, 0, 0 and the entries. */
  lemma ResponseLayout(entries: seq<RipEntry>)
    ensures var data := ResponseBytes(entries);
            && |data| == 4 + 20 * |entries| && data[..4] == [2, 2, 0, 0]
            && forall i :: 0 <= i < |entries| ==> IsAt(entries[i], data, 4 + 20 * i)
  {
    hide IsAt, ParsePacket;
    ParseResponse(entries);
    PacketLayout(ResponseBytes(entries));
  }

  /** A whole-table request is 24 octets, all zero but the command, the version and the last; one
      goes out on each interface. */
  lemma RequestLayout(interfaces: seq<u32>, n: nat)
    requires n < |interfaces|
    ensures |Requests(interfaces)| == |interfaces|
    ensures var d := Requests(interfaces)[n];
            && d.target == Multicast && d.ifIndex == interfaces[n] && |d.data| == 24
            && forall i :: 0 <= i < 24 ==>
                 d.data[i] == if i == 0 then 1 else if i == 1 then 2 else if i == 23 then 16 else 0
  {
    var data := RequestBytes();
    assert Requests(interfaces)[n] == Datagram(interfaces[n], Multicast, data);
    assert data[..4] == HeaderMemory(REQUEST_HEADER, BigEndian) && data[4..] == EntryBytes(RIP_ENTRY_REQUEST);
    forall i | 0 <= i < 24 ensures data[i] == if i == 0 then 1 else if i == 1 then 2 else if i == 23 then 16 else 0 {
      assert data[i] == if i < 4 then data[..4][i] else data[4..][i - 4];
    }
  }
}

/** `rip_updater.rs`: response datagrams of at most 25 entries, and their transmission. The
    sockets are represented by the list of datagrams that were handed to them. */
module Updater {
  import opened Wrappers
  import opened RipPacket
  import opened RouteTables
  import opened Database

  const RIP_RESPONSE_MAX_ENTRIES := 25

  const RESPONSE_HEADER := RipHeader(RIP_CMD_RESPONSE, RIP_2_VERSION, 0)
  const REQUEST_HEADER := RipHeader(RIP_CMD_REQUEST, RIP_2_VERSION, 0)

  // ----- building datagrams

  /** The wire form of a response. */
  function ResponseBytes(entries: seq<RipEntry>): (b: seq<byte>)
    ensures |b| == RIP_HEADER_SIZE + RIP_ENTRY_SIZE * |entries|
  {
    HeaderMemory(RESPONSE_HEADER, BigEndian) + EntriesBytes(entries)
  }

  /** `build_response_buffer`, on a host of either byte order. The header is not converted: its
      only multi-byte field is zero. */
  method BuildResponseBuffer(entries: seq<RipEntry>, host: HostOrder) returns (buffer: array<byte>)
    ensures fresh(buffer) && buffer[..] == ResponseBytes(entries)
  {
    hide EntryBytes, EntriesBytes;
    buffer := new byte[RIP_HEADER_SIZE + |entries| * RIP_ENTRY_SIZE](_ => 0);
    var header := HeaderMemory(RESPONSE_HEADER, host);
    CopyFromSlice(buffer, 0, header);
    EntriesBytesPrefix(entries, 0);
    for index := 0 to |entries|
      invariant buffer.Length == RIP_HEADER_SIZE + |entries| * RIP_ENTRY_SIZE
      invariant buffer[..RIP_HEADER_SIZE + index * RIP_ENTRY_SIZE]
             == header + EntriesBytes(entries)[..index * RIP_ENTRY_SIZE]
    {
      var bytes := WireBytes(entries[index], host);
      EntriesBytesPrefix(entries, index);
      CopyFromSlice(buffer, RIP_HEADER_SIZE + index * RIP_ENTRY_SIZE, bytes);
    }
    assert buffer[..] == buffer[..RIP_HEADER_SIZE + |entries| * RIP_ENTRY_SIZE];
  }

  /** The place of each entry in the wire form of a list. */
  lemma {:induction false} EntriesBytesPrefix(entries: seq<RipEntry>, n: nat)
    requires n <= |entries|
    ensures n < |entries| ==>
              EntriesBytes(entries)[..(n + 1) * RIP_ENTRY_SIZE] == EntriesBytes(entries)[..n * RIP_ENTRY_SIZE]
                  + EntryBytes(entries[n])
  {
    hide EntryBytes;
    if n == 0 {
    } else if n < |entries| {
      EntriesBytesPrefix(entries[1..], n - 1);
      var first, rest := EntryBytes(entries[0]), EntriesBytes(entries[1..]);
      assert (first + rest)[..(n + 1) * RIP_ENTRY_SIZE] == first + rest[..n * RIP_ENTRY_SIZE];
      assert (first + rest)[..n * RIP_ENTRY_SIZE] == first + rest[..(n - 1) * RIP_ENTRY_SIZE];
    }
  }

  method WireBytes(entry: RipEntry, host: HostOrder) returns (bytes: seq<byte>)
    ensures bytes == EntryBytes(entry)
  {
    WireFormIsHostIndependent(entry, host);
    bytes := EntryMemory(entry.ToBe(host), host);
  }

  method CopyFromSlice(buffer: array<byte>, offset: nat, bytes: seq<byte>)
    requires offset + |bytes| <= buffer.Length
    modifies buffer
    ensures buffer[..offset + |bytes|] == old(buffer[..offset]) + bytes
  {
    forall j | offset <= j < offset + |bytes| {
      buffer[j] := bytes[j - offset];
    }
  }

  /** `chunks(25)` */
  function Chunks(entries: seq<RipEntry>): (chunks: seq<seq<RipEntry>>) {
    if |entries| == 0 then []
    else if |entries| <= RIP_RESPONSE_MAX_ENTRIES then [entries]
    else [entries[..RIP_RESPONSE_MAX_ENTRIES]] + Chunks(entries[RIP_RESPONSE_MAX_ENTRIES..])
  }

  function ResponseBuffers(entries: seq<RipEntry>): seq<seq<byte>> {
    var chunks := Chunks(entries);
    seq(|chunks|, i requires 0 <= i < |chunks| => ResponseBytes(chunks[i]))
  }

  method BuildResponseBuffers(database: RipDatabase, target: u32, changedOnly: bool, host: HostOrder)
    returns (buffers: seq<seq<byte>>)
    ensures exists entries ::
              IsSelection(entries, database.Value(), target, changedOnly) && buffers == ResponseBuffers(entries)
  {
    hide ResponseBytes, Chunks, IsSelection;
    var entries := database.GetRoutesForAdvertisement(target, changedOnly);
    var chunks := Chunks(entries);
    buffers := [];
    for i := 0 to |chunks|
      invariant buffers == ResponseBuffers(entries)[..i]
    {
      var buffer := BuildResponseBuffer(chunks[i], host);
      buffers := buffers + [buffer[..]];
    }
  }

  /** The whole-table request, section 3.9.1 of RFC 2453. */
  function RequestBytes(): (b: seq<byte>)
    ensures |b| == RIP_HEADER_SIZE + RIP_ENTRY_SIZE
  {
    HeaderMemory(REQUEST_HEADER, BigEndian) + EntryBytes(RIP_ENTRY_REQUEST)
  }

  /** One request on each interface. */
  function Requests(interfaces: seq<u32>): seq<Datagram> {
    seq(|interfaces|, i requires 0 <= i < |interfaces| => Datagram(interfaces[i], Multicast, RequestBytes()))
  }

  method BuildRequestBuffer(host: HostOrder) returns (buffer: array<byte>)
    ensures fresh(buffer) && buffer[..] == RequestBytes()
  {
    hide EntryBytes;
    buffer := new byte[RIP_HEADER_SIZE + RIP_ENTRY_SIZE](_ => 0);
    var header := HeaderMemory(REQUEST_HEADER, host);
    CopyFromSlice(buffer, 0, header);
    var bytes := WireBytes(RIP_ENTRY_REQUEST, host);
    CopyFromSlice(buffer, RIP_HEADER_SIZE, bytes);
    assert buffer[..] == buffer[..RIP_HEADER_SIZE + RIP_ENTRY_SIZE];
  }

  // ----- laws of the codec

  /** A receiver recognises the request, and answers it. */
  lemma ParseRequest()
    ensures ParsePacket(RequestBytes()).Success? && ParsePacket(RequestBytes()).value.IsRequest()
  {
    hide EntryBytes, EntryFromSlice;
    var data := RequestBytes();
    var body := data[RIP_HEADER_SIZE..];
    assert data[..RIP_HEADER_SIZE] == HeaderMemory(REQUEST_HEADER, BigEndian);
    assert body == EntryBytes(RIP_ENTRY_REQUEST);
    assert body[..RIP_ENTRY_SIZE] == body && body[RIP_ENTRY_SIZE..] == [];
    EntryRoundTrip(RIP_ENTRY_REQUEST);
    assert ParseEntries(body) == [RIP_ENTRY_REQUEST] + ParseEntries([]);
    assert HeaderFromSlice(data[..RIP_HEADER_SIZE]).value.command == RIP_CMD_REQUEST;
  }

  /** What a receiver gets out of one response. */
  lemma ParseResponse(entries: seq<RipEntry>)
    ensures ParsePacket(ResponseBytes(entries)) == Success(RipPacketData(RESPONSE_HEADER, entries))
  {
    var data := ResponseBytes(entries);
    ParseInvertsEncode(entries);
    assert data[..RIP_HEADER_SIZE] == HeaderMemory(RESPONSE_HEADER, BigEndian);
    assert data[RIP_HEADER_SIZE..] == EntriesBytes(entries);
  }

  /** Re-encoding any received version-2 response with zero padding restores its bytes. */
  lemma ReencodeResponse(data: seq<byte>)
    requires ParsePacket(data).Success? && ParsePacket(data).value.header == RESPONSE_HEADER
    ensures ResponseBytes(ParsePacket(data).value.entries) == data
  {
    hide EntryBytes, EntriesBytes, EntryFromSlice, ParseEntries;
    EncodeInvertsParse(data[RIP_HEADER_SIZE..]);
    assert FromBe16(data[..RIP_HEADER_SIZE][2..4]) == 0;
    assert data[..RIP_HEADER_SIZE] == [data[0], data[1], data[2], data[3]];
    assert HeaderMemory(RESPONSE_HEADER, BigEndian) == data[..RIP_HEADER_SIZE];
    assert data == data[..RIP_HEADER_SIZE] + data[RIP_HEADER_SIZE..];
  }

  /** The entries that arrive in a list of datagrams. */
  function EntriesIn(buffers: seq<seq<byte>>): seq<RipEntry> {
    if buffers == [] then []
    else
      var first := ParsePacket(buffers[0]);
      (if first.Success? then first.value.entries else []) + EntriesIn(buffers[1..])
  }

  lemma BuffersSplit(entries: seq<RipEntry>) returns (first: seq<RipEntry>, rest: seq<RipEntry>)
    requires |entries| > 0
    ensures entries == first + rest && 0 < |first| <= RIP_RESPONSE_MAX_ENTRIES
    ensures rest != [] ==> |first| == RIP_RESPONSE_MAX_ENTRIES
    ensures ResponseBuffers(entries) == [ResponseBytes(first)] + ResponseBuffers(rest)
    ensures rest == [] <==> ResponseBuffers(rest) == []
  {
    var n := if |entries| <= RIP_RESPONSE_MAX_ENTRIES then |entries| else RIP_RESPONSE_MAX_ENTRIES;
    first, rest := entries[..n], entries[n..];
    assert entries == first + rest;
    assert n == |entries| ==> entries == first;
    assert Chunks(entries) == [first] + Chunks(rest);
  }

  /** Nothing is lost, repeated or reordered by chunking and encoding. */
  lemma {:induction false} BuffersRoundTrip(entries: seq<RipEntry>)
    ensures EntriesIn(ResponseBuffers(entries)) == entries
    decreases |entries|
  {
    if |entries| == 0 {
    } else {
      var first, rest := BuffersSplit(entries);
      BuffersRoundTrip(rest);
      ParseResponse(first);
      assert ResponseBuffers(entries)[1..] == ResponseBuffers(rest);
    }
  }

  /** Every datagram but the last is full, none is empty and none exceeds the 504 octets of
      section 3.6 of RFC 2453. */
  lemma {:induction false} BufferSizes(entries: seq<RipEntry>, i: nat)
    requires i < |ResponseBuffers(entries)|
    ensures 24 <= |ResponseBuffers(entries)[i]| <= 504
    ensures i < |ResponseBuffers(entries)| - 1 ==> |ResponseBuffers(entries)[i]| == 504
    decreases |entries|
  {
    var first, rest := BuffersSplit(entries);
    if i == 0 {
    } else {
      BufferSizes(rest, i - 1);
    }
  }

  // ----- sending

  datatype Target = Multicast | Unicast(address: u32, port: u16)

  datatype Datagram = Datagram(ifIndex: u32, target: Target, data: seq<byte>)

  /** The datagrams that carry a list of entries. */
  function Datagrams(ifIndex: u32, target: Target, entries: seq<RipEntry>): seq<Datagram> {
    Envelopes(ifIndex, target, ResponseBuffers(entries))
  }

  function Envelopes(ifIndex: u32, target: Target, buffers: seq<seq<byte>>): (ds: seq<Datagram>)
    ensures |ds| == |buffers| && forall i :: 0 <= i < |buffers| ==> ds[i] == Datagram(ifIndex, target, buffers[i])
  {
    seq(|buffers|, i requires 0 <= i < |buffers| => Datagram(ifIndex, target, buffers[i]))
  }

  /** The datagrams of one multicast advertisement: one selection per interface, in the order of
      the interfaces. */
  function AdvertisementBlock(interfaces: seq<u32>, selections: seq<seq<RipEntry>>): seq<Datagram>
    requires |interfaces| == |selections|
  {
    if interfaces == [] then []
    else
      var n := |interfaces| - 1;
      AdvertisementBlock(interfaces[..n], selections[..n]) + Datagrams(interfaces[n], Multicast, selections[n])
  }

  ghost predicate AreSelections(selections: seq<seq<RipEntry>>, db: Tables, interfaces: seq<u32>, changedOnly: bool) {
    && |selections| == |interfaces|
    && forall i :: 0 <= i < |interfaces| ==> IsSelection(selections[i], db, interfaces[i], changedOnly)
  }

  /** A possible outcome of `rip_send_advertisement_multicast`. */
  ghost predicate IsAdvertisement(block: seq<Datagram>, db: Tables, interfaces: seq<u32>, changedOnly: bool) {
    exists selections ::
      && AreSelections(selections, db, interfaces, changedOnly)
      && block == AdvertisementBlock(interfaces, selections)
  }

  lemma {:induction false} SelectionsExist(db: Tables, interfaces: seq<u32>, changedOnly: bool)
    returns (selections: seq<seq<RipEntry>>)
    ensures AreSelections(selections, db, interfaces, changedOnly)
  {
    hide IsSelection;
    if interfaces == [] {
      selections := [];
    } else {
      var n := |interfaces| - 1;
      selections := SelectionsExist(db, interfaces[..n], changedOnly);
      var entries := SelectionExists(db, interfaces[n], changedOnly);
      selections := selections + [entries];
    }
  }

  /** The entries that a neighbour on an interface has received by multicast, oldest first. */
  function Heard(sent: seq<Datagram>, ifIndex: u32): seq<RipEntry> {
    if sent == [] then []
    else
      var last, before := sent[|sent| - 1], Heard(sent[..|sent| - 1], ifIndex);
      if last.target == Multicast && last.ifIndex == ifIndex then before + EntriesIn([last.data]) else before
  }

  lemma {:induction false} HeardAppend(a: seq<Datagram>, b: seq<Datagram>, ifIndex: u32)
    ensures Heard(a + b, ifIndex) == Heard(a, ifIndex) + Heard(b, ifIndex)
  {
    hide EntriesIn;
    if b == [] {
      assert a + b == a;
    } else {
      var n := |b| - 1;
      assert (a + b)[..|a| + n] == a + b[..n];
      HeardAppend(a, b[..n], ifIndex);
    }
  }

  lemma {:induction false} EntriesInAppend(a: seq<seq<byte>>, b: seq<seq<byte>>)
    ensures EntriesIn(a + b) == EntriesIn(a) + EntriesIn(b)
  {
    if a == [] {
      assert a + b == b;
    } else {
      assert (a + b)[1..] == a[1..] + b;
      EntriesInAppend(a[1..], b);
    }
  }

  lemma HeardOne(d: Datagram, listener: u32)
    ensures Heard([d], listener) == if d.target == Multicast && d.ifIndex == listener then EntriesIn([d.data]) else []
  {
    hide EntriesIn;
    assert [d][..0] == [];
    assert Heard([], listener) == [];
  }

  lemma {:induction false} HeardBuffers(ifIndex: u32, target: Target, buffers: seq<seq<byte>>, listener: u32)
    ensures Heard(Envelopes(ifIndex, target, buffers), listener)
            == if target == Multicast && ifIndex == listener then EntriesIn(buffers) else []
  {
    if buffers == [] {
    } else {
      hide EntriesIn, Heard, Envelopes;
      var n := |buffers| - 1;
      var init, last := buffers[..n], Datagram(ifIndex, target, buffers[n]);
      assert Envelopes(ifIndex, target, buffers) == Envelopes(ifIndex, target, init) + [last];
      HeardBuffers(ifIndex, target, init, listener);
      HeardAppend(Envelopes(ifIndex, target, init), [last], listener);
      HeardOne(last, listener);
      assert buffers == init + [buffers[n]];
      EntriesInAppend(init, [buffers[n]]);
    }
  }

  lemma HeardDatagrams(ifIndex: u32, target: Target, entries: seq<RipEntry>, listener: u32)
    ensures Heard(Datagrams(ifIndex, target, entries), listener)
            == if target == Multicast && ifIndex == listener then entries else []
  {
    HeardBuffers(ifIndex, target, ResponseBuffers(entries), listener);
    BuffersRoundTrip(entries);
  }

  lemma HeardOneInterface(init: seq<Datagram>, next: u32, entries: seq<RipEntry>, listener: u32, k: RouteKey)
    ensures LastFor(Heard(init + Datagrams(next, Multicast, entries), listener), k)
            == if next == listener && LastFor(entries, k).Some? then LastFor(entries, k)
                else LastFor(Heard(init, listener), k)
  {
    HeardAppend(init, Datagrams(next, Multicast, entries), listener);
    HeardDatagrams(next, Multicast, entries, listener);
    LastForAppend(Heard(init, listener), Heard(Datagrams(next, Multicast, entries), listener), k);
  }

  lemma {:induction false} BlockHeard(interfaces: seq<u32>, selections: seq<seq<RipEntry>>, listener: u32,
      k: RouteKey, announced: Option<RipEntry>)
    requires |interfaces| == |selections|
    requires forall i :: 0 <= i < |interfaces| && interfaces[i] == listener ==> LastFor(selections[i], k) == announced
    ensures LastFor(Heard(AdvertisementBlock(interfaces, selections), listener), k)
            == if listener in interfaces then announced else None
  {
    hide Datagrams;
    if interfaces == [] {
    } else {
      var n := |interfaces| - 1;
      BlockHeard(interfaces[..n], selections[..n], listener, k, announced);
      var before := AdvertisementBlock(interfaces[..n], selections[..n]);
      HeardOneInterface(before, interfaces[n], selections[n], listener, k);
      assert interfaces == interfaces[..n] + [interfaces[n]];
    }
  }

  /** After an advertisement, a neighbour's last entry for a key is the one just announced, or
      else the one it had; whatever the order in which the hash maps were visited. */
  lemma AdvertisementHeard(sent: seq<Datagram>, block: seq<Datagram>, db: Tables, interfaces: seq<u32>,
      changedOnly: bool, listener: u32, k: RouteKey)
    requires KeysMatch(db) && IsAdvertisement(block, db, interfaces, changedOnly)
    ensures LastFor(Heard(sent + block, listener), k)
            == if listener in interfaces && Announced(db, listener, changedOnly, k).Some?
               then Announced(db, listener, changedOnly, k) else LastFor(Heard(sent, listener), k)
  {
    var selections :| AreSelections(selections, db, interfaces, changedOnly)
        && block == AdvertisementBlock(interfaces, selections);
    forall i | 0 <= i < |interfaces| && interfaces[i] == listener
      ensures LastFor(selections[i], k) == Announced(db, listener, changedOnly, k)
    {
      LastForSelection(selections[i], db, listener, changedOnly, k);
    }
    BlockHeard(interfaces, selections, listener, k, Announced(db, listener, changedOnly, k));
    HeardAppend(sent, block, listener);
    LastForAppend(Heard(sent, listener), Heard(block, listener), k);
  }

  // ----- what the entries in a datagram come from

  /** The entry is that of a stored route, with next hop 0. */
  ghost predicate Tells(db: Tables, e: RipEntry) {
    || (exists k :: k in db.okRoutes && e == Advert(db.okRoutes[k]))
    || (exists k :: k in db.garbageRoutes && e == Advert(db.garbageRoutes[k]))
  }

  ghost predicate AllTell(db: Tables, sent: seq<Datagram>) {
    forall d, e :: d in sent && e in EntriesIn([d.data]) ==> Tells(db, e)
  }

  lemma {:induction false} BufferMember(buffers: seq<seq<byte>>, i: nat, e: RipEntry)
    requires i < |buffers| && e in EntriesIn([buffers[i]])
    ensures e in EntriesIn(buffers)
  {
    if i == 0 {
    } else {
      assert buffers[1..][i - 1] == buffers[i];
      BufferMember(buffers[1..], i - 1, e);
    }
  }

  lemma SelectionTells(db: Tables, entries: seq<RipEntry>, ifIndex: u32, target: Target, changedOnly: bool)
    requires IsSelection(entries, db, ifIndex, changedOnly)
    ensures AllTell(db, Datagrams(ifIndex, target, entries))
  {
    hide IsSelection, EntriesIn;
    forall d, e | d in Datagrams(ifIndex, target, entries) && e in EntriesIn([d.data]) ensures Tells(db, e) {
      var i :| 0 <= i < |ResponseBuffers(entries)| && d == Datagram(ifIndex, target, ResponseBuffers(entries)[i]);
      BufferMember(ResponseBuffers(entries), i, e);
      BuffersRoundTrip(entries);
      SelectionMembers(entries, db, ifIndex, changedOnly, e);
    }
  }

  lemma {:induction false} BlockTells(db: Tables, interfaces: seq<u32>, selections: seq<seq<RipEntry>>,
      changedOnly: bool)
    requires AreSelections(selections, db, interfaces, changedOnly)
    ensures AllTell(db, AdvertisementBlock(interfaces, selections))
  {
    hide IsSelection, Tells, EntriesIn, Datagrams;
    if interfaces == [] {
    } else {
      var n := |interfaces| - 1;
      BlockTells(db, interfaces[..n], selections[..n], changedOnly);
      SelectionTells(db, selections[n], interfaces[n], Multicast, changedOnly);
    }
  }

  /** Whatever an advertisement says is stored. */
  lemma AdvertisementTells(db: Tables, block: seq<Datagram>, interfaces: seq<u32>, changedOnly: bool)
    requires IsAdvertisement(block, db, interfaces, changedOnly)
    ensures AllTell(db, block)
  {
    hide IsSelection, AllTell;
    var selections :| AreSelections(selections, db, interfaces, changedOnly)
        && block == AdvertisementBlock(interfaces, selections);
    BlockTells(db, interfaces, selections, changedOnly);
  }

  lemma {:induction false} HeardMember(sent: seq<Datagram>, ifIndex: u32, e: RipEntry)
    requires e in Heard(sent, ifIndex)
    ensures exists d :: d in sent && d.target == Multicast && d.ifIndex == ifIndex && e in EntriesIn([d.data])
  {
    hide EntriesIn;
    if sent == [] {
    } else {
      var n := |sent| - 1;
      if e in Heard(sent[..n], ifIndex) {
        HeardMember(sent[..n], ifIndex, e);
      } else {
        assert sent[n] in sent;
      }
    }
  }

  lemma {:induction false} LastForMember(entries: seq<RipEntry>, k: RouteKey)
    requires LastFor(entries, k).Some?
    ensures LastFor(entries, k).value in entries
  {
    var n := |entries| - 1;
    if KeyOf(entries[n]) == k {
    } else {
      LastForMember(entries[..n], k);
    }
  }

  /** A full update says each active route that no garbage shadows, on every other interface. */
  lemma UpdateReaches(db: Tables, block: seq<Datagram>, interfaces: seq<u32>, ifIndex: u32, k: RouteKey)
    requires KeysMatch(db) && IsAdvertisement(block, db, interfaces, false) && ifIndex in interfaces
    requires k in db.okRoutes && k !in db.garbageRoutes && db.okRoutes[k].ifIndex != ifIndex
    ensures exists d ::
              && d in block && d.target == Multicast && d.ifIndex == ifIndex
              && Advert(db.okRoutes[k]) in EntriesIn([d.data])
  {
    hide IsAdvertisement, Heard, LastFor, EntriesIn;
    AdvertisementHeard([], block, db, interfaces, false, ifIndex, k);
    assert [] + block == block;
    LastForMember(Heard(block, ifIndex), k);
    HeardMember(block, ifIndex, Advert(db.okRoutes[k]));
  }

  /** The outcome of sending a list of datagrams one by one: all of them went out, or those
      before the first failure did and the failure is on record. */
  ghost predicate Transmitted(block: seq<Datagram>, sent: seq<Datagram>, sent': seq<Datagram>,
      failed: seq<Datagram>, failed': seq<Datagram>, success: bool) {
    if success then sent' == sent + block && failed' == failed
    else exists n :: 0 <= n < |block| && sent' == sent + block[..n] && failed' == failed + [block[n]]
  }

  lemma TransmittedThen(first: seq<Datagram>, second: seq<Datagram>, s0: seq<Datagram>, s1: seq<Datagram>,
      s2: seq<Datagram>,
      f0: seq<Datagram>, f1: seq<Datagram>, f2: seq<Datagram>, success: bool)
    requires Transmitted(first, s0, s1, f0, f1, true) && Transmitted(second, s1, s2, f1, f2, success)
    ensures Transmitted(first + second, s0, s2, f0, f2, success)
  {
    if success {
      assert s0 + (first + second) == (s0 + first) + second;
    } else {
      var n :| 0 <= n < |second| && s2 == s1 + second[..n] && f2 == f1 + [second[n]];
      assert (first + second)[..|first| + n] == first + second[..n];
      assert s2 == s0 + (first + second)[..|first| + n];
      assert (first + second)[|first| + n] == second[n];
    }
  }

  lemma NothingTransmitted(sent: seq<Datagram>, failed: seq<Datagram>)
    ensures Transmitted([], sent, sent, failed, failed, true)
  {
  }

  lemma FailureOfPrefix(block: seq<Datagram>, whole: seq<Datagram>, s: seq<Datagram>, s': seq<Datagram>,
      f: seq<Datagram>, f': seq<Datagram>)
    requires Transmitted(block, s, s', f, f', false) && block <= whole
    ensures Transmitted(whole, s, s', f, f', false)
  {
    var n :| 0 <= n < |block| && s' == s + block[..n] && f' == f + [block[n]];
    assert whole[..n] == block[..n] && whole[n] == block[n];
  }

  /** What has been selected for some interfaces is the beginning of a possible advertisement. */
  lemma {:induction false} BlockExtends(db: Tables, interfaces: seq<u32>, i: nat, selections: seq<seq<RipEntry>>,
      changedOnly: bool)
    returns (block: seq<Datagram>)
    requires i <= |interfaces| && AreSelections(selections, db, interfaces[..i], changedOnly)
    ensures IsAdvertisement(block, db, interfaces, changedOnly)
    ensures AdvertisementBlock(interfaces[..i], selections) <= block
    ensures i == |interfaces| ==> block == AdvertisementBlock(interfaces[..i], selections)
    decreases |interfaces| - i
  {
    hide IsSelection, Datagrams;
    if i == |interfaces| {
      assert interfaces[..i] == interfaces;
      block := AdvertisementBlock(interfaces, selections);
    } else {
      var entries := SelectionExists(db, interfaces[i], changedOnly);
      var more := selections + [entries];
      assert interfaces[..i + 1][..i] == interfaces[..i] && more[..i] == selections;
      assert AdvertisementBlock(interfaces[..i + 1], more)
          == AdvertisementBlock(interfaces[..i], selections) + Datagrams(interfaces[i], Multicast, entries);
      block := BlockExtends(db, interfaces, i + 1, more, changedOnly);
    }
  }

  class RipUpdater {
    const host: HostOrder
    /** The responses and the requests that went out, and the datagrams that could not be sent. */
    var sent: seq<Datagram>
    var requests: seq<Datagram>
    var failed: seq<Datagram>

    constructor (host: HostOrder)
      ensures sent == [] && requests == [] && failed == []
    {
      this.host := host;
      sent, requests, failed := [], [], [];
    }

    /** One socket call; it may fail. */
    method Send(d: Datagram) returns (r: RipResult<()>)
      modifies `sent, `failed
      ensures r.Success? ==> sent == old(sent) + [d] && failed == old(failed)
      ensures r.Failure? ==> r.error == IoError && sent == old(sent) && failed == old(failed) + [d]
    {
      if * {
        failed := failed + [d];
        return Failure(IoError);
      }
      sent := sent + [d];
      r := Success(());
    }

    /** `rip_send_request_multicast` */
    method SendRequestMulticast(ifIndex: u32) returns (r: RipResult<()>)
      modifies `requests, `failed
      ensures var d := Datagram(ifIndex, Multicast, RequestBytes());
              if r.Success? then requests == old(requests) + [d] && failed == old(failed)
              else r.error == IoError && requests == old(requests) && failed == old(failed) + [d]
    {
      var buffer := BuildRequestBuffer(host);
      if * {
        failed := failed + [Datagram(ifIndex, Multicast, buffer[..])];
        return Failure(IoError);
      }
      requests := requests + [Datagram(ifIndex, Multicast, buffer[..])];
      r := Success(());
    }

    /** The inner loop of the two send functions: all datagrams, or a prefix of them and an error. */
    method SendBuffers(ifIndex: u32, target: Target, buffers: seq<seq<byte>>, ghost entries: seq<RipEntry>)
      returns (r: RipResult<()>)
      requires buffers == ResponseBuffers(entries)
      modifies `sent, `failed
      ensures Transmitted(Datagrams(ifIndex, target, entries), old(sent), sent, old(failed), failed, r.Success?)
      ensures r.Failure? ==> r.error == IoError
    {
      hide ResponseBuffers;
      ghost var all := Datagrams(ifIndex, target, entries);
      r := Success(());
      for i := 0 to |buffers|
        invariant r.Success? && sent == old(sent) + all[..i] && failed == old(failed)
      {
        r := Send(Datagram(ifIndex, target, buffers[i]));
        if r.Failure? {
          return;
        }
        assert all[..i + 1] == all[..i] + [Datagram(ifIndex, target, buffers[i])];
      }
      assert all[..|buffers|] == all;
    }

    /** The body the two send functions share: nothing is sent when nothing is selected. */
    method SendSelection(database: RipDatabase, ifIndex: u32, target: Target, changedOnly: bool)
      returns (r: RipResult<()>, ghost entries: seq<RipEntry>)
      modifies `sent, `failed
      ensures IsSelection(entries, database.Value(), ifIndex, changedOnly)
      ensures Transmitted(Datagrams(ifIndex, target, entries), old(sent), sent, old(failed), failed, r.Success?)
      ensures r.Failure? ==> r.error == IoError
    {
      var buffers := BuildResponseBuffers(database, ifIndex, changedOnly, host);
      entries :| IsSelection(entries, database.Value(), ifIndex, changedOnly) && buffers == ResponseBuffers(entries);
      if |buffers| == 0 {
        return Success(()), entries;
      }
      r := SendBuffers(ifIndex, target, buffers, entries);
    }

    /** `rip_send_response_unicast` */
    method SendResponseUnicast(database: RipDatabase, target: Target, targetIfIndex: u32)
      returns (r: RipResult<()>, ghost entries: seq<RipEntry>)
      modifies `sent, `failed
      ensures IsSelection(entries, database.Value(), targetIfIndex, false)
      ensures Transmitted(Datagrams(targetIfIndex, target, entries), old(sent), sent, old(failed), failed, r.Success?)
      ensures r.Failure? ==> r.error == IoError
    {
      r, entries := SendSelection(database, targetIfIndex, target, false);
    }

    /** `rip_send_advertisement_multicast` */
    method SendAdvertisementMulticast(database: RipDatabase, interfaces: seq<u32>, changedOnly: bool)
      returns (r: RipResult<()>, ghost block: seq<Datagram>)
      modifies `sent, `failed
      ensures IsAdvertisement(block, database.Value(), interfaces, changedOnly)
      ensures Transmitted(block, old(sent), sent, old(failed), failed, r.Success?)
      ensures r.Failure? ==> r.error == IoError
    {
      hide Datagrams, IsSelection, IsAdvertisement, Transmitted;
      ghost var selections: seq<seq<RipEntry>> := [];
      block := [];
      r := Success(());
      NothingTransmitted(sent, failed);
      for i := 0 to |interfaces|
        invariant r.Success?
        invariant AreSelections(selections, database.Value(), interfaces[..i], changedOnly)
        invariant block == AdvertisementBlock(interfaces[..i], selections)
        invariant Transmitted(block, old(sent), sent, old(failed), failed, true)
      {
        ghost var entries, sentBefore, failedBefore := [], sent, failed;
        r, entries := SendSelection(database, interfaces[i], Multicast, changedOnly);
        ghost var extended := selections + [entries];
        assert interfaces[..i + 1][..i] == interfaces[..i] && extended[..i] == selections;
        ghost var next := Datagrams(interfaces[i], Multicast, entries);
        TransmittedThen(block, next, old(sent), sentBefore, sent, old(failed), failedBefore, failed, r.Success?);
        selections, block := extended, block + next;
        if r.Failure? {
          ghost var whole := BlockExtends(database.Value(), interfaces, i + 1, selections, changedOnly);
          FailureOfPrefix(block, whole, old(sent), sent, old(failed), failed);
          block := whole;
          return;
        }
      }
      block := BlockExtends(database.Value(), interfaces, |interfaces|, selections, changedOnly);
    }
  }
}

/** Finding the transport header of an IPv6 packet and rewriting its checksum in the frame. */
module Ipv6Helper {
  import opened Basics
  import opened Checksum
  import opened Frames

  const IPV6_HEADER_LENGTH := 40
  const IPPROTO_HOPOPTS := 0
  const IPPROTO_ROUTING := 43
  const IPPROTO_FRAGMENT := 44
  const IPPROTO_ICMPV6 := 58
  const IPPROTO_DSTOPTS := 60

  /** A null or non-null header pointer, as an offset from the IPv6 header, and a protocol number. */
  datatype Found = Found(offset: Option<nat>, protocol: byte)

  predicate IsSkipped(protocol: byte) {
    protocol == IPPROTO_HOPOPTS || protocol == IPPROTO_ROUTING || protocol == IPPROTO_DSTOPTS
  }

  /** The bits of ip6_offlg that the code tests; the field is read in host (little-endian) order. */
  function TestedOffsetBits(packet: seq<byte>, header: nat): nat
    requires header + 4 <= |packet|
  {
    Le16(packet[header + 2], packet[header + 3]) % 0x100 / 4
  }

  /** The fragment offset of section 4.5 of RFC 2460, in units of 8 octets. */
  function FragmentOffset(packet: seq<byte>, header: nat): nat
    requires header + 4 <= |packet|
  {
    Be16(packet[header + 2], packet[header + 3]) / 8
  }

  function NextHeader(packet: seq<byte>, header: nat): nat
    requires header + 4 <= |packet|
  {
    header + 8 + 8 * (packet[header + 1] as nat)
  }

  // ---------------------------------------------------------------------------------
  // The chain of section 4 of RFC 2460
  // ---------------------------------------------------------------------------------

  datatype Header = Header(offset: nat, protocol: byte)

  /** One header of the chain: inside the packet, skippable, and followed by the next one. */
  predicate Links(packet: seq<byte>, size: nat, h: Header, next: Header)
    requires size <= |packet|
  {
    && IsSkipped(h.protocol) && h.offset + 4 <= size
    && next == Header(NextHeader(packet, h.offset), packet[h.offset])
  }

  /** A sequence of headers, each but the last an option header linked to its successor. */
  predicate IsChain(packet: seq<byte>, size: nat, headers: seq<Header>)
    requires size <= |packet|
  {
    && headers != []
    && forall i :: 0 <= i < |headers| - 1 ==> Links(packet, size, headers[i], headers[i + 1])
  }

  /** What the code answers at the header that ends the chain. */
  function Outcome(packet: seq<byte>, size: nat, h: Header): Found
    requires size <= |packet|
  {
    if h.offset + 4 > size then Found(None, h.protocol)
    else if h.protocol == IPPROTO_FRAGMENT then
      Found(if TestedOffsetBits(packet, h.offset) != 0 then None else Some(h.offset + 8), packet[h.offset])
    else Found(Some(h.offset), h.protocol)
  }

  /** The chain cannot be continued past h. */
  predicate EndsChain(size: nat, h: Header) {
    h.offset + 4 > size || !IsSkipped(h.protocol)
  }

  function Walk(packet: seq<byte>, size: nat, h: Header): Found
    requires size <= |packet|
    decreases size - h.offset
  {
    if EndsChain(size, h) then Outcome(packet, size, h)
    else Walk(packet, size, Header(NextHeader(packet, h.offset), packet[h.offset]))
  }

  /**
    The chain in numbers (sections 4.1 to 4.4 of RFC 2460): hop-by-hop options, routing and destination options are 0,
    43 and 60; their first byte names what follows, their second counts 8-octet units beyond the first.
   */
  lemma LinksIff(packet: seq<byte>, size: nat, h: Header, next: Header)
    requires size <= |packet|
    ensures Links(packet, size, h, next) <==>
              && h.offset + 4 <= size && h.protocol in {0, 43, 60}
              && next.protocol == packet[h.offset]
              && next.offset == h.offset + 8 * (1 + packet[h.offset + 1] as nat)
  {
  }

  /** What the code answers at the end of a chain, in numbers: 44 is the fragment header. */
  lemma OutcomeIs(packet: seq<byte>, size: nat, h: Header)
    requires size <= |packet| && EndsChain(size, h)
    ensures h.offset + 4 <= size ==> h.protocol !in {0, 43, 60}
    ensures Outcome(packet, size, h).offset ==
            if h.offset + 4 > size then None
            else if h.protocol != 44 then Some(h.offset)
            else if FragmentOffset(packet, h.offset) >= 128 then None
            else Some(h.offset + 8)
    ensures Outcome(packet, size, h).protocol
            == if h.offset + 4 <= size && h.protocol == 44 then packet[h.offset] else h.protocol
  {
    if h.offset + 4 <= size { LaterFragmentsSeen(packet, h.offset); }
  }

  /** The walk starts behind the 40-byte header of a packet of version 6, with the protocol at byte 6. */
  lemma WalkStarts(packet: seq<byte>, size: nat)
    requires 40 <= |packet| && size <= |packet|
    ensures TransportHeader(packet, size)
            == if packet[0] / 0x10 == 6 then Walk(packet, size, Header(40, packet[6])) else Found(None, 0)
  {
  }

  /** Whatever chain of headers starts at h and cannot be continued decides the answer. */
  lemma {:induction false} ChainDecidesWalk(packet: seq<byte>, size: nat, headers: seq<Header>)
    requires size <= |packet| && IsChain(packet, size, headers) && EndsChain(size, Last(headers))
    ensures Walk(packet, size, headers[0]) == Outcome(packet, size, Last(headers))
  {
    if |headers| > 1 {
      assert Links(packet, size, headers[0], headers[1]);
      forall i | 0 <= i < |headers| - 2 ensures Links(packet, size, headers[1..][i], headers[1..][i + 1]) {
        assert Links(packet, size, headers[i + 1], headers[i + 2]);
      }
      ChainDecidesWalk(packet, size, headers[1..]);
    }
  }

  /** From every header such a chain exists; each link advances by a positive multiple of 8. */
  lemma {:induction false} ChainExists(packet: seq<byte>, size: nat, h: Header) returns (headers: seq<Header>)
    requires size <= |packet|
    ensures IsChain(packet, size, headers) && headers[0] == h && EndsChain(size, Last(headers))
    ensures Last(headers).offset >= h.offset && (Last(headers).offset - h.offset) % 8 == 0
    decreases size - h.offset
  {
    if EndsChain(size, h) {
      headers := [h];
    } else {
      var next := Header(NextHeader(packet, h.offset), packet[h.offset]);
      var rest := ChainExists(packet, size, next);
      headers := [h] + rest;
      forall i | 0 <= i < |headers| - 1 ensures Links(packet, size, headers[i], headers[i + 1]) {
        if i > 0 { assert Links(packet, size, rest[i - 1], rest[i]); }
      }
    }
  }

  function TransportHeader(packet: seq<byte>, size: nat): Found
    requires IPV6_HEADER_LENGTH <= |packet| && size <= |packet|
  {
    if packet[0] / 0x10 != 6 then Found(None, 0)
    else Walk(packet, size, Header(IPV6_HEADER_LENGTH, packet[6]))
  }

  /**
    Where a found header lies: at a multiple of 8 past the fixed header, at the end of the chain or 8 bytes past
    a fragment header that ends it. It leaves the packet exactly when that fragment header does.
   */
  lemma FoundHeaderPlace(packet: seq<byte>, size: nat) returns (headers: seq<Header>)
    requires IPV6_HEADER_LENGTH <= |packet| && size <= |packet|
    requires TransportHeader(packet, size).offset.Some?
    ensures IsChain(packet, size, headers) && EndsChain(size, Last(headers))
    ensures headers[0] == Header(IPV6_HEADER_LENGTH, packet[6])
    ensures var offset, end := TransportHeader(packet, size).offset.value, Last(headers);
            && IPV6_HEADER_LENGTH <= offset && offset % 8 == 0
            && (end.protocol != IPPROTO_FRAGMENT ==> offset == end.offset && offset + 4 <= size)
            && (end.protocol == IPPROTO_FRAGMENT ==> offset == end.offset + 8)
            && (offset > size <==> end.protocol == IPPROTO_FRAGMENT && end.offset + 8 > size)
  {
    headers := ChainExists(packet, size, Header(IPV6_HEADER_LENGTH, packet[6]));
    ChainDecidesWalk(packet, size, headers);
    OutcomePlace(packet, size, Last(headers));
  }

  lemma OutcomePlace(packet: seq<byte>, size: nat, end: Header)
    requires size <= |packet| && EndsChain(size, end) && Outcome(packet, size, end).offset.Some?
    requires end.offset >= IPV6_HEADER_LENGTH && (end.offset - IPV6_HEADER_LENGTH) % 8 == 0
    ensures var offset := Outcome(packet, size, end).offset.value;
            && IPV6_HEADER_LENGTH <= offset && offset % 8 == 0
            && (end.protocol != IPPROTO_FRAGMENT ==> offset == end.offset && offset + 4 <= size)
            && (end.protocol == IPPROTO_FRAGMENT ==> offset == end.offset + 8)
            && (offset > size <==> end.protocol == IPPROTO_FRAGMENT && end.offset + 8 > size)
  {
  }

  /** A fragment header cut off after four bytes yields a header past the end of the packet. */
  lemma FoundHeaderPastEnd() returns (packet: seq<byte>)
    ensures |packet| == 44 && TransportHeader(packet, 44) == Found(Some(48), IPPROTO_UDP)
  {
    packet := seq(44, i =>
      if i == 0 then 0x60 else if i == 6 then IPPROTO_FRAGMENT else if i == 40 then IPPROTO_UDP else 0);
  }

  /** The test for a later fragment sees exactly the fragments that start 1024 or more octets in. */
  lemma LaterFragmentsSeen(packet: seq<byte>, header: nat)
    requires header + 4 <= |packet|
    ensures TestedOffsetBits(packet, header) != 0 <==> FragmentOffset(packet, header) >= 128
  {
    var b2: nat, b3: nat := packet[header + 2], packet[header + 3];
    assert Le16(b2, b3) % 0x100 == b2;
    assert Be16(b2, b3) / 8 == 32 * b2 + b3 / 8;
  }

  method FindTransportHeader(packet: seq<byte>, size: nat) returns (found: Found)
    requires IPV6_HEADER_LENGTH <= |packet| && size <= |packet|
    ensures found == TransportHeader(packet, size)
  {
    if packet[0] / 0x10 != 6 {
      return Found(None, 0);
    }
    var protocol := packet[6];
    var header := IPV6_HEADER_LENGTH;
    while true
      invariant IPV6_HEADER_LENGTH <= header
      invariant Walk(packet, size, Header(header, protocol)) == TransportHeader(packet, size)
      decreases size - header
    {
      if header + 4 > size {
        return Found(None, protocol);
      }
      if protocol == IPPROTO_FRAGMENT {
        if TestedOffsetBits(packet, header) != 0 {
          return Found(None, packet[header]);
        }
        return Found(Some(header + 8), packet[header]);
      } else if protocol == IPPROTO_HOPOPTS || protocol == IPPROTO_ROUTING || protocol == IPPROTO_DSTOPTS {
        protocol, header := packet[header], header + 8 + 8 * (packet[header + 1] as nat);
      } else {
        return Found(Some(header), protocol);
      }
    }
  }

  // ---------------------------------------------------------------------------------
  // Rewriting the checksum
  // ---------------------------------------------------------------------------------

  /** Where the transport header keeps its checksum, for the protocols the code rewrites. */
  function ChecksumField(protocol: byte): Option<nat> {
    if protocol == IPPROTO_TCP then Some(16)
    else if protocol == IPPROTO_UDP then Some(6)
    else if protocol == IPPROTO_ICMPV6 then Some(2)
    else None
  }

  /** The frame holds a full IPv6 header, and the found header and its checksum field are in memory. */
  ghost predicate Addressable(frame: seq<byte>, length: nat) {
    && ETHER_HEADER_LENGTH + IPV6_HEADER_LENGTH <= |frame|
    && ETHER_HEADER_LENGTH <= length <= |frame| < TWO_32
    && var found := TransportHeader(frame[ETHER_HEADER_LENGTH..], length - ETHER_HEADER_LENGTH);
       found.offset.Some? ==>
         && ETHER_HEADER_LENGTH + found.offset.value <= length
         && (ChecksumField(found.protocol).Some? ==>
               ETHER_HEADER_LENGTH + found.offset.value + ChecksumField(found.protocol).value + 2 <= |frame|)
  }

  /** What the receiver of the frame sums: pseudo-header, then the transport segment as it stands. */
  function Summed(frame: seq<byte>, length: nat, transport: nat, protocol: byte): seq<byte>
    requires ETHER_HEADER_LENGTH + IPV6_HEADER_LENGTH <= transport <= length <= |frame| < TWO_32
  {
    PseudoHeader(frame[22..38], frame[38..54], length - transport, protocol) + frame[transport..length]
  }

  /** Pseudo-header and segment add up as RFC 1071 asks of a receiver. */
  predicate Verifies(frame: seq<byte>, length: nat, transport: nat, protocol: byte)
    requires ETHER_HEADER_LENGTH + IPV6_HEADER_LENGTH <= transport <= length <= |frame| < TWO_32
  {
    Rfc1071Sum(Summed(frame, length, transport, protocol)) == 0xFFFF
  }

  lemma SummedStore(frame: seq<byte>, length: nat, transport: nat, protocol: byte, field: nat, bytes: seq<byte>)
    requires ETHER_HEADER_LENGTH + IPV6_HEADER_LENGTH <= transport <= length <= |frame| < TWO_32
    requires transport + field + 2 <= |frame| && |bytes| == 2
    ensures var pseudoHeader := PseudoHeader(frame[22..38], frame[38..54], length - transport, protocol);
            var stored := Summed(Splice(frame, transport + field, bytes), length, transport, protocol);
            && (transport + field + 2 <= length ==>
                  stored == pseudoHeader + Splice(frame[transport..length], field, bytes))
            && (transport + field + 1 == length ==>
                  stored == pseudoHeader + (frame[transport..transport + field] + [bytes[0]]))
            && (transport + field >= length ==> stored == pseudoHeader + frame[transport..length])
  {
    var stored := Splice(frame, transport + field, bytes);
    SpliceElements(frame, transport + field, bytes);
    assert stored[22..38] == frame[22..38] && stored[38..54] == frame[38..54];
    if transport + field + 2 <= length {
      assert stored[transport..length] == Splice(frame[transport..length], field, bytes);
    } else if transport + field + 1 == length {
      assert stored[transport..length] == frame[transport..transport + field] + [bytes[0]];
    } else {
      assert stored[transport..length] == frame[transport..length];
    }
  }

  /** Whether a rewrite makes the frame verify, given where its checksum field lies. */
  predicate RewriteHelps(frame: seq<byte>, length: nat, transport: nat, protocol: byte, field: nat)
    requires ETHER_HEADER_LENGTH + IPV6_HEADER_LENGTH <= transport <= length <= |frame| < TWO_32
    requires transport + field + 2 <= |frame|
  {
    if transport + field + 2 <= length then true
    else if transport + field + 1 == length then
      Rfc1071Sum(Summed(Splice(frame, transport + field, [0, 0]), length, transport, protocol)) % 0x100 == 0xFF
    else Verifies(frame, length, transport, protocol)
  }

  /**
    After the rewrite the frame verifies whenever the checksum field lies in the segment; if only its first half does,
    exactly when the sum with a zeroed field ends in 0xFF, so that the half left out is zero; and if none of it does,
    exactly when the frame verified before.
   */
  lemma RewrittenVerifies(frame: seq<byte>, length: nat, transport: nat, protocol: byte, field: nat)
    requires ETHER_HEADER_LENGTH + IPV6_HEADER_LENGTH <= transport <= length <= |frame| < TWO_32
    requires transport + field + 2 <= |frame| && field % 2 == 0
    ensures var rewritten := Rewritten(frame, length, transport, protocol, field);
            |rewritten| == |frame|
            && (Verifies(rewritten, length, transport, protocol)
                <==> RewriteHelps(frame, length, transport, protocol, field))
  {
    var zeroed := Splice(frame, transport + field, [0, 0]);
    var checksum := Rfc1071Checksum(Summed(zeroed, length, transport, protocol));
    var rewritten := Splice(frame, transport + field, Be16Bytes(checksum));
    assert Splice(zeroed, transport + field, Be16Bytes(checksum)) == rewritten;
    SummedStore(frame, length, transport, protocol, field, [0, 0]);
    SummedStore(frame, length, transport, protocol, field, Be16Bytes(checksum));
    var pseudoHeader := PseudoHeader(frame[22..38], frame[38..54], length - transport, protocol);
    if transport + field + 2 <= length {
      StoredChecksumVerifies(pseudoHeader, frame[transport..length], field);
    } else if transport + field + 1 == length {
      StoredHalfVerifiesIff(pseudoHeader, frame[transport..transport + field]);
    }
  }

  /** The frame with the checksum of its transport segment recomputed. */
  ghost function Rewritten(frame: seq<byte>, length: nat, transport: nat, protocol: byte, field: nat): seq<byte>
    requires ETHER_HEADER_LENGTH + IPV6_HEADER_LENGTH <= transport <= length <= |frame| < TWO_32
    requires transport + field + 2 <= |frame|
  {
    var zeroed := Splice(frame, transport + field, [0, 0]);
    Splice(zeroed, transport + field, Be16Bytes(Rfc1071Checksum(Summed(zeroed, length, transport, protocol))))
  }

  method StoreHostWord(buffer: array<byte>, at: nat, word: uint16)
    requires at + 2 <= buffer.Length
    modifies buffer
    ensures buffer[..] == Splice(old(buffer[..]), at, [word % 0x100, word / 0x100])
  {
    buffer[at], buffer[at + 1] := word % 0x100, word / 0x100;
  }

  method SegmentChecksum(buffer: array<byte>, length: nat, transport: nat, protocol: byte) returns (checksum: uint16)
    requires ETHER_HEADER_LENGTH + IPV6_HEADER_LENGTH <= transport <= length <= buffer.Length < TWO_32
    ensures checksum == Swap16(Rfc1071Checksum(Summed(buffer[..], length, transport, protocol)))
  {
    checksum := TcpUdpV6Checksum(buffer[22..38], buffer[38..54], protocol, buffer[transport..length]);
    assert buffer[22..38] == buffer[..][22..38] && buffer[38..54] == buffer[..][38..54];
    assert buffer[transport..length] == buffer[..][transport..length];
  }

  method RewriteChecksum(buffer: array<byte>, length: nat, transport: nat, protocol: byte, field: nat)
    requires ETHER_HEADER_LENGTH + IPV6_HEADER_LENGTH <= transport <= length <= buffer.Length < TWO_32
    requires transport + field + 2 <= buffer.Length && field % 2 == 0
    modifies buffer
    ensures buffer[..] == Rewritten(old(buffer[..]), length, transport, protocol, field)
    ensures Verifies(buffer[..], length, transport, protocol)
            <==> RewriteHelps(old(buffer[..]), length, transport, protocol, field)
  {
    ghost var frame := buffer[..];
    StoreHostWord(buffer, transport + field, 0);
    var checksum := SegmentChecksum(buffer, length, transport, protocol);
    ghost var zeroed := buffer[..];
    SwapStores(Rfc1071Checksum(Summed(zeroed, length, transport, protocol)));
    StoreHostWord(buffer, transport + field, checksum);
    assert zeroed == Splice(frame, transport + field, [0, 0]);
    RewrittenVerifies(frame, length, transport, protocol, field);
  }

  /** The frame after the call: unchanged without a transport header or a checksum field to rewrite. */
  ghost function Recalculated(frame: seq<byte>, length: nat): seq<byte>
    requires Addressable(frame, length)
  {
    var found := TransportHeader(frame[ETHER_HEADER_LENGTH..], length - ETHER_HEADER_LENGTH);
    if found.offset.None? || ChecksumField(found.protocol).None? || found.offset.value < IPV6_HEADER_LENGTH then frame
    else Rewritten(frame, length, ETHER_HEADER_LENGTH + found.offset.value, found.protocol,
                   ChecksumField(found.protocol).value)
  }

  lemma FoundPastHeader(packet: seq<byte>, size: nat)
    requires IPV6_HEADER_LENGTH <= |packet| && size <= |packet| && TransportHeader(packet, size).offset.Some?
    ensures TransportHeader(packet, size).offset.value >= IPV6_HEADER_LENGTH
  {
    var headers := FoundHeaderPlace(packet, size);
  }

  /** The checksum field of the found header, if its protocol has one, is rewritten. */
  method RewriteFound(buffer: array<byte>, length: nat, transport: nat, protocol: byte)
    requires ETHER_HEADER_LENGTH + IPV6_HEADER_LENGTH <= transport <= length <= buffer.Length < TWO_32
    requires ChecksumField(protocol).Some? ==> transport + ChecksumField(protocol).value + 2 <= buffer.Length
    modifies buffer
    ensures buffer[..] == if ChecksumField(protocol).None? then old(buffer[..])
                          else Rewritten(old(buffer[..]), length, transport, protocol, ChecksumField(protocol).value)
  {
    var field := ChecksumField(protocol);
    if field.Some? {
      RewriteChecksum(buffer, length, transport, protocol, field.value);
    } else {
      var _ := SegmentChecksum(buffer, length, transport, protocol);
    }
  }

  method RecalculateTcpUdpChecksum(buffer: array<byte>, length: nat)
    requires Addressable(buffer[..], length)
    modifies buffer
    ensures buffer[..] == Recalculated(old(buffer[..]), length)
  {
    ghost var frame := buffer[..];
    var packet := buffer[ETHER_HEADER_LENGTH..];
    assert packet == frame[ETHER_HEADER_LENGTH..];
    var found := FindTransportHeader(packet, length - ETHER_HEADER_LENGTH);
    if found.offset.None? {
      return;
    }
    FoundPastHeader(packet, length - ETHER_HEADER_LENGTH);
    RewriteFound(buffer, length, ETHER_HEADER_LENGTH + found.offset.value, found.protocol);
  }

  /** When a frame with a TCP, UDP or ICMPv6 header verifies after the call; the field is half inside in one case. */
  lemma RecalculatedVerifies(frame: seq<byte>, length: nat)
    requires Addressable(frame, length)
    ensures var found := TransportHeader(frame[ETHER_HEADER_LENGTH..], length - ETHER_HEADER_LENGTH);
            found.offset.Some? && ChecksumField(found.protocol).Some? ==>
              var transport, field := ETHER_HEADER_LENGTH + found.offset.value, ChecksumField(found.protocol).value;
              var recalculated := Recalculated(frame, length);
              && transport >= ETHER_HEADER_LENGTH + IPV6_HEADER_LENGTH && |recalculated| == |frame|
              && (Verifies(recalculated, length, transport, found.protocol)
                  <==> RewriteHelps(frame, length, transport, found.protocol, field))
  {
    var found := TransportHeader(frame[ETHER_HEADER_LENGTH..], length - ETHER_HEADER_LENGTH);
    if found.offset.Some? && ChecksumField(found.protocol).Some? {
      var headers := FoundHeaderPlace(frame[ETHER_HEADER_LENGTH..], length - ETHER_HEADER_LENGTH);
      RewrittenVerifies(frame, length, ETHER_HEADER_LENGTH + found.offset.value, found.protocol,
                        ChecksumField(found.protocol).value);
    }
  }

  /** g is frame except for these two bytes, which hold the checksum of the message with them zeroed. */
  predicate OnlyChecksumAt(frame: seq<byte>, g: seq<byte>, length: nat, transport: nat, protocol: byte, at: nat) {
    && 54 <= transport <= length <= |frame| < TWO_32 && at + 2 <= |frame| == |g|
    && (forall k {:trigger g[k]} :: 0 <= k < |frame| && k != at && k != at + 1 ==> g[k] == frame[k])
    && Be16(g[at], g[at + 1]) == Rfc1071Checksum(Summed(Splice(frame, at, [0, 0]), length, transport, protocol))
  }

  /** Which bytes a rewrite touches, and what it leaves there. */
  lemma RewrittenBytes(frame: seq<byte>, length: nat, transport: nat, protocol: byte, field: nat)
    requires ETHER_HEADER_LENGTH + IPV6_HEADER_LENGTH <= transport <= length <= |frame| < TWO_32
    requires transport + field + 2 <= |frame|
    ensures var g := Rewritten(frame, length, transport, protocol, field);
            OnlyChecksumAt(frame, g, length, transport, protocol, transport + field)
  {
    var at := transport + field;
    var zeroed := Splice(frame, at, [0, 0]);
    SpliceElements(frame, at, [0, 0]);
    SpliceElements(zeroed, at, Be16Bytes(Rfc1071Checksum(Summed(zeroed, length, transport, protocol))));
  }

  /** Where the checksum goes: 16 bytes into a TCP header (6), 6 into a UDP one (17), 2 into an ICMPv6 one (58). */
  lemma ChecksumFieldIs(protocol: byte)
    ensures ChecksumField(protocol) ==
              if protocol == 6 then Some(16) else if protocol == 17 then Some(6)
              else if protocol == 58 then Some(2) else None
  {
  }

  lemma RecalculatedIs(frame: seq<byte>, length: nat, found: Found)
    requires Addressable(frame, length) && found == TransportHeader(frame[14..], length - 14)
    requires found.offset.Some? && ChecksumField(found.protocol).Some?
    ensures 40 <= found.offset.value && 14 + found.offset.value <= length <= |frame| < TWO_32
    ensures 14 + found.offset.value + ChecksumField(found.protocol).value + 2 <= |frame|
    ensures Recalculated(frame, length) ==
              Rewritten(frame, length, 14 + found.offset.value, found.protocol, ChecksumField(found.protocol).value)
  {
    FoundPastHeader(frame[14..], length - 14);
  }

  lemma RewrittenBytesAre(frame: seq<byte>, length: nat, found: Found, field: nat, at: nat, g: seq<byte>)
    requires found.offset.Some? && 40 <= found.offset.value && 14 + found.offset.value <= length <= |frame| < TWO_32
    requires at == 14 + found.offset.value + field && at + 2 <= |frame|
    requires g == Rewritten(frame, length, 14 + found.offset.value, found.protocol, field)
    ensures OnlyChecksumAt(frame, g, length, 14 + found.offset.value, found.protocol, at)
  {
    RewrittenBytes(frame, length, 14 + found.offset.value, found.protocol, field);
  }

  /** For these three protocols no other byte of the frame changes. */
  lemma RecalculatedBytes(frame: seq<byte>, length: nat, found: Found, at: nat)
    requires Addressable(frame, length) && found == TransportHeader(frame[14..], length - 14)
    requires found.offset.Some? && found.protocol in {6, 17, 58}
    requires at == 14 + found.offset.value
                   + if found.protocol == 6 then 16 else if found.protocol == 17 then 6 else 2
    ensures OnlyChecksumAt(frame, Recalculated(frame, length), length, 14 + found.offset.value, found.protocol, at)
  {
    ChecksumFieldIs(found.protocol);
    RecalculatedIs(frame, length, found);
    RewrittenBytesAre(frame, length, found, ChecksumField(found.protocol).value, at, Recalculated(frame, length));
  }

  /** For any other, and without a transport header, no byte changes at all. */
  lemma RecalculatedElse(frame: seq<byte>, length: nat, found: Found)
    requires Addressable(frame, length) && found == TransportHeader(frame[14..], length - 14)
    requires found.offset.None? || found.protocol !in {6, 17, 58}
    ensures Recalculated(frame, length) == frame
  {
    ChecksumFieldIs(found.protocol);
  }

  /**
    What the receiver sums, byte by byte: source and destination address, the length of the segment in network order,
    three zero bytes, the protocol, and the segment.
   */
  lemma SummedLayout(frame: seq<byte>, length: nat, transport: nat, protocol: byte)
    requires 54 <= transport <= length <= |frame| < 0x1_0000_0000
    ensures var m, n := Summed(frame, length, transport, protocol), length - transport;
            && |m| == 40 + n && m[..16] == frame[22..38] && m[16..32] == frame[38..54]
            && Be16(m[32], m[33]) == n / 0x1_0000 && Be16(m[34], m[35]) == n % 0x1_0000
            && m[36] == m[37] == m[38] == 0 && m[39] == protocol && m[40..] == frame[transport..length]
  {
    var h := PseudoHeader(frame[22..38], frame[38..54], length - transport, protocol);
    var segment := frame[transport..length];
    PseudoHeaderLayout(frame[22..38], frame[38..54], length - transport, protocol);
    assert (h + segment)[..16] == h[..16] && (h + segment)[16..32] == h[16..32] && (h + segment)[40..] == segment;
  }
}

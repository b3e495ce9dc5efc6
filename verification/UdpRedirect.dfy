/** The UDP redirect: a SOCKS5 UDP request header inserted into, and removed from, frames in place. */
module UdpRedirect {
  import opened Basics
  import opened Frames

  const IP_DF := 0x4000
  /** reserved, fragment, address type, IPv4 address and port: section 7 of RFC 1928. */
  const SOCKS5_UDP_HEADER_LENGTH := 10
  const UDP_HEADER_LENGTH := 8

  predicate IsUdp(f: seq<byte>)
    requires |f| >= MIN_FRAME_CAPACITY
  {
    EtherType(f) == ETH_P_IP && Protocol(f) == IPPROTO_UDP
  }

  /** (ntohs(ip_off) & ~IP_DF) != 0 */
  predicate IsFragment(f: seq<byte>)
    requires |f| >= MIN_FRAME_CAPACITY
  {
    FragmentField(f) != 0 && FragmentField(f) != IP_DF
  }

  function UdpLength(f: seq<byte>): uint16
    requires |f| >= MIN_FRAME_CAPACITY
  {
    Word(f, Transport(f) + 4)
  }

  /** The datagram's payload by its UDP length. */
  function Payload(f: seq<byte>): seq<byte>
    requires |f| >= MIN_FRAME_CAPACITY
    requires UDP_HEADER_LENGTH <= UdpLength(f) && Transport(f) + UdpLength(f) <= |f|
  {
    f[Transport(f) + UDP_HEADER_LENGTH..Transport(f) + UdpLength(f)]
  }

  function Socks5Header(ip: Address, port: uint16): (header: seq<byte>)
    ensures |header| == SOCKS5_UDP_HEADER_LENGTH
  {
    [0, 0, 0, 1] + ip + Be16Bytes(port)
  }

  function Grown(n: uint16): uint16 {
    var m := n + SOCKS5_UDP_HEADER_LENGTH;
    if m > 0xFFFF then m - 0x1_0000 else m
  }

  function Shrunk(n: uint16): uint16 {
    if n < SOCKS5_UDP_HEADER_LENGTH then n - SOCKS5_UDP_HEADER_LENGTH + 0x1_0000 else n - SOCKS5_UDP_HEADER_LENGTH
  }

  /** Bytes between the IP and the UDP header that a translation may change. */
  predicate IsRewritten(i: int, transport: nat) {
    16 <= i < 18 || 24 <= i < 34 || transport <= i < transport + UDP_HEADER_LENGTH
  }

  /** g is client frame f of `length` bytes, wrapped for the proxy listening on `port`. */
  ghost predicate Encapsulated(f: seq<byte>, length: nat, g: seq<byte>, port: uint16)
    requires |f| >= MIN_FRAME_CAPACITY && Transport(f) + UDP_HEADER_LENGTH <= length
    requires length + SOCKS5_UDP_HEADER_LENGTH <= |f|
  {
    var t := Transport(f);
    && |g| == |f|
    && EthDest(g) == EthSource(f) && EthSource(g) == EthDest(f)
    && IpSource(g) == IpDest(f) && IpDest(g) == IpSource(f)
    && Transport(g) == t && SourcePort(g) == SourcePort(f) && DestPort(g) == port
    && IpLength(g) == Grown(IpLength(f)) && UdpLength(g) == Grown(UdpLength(f))
    && Copied(Socks5Header(IpDest(f), DestPort(f)), 0, g, t + 8, 10)
    && Copied(f, t + 8, g, t + 18, length - t - 8)
    && (forall i {:trigger g[i]} :: 12 <= i < t + 8 && !IsRewritten(i, t) ==> g[i] == f[i])
    && Copied(f, length + 10, g, length + 10, |f| - length - 10)
  }

  /** g is proxy frame f turned around, with the address and port its SOCKS5 header names. */
  ghost predicate HasRestoredHeaders(f: seq<byte>, g: seq<byte>) {
    && |g| == |f| >= MIN_FRAME_CAPACITY
    && var t := Transport(f);
       && EthDest(g) == EthSource(f) && EthSource(g) == EthDest(f)
       && IpSource(g) == Bytes4(f, t + 12) && IpDest(g) == IpSource(f)
       && Transport(g) == t && SourcePort(g) == Word(f, t + 16) && DestPort(g) == DestPort(f)
       && (forall i {:trigger g[i]} :: 12 <= i < t + 8 && !IsRewritten(i, t) ==> g[i] == f[i])
  }

  /** g has the payload of f without the SOCKS5 header, and lengths to match; nothing behind it changes. */
  ghost predicate HasUnwrappedPayload(f: seq<byte>, g: seq<byte>) {
    && |g| == |f| >= MIN_FRAME_CAPACITY
    && var t, n := Transport(f), UdpLength(f);
       && 18 <= n && t + n <= |f|
       && Word(g, 16) == Shrunk(IpLength(f)) && Word(g, t + 4) == n - SOCKS5_UDP_HEADER_LENGTH
       && Copied(f, t + 18, g, t + 8, n - 18)
       && Copied(f, t + n - 10, g, t + n - 10, |f| - t - n + 10)
  }

  /** g is proxy frame f with its SOCKS5 header taken out and its address and port restored from it. */
  ghost predicate Decapsulated(f: seq<byte>, g: seq<byte>) {
    HasRestoredHeaders(f, g) && HasUnwrappedPayload(f, g)
  }

  // ---------------------------------------------------------------------------------
  // The edits, in the order the source makes them
  // ---------------------------------------------------------------------------------

  function WithSums(f: seq<byte>, transport: nat, udpSum: uint16, ipSum: uint16): seq<byte>
    requires |f| >= MIN_FRAME_CAPACITY && transport <= 74
  {
    Splice(Splice(f, transport + 6, Be16Bytes(udpSum)), 24, Be16Bytes(ipSum))
  }

  function WithLengths(f: seq<byte>, transport: nat, ipLength: uint16, udpLength: uint16): seq<byte>
    requires |f| >= MIN_FRAME_CAPACITY && transport <= 74
  {
    Splice(Splice(f, 16, Be16Bytes(ipLength)), transport + 4, Be16Bytes(udpLength))
  }

  lemma SumBytes(f: seq<byte>, transport: nat, udpSum: uint16, ipSum: uint16)
    requires |f| >= MIN_FRAME_CAPACITY && transport <= 74
    ensures var g := WithSums(f, transport, udpSum, ipSum);
            && |g| == |f|
            && (forall i {:trigger g[i]} ::
                  0 <= i < |f| && !(24 <= i < 26) && !(transport + 6 <= i < transport + 8) ==> g[i] == f[i])
  {
    SpliceElements(f, transport + 6, Be16Bytes(udpSum));
    SpliceElements(Splice(f, transport + 6, Be16Bytes(udpSum)), 24, Be16Bytes(ipSum));
  }

  /** g is f with these two lengths. */
  predicate IsSized(f: seq<byte>, t: nat, ipLength: uint16, udpLength: uint16, g: seq<byte>) {
    && |g| == |f| >= MIN_FRAME_CAPACITY && 18 <= t <= 74
    && Word(g, 16) == ipLength && Word(g, t + 4) == udpLength
    && forall i {:trigger g[i]} :: 0 <= i < |f| && !(16 <= i < 18) && !(t + 4 <= i < t + 6) ==> g[i] == f[i]
  }

  lemma LengthBytes(f: seq<byte>, transport: nat, ipLength: uint16, udpLength: uint16)
    requires |f| >= MIN_FRAME_CAPACITY && 18 <= transport <= 74
    ensures IsSized(f, transport, ipLength, udpLength, WithLengths(f, transport, ipLength, udpLength))
  {
    SpliceElements(f, 16, Be16Bytes(ipLength));
    SpliceElements(Splice(f, 16, Be16Bytes(ipLength)), transport + 4, Be16Bytes(udpLength));
  }

  /** The frame with its payload moved up, its lengths grown and the SOCKS5 header in place. */
  function Wrapped(f: seq<byte>, length: nat): seq<byte>
    requires |f| >= MIN_FRAME_CAPACITY && Transport(f) + UDP_HEADER_LENGTH <= length
    requires length + SOCKS5_UDP_HEADER_LENGTH <= |f|
  {
    var t := Transport(f);
    var moved := Splice(f, t + 18, f[t + 8..length]);
    var sized := WithLengths(moved, t, Grown(Word(moved, 16)), Grown(Word(moved, t + 4)));
    Splice(sized, t + 8, Socks5Header(IpDest(sized), Word(sized, t + 2)))
  }

  /** The frame with its addresses exchanged, a new destination port and new checksums. */
  function Readdressed(f: seq<byte>, transport: nat, port: uint16, udpSum: uint16, ipSum: uint16): seq<byte>
    requires |f| >= MIN_FRAME_CAPACITY && transport <= 74
  {
    WithSums(Splice(WithAddressesSwapped(f), transport + 2, Be16Bytes(port)), transport, udpSum, ipSum)
  }

  /** g is f with the bytes from t + 8 to `length` moved up by ten. */
  predicate IsMovedUp(f: seq<byte>, t: nat, length: nat, g: seq<byte>) {
    && t + 8 <= length && length + 10 <= |f| == |g|
    && Copied(f, 0, g, 0, t + 18)
    && Copied(f, t + 8, g, t + 18, length - t - 8)
    && Copied(f, length + 10, g, length + 10, |f| - length - 10)
  }

  lemma MovedBytes(f: seq<byte>, t: nat, length: nat)
    requires t + 8 <= length && length + 10 <= |f|
    ensures IsMovedUp(f, t, length, Splice(f, t + 18, f[t + 8..length]))
  {
    SpliceElements(f, t + 18, f[t + 8..length]);
  }

  /** g is f with `header` at t + 8. */
  predicate IsHeadered(f: seq<byte>, t: nat, header: seq<byte>, g: seq<byte>) {
    && |header| == 10 && t + 18 <= |f| == |g|
    && Copied(f, 0, g, 0, t + 8) && Copied(header, 0, g, t + 8, 10) && Copied(f, t + 18, g, t + 18, |f| - t - 18)
  }

  lemma HeaderBytes(f: seq<byte>, t: nat, header: seq<byte>)
    requires |header| == 10 && t + 18 <= |f|
    ensures IsHeadered(f, t, header, Splice(f, t + 8, header))
  {
    SpliceElements(f, t + 8, header);
  }

  /** g is f with its payload moved up behind a SOCKS5 header and its lengths grown. */
  ghost predicate IsWrapped(f: seq<byte>, length: nat, g: seq<byte>)
    requires |f| >= MIN_FRAME_CAPACITY && Transport(f) + UDP_HEADER_LENGTH <= length
    requires length + SOCKS5_UDP_HEADER_LENGTH <= |f|
  {
    var t := Transport(f);
    && |g| == |f|
    && (forall i {:trigger g[i]} :: 0 <= i < t + 8 && !(16 <= i < 18) && !(t + 4 <= i < t + 6) ==> g[i] == f[i])
    && Word(g, 16) == Grown(IpLength(f)) && Word(g, t + 4) == Grown(UdpLength(f))
    && Copied(Socks5Header(IpDest(f), DestPort(f)), 0, g, t + 8, 10)
    && Copied(f, t + 8, g, t + 18, length - t - 8)
    && Copied(f, length + 10, g, length + 10, |f| - length - 10)
  }

  lemma WrappedBytes(f: seq<byte>, length: nat)
    requires |f| >= MIN_FRAME_CAPACITY && Transport(f) + UDP_HEADER_LENGTH <= length
    requires length + SOCKS5_UDP_HEADER_LENGTH <= |f| && HeaderWords(f) >= MIN_HEADER_WORDS
    ensures IsWrapped(f, length, Wrapped(f, length))
  {
    var t := Transport(f);
    var moved := Splice(f, t + 18, f[t + 8..length]);
    MovedBytes(f, t, length);
    var ipLength, udpLength := Grown(Word(moved, 16)), Grown(Word(moved, t + 4));
    var sized := WithLengths(moved, t, ipLength, udpLength);
    LengthBytes(moved, t, ipLength, udpLength);
    var header := Socks5Header(IpDest(sized), Word(sized, t + 2));
    HeaderBytes(sized, t, header);
    HeaderedIsWrapped(f, length, moved, sized, header, Splice(sized, t + 8, header));
  }

  lemma HeaderedIsWrapped(
      f: seq<byte>, length: nat, moved: seq<byte>, sized: seq<byte>, header: seq<byte>, g: seq<byte>)
    requires |f| >= MIN_FRAME_CAPACITY && Transport(f) + UDP_HEADER_LENGTH <= length
    requires length + SOCKS5_UDP_HEADER_LENGTH <= |f| && HeaderWords(f) >= MIN_HEADER_WORDS
    requires IsMovedUp(f, Transport(f), length, moved)
    requires IsSized(moved, Transport(f), Grown(Word(moved, 16)), Grown(Word(moved, Transport(f) + 4)), sized)
    requires header == Socks5Header(IpDest(sized), Word(sized, Transport(f) + 2))
    requires IsHeadered(sized, Transport(f), header, g)
    ensures IsWrapped(f, length, g)
  {
    assert IpDest(sized) == IpDest(f) && Word(sized, Transport(f) + 2) == DestPort(f);
  }

  /** g is w with its addresses exchanged and a new destination port. */
  ghost predicate IsReaddressed(w: seq<byte>, t: nat, g: seq<byte>, port: uint16) {
    && |g| == |w| >= MIN_FRAME_CAPACITY && 34 <= t <= 74
    && EthDest(g) == EthSource(w) && EthSource(g) == EthDest(w)
    && IpSource(g) == IpDest(w) && IpDest(g) == IpSource(w)
    && Word(g, t + 2) == port
    && (forall i {:trigger g[i]} ::
          12 <= i < |w| && !(24 <= i < 34) && !(t + 2 <= i < t + 4) && !(t + 6 <= i < t + 8) ==> g[i] == w[i])
  }

  lemma ReaddressedBytes(f: seq<byte>, transport: nat, port: uint16, udpSum: uint16, ipSum: uint16)
    requires |f| >= MIN_FRAME_CAPACITY && 34 <= transport <= 74
    ensures IsReaddressed(f, transport, Readdressed(f, transport, port, udpSum, ipSum), port)
  {
    var swapped := WithAddressesSwapped(f);
    SwappedBytes(f);
    SpliceElements(swapped, transport + 2, Be16Bytes(port));
    SumBytes(Splice(swapped, transport + 2, Be16Bytes(port)), transport, udpSum, ipSum);
  }

  lemma EditsEncapsulate(f: seq<byte>, length: nat, port: uint16, udpSum: uint16, ipSum: uint16)
    requires |f| >= MIN_FRAME_CAPACITY && Transport(f) + UDP_HEADER_LENGTH <= length
    requires length + SOCKS5_UDP_HEADER_LENGTH <= |f| && HeaderWords(f) >= MIN_HEADER_WORDS
    ensures |Wrapped(f, length)| == |f|
    ensures Encapsulated(f, length, Readdressed(Wrapped(f, length), Transport(f), port, udpSum, ipSum), port)
  {
    var t, w := Transport(f), Wrapped(f, length);
    WrappedBytes(f, length);
    ReaddressedBytes(w, t, port, udpSum, ipSum);
    ReaddressedIsEncapsulated(f, length, w, Readdressed(w, t, port, udpSum, ipSum), port);
  }

  lemma ReaddressedIsEncapsulated(f: seq<byte>, length: nat, w: seq<byte>, g: seq<byte>, port: uint16)
    requires |f| >= MIN_FRAME_CAPACITY && Transport(f) + UDP_HEADER_LENGTH <= length
    requires length + SOCKS5_UDP_HEADER_LENGTH <= |f| && HeaderWords(f) >= MIN_HEADER_WORDS
    requires IsWrapped(f, length, w) && IsReaddressed(w, Transport(f), g, port)
    ensures Encapsulated(f, length, g, port)
  {
    WrappedFields(f, length, w);
    ReaddressedFields(f, w, Transport(f), g, port);
    SameBody(f, Socks5Header(IpDest(f), DestPort(f)), length, w, g, Transport(f));
  }

  lemma WrappedFields(f: seq<byte>, length: nat, w: seq<byte>)
    requires |f| >= MIN_FRAME_CAPACITY && Transport(f) + UDP_HEADER_LENGTH <= length
    requires length + SOCKS5_UDP_HEADER_LENGTH <= |f| && HeaderWords(f) >= MIN_HEADER_WORDS
    requires IsWrapped(f, length, w)
    ensures EthDest(w) == EthDest(f) && EthSource(w) == EthSource(f)
    ensures IpSource(w) == IpSource(f) && IpDest(w) == IpDest(f)
    ensures w[14] == f[14] && Word(w, Transport(f)) == Word(f, Transport(f))
  {
  }

  lemma ReaddressedFields(f: seq<byte>, w: seq<byte>, t: nat, g: seq<byte>, port: uint16)
    requires |f| == |w| >= MIN_FRAME_CAPACITY && t == Transport(f) && IsReaddressed(w, t, g, port)
    requires EthDest(w) == EthDest(f) && EthSource(w) == EthSource(f)
    requires IpSource(w) == IpSource(f) && IpDest(w) == IpDest(f)
    requires w[14] == f[14] && Word(w, t) == Word(f, t)
    ensures EthDest(g) == EthSource(f) && EthSource(g) == EthDest(f)
    ensures IpSource(g) == IpDest(f) && IpDest(g) == IpSource(f)
    ensures Transport(g) == t && SourcePort(g) == SourcePort(f) && DestPort(g) == port
    ensures Word(g, 16) == Word(w, 16) && Word(g, t + 4) == Word(w, t + 4)
  {
    assert g[14] == w[14];
  }

  /** What lies behind the UDP header is not touched by readdressing. */
  lemma SameBody(f: seq<byte>, header: seq<byte>, length: nat, w: seq<byte>, g: seq<byte>, t: nat)
    requires |f| == |w| == |g| && t + 8 <= length && length + 10 <= |f| && |header| == 10
    requires Copied(header, 0, w, t + 8, 10) && Copied(f, t + 8, w, t + 18, length - t - 8)
    requires Copied(f, length + 10, w, length + 10, |f| - length - 10)
    requires Copied(w, t + 8, g, t + 8, |w| - t - 8)
    ensures Copied(header, 0, g, t + 8, 10) && Copied(f, t + 8, g, t + 18, length - t - 8)
    ensures Copied(f, length + 10, g, length + 10, |f| - length - 10)
  {
  }

  /** The proxy's frame turned around, with the address and port its SOCKS5 header names. */
  function Restored(f: seq<byte>): seq<byte>
    requires |f| >= MIN_FRAME_CAPACITY
  {
    var t := Transport(f);
    var swapped := WithAddressesSwapped(f);
    var sourced := Splice(swapped, 26, Bytes4(swapped, t + 12));
    Splice(sourced, t, [sourced[t + 16], sourced[t + 17]])
  }

  /** Payload moved down over the SOCKS5 header, lengths shrunk, checksums written. */
  function Unwrapped(f: seq<byte>, transport: nat, udpSum: uint16, ipSum: uint16): seq<byte>
    requires |f| >= MIN_FRAME_CAPACITY && transport <= 74
    requires UDP_HEADER_LENGTH + SOCKS5_UDP_HEADER_LENGTH <= Word(f, transport + 4)
    requires transport + Word(f, transport + 4) <= |f|
  {
    Shortened(Splice(f, transport + 8, f[transport + 18..transport + Word(f, transport + 4)]), transport, udpSum, ipSum)
  }

  /** Lengths shrunk, checksums written. */
  function Shortened(f: seq<byte>, transport: nat, udpSum: uint16, ipSum: uint16): seq<byte>
    requires |f| >= MIN_FRAME_CAPACITY && transport <= 74
  {
    var sized := WithLengths(f, transport, Shrunk(Word(f, 16)), Shrunk(Word(f, transport + 4)));
    WithSums(sized, transport, udpSum, ipSum)
  }

  /** g is f with shrunk lengths and other checksums. */
  predicate IsShortened(f: seq<byte>, t: nat, g: seq<byte>) {
    && |g| == |f| >= MIN_FRAME_CAPACITY && 34 <= t <= 74
    && Word(g, 16) == Shrunk(Word(f, 16)) && Word(g, t + 4) == Shrunk(Word(f, t + 4))
    && forall i {:trigger g[i]} ::
         0 <= i < |f| && !(16 <= i < 18) && !(24 <= i < 26) && !(t + 4 <= i < t + 8) ==> g[i] == f[i]
  }

  lemma ShortenedBytes(f: seq<byte>, t: nat, udpSum: uint16, ipSum: uint16)
    requires |f| >= MIN_FRAME_CAPACITY && 34 <= t <= 74
    ensures IsShortened(f, t, Shortened(f, t, udpSum, ipSum))
  {
    var ipLength, udpLength := Shrunk(Word(f, 16)), Shrunk(Word(f, t + 4));
    LengthBytes(f, t, ipLength, udpLength);
    SumBytes(WithLengths(f, t, ipLength, udpLength), t, udpSum, ipSum);
  }

  /** g is f with the bytes up to `end` moved down over those at t + 8. */
  predicate IsMovedDown(f: seq<byte>, t: nat, end: nat, g: seq<byte>) {
    && t + 18 <= end <= |f| == |g|
    && Copied(f, 0, g, 0, t + 8)
    && Copied(f, t + 18, g, t + 8, end - t - 18)
    && Copied(f, end - 10, g, end - 10, |f| - end + 10)
  }

  lemma MovedDownBytes(f: seq<byte>, t: nat, end: nat)
    requires t + 18 <= end <= |f|
    ensures IsMovedDown(f, t, end, Splice(f, t + 8, f[t + 18..end]))
  {
    SpliceElements(f, t + 8, f[t + 18..end]);
  }

  lemma RestoredBytes(f: seq<byte>)
    requires |f| >= MIN_FRAME_CAPACITY && HeaderWords(f) >= MIN_HEADER_WORDS
    ensures IsRestored(f, Restored(f))
  {
    var t := Transport(f);
    var swapped := WithAddressesSwapped(f);
    SwappedBytes(f);
    SpliceElements(swapped, 26, Bytes4(swapped, t + 12));
    var sourced := Splice(swapped, 26, Bytes4(swapped, t + 12));
    SpliceElements(sourced, t, [sourced[t + 16], sourced[t + 17]]);
  }

  lemma UnwrappedBytes(f: seq<byte>, transport: nat, udpSum: uint16, ipSum: uint16)
    requires |f| >= MIN_FRAME_CAPACITY && 34 <= transport <= 74
    requires UDP_HEADER_LENGTH + SOCKS5_UDP_HEADER_LENGTH <= Word(f, transport + 4)
    requires transport + Word(f, transport + 4) <= |f|
    ensures IsUnwrapped(f, transport, Unwrapped(f, transport, udpSum, ipSum))
  {
    var end := transport + Word(f, transport + 4);
    var moved := Splice(f, transport + 8, f[transport + 18..end]);
    MovedDownBytes(f, transport, end);
    ShortenedBytes(moved, transport, udpSum, ipSum);
    assert Unwrapped(f, transport, udpSum, ipSum) == Shortened(moved, transport, udpSum, ipSum);
    ShortenedIsUnwrapped(f, transport, moved, Shortened(moved, transport, udpSum, ipSum));
  }

  lemma ShortenedIsUnwrapped(f: seq<byte>, t: nat, moved: seq<byte>, g: seq<byte>)
    requires |f| >= MIN_FRAME_CAPACITY && 34 <= t <= 74
    requires IsMovedDown(f, t, t + Word(f, t + 4), moved) && IsShortened(moved, t, g)
    ensures IsUnwrapped(f, t, g)
  {
  }

  lemma EditsDecapsulate(f: seq<byte>, udpSum: uint16, ipSum: uint16)
    requires |f| >= MIN_FRAME_CAPACITY && HeaderWords(f) >= MIN_HEADER_WORDS
    requires UDP_HEADER_LENGTH + SOCKS5_UDP_HEADER_LENGTH <= UdpLength(f) && Transport(f) + UdpLength(f) <= |f|
    ensures |Restored(f)| == |f| && Word(Restored(f), Transport(f) + 4) == UdpLength(f)
    ensures Decapsulated(f, Unwrapped(Restored(f), Transport(f), udpSum, ipSum))
  {
    var t, r := Transport(f), Restored(f);
    RestoredBytes(f);
    assert UdpLength(f) == Word(r, t + 4);
    UnwrappedBytes(r, t, udpSum, ipSum);
    UnwrappedIsDecapsulated(f, r, Unwrapped(r, t, udpSum, ipSum));
  }

  lemma UnwrappedIsDecapsulated(f: seq<byte>, r: seq<byte>, g: seq<byte>)
    requires IsRestored(f, r) && IsUnwrapped(r, Transport(f), g)
    requires UDP_HEADER_LENGTH + SOCKS5_UDP_HEADER_LENGTH <= UdpLength(f) && Transport(f) + UdpLength(f) <= |f|
    ensures Decapsulated(f, g)
  {
    UnwrappedFields(f, r, g);
    UnwrappedPayload(f, r, g);
  }

  /** r is f turned around and renamed, everything else as it was. */
  ghost predicate IsRestored(f: seq<byte>, r: seq<byte>) {
    && |f| == |r| >= MIN_FRAME_CAPACITY
    && var t := Transport(f);
       && EthDest(r) == EthSource(f) && EthSource(r) == EthDest(f)
       && IpSource(r) == Bytes4(f, t + 12) && IpDest(r) == IpSource(f)
       && Word(r, t) == Word(f, t + 16)
       && (forall i {:trigger r[i]} :: 12 <= i < |f| && !(26 <= i < 34) && !(t <= i < t + 2) ==> r[i] == f[i])
  }

  /** Headers other than their lengths and checksums are those of r. */
  ghost predicate HasHeadersOf(r: seq<byte>, t: nat, g: seq<byte>) {
    && |r| == |g| >= MIN_FRAME_CAPACITY && 34 <= t <= 74
    && (forall i {:trigger g[i]} :: 0 <= i < t + 4 && !(16 <= i < 18) && !(24 <= i < 26) ==> g[i] == r[i])
  }

  /** g is r without the SOCKS5 header at t + 8. */
  ghost predicate IsUnwrapped(r: seq<byte>, t: nat, g: seq<byte>) {
    && HasHeadersOf(r, t, g)
    && var end := t + Word(r, t + 4);
       && t + 18 <= end <= |r|
       && Word(g, 16) == Shrunk(Word(r, 16)) && Word(g, t + 4) == Shrunk(Word(r, t + 4))
       && Copied(r, t + 18, g, t + 8, end - t - 18)
       && Copied(r, end - 10, g, end - 10, |r| - end + 10)
  }

  lemma UnwrappedFields(f: seq<byte>, r: seq<byte>, g: seq<byte>)
    requires IsRestored(f, r) && HasHeadersOf(r, Transport(f), g)
    ensures HasRestoredHeaders(f, g)
  {
    assert EthDest(g) == EthDest(r) && EthSource(g) == EthSource(r);
    assert IpSource(g) == IpSource(r) && IpDest(g) == IpDest(r);
    assert g[14] == r[14] == f[14];
  }

  lemma UnwrappedPayload(f: seq<byte>, r: seq<byte>, g: seq<byte>)
    requires IsRestored(f, r) && IsUnwrapped(r, Transport(f), g)
    ensures HasUnwrappedPayload(f, g)
  {
    var t, n := Transport(f), UdpLength(f);
    assert Word(r, t + 4) == n && Word(r, 16) == IpLength(f);
    ShrunkFits(n);
    assert Copied(f, t + 18, r, t + 18, |f| - t - 18) && Copied(f, t + n - 10, r, t + n - 10, |f| - t - n + 10);
    CopiedTwice(f, t + 18, r, t + 18, |f| - t - 18, g, t + 8, n - 18);
    CopiedTwice(f, t + n - 10, r, t + n - 10, |f| - t - n + 10, g, t + n - 10, |f| - t - n + 10);
  }

  lemma CopiedTwice(f: seq<byte>, a: nat, r: seq<byte>, b: nat, m: nat, g: seq<byte>, c: nat, n: nat)
    requires n <= m && a + m <= |f| && b + m <= |r| && c + n <= |g|
    requires Copied(f, a, r, b, m) && Copied(r, b, g, c, n)
    ensures Copied(f, a, g, c, n)
  {
  }

  // ---------------------------------------------------------------------------------
  // Byte by byte
  // ---------------------------------------------------------------------------------

  /** Two zero bytes, no fragment, address type IPv4, address and port: section 7 of RFC 1928. */
  lemma Socks5HeaderLayout(ip: Address, port: uint16)
    ensures Socks5Header(ip, port) == [0, 0, 0, 1, ip[0], ip[1], ip[2], ip[3], port / 256, port % 256]
  {
  }

  /** Lengths are 16 bits wide. */
  lemma LengthsWrap(n: uint16)
    ensures Grown(n) == (n + 10) % 65536 && Shrunk(n) == (n - 10) % 65536
  {
  }

  /** The payload starts 8 bytes into the UDP header, whose length field is 4 bytes into it. */
  lemma PayloadPlace(f: seq<byte>)
    requires |f| >= MIN_FRAME_CAPACITY
    ensures var t := 14 + 4 * (f[14] % 16);
            && UdpLength(f) == f[t + 4] as int * 256 + f[t + 5]
            && (8 <= UdpLength(f) && t + UdpLength(f) <= |f| ==> Payload(f) == f[t + 8..t + UdpLength(f)])
  {
  }

  /** Where the bytes of a wrapped datagram come from: the payload moves up by ten behind the header. */
  lemma WrappedByte(f: seq<byte>, length: nat, i: nat)
    requires i < |f| && |f| >= MIN_FRAME_CAPACITY && f[14] % 16 >= 5
    requires 14 + 4 * (f[14] % 16) + 8 <= length && length + 10 <= |f|
    ensures |Wrapped(f, length)| == |f|
    ensures Wrapped(f, length)[i] ==
              var t := 14 + 4 * (f[14] % 16);
              if 16 <= i < 18 then Be16Bytes(Grown(IpLength(f)))[i - 16]
              else if t + 4 <= i < t + 6 then Be16Bytes(Grown(UdpLength(f)))[i - t - 4]
              else if t + 8 <= i < t + 12 then [0, 0, 0, 1][i - t - 8]
              else if t + 12 <= i < t + 16 then f[i - t + 18]
              else if t + 16 <= i < t + 18 then f[i - 14]
              else if t + 18 <= i < length + 10 then f[i - 10] else f[i]
  {
    WrappedBytes(f, length);
    WrappedByteIs(f, length, Wrapped(f, length), i);
  }

  lemma WrappedByteIs(f: seq<byte>, length: nat, w: seq<byte>, i: nat)
    requires i < |f| && |f| >= MIN_FRAME_CAPACITY && f[14] % 16 >= 5
    requires 14 + 4 * (f[14] % 16) + 8 <= length && length + 10 <= |f| && IsWrapped(f, length, w)
    ensures w[i] ==
              var t := 14 + 4 * (f[14] % 16);
              if 16 <= i < 18 then Be16Bytes(Grown(IpLength(f)))[i - 16]
              else if t + 4 <= i < t + 6 then Be16Bytes(Grown(UdpLength(f)))[i - t - 4]
              else if t + 8 <= i < t + 12 then [0, 0, 0, 1][i - t - 8]
              else if t + 12 <= i < t + 16 then f[i - t + 18]
              else if t + 16 <= i < t + 18 then f[i - 14]
              else if t + 18 <= i < length + 10 then f[i - 10] else f[i]
  {
    var t := Transport(f);
    WordBytes(w, 16, Grown(IpLength(f)));
    WordBytes(w, t + 4, Grown(UdpLength(f)));
    if t + 8 <= i < t + 18 {
      HeaderByte(f, i - t - 8);
      assert w[i] == Socks5Header(IpDest(f), DestPort(f))[i - t - 8];
    }
  }

  lemma HeaderByte(f: seq<byte>, k: nat)
    requires |f| >= MIN_FRAME_CAPACITY && k < 10
    ensures Socks5Header(IpDest(f), DestPort(f))[k] ==
              if k < 4 then [0, 0, 0, 1][k] else if k < 8 then f[26 + k] else f[Transport(f) + k - 6]
  {
    Socks5HeaderLayout(IpDest(f), DestPort(f));
  }

  lemma WordBytes(f: seq<byte>, at: nat, n: uint16)
    requires at + 2 <= |f| && Word(f, at) == n
    ensures f[at] == Be16Bytes(n)[0] && f[at + 1] == Be16Bytes(n)[1]
  {
  }

  lemma ReaddressedByte(f: seq<byte>, t: nat, port: uint16, udpSum: uint16, ipSum: uint16, i: nat)
    requires i < |f| && |f| >= MIN_FRAME_CAPACITY && 34 <= t <= 74
    ensures |Readdressed(f, t, port, udpSum, ipSum)| == |f|
    ensures Readdressed(f, t, port, udpSum, ipSum)[i] ==
              if i < 6 then f[i + 6] else if i < 12 then f[i - 6]
              else if 24 <= i < 26 then Be16Bytes(ipSum)[i - 24]
              else if 26 <= i < 30 then f[i + 4] else if 30 <= i < 34 then f[i - 4]
              else if t + 2 <= i < t + 4 then Be16Bytes(port)[i - t - 2]
              else if t + 6 <= i < t + 8 then Be16Bytes(udpSum)[i - t - 6] else f[i]
  {
    SwappedByte(f, i);
  }

  lemma RestoredByte(f: seq<byte>, i: nat)
    requires i < |f| && |f| >= MIN_FRAME_CAPACITY && f[14] % 16 >= 5
    ensures |Restored(f)| == |f|
    ensures Restored(f)[i] ==
              var t := 14 + 4 * (f[14] % 16);
              if i < 6 then f[i + 6] else if i < 12 then f[i - 6]
              else if 26 <= i < 30 then f[t + 12..t + 16][i - 26] else if 30 <= i < 34 then f[i - 4]
              else if t <= i < t + 2 then f[t + 16..t + 18][i - t] else f[i]
  {
    SwappedByte(f, i);
    RestoredBytes(f);
  }

  lemma ShortenedByte(f: seq<byte>, t: nat, udpSum: uint16, ipSum: uint16, i: nat)
    requires i < |f| && |f| >= MIN_FRAME_CAPACITY && 34 <= t <= 74
    ensures |Shortened(f, t, udpSum, ipSum)| == |f|
    ensures Shortened(f, t, udpSum, ipSum)[i] ==
              if 16 <= i < 18 then Be16Bytes(Shrunk(Word(f, 16)))[i - 16]
              else if 24 <= i < 26 then Be16Bytes(ipSum)[i - 24]
              else if t + 4 <= i < t + 6 then Be16Bytes(Shrunk(Word(f, t + 4)))[i - t - 4]
              else if t + 6 <= i < t + 8 then Be16Bytes(udpSum)[i - t - 6] else f[i]
  {
  }

  /** Where the bytes of an unwrapped reply come from: the payload moves down by ten. */
  lemma UnwrappedByte(f: seq<byte>, t: nat, udpSum: uint16, ipSum: uint16, i: nat)
    requires i < |f| && |f| >= MIN_FRAME_CAPACITY && 34 <= t <= 74
    requires 18 <= Word(f, t + 4) && t + Word(f, t + 4) <= |f|
    ensures |Unwrapped(f, t, udpSum, ipSum)| == |f|
    ensures Unwrapped(f, t, udpSum, ipSum)[i] ==
              if 16 <= i < 18 then Be16Bytes(Shrunk(Word(f, 16)))[i - 16]
              else if 24 <= i < 26 then Be16Bytes(ipSum)[i - 24]
              else if t + 4 <= i < t + 6 then Be16Bytes(Shrunk(Word(f, t + 4)))[i - t - 4]
              else if t + 6 <= i < t + 8 then Be16Bytes(udpSum)[i - t - 6]
              else if t + 8 <= i < t + Word(f, t + 4) - 10 then f[i + 10] else f[i]
  {
    var moved := Splice(f, t + 8, f[t + 18..t + Word(f, t + 4)]);
    SpliceElements(f, t + 8, f[t + 18..t + Word(f, t + 4)]);
    ShortenedByte(moved, t, udpSum, ipSum, i);
  }

  // ---------------------------------------------------------------------------------
  // Round trips
  // ---------------------------------------------------------------------------------

  /** What the proxy receives is the request header of section 7 of RFC 1928 and the untouched payload. */
  lemma ProxyReceivesPayload(f: seq<byte>, length: nat, g: seq<byte>, port: uint16)
    requires |f| >= MIN_FRAME_CAPACITY && Transport(f) + UDP_HEADER_LENGTH <= length
    requires length + SOCKS5_UDP_HEADER_LENGTH <= |f| && Encapsulated(f, length, g, port)
    requires UDP_HEADER_LENGTH <= UdpLength(f) <= 0xFFFF - SOCKS5_UDP_HEADER_LENGTH
    requires Transport(f) + UdpLength(f) <= length
    ensures UdpLength(g) == UdpLength(f) + 10 && Transport(g) + UdpLength(g) <= |g|
    ensures Payload(g) == Socks5Header(IpDest(f), DestPort(f)) + Payload(f)
  {
    WrappedLength(f, length, g, port);
    WrappedPayload(f, Socks5Header(IpDest(f), DestPort(f)), g, Transport(f), UdpLength(f), length);
  }

  lemma WrappedLength(f: seq<byte>, length: nat, g: seq<byte>, port: uint16)
    requires |f| >= MIN_FRAME_CAPACITY && Transport(f) + UDP_HEADER_LENGTH <= length
    requires length + SOCKS5_UDP_HEADER_LENGTH <= |f| && Encapsulated(f, length, g, port)
    requires UdpLength(f) <= 0xFFFF - SOCKS5_UDP_HEADER_LENGTH
    ensures UdpLength(g) == UdpLength(f) + 10 && Transport(g) == Transport(f)
  {
    GrownFits(UdpLength(f));
  }

  lemma GrownFits(n: uint16)
    requires n <= 0xFFFF - SOCKS5_UDP_HEADER_LENGTH
    ensures Grown(n) == n + 10
  {
  }

  lemma ShrunkFits(n: uint16)
    requires n >= SOCKS5_UDP_HEADER_LENGTH
    ensures Shrunk(n) == n - 10
  {
  }

  lemma WrappedPayload(f: seq<byte>, header: seq<byte>, g: seq<byte>, t: nat, n: nat, length: nat)
    requires 8 <= n && t + n <= length && length + 10 <= |f| == |g|
    requires |header| == 10 && Copied(header, 0, g, t + 8, 10) && Copied(f, t + 8, g, t + 18, length - t - 8)
    ensures g[t + 8..t + n + 10] == header + f[t + 8..t + n]
  {
    CopiedSlice(header, 0, g, t + 8, 10);
    CopiedSlice(f, t + 8, g, t + 18, n - 8);
    JoinSlices(g, t + 8, t + 18, t + n + 10);
  }

  lemma JoinSlices(s: seq<byte>, from: nat, middle: nat, to: nat)
    requires from <= middle <= to <= |s|
    ensures s[from..to] == s[from..middle] + s[middle..to]
  {
  }

  /** r is a datagram the proxy sends back to the client port it received g from. */
  predicate AnswersDatagram(r: seq<byte>, g: seq<byte>)
    requires |r| >= MIN_FRAME_CAPACITY && |g| >= MIN_FRAME_CAPACITY
  {
    && EthDest(r) == EthSource(g) && EthSource(r) == EthDest(g)
    && IpSource(r) == IpDest(g) && IpDest(r) == IpSource(g)
    && SourcePort(r) == DestPort(g) && DestPort(r) == SourcePort(g)
  }

  /**
    End to end: the client's datagram goes out encapsulated, and the proxy answers with a SOCKS5 header naming an
    address and a port. The client receives exactly the payload of the answer, from that address and port; so it is a
    direct answer to what the client sent if and only if they are the original destination.
   */
  lemma UdpRoundTrip(
      f: seq<byte>, length: nat, g: seq<byte>, port: uint16,
      r: seq<byte>, ip: Address, source: uint16, answer: seq<byte>, h: seq<byte>)
    requires |f| >= MIN_FRAME_CAPACITY && Transport(f) + UDP_HEADER_LENGTH <= length
    requires length + SOCKS5_UDP_HEADER_LENGTH <= |f| && Encapsulated(f, length, g, port)
    requires |r| >= MIN_FRAME_CAPACITY && AnswersDatagram(r, g)
    requires UDP_HEADER_LENGTH + SOCKS5_UDP_HEADER_LENGTH <= UdpLength(r) && Transport(r) + UdpLength(r) <= |r|
    requires Payload(r) == Socks5Header(ip, source) + answer
    requires Decapsulated(r, h)
    ensures AnswersDatagram(h, f) <==> ip == IpDest(f) && source == DestPort(f)
    ensures IpSource(h) == ip && SourcePort(h) == source && DestPort(h) == SourcePort(f)
    ensures UDP_HEADER_LENGTH <= UdpLength(h) && Transport(h) + UdpLength(h) <= |h| && Payload(h) == answer
    ensures UdpLength(h) == UdpLength(r) - 10 && IpLength(h) == Shrunk(IpLength(r))
  {
    HeaderNames(r, ip, source, answer);
    AnsweredFields(f, length, g, port, r, h);
    AnsweredPayload(r, h, answer);
  }

  lemma AnsweredFields(f: seq<byte>, length: nat, g: seq<byte>, port: uint16, r: seq<byte>, h: seq<byte>)
    requires |f| >= MIN_FRAME_CAPACITY && Transport(f) + UDP_HEADER_LENGTH <= length
    requires length + SOCKS5_UDP_HEADER_LENGTH <= |f| && Encapsulated(f, length, g, port)
    requires |r| >= MIN_FRAME_CAPACITY && AnswersDatagram(r, g) && HasRestoredHeaders(r, h)
    ensures IpSource(h) == Bytes4(r, Transport(r) + 12) && SourcePort(h) == Word(r, Transport(r) + 16)
    ensures DestPort(h) == SourcePort(f)
    ensures AnswersDatagram(h, f) <==>
              Bytes4(r, Transport(r) + 12) == IpDest(f) && Word(r, Transport(r) + 16) == DestPort(f)
  {
  }

  lemma AnsweredPayload(r: seq<byte>, h: seq<byte>, answer: seq<byte>)
    requires |r| >= MIN_FRAME_CAPACITY
    requires UDP_HEADER_LENGTH + SOCKS5_UDP_HEADER_LENGTH <= UdpLength(r) && Transport(r) + UdpLength(r) <= |r|
    requires r[Transport(r) + 18..Transport(r) + UdpLength(r)] == answer
    requires Decapsulated(r, h)
    ensures UDP_HEADER_LENGTH <= UdpLength(h) && Transport(h) + UdpLength(h) <= |h| && Payload(h) == answer
    ensures UdpLength(h) == UdpLength(r) - 10 && IpLength(h) == Shrunk(IpLength(r))
  {
    CopiedSlice(r, Transport(r) + 18, h, Transport(r) + 8, UdpLength(r) - 18);
  }

  /** Reading the fields of a SOCKS5 header out of the frame that carries it. */
  lemma HeaderNames(r: seq<byte>, ip: Address, port: uint16, answer: seq<byte>)
    requires |r| >= MIN_FRAME_CAPACITY
    requires UDP_HEADER_LENGTH + SOCKS5_UDP_HEADER_LENGTH <= UdpLength(r) && Transport(r) + UdpLength(r) <= |r|
    requires Payload(r) == Socks5Header(ip, port) + answer
    ensures var t := Transport(r);
            && Bytes4(r, t + 12) == ip && Word(r, t + 16) == port && r[t + 18..t + UdpLength(r)] == answer
  {
    var t, p := Transport(r), Payload(r);
    assert forall i :: 0 <= i < |p| ==> p[i] == r[t + 8 + i];
    assert p[8] == Be16Bytes(port)[0] && p[9] == Be16Bytes(port)[1];
    assert p[4..8] == ip && [p[4], p[5], p[6], p[7]] == p[4..8];
    assert p[10..] == answer && r[t + 18..t + UdpLength(r)] == p[10..];
  }

  /** A reply with a whole IP header, and a UDP length that covers a SOCKS5 header and stays in the buffer. */
  predicate IsWellFormedReply(f: seq<byte>)
    requires |f| >= MIN_FRAME_CAPACITY
  {
    && HeaderWords(f) >= MIN_HEADER_WORDS
    && UDP_HEADER_LENGTH + SOCKS5_UDP_HEADER_LENGTH <= UdpLength(f) && Transport(f) + UdpLength(f) <= |f|
  }

  // ---------------------------------------------------------------------------------
  // The known client ports
  // ---------------------------------------------------------------------------------

  const FIFTEEN_MINUTES := 900

  /** endpoints_: client ports with the time of their last datagram. */
  type Endpoints = map<uint16, nat>

  type Frame = f: seq<byte> | |f| >= MIN_FRAME_CAPACITY witness seq(MIN_FRAME_CAPACITY, _ => 0)

  /** is_new_endpoint: whether the client port of the frame was unknown, and the ports known afterwards. */
  function Announce(t: Endpoints, f: Frame, now: nat): (bool, Endpoints) {
    if IsUdp(f) && SourcePort(f) !in t then (true, t[SourcePort(f) := now]) else (false, t)
  }

  /** Whether a frame of the client, or of the proxy, with this client port is translated. */
  function Datagram(t: Endpoints, f: Frame, client: uint16, now: nat): (bool, Endpoints) {
    if IsUdp(f) && !IsFragment(f) && client in t then (true, t[client := now]) else (false, t)
  }

  function CleanUp(t: Endpoints, now: nat): Endpoints {
    map port | port in t && now - t[port] <= FIFTEEN_MINUTES :: t[port]
  }

  datatype Event =
    | Announced(f: Frame, now: nat)
    | FromClient(f: Frame, now: nat)
    | FromProxy(f: Frame, now: nat)
    | Expire(now: nat)

  function Step(t: Endpoints, e: Event): Endpoints {
    match e
    case Announced(f, now) => Announce(t, f, now).1
    case FromClient(f, now) => Datagram(t, f, SourcePort(f), now).1
    case FromProxy(f, now) => Datagram(t, f, DestPort(f), now).1
    case Expire(now) => CleanUp(t, now)
  }

  function Run(es: seq<Event>): Endpoints {
    if es == [] then map[] else Step(Run(DropLast(es)), Last(es))
  }

  /** A known port stays known until it has been silent for more than fifteen minutes. */
  lemma EndpointIsRemovedBy(t: Endpoints, e: Event, port: uint16)
    requires port in t
    ensures port !in Step(t, e) <==> e.Expire? && e.now - t[port] > FIFTEEN_MINUTES
  {
  }

  predicate IsKnown(es: seq<Event>, j: nat, port: uint16)
    requires j <= |es|
  {
    port in Run(es[..j])
  }

  /** The i-th event announces an unknown port. */
  predicate Announces(es: seq<Event>, i: nat, port: uint16) {
    && i < |es| && es[i].Announced? && IsUdp(es[i].f) && SourcePort(es[i].f) == port
    && !IsKnown(es, i, port)
  }

  predicate KnownSince(es: seq<Event>, from: nat, port: uint16) {
    forall j :: from <= j <= |es| ==> IsKnown(es, j, port)
  }

  lemma KnownEarlier(es: seq<Event>, j: nat, port: uint16)
    requires es != [] && j < |es|
    ensures IsKnown(es, j, port) <==> IsKnown(DropLast(es), j, port)
  {
    assert es[..j] == DropLast(es)[..j];
  }

  /** A known port was announced while it was not known, and has been known ever since. */
  lemma {:induction false} KnownWasAnnounced(es: seq<Event>, port: uint16) returns (i: nat)
    requires port in Run(es)
    ensures Announces(es, i, port) && KnownSince(es, i + 1, port)
  {
    var n := |es| - 1;
    assert es[..|es|] == es && es[..n] == DropLast(es);
    if port in Run(DropLast(es)) {
      i := KnownWasAnnounced(DropLast(es), port);
      KnownEarlier(es, i, port);
      forall j | i + 1 <= j <= |es| ensures IsKnown(es, j, port) {
        if j < |es| { KnownEarlier(es, j, port); }
      }
    } else {
      i := n;
    }
  }

  // ---------------------------------------------------------------------------------
  // In bytes, events and times
  // ---------------------------------------------------------------------------------

  /** An IPv4 frame carrying UDP, with this port `at` bytes into its UDP header. */
  predicate HasUdpPort(f: Frame, at: nat, port: uint16)
    requires at <= 2
  {
    var t := 14 + 4 * (f[14] % 16);
    f[12] == 8 && f[13] == 0 && f[23] == 17 && f[t + at] as int * 256 + f[t + at + 1] == port
  }

  /** No more-fragments bit and no offset; the don't-fragment bit does not matter. */
  predicate IsWhole(f: Frame) {
    (f[20] == 0 || f[20] == 64) && f[21] == 0
  }

  /** With these ports known, the event announces the port, or is a datagram of it that is translated. */
  predicate Uses(t: Endpoints, e: Event, port: uint16) {
    match e
    case Announced(f, _) => HasUdpPort(f, 0, port) && port !in t
    case FromClient(f, _) => HasUdpPort(f, 0, port) && IsWhole(f) && port in t
    case FromProxy(f, _) => HasUdpPort(f, 2, port) && IsWhole(f) && port in t
    case Expire(_) => false
  }

  lemma PortPlaces(f: Frame, port: uint16)
    ensures HasUdpPort(f, 0, port) <==> IsUdp(f) && SourcePort(f) == port
    ensures HasUdpPort(f, 2, port) <==> IsUdp(f) && DestPort(f) == port
    ensures IsFragment(f) <==> !IsWhole(f)
  {
    FieldPlaces(f);
  }

  /** t' is t after an event at `now` that used the port or not. */
  predicate UsedOrKept(t: Endpoints, t': Endpoints, used: bool, port: uint16, now: nat) {
    && (port in t' <==> port in t || used)
    && (port in t' ==> t'[port] == if used then now else t[port])
  }

  lemma AnnounceAfter(t: Endpoints, f: Frame, now: nat, port: uint16)
    ensures UsedOrKept(t, Announce(t, f, now).1, HasUdpPort(f, 0, port) && port !in t, port, now)
  {
    PortPlaces(f, port);
  }

  lemma DatagramAfter(t: Endpoints, f: Frame, client: uint16, now: nat, port: uint16)
    ensures UsedOrKept(t, Datagram(t, f, client, now).1,
                       IsUdp(f) && !IsFragment(f) && client == port && port in t, port, now)
  {
  }

  /** The known ports after an event, one by one. */
  lemma EndpointAfter(t: Endpoints, e: Event, port: uint16)
    ensures !e.Expire? ==> UsedOrKept(t, Step(t, e), Uses(t, e, port), port, e.now)
    ensures e.Expire? ==> !Uses(t, e, port) && (port in Step(t, e) <==> port in t && e.now <= t[port] + 900)
    ensures e.Expire? && port in Step(t, e) ==> Step(t, e)[port] == t[port]
  {
    match e
    case Announced(f, now) => AnnounceAfter(t, f, now, port);
    case FromClient(f, now) => PortPlaces(f, port); DatagramAfter(t, f, SourcePort(f), now, port);
    case FromProxy(f, now) => PortPlaces(f, port); DatagramAfter(t, f, DestPort(f), now, port);
    case Expire(_) =>
  }

  /** Announcing answers whether the port was unknown; a whole datagram is translated exactly if it is known. */
  lemma TranslatedIff(t: Endpoints, f: Frame, port: uint16, now: nat)
    ensures HasUdpPort(f, 0, port) ==> (Announce(t, f, now).0 <==> port !in t)
    ensures HasUdpPort(f, 0, port) ==> (Datagram(t, f, SourcePort(f), now).0 <==> IsWhole(f) && port in t)
    ensures HasUdpPort(f, 2, port) ==> (Datagram(t, f, DestPort(f), now).0 <==> IsWhole(f) && port in t)
    ensures !(f[12] == 8 && f[13] == 0 && f[23] == 17) ==>
              !Announce(t, f, now).0 && forall client :: !Datagram(t, f, client, now).0
  {
    PortPlaces(f, port);
  }

  /** The i-th event of a run is the last that used this port. */
  predicate LastUse(es: seq<Event>, i: nat, port: uint16) {
    i < |es| && Uses(Run(es[..i]), es[i], port) && Unused(es, i + 1, port)
  }

  predicate Unused(es: seq<Event>, from: nat, port: uint16) {
    forall j {:trigger es[j]} :: from <= j < |es| ==> !Uses(Run(es[..j]), es[j], port)
  }

  lemma LastUseNow(es: seq<Event>, port: uint16)
    requires es != [] && Uses(Run(DropLast(es)), Last(es), port)
    ensures LastUse(es, |es| - 1, port)
  {
    assert es[..|es| - 1] == DropLast(es);
  }

  lemma LastUseKept(es: seq<Event>, i: nat, port: uint16)
    requires es != [] && LastUse(DropLast(es), i, port) && !Uses(Run(DropLast(es)), Last(es), port)
    ensures LastUse(es, i, port)
  {
    assert es[..i] == DropLast(es)[..i];
    forall j {:trigger es[j]} | i + 1 <= j < |es| ensures !Uses(Run(es[..j]), es[j], port) {
      assert es[..j] == DropLast(es)[..j];
      if j < |es| - 1 { assert DropLast(es)[j] == es[j]; }
    }
  }

  /** The time of a known port is that of the last datagram that used it. */
  lemma {:induction false} EndpointTime(es: seq<Event>, port: uint16) returns (i: nat)
    requires port in Run(es)
    ensures LastUse(es, i, port) && Run(es)[port] == es[i].now
  {
    var before, e := DropLast(es), Last(es);
    EndpointAfter(Run(before), e, port);
    if Uses(Run(before), e, port) {
      i := |es| - 1;
      LastUseNow(es, port);
    } else {
      i := EndpointTime(before, port);
      LastUseKept(es, i, port);
    }
  }

  /** A known port is forgotten exactly when a clean-up comes more than 900 seconds after its last use. */
  lemma EndpointGoesIff(es: seq<Event>, e: Event, port: uint16) returns (last: nat)
    requires port in Run(es)
    ensures LastUse(es, last, port)
    ensures port !in Run(es + [e]) <==> e.Expire? && e.now > es[last].now + 900
  {
    last := EndpointTime(es, port);
    assert DropLast(es + [e]) == es;
    EndpointAfter(Run(es), e, port);
  }

  /**
    Transparency over runs. The client sent f, and the proxy received it as g. Whatever happened to the redirect since,
    the proxy's answer r is translated if and only if the client's port is still known; then the client receives exactly
    the payload of the answer, and receives it as a direct answer to f if and only if its header names the destination
    of f.
   */
  lemma UdpIsTransparent(
      es: seq<Event>, f: Frame, length: nat, g: seq<byte>, port: uint16,
      r: Frame, ip: Address, source: uint16, answer: seq<byte>, later: nat, h: seq<byte>)
    requires Transport(f) + UDP_HEADER_LENGTH <= length
    requires length + SOCKS5_UDP_HEADER_LENGTH <= |f| && Encapsulated(f, length, g, port)
    requires AnswersDatagram(r, g) && IsUdp(r) && !IsFragment(r)
    requires UDP_HEADER_LENGTH + SOCKS5_UDP_HEADER_LENGTH <= UdpLength(r) && Transport(r) + UdpLength(r) <= |r|
    requires Payload(r) == Socks5Header(ip, source) + answer
    ensures Datagram(Run(es), r, DestPort(r), later).0 <==> SourcePort(f) in Run(es)
    ensures Decapsulated(r, h) ==>
              && (AnswersDatagram(h, f) <==> ip == IpDest(f) && source == DestPort(f))
              && UDP_HEADER_LENGTH <= UdpLength(h) && Transport(h) + UdpLength(h) <= |h| && Payload(h) == answer
  {
    assert DestPort(r) == SourcePort(f);
    if Decapsulated(r, h) { UdpRoundTrip(f, length, g, port, r, ip, source, answer, h); }
  }

  // ---------------------------------------------------------------------------------
  // The redirect object
  // ---------------------------------------------------------------------------------

  /** g is the well-formed reply f restored and unwrapped. */
  ghost predicate IsUnwrapping(f: seq<byte>, g: seq<byte>, udpSum: uint16, ipSum: uint16)
    requires |f| >= MIN_FRAME_CAPACITY
  {
    && IsWellFormedReply(f) && |Restored(f)| == |f| && Word(Restored(f), Transport(f) + 4) == UdpLength(f)
    && g == Unwrapped(Restored(f), Transport(f), udpSum, ipSum)
    && Decapsulated(f, g)
  }

  class UdpLocalRedirect {
    var proxyPort: uint16
    var endpoints: Endpoints

    constructor (proxyPort: uint16)
      ensures this.proxyPort == proxyPort && endpoints == map[]
    {
      this.proxyPort := proxyPort;
      endpoints := map[];
    }

    function PortOr(port: uint16): uint16
      reads this
    {
      if port == 0 then proxyPort else port
    }

    /** An unfragmented UDP frame whose client port is known. */
    predicate Concerns(f: seq<byte>, client: uint16)
      requires |f| >= MIN_FRAME_CAPACITY
      reads this
    {
      IsUdp(f) && !IsFragment(f) && client in endpoints
    }

    method IsNewEndpoint(buffer: array<byte>, now: nat) returns (isNew: bool)
      requires buffer.Length >= MIN_FRAME_CAPACITY
      modifies this`endpoints
      ensures (isNew, endpoints) == Announce(old(endpoints), buffer[..], now)
    {
      if Be16(buffer[12], buffer[13]) != ETH_P_IP || buffer[23] != IPPROTO_UDP {
        return false;
      }
      var t := ETHER_HEADER_LENGTH + 4 * (buffer[14] % 0x10) as nat;
      var port := Be16(buffer[t], buffer[t + 1]);
      isNew := port !in endpoints;
      if isNew {
        endpoints := endpoints[port := now];
      }
    }

    method IsConcerned(buffer: array<byte>, client: uint16) returns (concerned: bool)
      requires buffer.Length >= MIN_FRAME_CAPACITY
      ensures concerned <==> Concerns(buffer[..], client)
    {
      var fragment := Be16(buffer[20], buffer[21]);
      concerned :=
        Be16(buffer[12], buffer[13]) == ETH_P_IP && buffer[23] == IPPROTO_UDP
        && (fragment == 0 || fragment == IP_DF) && client in endpoints;
    }

    method StoreLengths(buffer: array<byte>, t: nat, ipLength: uint16, udpLength: uint16)
      requires MIN_FRAME_CAPACITY <= buffer.Length && t <= 74
      modifies buffer
      ensures buffer[..] == WithLengths(old(buffer[..]), t, ipLength, udpLength)
    {
      StoreWord(buffer, 16, ipLength);
      StoreWord(buffer, t + 4, udpLength);
    }

    /** The memmove that makes room; both sizes are cut to 16 bits. */
    method MovePayload(buffer: array<byte>, length: nat, t: nat)
      requires MIN_FRAME_CAPACITY <= buffer.Length < 0x1_0000
      requires t + UDP_HEADER_LENGTH <= length && length + SOCKS5_UDP_HEADER_LENGTH <= buffer.Length
      modifies buffer
      ensures buffer[..] == Splice(old(buffer[..]), t + 18, old(buffer[..])[t + 8..length])
    {
      var size := (length - t - UDP_HEADER_LENGTH) % 0x1_0000;
      var max := (buffer.Length - t - UDP_HEADER_LENGTH) % 0x1_0000;
      assert size == length - t - 8 && size <= max;
      Move(buffer, t + 8, t + 8 + SOCKS5_UDP_HEADER_LENGTH, if max < size then max else size);
    }

    method StoreHeader(buffer: array<byte>, t: nat)
      requires MIN_FRAME_CAPACITY <= buffer.Length && t <= 74
      modifies buffer
      ensures var f := old(buffer[..]); buffer[..] == Splice(f, t + 8, Socks5Header(IpDest(f), Word(f, t + 2)))
    {
      ghost var f := buffer[..];
      var destination := [buffer[30], buffer[31], buffer[32], buffer[33]];
      assert destination == IpDest(f);
      Store(buffer, t + 8, Socks5Header(destination, Be16(buffer[t + 2], buffer[t + 3])));
    }

    /** Moves the payload up and writes the SOCKS5 header in front of it. */
    method Wrap(buffer: array<byte>, length: nat, t: nat)
      requires MIN_FRAME_CAPACITY <= buffer.Length < 0x1_0000 && t == Transport(buffer[..])
      requires t + UDP_HEADER_LENGTH <= length && length + SOCKS5_UDP_HEADER_LENGTH <= buffer.Length
      modifies buffer
      ensures buffer[..] == Wrapped(old(buffer[..]), length)
    {
      MovePayload(buffer, length, t);
      StoreLengths(buffer, t, Grown(Be16(buffer[16], buffer[17])), Grown(Be16(buffer[t + 4], buffer[t + 5])));
      StoreHeader(buffer, t);
    }

    /** udpSum and ipSum are what the driver library writes into the checksum fields. */
    method ProcessClientToServerPacket(
        buffer: array<byte>, length: nat, port: uint16, now: nat, udpSum: uint16, ipSum: uint16)
      returns (translated: bool, newLength: nat)
      requires MIN_FRAME_CAPACITY <= buffer.Length < 0x1_0000
      requires Concerns(buffer[..], SourcePort(buffer[..])) ==>
                 && Transport(buffer[..]) + UDP_HEADER_LENGTH <= length
                 && length + SOCKS5_UDP_HEADER_LENGTH <= buffer.Length
      modifies buffer, this`endpoints
      ensures var f := old(buffer[..]);
              && (translated, endpoints) == Datagram(old(endpoints), f, SourcePort(f), now)
              && newLength == (if translated then length + SOCKS5_UDP_HEADER_LENGTH else length)
              && (!translated ==> buffer[..] == f)
              && (translated ==>
                    |Wrapped(f, length)| == |f|
                    && buffer[..] == Readdressed(Wrapped(f, length), Transport(f), PortOr(port), udpSum, ipSum))
              && (translated && HeaderWords(f) >= MIN_HEADER_WORDS ==>
                    Encapsulated(f, length, buffer[..], PortOr(port)))
      ensures translated && HeaderWords(old(buffer[..])) >= MIN_HEADER_WORDS ==>
                DestPort(buffer[..]) == if port == 0 then proxyPort else port
    {
      ghost var f := buffer[..];
      var t := ETHER_HEADER_LENGTH + 4 * (buffer[14] % 0x10) as nat;
      var client := Be16(buffer[t], buffer[t + 1]);
      var concerned := IsConcerned(buffer, client);
      if !concerned {
        return false, length;
      }
      Wrap(buffer, length, t);
      newLength := length + SOCKS5_UDP_HEADER_LENGTH;
      Readdress(buffer, t, if port == 0 then proxyPort else port, udpSum, ipSum);
      endpoints := endpoints[client := now];
      translated := true;
      if HeaderWords(f) >= MIN_HEADER_WORDS {
        EditsEncapsulate(f, length, PortOr(port), udpSum, ipSum);
      }
    }

    method Readdress(buffer: array<byte>, t: nat, port: uint16, udpSum: uint16, ipSum: uint16)
      requires buffer.Length >= MIN_FRAME_CAPACITY && t <= 74
      modifies buffer
      ensures buffer[..] == Readdressed(old(buffer[..]), t, port, udpSum, ipSum)
    {
      SwapAddresses(buffer);
      StoreWord(buffer, t + 2, port);
      StoreWord(buffer, t + 6, udpSum);
      StoreWord(buffer, 24, ipSum);
    }

    method Restore(buffer: array<byte>, t: nat)
      requires buffer.Length >= MIN_FRAME_CAPACITY && t == Transport(buffer[..])
      modifies buffer
      ensures buffer[..] == Restored(old(buffer[..]))
    {
      SwapAddresses(buffer);
      ghost var swapped := buffer[..];
      var source := [buffer[t + 12], buffer[t + 13], buffer[t + 14], buffer[t + 15]];
      assert source == Bytes4(swapped, t + 12);
      Store(buffer, 26, source);
      ghost var sourced := buffer[..];
      var port := [buffer[t + 16], buffer[t + 17]];
      assert port == [sourced[t + 16], sourced[t + 17]];
      Store(buffer, t, port);
    }

    method Unwrap(buffer: array<byte>, t: nat, udpSum: uint16, ipSum: uint16)
      requires MIN_FRAME_CAPACITY <= buffer.Length && t <= 74
      requires UDP_HEADER_LENGTH + SOCKS5_UDP_HEADER_LENGTH <= Word(buffer[..], t + 4)
      requires t + Word(buffer[..], t + 4) <= buffer.Length
      modifies buffer
      ensures buffer[..] == Unwrapped(old(buffer[..]), t, udpSum, ipSum)
    {
      var size := Be16(buffer[t + 4], buffer[t + 5]) - UDP_HEADER_LENGTH;
      Move(buffer, t + 18, t + 8, size - SOCKS5_UDP_HEADER_LENGTH);
      Shorten(buffer, t, udpSum, ipSum);
    }

    method Shorten(buffer: array<byte>, t: nat, udpSum: uint16, ipSum: uint16)
      requires MIN_FRAME_CAPACITY <= buffer.Length && t <= 74
      modifies buffer
      ensures buffer[..] == Shortened(old(buffer[..]), t, udpSum, ipSum)
    {
      StoreLengths(buffer, t, Shrunk(Be16(buffer[16], buffer[17])), Shrunk(Be16(buffer[t + 4], buffer[t + 5])));
      StoreWord(buffer, t + 6, udpSum);
      StoreWord(buffer, 24, ipSum);
    }

    method Decapsulate(buffer: array<byte>, t: nat, udpSum: uint16, ipSum: uint16)
      requires MIN_FRAME_CAPACITY <= buffer.Length && t == Transport(buffer[..]) && IsWellFormedReply(buffer[..])
      modifies buffer
      ensures IsUnwrapping(old(buffer[..]), buffer[..], udpSum, ipSum)
    {
      EditsDecapsulate(buffer[..], udpSum, ipSum);
      Restore(buffer, t);
      Unwrap(buffer, t, udpSum, ipSum);
    }

    method ProcessServerToClientPacket(buffer: array<byte>, length: nat, now: nat, udpSum: uint16, ipSum: uint16)
      returns (translated: bool, newLength: nat)
      requires MIN_FRAME_CAPACITY <= buffer.Length
      // The source shortens any reply by ten bytes without looking at its lengths.
      requires Concerns(buffer[..], DestPort(buffer[..])) ==>
                 IsWellFormedReply(buffer[..]) && SOCKS5_UDP_HEADER_LENGTH <= length
      modifies buffer, this`endpoints
      ensures var f := old(buffer[..]);
              && (translated, endpoints) == Datagram(old(endpoints), f, DestPort(f), now)
              && newLength == (if translated then length - SOCKS5_UDP_HEADER_LENGTH else length)
              && (!translated ==> buffer[..] == f)
              && (translated ==> IsUnwrapping(f, buffer[..], udpSum, ipSum))
    {
      var t := ETHER_HEADER_LENGTH + 4 * (buffer[14] % 0x10) as nat;
      var client := Be16(buffer[t + 2], buffer[t + 3]);
      var concerned := IsConcerned(buffer, client);
      if !concerned {
        return false, length;
      }
      Decapsulate(buffer, t, udpSum, ipSum);
      newLength := length - SOCKS5_UDP_HEADER_LENGTH;
      endpoints := endpoints[client := now];
      translated := true;
    }

    /** One pass of the clean-up thread. */
    method CleanUpExpired(now: nat)
      modifies this`endpoints
      ensures endpoints == CleanUp(old(endpoints), now)
    {
      var ports, t := endpoints.Keys, endpoints;
      while ports != {}
        invariant ports <= endpoints.Keys
        invariant t == map port | port in endpoints && (port in ports || now - endpoints[port] <= FIFTEEN_MINUTES)
                         :: endpoints[port]
        decreases |ports|
      {
        var port :| port in ports;
        if now - endpoints[port] > FIFTEEN_MINUTES {
          t := t - {port};
        }
        ports := ports - {port};
      }
      endpoints := t;
    }
  }
}

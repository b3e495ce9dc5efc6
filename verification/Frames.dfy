/**
  Ethernet frames carrying IPv4, as bytes in a driver buffer, and the in-place edits both redirects make.
  Ports are the host-order values of fields stored in network order.
 */
module Frames {
  import opened Basics

  const ETHER_HEADER_LENGTH := 14
  const ETH_P_IP := 0x0800
  const IPPROTO_TCP := 6
  const IPPROTO_UDP := 17
  const MIN_HEADER_WORDS := 5
  /** The smallest m_IBuffer a driver build has. */
  const MIN_FRAME_CAPACITY := 1514

  type Address = a: seq<byte> | |a| == 4 witness [0, 0, 0, 0]

  function Bytes4(f: seq<byte>, at: nat): seq<byte>
    requires at + 4 <= |f|
  {
    [f[at], f[at + 1], f[at + 2], f[at + 3]]
  }

  function Bytes6(f: seq<byte>, at: nat): seq<byte>
    requires at + 6 <= |f|
  {
    [f[at], f[at + 1], f[at + 2], f[at + 3], f[at + 4], f[at + 5]]
  }

  function EthDest(f: seq<byte>): seq<byte>
    requires |f| >= MIN_FRAME_CAPACITY
  {
    Bytes6(f, 0)
  }

  function EthSource(f: seq<byte>): seq<byte>
    requires |f| >= MIN_FRAME_CAPACITY
  {
    Bytes6(f, 6)
  }

  function EtherType(f: seq<byte>): uint16
    requires |f| >= MIN_FRAME_CAPACITY
  {
    Be16(f[12], f[13])
  }

  /** ip_hl, in 32-bit words. */
  function HeaderWords(f: seq<byte>): nat
    requires |f| >= MIN_FRAME_CAPACITY
  {
    f[14] % 0x10
  }

  function IpLength(f: seq<byte>): uint16
    requires |f| >= MIN_FRAME_CAPACITY
  {
    Be16(f[16], f[17])
  }

  /** ntohs(ip_off): flags and fragment offset. */
  function FragmentField(f: seq<byte>): uint16
    requires |f| >= MIN_FRAME_CAPACITY
  {
    Be16(f[20], f[21])
  }

  function Protocol(f: seq<byte>): byte
    requires |f| >= MIN_FRAME_CAPACITY
  {
    f[23]
  }

  function IpSource(f: seq<byte>): Address
    requires |f| >= MIN_FRAME_CAPACITY
  {
    Bytes4(f, 26)
  }

  function IpDest(f: seq<byte>): Address
    requires |f| >= MIN_FRAME_CAPACITY
  {
    Bytes4(f, 30)
  }

  /** Where the transport header starts. */
  function Transport(f: seq<byte>): (t: nat)
    requires |f| >= MIN_FRAME_CAPACITY
    ensures t <= 74
  {
    ETHER_HEADER_LENGTH + 4 * HeaderWords(f)
  }

  function Word(f: seq<byte>, at: nat): uint16
    requires at + 2 <= |f|
  {
    Be16(f[at], f[at + 1])
  }

  function SourcePort(f: seq<byte>): uint16
    requires |f| >= MIN_FRAME_CAPACITY
  {
    Word(f, Transport(f))
  }

  function DestPort(f: seq<byte>): uint16
    requires |f| >= MIN_FRAME_CAPACITY
  {
    Word(f, Transport(f) + 2)
  }

  /** b & mask for a mask of one bit. */
  predicate HasBit(b: byte, mask: byte)
    requires mask > 0
  {
    b / mask % 2 == 1
  }

  /** Where the fields of an Ethernet frame with an IPv4 packet are. */
  lemma FieldPlaces(f: seq<byte>)
    requires |f| >= MIN_FRAME_CAPACITY
    ensures EthDest(f) == f[0..6] && EthSource(f) == f[6..12] && EtherType(f) == f[12] as int * 256 + f[13]
    ensures HeaderWords(f) == f[14] % 16 && IpLength(f) == f[16] as int * 256 + f[17]
    ensures FragmentField(f) == f[20] as int * 256 + f[21] && Protocol(f) == f[23]
    ensures IpSource(f) == f[26..30] && IpDest(f) == f[30..34]
    ensures Transport(f) == 14 + 4 * (f[14] % 16)
    ensures var t := 14 + 4 * (f[14] % 16);
            SourcePort(f) == f[t] as int * 256 + f[t + 1] && DestPort(f) == f[t + 2] as int * 256 + f[t + 3]
  {
  }

  // ---------------------------------------------------------------------------------
  // Edits
  // ---------------------------------------------------------------------------------

  method Store(buffer: array<byte>, at: nat, bytes: seq<byte>)
    requires at + |bytes| <= buffer.Length
    modifies buffer
    ensures buffer[..] == Splice(old(buffer[..]), at, bytes)
  {
    forall i | 0 <= i < |bytes| {
      buffer[at + i] := bytes[i];
    }
  }

  method StoreWord(buffer: array<byte>, at: nat, word: uint16)
    requires at + 2 <= buffer.Length
    modifies buffer
    ensures buffer[..] == Splice(old(buffer[..]), at, Be16Bytes(word))
  {
    Store(buffer, at, Be16Bytes(word));
  }

  /** Two adjacent fields of `size` bytes exchanged. */
  function SwapAdjacent(f: seq<byte>, at: nat, size: nat): seq<byte>
    requires at + 2 * size <= |f|
  {
    Splice(f, at, f[at + size..at + 2 * size] + f[at..at + size])
  }

  method Swap(buffer: array<byte>, at: nat, size: nat)
    requires at + 2 * size <= buffer.Length
    modifies buffer
    ensures buffer[..] == SwapAdjacent(old(buffer[..]), at, size)
  {
    ghost var f := buffer[..];
    var swapped := buffer[at + size..at + 2 * size] + buffer[at..at + size];
    assert swapped == f[at + size..at + 2 * size] + f[at..at + size];
    Store(buffer, at, swapped);
  }

  function WithAddressesSwapped(f: seq<byte>): seq<byte>
    requires |f| >= MIN_FRAME_CAPACITY
  {
    SwapAdjacent(SwapAdjacent(f, 0, 6), 26, 4)
  }

  /** A frame with swapped addresses is otherwise unchanged. */
  lemma SwappedBytes(f: seq<byte>)
    requires |f| >= MIN_FRAME_CAPACITY
    ensures var g := WithAddressesSwapped(f);
            && |g| == |f|
            && EthDest(g) == EthSource(f) && EthSource(g) == EthDest(f)
            && IpSource(g) == IpDest(f) && IpDest(g) == IpSource(f)
            && (forall i {:trigger g[i]} :: 12 <= i < |f| && !(26 <= i < 34) ==> g[i] == f[i])
  {
    SwappedField(f, 0, 6);
    SwappedField(SwapAdjacent(f, 0, 6), 26, 4);
  }

  lemma SwappedByte(f: seq<byte>, i: nat)
    requires i < |f| && |f| >= MIN_FRAME_CAPACITY
    ensures |WithAddressesSwapped(f)| == |f|
    ensures WithAddressesSwapped(f)[i] ==
              if i < 6 then f[i + 6] else if i < 12 then f[i - 6]
              else if 26 <= i < 30 then f[i + 4] else if 30 <= i < 34 then f[i - 4] else f[i]
  {
    SwappedField(f, 0, 6);
    SwappedField(SwapAdjacent(f, 0, 6), 26, 4);
  }

  lemma SwappedField(f: seq<byte>, at: nat, size: nat)
    requires at + 2 * size <= |f|
    ensures var g := SwapAdjacent(f, at, size);
            && |g| == |f|
            && (forall i {:trigger g[i]} :: 0 <= i < |f| ==>
                  g[i] == if at <= i < at + size then f[i + size]
                          else if at + size <= i < at + 2 * size then f[i - size] else f[i])
  {
    SpliceElements(f, at, f[at + size..at + 2 * size] + f[at..at + size]);
  }

  method SwapAddresses(buffer: array<byte>)
    requires buffer.Length >= MIN_FRAME_CAPACITY
    modifies buffer
    ensures buffer[..] == WithAddressesSwapped(old(buffer[..]))
  {
    Swap(buffer, 0, 6);
    Swap(buffer, 26, 4);
  }

  /** n bytes of g, from `to` on, are those of f from `from` on. */
  predicate Copied(f: seq<byte>, from: nat, g: seq<byte>, to: nat, n: nat)
    requires from + n <= |f| && to + n <= |g|
  {
    forall i {:trigger g[i]} :: to <= i < to + n ==> g[i] == f[i - to + from]
  }

  lemma CopiedSlice(f: seq<byte>, from: nat, g: seq<byte>, to: nat, n: nat)
    requires from + n <= |f| && to + n <= |g| && Copied(f, from, g, to, n)
    ensures g[to..to + n] == f[from..from + n]
  {
  }

  /** memmove: the two ranges may overlap. */
  method Move(buffer: array<byte>, from: nat, to: nat, size: nat)
    requires from + size <= buffer.Length && to + size <= buffer.Length
    modifies buffer
    ensures buffer[..] == Splice(old(buffer[..]), to, old(buffer[..])[from..from + size])
  {
    ghost var f := buffer[..];
    var bytes := buffer[from..from + size];
    assert bytes == f[from..from + size];
    Store(buffer, to, bytes);
  }
}

/**
  The IPv6 transport checksum: 32-bit little-endian summation into 64 bits, then folding.

  The reference is the one's-complement sum of 16-bit big-endian words of sections 1 and 2 of
  RFC 1071. Both are compared through Canon, the representative of a sum modulo 0xFFFF that
  distinguishes the two zeros of one's-complement arithmetic.
 */
module Checksum {
  import opened Basics

  const TWO_16 := 0x1_0000
  const TWO_32 := 0x1_0000_0000
  const TWO_64 := 0x1_0000_0000_0000_0000

  // ---------------------------------------------------------------------------------
  // Reference
  // ---------------------------------------------------------------------------------

  /** One's-complement addition: the carry out of bit 15 is added back at bit 0. */
  function OnesAdd(a: uint16, b: uint16): uint16 {
    if a + b >= TWO_16 then a + b - 0xFFFF else a + b
  }

  /** The one's-complement sum of the 16-bit words of p, an odd last byte padded with zero. */
  function Rfc1071Sum(p: seq<byte>): uint16 {
    if p == [] then 0
    else if |p| == 1 then Be16(p[0], 0)
    else OnesAdd(Be16(p[0], p[1]), Rfc1071Sum(p[2..]))
  }

  function Rfc1071Checksum(p: seq<byte>): uint16 {
    0xFFFF - Rfc1071Sum(p)
  }

  // ---------------------------------------------------------------------------------
  // What the code sums
  // ---------------------------------------------------------------------------------

  function Le16(b0: byte, b1: byte): uint16 {
    b0 + 0x100 * b1
  }

  function Le32(b0: byte, b1: byte, b2: byte, b3: byte): uint32 {
    b0 + 0x100 * b1 + 0x1_0000 * b2 + 0x100_0000 * b3
  }

  /** The bytes left after the last 32-bit word: a 16-bit word, then a byte in its low half. */
  function TailSum(p: seq<byte>): nat
    requires |p| < 4
  {
    match |p|
    case 0 => 0
    case 1 => p[0]
    case 2 => Le16(p[0], p[1])
    case _ => Le16(p[0], p[1]) as nat + p[2] as nat
  }

  function WordSum(p: seq<byte>): nat {
    if |p| < 4 then TailSum(p) else Le32(p[0], p[1], p[2], p[3]) + WordSum(p[4..])
  }

  /** ntohs of a byte shifted into the high half of a 16-bit word. */
  function Swap16(n: uint16): uint16 {
    n % 0x100 * 0x100 + n / 0x100
  }

  // ---------------------------------------------------------------------------------
  // Arithmetic modulo 0xFFFF
  // ---------------------------------------------------------------------------------

  /** What folding a sum to 16 bits gives: 0 only for 0, otherwise 1..0xFFFF. */
  function Canon(x: nat): uint16 {
    if x == 0 then 0 else 1 + (x - 1) % 0xFFFF
  }

  lemma CanonUnique(x: nat, c: uint16, m: int)
    requires x == c + 0xFFFF * m && (x == 0 <==> c == 0)
    ensures Canon(x) == c
  {
  }

  lemma CanonSplits(x: nat) returns (m: int)
    ensures x == Canon(x) + 0xFFFF * m && m >= 0
    ensures Canon(x) == 0 <==> x == 0
  {
    m := if x == 0 then 0 else (x - 1) / 0xFFFF;
  }

  /** The sum of the 16-bit big-endian words, without end-around carries. */
  function BeSum(p: seq<byte>): nat {
    if p == [] then 0
    else if |p| == 1 then Be16(p[0], 0)
    else Be16(p[0], p[1]) + BeSum(p[2..])
  }

  /** Adding a word with its end-around carry is adding it modulo 0xFFFF. */
  lemma OnesAddIsCanon(word: uint16, rest: nat)
    ensures OnesAdd(word, Canon(rest)) == Canon(word + rest)
  {
    var m := CanonSplits(rest);
    var sum: nat := word + Canon(rest);
    CanonUnique(word + rest, OnesAdd(word, Canon(rest)), if sum >= TWO_16 then m + 1 else m);
  }

  lemma {:induction false} ReferenceIsCanon(p: seq<byte>)
    ensures Rfc1071Sum(p) == Canon(BeSum(p))
  {
    if |p| >= 2 {
      ReferenceIsCanon(p[2..]);
      OnesAddIsCanon(Be16(p[0], p[1]), BeSum(p[2..]));
    }
  }

  /** How far, in units of 0xFFFF, the little-endian sum is from 256 times the big-endian one. */
  function Drift(p: seq<byte>): int {
    if p == [] then 0
    else if |p| == 3 then p[0] + p[2]
    else if |p| < 4 then p[0]
    else p[0] - 0x100 * p[3] + Drift(p[4..])
  }

  lemma {:induction false} ByteOrderDrift(p: seq<byte>)
    ensures 0x100 * BeSum(p) == WordSum(p) + 0xFFFF * Drift(p)
    ensures BeSum(p) == 0 <==> WordSum(p) == 0
  {
    if |p| >= 4 {
      ByteOrderDrift(p[4..]);
      assert p[2..][2..] == p[4..];
      assert BeSum(p) == Be16(p[0], p[1]) + (Be16(p[2], p[3]) + BeSum(p[4..]));
    } else if |p| == 3 {
      assert BeSum(p[2..]) == Be16(p[2], 0);
    } else if |p| == 2 {
      assert BeSum(p[2..]) == 0;
    }
  }

  /** Summing in the other byte order byte-swaps the folded sum. */
  lemma WordSumIsSwapped(p: seq<byte>)
    ensures Canon(WordSum(p)) == Swap16(Rfc1071Sum(p))
  {
    ReferenceIsCanon(p);
    ByteOrderDrift(p);
    var m := CanonSplits(BeSum(p));
    var c := Canon(BeSum(p));
    CanonUnique(WordSum(p), Swap16(c), 0x100 * m + c / 0x100 - Drift(p));
  }

  // ---------------------------------------------------------------------------------
  // Partial sums
  // ---------------------------------------------------------------------------------

  lemma {:induction false} WordSumComposes(a: seq<byte>, b: seq<byte>)
    requires |a| % 4 == 0
    ensures WordSum(a + b) == WordSum(a) + WordSum(b)
  {
    if a == [] {
      assert a + b == b;
    } else {
      WordSumComposes(a[4..], b);
      assert (a + b)[4..] == a[4..] + b;
    }
  }

  lemma {:induction false} BeSumComposes(a: seq<byte>, b: seq<byte>)
    requires |a| % 2 == 0
    ensures BeSum(a + b) == BeSum(a) + BeSum(b)
  {
    if a == [] {
      assert a + b == b;
    } else {
      BeSumComposes(a[2..], b);
      assert (a + b)[2..] == a[2..] + b;
    }
  }

  lemma {:induction false} WordSumBound(p: seq<byte>)
    ensures WordSum(p) <= (|p| / 4 + 1) * (TWO_32 - 1)
  {
    if |p| >= 4 {
      WordSumBound(p[4..]);
      var n := |p| / 4;
      assert |p[4..]| / 4 + 1 == n;
      assert (n + 1) * (TWO_32 - 1) == n * (TWO_32 - 1) + (TWO_32 - 1);
    }
  }

  /** Sixty-four bits are enough for any buffer below 4 GiB on top of a 40-byte header. */
  lemma NoOverflow(header: seq<byte>, p: seq<byte>)
    requires |header| <= 40 && |p| < TWO_32
    ensures WordSum(header) + WordSum(p) < TWO_64
  {
    WordSumBound(header);
    WordSumBound(p);
  }

  /** Unsigned 64-bit wrap-around. */
  function Wrap(n: nat): uint64 {
    n % TWO_64
  }

  lemma WrapAdds(a: nat, b: nat)
    ensures Wrap(Wrap(a) + b) == Wrap(a + b)
  {
    var q := a / TWO_64;
    assert a + b == a % TWO_64 + b + q * TWO_64;
  }

  lemma WrapFits(n: uint64)
    ensures Wrap(n) == n
  {
  }

  lemma HighByteSwaps(b: byte)
    ensures Swap16(Be16(b, 0)) == b
  {
    assert Be16(b, 0) / 0x100 == b && Be16(b, 0) % 0x100 == 0;
  }

  /** The bytes the main loop leaves over. */
  method AddTail(p: seq<byte>, initial: uint64) returns (sum: uint64)
    requires |p| < 4
    ensures sum == Wrap(initial + TailSum(p))
  {
    sum := initial;
    WrapFits(initial);
    var i := 0;
    ghost var word: nat := 0;
    if |p| >= 2 {
      word := Le16(p[0], p[1]);
      sum := Wrap(sum + Le16(p[0], p[1]));
      i := 2;
    }
    if |p| > i {
      sum := AddLastByte(p[i], sum);
      WrapAdds(initial + word, p[i]);
      assert TailSum(p) == word + p[i];
    }
  }

  /** A byte in the high half of a word, then brought to host order. */
  method AddLastByte(b: byte, initial: uint64) returns (sum: uint64)
    ensures sum == Wrap(initial + b)
  {
    HighByteSwaps(b);
    sum := Wrap(initial + Swap16(Be16(b, 0)));
  }

  /** ip_checksum_partial: unsigned 64-bit accumulation over the len bytes at p. */
  method IpChecksumPartial(p: seq<byte>, initial: uint64) returns (sum: uint64)
    ensures sum == Wrap(initial + WordSum(p))
  {
    sum := initial;
    var i := 0;
    ghost var exact: nat := initial;
    while |p| - i >= 4
      invariant 0 <= i <= |p|
      invariant exact + WordSum(p[i..]) == initial + WordSum(p)
      invariant sum == Wrap(exact)
    {
      var word := Le32(p[i], p[i + 1], p[i + 2], p[i + 3]);
      assert p[i..][4..] == p[i + 4..];
      WrapAdds(exact, word);
      sum, exact := Wrap(sum + word), exact + word;
      i := i + 4;
    }
    sum := AddTail(p[i..], sum);
    WrapAdds(exact, TailSum(p[i..]));
  }

  /** ip_checksum_fold: both loops shrink the sum and keep it modulo 0xFFFF. */
  method IpChecksumFold(sum: uint64) returns (checksum: uint16)
    ensures checksum == 0xFFFF - Canon(sum)
  {
    var s := sum;
    while s >= TWO_32
      invariant 0 <= s <= sum && Canon(s) == Canon(sum)
      decreases s
    {
      FoldStep(s, TWO_32);
      s := s / TWO_32 + s % TWO_32;
    }
    while s >= TWO_16
      invariant 0 <= s <= sum && Canon(s) == Canon(sum)
      decreases s
    {
      FoldStep(s, TWO_16);
      s := s / TWO_16 + s % TWO_16;
    }
    CanonUnique(s, s, 0);
    checksum := 0xFFFF - s % TWO_16;
  }

  lemma FoldStep(s: nat, radix: nat)
    requires radix == TWO_32 || radix == TWO_16
    requires s >= radix
    ensures Canon(s / radix + s % radix) == Canon(s)
    ensures s / radix + s % radix < s
  {
    var folded := s / radix + s % radix;
    var m := CanonSplits(folded);
    if radix == TWO_32 {
      CanonUnique(s, Canon(folded), m + s / TWO_32 * 0x1_0001);
    } else {
      CanonUnique(s, Canon(folded), m + s / TWO_16);
    }
  }

  // ---------------------------------------------------------------------------------
  // The transport checksum
  // ---------------------------------------------------------------------------------

  /** The pseudo-header of section 8.1 of RFC 2460. */
  function PseudoHeader(src: seq<byte>, dst: seq<byte>, length: uint32, protocol: byte): seq<byte> {
    src + dst
    + [length / 0x100_0000, length / 0x1_0000 % 0x100, length / 0x100 % 0x100, length % 0x100]
    + [0, 0, 0, protocol]
  }

  lemma LengthWords(length: uint32)
    ensures Be16(length / 0x100_0000, length / 0x1_0000 % 0x100) == length / 0x1_0000
    ensures Be16(length / 0x100 % 0x100, length % 0x100) == length % 0x1_0000
  {
    var high, low := length / 0x1_0000, length % 0x1_0000;
    assert length == high * 0x1_0000 + low;
    assert length / 0x100 == high * 0x100 + low / 0x100;
    assert length / 0x100_0000 == high / 0x100;
  }

  /** The layout of that header: 16 and 16 bytes of addresses, a 32-bit length, three zero bytes, the protocol. */
  lemma PseudoHeaderLayout(src: seq<byte>, dst: seq<byte>, length: uint32, protocol: byte)
    requires |src| == |dst| == 16
    ensures var h := PseudoHeader(src, dst, length, protocol);
            && |h| == 40 && h[..16] == src && h[16..32] == dst
            && Be16(h[32], h[33]) == length / 0x1_0000 && Be16(h[34], h[35]) == length % 0x1_0000
            && h[36] == h[37] == h[38] == 0 && h[39] == protocol
  {
    LengthWords(length);
    var h := PseudoHeader(src, dst, length, protocol);
    assert h[..16] == src && h[16..32] == dst;
  }

  method HeaderChecksumPartial(src: seq<byte>, dst: seq<byte>, protocol: byte, length: uint32) returns (sum: uint64)
    requires |src| == |dst| == 16
    ensures sum == WordSum(PseudoHeader(src, dst, length, protocol))
  {
    var pseudoHeader := PseudoHeader(src, dst, length, protocol);
    sum := IpChecksumPartial(pseudoHeader, 0);
    NoOverflow(pseudoHeader, []);
  }

  lemma SumIsExact(header: seq<byte>, payload: seq<byte>)
    requires |header| == 40 && |payload| < TWO_32
    ensures Wrap(WordSum(header) + WordSum(payload)) == WordSum(header + payload)
  {
    NoOverflow(header, payload);
    WordSumComposes(header, payload);
  }

  lemma SwapOfComplement(n: uint16)
    ensures Swap16(0xFFFF - n) == 0xFFFF - Swap16(n)
  {
    var hi, lo := n / 0x100, n % 0x100;
    assert 0xFFFF - n == (0xFF - hi) * 0x100 + (0xFF - lo);
    assert (0xFFFF - n) / 0x100 == 0xFF - hi && (0xFFFF - n) % 0x100 == 0xFF - lo;
  }

  /** Storing a byte-swapped word with its low byte first stores the word in network order. */
  lemma SwapStores(n: uint16)
    ensures [Swap16(n) % 0x100, Swap16(n) / 0x100] == Be16Bytes(n)
  {
    assert Swap16(n) / 0x100 == n % 0x100 && Swap16(n) % 0x100 == n / 0x100;
  }

  lemma FoldedIsReference(p: seq<byte>, folded: uint16)
    requires folded == 0xFFFF - Canon(WordSum(p))
    ensures folded == Swap16(Rfc1071Checksum(p))
  {
    WordSumIsSwapped(p);
    SwapOfComplement(Rfc1071Sum(p));
  }

  /** The 16-bit host-order result, stored little-endian, is the RFC 1071 checksum in network order. */
  method TcpUdpV6Checksum(src: seq<byte>, dst: seq<byte>, protocol: byte, payload: seq<byte>) returns (checksum: uint16)
    requires |src| == |dst| == 16 && |payload| < TWO_32
    ensures checksum == Swap16(Rfc1071Checksum(PseudoHeader(src, dst, |payload|, protocol) + payload))
  {
    var sum := HeaderChecksumPartial(src, dst, protocol, |payload|);
    sum := IpChecksumPartial(payload, sum);
    ghost var pseudoHeader := PseudoHeader(src, dst, |payload|, protocol);
    SumIsExact(pseudoHeader, payload);
    checksum := IpChecksumFold(sum);
    FoldedIsReference(pseudoHeader + payload, checksum);
  }

  lemma BeSumStore(p: seq<byte>, at: nat, bytes: seq<byte>)
    requires at % 2 == 0 && at + 2 <= |p| && |bytes| == 2
    ensures BeSum(Splice(p, at, bytes)) == BeSum(p[..at]) + Be16(bytes[0], bytes[1]) + BeSum(p[at + 2..])
  {
    SpliceParts(p, at, bytes);
    BeSumComposes(p[..at] + bytes, p[at + 2..]);
    BeSumComposes(p[..at], bytes);
    assert BeSum(bytes) == Be16(bytes[0], bytes[1]) by { assert bytes[2..] == []; }
  }

  /** Storing the checksum of a message with a zeroed field into that field makes the message verify. */
  lemma StoredChecksumVerifies(header: seq<byte>, segment: seq<byte>, at: nat)
    requires |header| % 2 == 0 && at % 2 == 0 && at + 2 <= |segment|
    ensures var zeroed := Splice(segment, at, [0, 0]);
            var checksum := Rfc1071Checksum(header + zeroed);
            Rfc1071Sum(header + Splice(segment, at, Be16Bytes(checksum))) == 0xFFFF
  {
    var zeroed := Splice(segment, at, [0, 0]);
    var checksum := Rfc1071Checksum(header + zeroed);
    var stored := Splice(segment, at, Be16Bytes(checksum));
    BeSumStore(segment, at, [0, 0]);
    BeSumStore(segment, at, Be16Bytes(checksum));
    BeSumComposes(header, zeroed);
    BeSumComposes(header, stored);
    ReferenceIsCanon(header + zeroed);
    ReferenceIsCanon(header + stored);
    var m := CanonSplits(BeSum(header + zeroed));
    CanonUnique(BeSum(header + stored), 0xFFFF, m);
  }

  /** What a last byte at an even place adds. */
  lemma BeSumLast(header: seq<byte>, segment: seq<byte>, last: byte)
    requires |header| % 2 == 0 && |segment| % 2 == 0
    ensures BeSum(header + (segment + [last])) == BeSum(header + (segment + [0])) + Be16(last, 0)
  {
    BeSumComposes(header, segment + [last]);
    BeSumComposes(segment, [last]);
    BeSumComposes(header, segment + [0]);
    BeSumComposes(segment, [0]);
  }

  lemma LowHalfOfComplement(n: uint16)
    ensures (0xFFFF - n) % 0x100 == 0xFF - n % 0x100
  {
    var hi, lo := n / 0x100, n % 0x100;
    assert 0xFFFF - n == (0xFF - hi) * 0x100 + (0xFF - lo);
  }

  lemma HalfStored(zeroed: nat, sum: uint16, stored: nat)
    requires sum == Canon(zeroed) && stored == zeroed + Be16((0xFFFF - sum) / 0x100, 0)
    ensures Canon(stored) == 0xFFFF <==> sum % 0x100 == 0xFF
  {
    var m := CanonSplits(zeroed);
    var checksum := 0xFFFF - sum;
    assert stored == 0xFFFF - checksum % 0x100 + 0xFFFF * m;
    CanonUnique(stored, 0xFFFF - checksum % 0x100, m);
    LowHalfOfComplement(sum);
  }

  lemma HalfStoredSum(zeroed: seq<byte>, stored: seq<byte>, half: byte)
    requires half == (0xFFFF - Rfc1071Sum(zeroed)) / 0x100
    requires BeSum(stored) == BeSum(zeroed) + Be16(half, 0)
    ensures Rfc1071Sum(stored) == 0xFFFF <==> Rfc1071Sum(zeroed) % 0x100 == 0xFF
  {
    ReferenceIsCanon(zeroed);
    ReferenceIsCanon(stored);
    HalfStored(BeSum(zeroed), Rfc1071Sum(zeroed), BeSum(stored));
  }

  /** If a message ends in the middle of the field it verifies exactly when the half left out is zero. */
  lemma StoredHalfVerifiesIff(header: seq<byte>, segment: seq<byte>)
    requires |header| % 2 == 0 && |segment| % 2 == 0
    ensures var checksum := Rfc1071Checksum(header + (segment + [0]));
            Rfc1071Sum(header + (segment + [checksum / 0x100])) == 0xFFFF
            <==> Rfc1071Sum(header + (segment + [0])) % 0x100 == 0xFF
  {
    var zeroed := header + (segment + [0]);
    var half: byte := Rfc1071Checksum(zeroed) / 0x100;
    BeSumLast(header, segment, half);
    HalfStoredSum(zeroed, header + (segment + [half]), half);
  }
}

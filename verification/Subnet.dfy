/**
  IPv4 and IPv6 subnets. An integer is the sequence of its bits, most significant first; memory is the sequence of
  the bits of its bytes, in address order. Integers of several bytes are stored with their lowest byte first.
 */
module Subnet {
  import opened Basics

  type Bits = seq<bool>

  /** ip_subnet: address and mask as they lie in memory, 32 or 128 bits each. */
  datatype Subnet = Subnet(address: Bits, mask: Bits)

  predicate IsWidth(width: nat) {
    width == 32 || width == 128
  }

  predicate IsSubnet(s: Subnet, width: nat) {
    IsWidth(width) && |s.address| == width && |s.mask| == width
  }

  // ---------------------------------------------------------------------------------
  // Integers
  // ---------------------------------------------------------------------------------

  function Repeat(bit: bool, n: nat): (bits: Bits)
    ensures |bits| == n && forall i :: 0 <= i < n ==> bits[i] == bit
  {
    seq(n, _ => bit)
  }

  function ShiftRight(word: Bits): Bits
    requires word != []
  {
    [false] + word[..|word| - 1]
  }

  function BitwiseOr(v: Bits, w: Bits): (r: Bits)
    requires |v| == |w|
    ensures |r| == |v| && forall i :: 0 <= i < |v| ==> r[i] == (v[i] || w[i])
  {
    seq(|v|, i requires 0 <= i < |v| => v[i] || w[i])
  }

  function BitwiseAnd(v: Bits, w: Bits): (r: Bits)
    requires |v| == |w|
    ensures |r| == |v| && forall i :: 0 <= i < |v| ==> r[i] == (v[i] && w[i])
  {
    seq(|v|, i requires 0 <= i < |v| => v[i] && w[i])
  }

  /** 0x80000000 of 32 bits, 0x80 of 8. */
  function HighBit(width: nat): Bits
    requires width > 0
  {
    [true] + Repeat(false, width - 1)
  }

  /** std::bitset::count */
  function Count(bits: Bits): nat {
    if bits == [] then 0 else (if bits[0] then 1 else 0) + Count(bits[1..])
  }

  /** The integer stored in a piece of memory, lowest byte first. */
  function Loaded(memory: Bits): (word: Bits)
    requires |memory| % 8 == 0
    ensures |word| == |memory|
  {
    if memory == [] then [] else Loaded(memory[8..]) + memory[..8]
  }

  /** The memory that stores an integer, lowest byte first. */
  function Stored(word: Bits): (memory: Bits)
    requires |word| % 8 == 0
    ensures |memory| == |word|
  {
    if word == [] then [] else word[|word| - 8..] + Stored(word[..|word| - 8])
  }

  function Htonl(word: Bits): Bits
    requires |word| == 32
  {
    word[24..] + word[16..24] + word[8..16] + word[..8]
  }

  // ---------------------------------------------------------------------------------
  // Operations
  // ---------------------------------------------------------------------------------

  /** The mask of a prefix: so many ones, then zeros. */
  function Leading(k: nat, width: nat): (bits: Bits)
    requires k <= width
    ensures |bits| == width && forall i :: 0 <= i < width ==> bits[i] == (i < k)
  {
    Repeat(true, k) + Repeat(false, width - k)
  }

  function GetPrefix(s: Subnet): nat
    requires IsSubnet(s, 32) || IsSubnet(s, 128)
  {
    if |s.mask| == 32 then Count(Loaded(s.mask))
    else
      Count(Loaded(s.mask[..32])) + Count(Loaded(s.mask[32..64]))
      + Count(Loaded(s.mask[64..96])) + Count(Loaded(s.mask[96..]))
  }

  /** The masked integers of one piece of memory are equal. */
  predicate SameMasked(ip: Bits, address: Bits, mask: Bits)
    requires |ip| == |address| == |mask| && |ip| % 8 == 0
  {
    BitwiseAnd(Loaded(ip), Loaded(mask)) == BitwiseAnd(Loaded(address), Loaded(mask))
  }

  predicate AddressInSubnet(s: Subnet, ip: Bits)
    requires IsSubnet(s, |ip|)
  {
    if |ip| == 32 then SameMasked(ip, s.address, s.mask)
    else
      && SameMasked(ip[..64], s.address[..64], s.mask[..64])
      && SameMasked(ip[64..], s.address[64..], s.mask[64..])
  }

  // ---------------------------------------------------------------------------------
  // Masks
  // ---------------------------------------------------------------------------------

  lemma ShiftInOne(k: nat, width: nat)
    requires k < width
    ensures BitwiseOr(ShiftRight(Leading(k, width)), HighBit(width)) == Leading(k + 1, width)
  {
  }

  lemma HtonlIsStoredInOrder(word: Bits)
    requires |word| == 32
    ensures Stored(Htonl(word)) == word
  {
    var n := Htonl(word);
    assert n[..24][16..] == n[16..24] && n[..24][..16] == n[..16];
    assert n[..16][8..] == n[8..16] && n[..16][..8] == n[..8];
    assert n[..8][0..] == n[..8] && n[..8][..0] == [];
    assert Stored(n[..8]) == n[..8];
    assert Stored(n[..16]) == n[8..16] + n[..8];
    assert Stored(n[..24]) == n[16..24] + Stored(n[..16]);
  }

  method MaskV4(prefix: nat) returns (mask: Bits)
    requires prefix <= 32
    ensures mask == Leading(prefix, 32)
  {
    var left: nat := prefix;
    var netMask := Repeat(false, 32);
    assert netMask == Leading(0, 32);
    while left > 0
      invariant left <= prefix && netMask == Leading(prefix - left, 32)
    {
      ShiftInOne(prefix - left, 32);
      left := left - 1;
      netMask := ShiftRight(netMask);
      netMask := BitwiseOr(netMask, HighBit(32));
    }
    HtonlIsStoredInOrder(netMask);
    mask := Stored(Htonl(netMask));
  }

  method MaskV6(prefix: nat) returns (mask: Bits)
    requires prefix <= 128
    ensures mask == Leading(prefix, 128)
  {
    var bytes := prefix / 8;
    var left: nat := prefix % 8;
    var netMask := Repeat(false, 8);
    assert netMask == Leading(0, 8);
    while left > 0
      invariant left <= prefix % 8 && netMask == Leading(prefix % 8 - left, 8)
    {
      ShiftInOne(prefix % 8 - left, 8);
      left := left - 1;
      netMask := ShiftRight(netMask);
      netMask := BitwiseOr(netMask, HighBit(8));
    }
    mask := Repeat(true, 8 * bytes) + Repeat(false, 128 - 8 * bytes);
    if bytes < 16 {
      mask := Splice(mask, 8 * bytes, netMask);
    }
  }

  // ---------------------------------------------------------------------------------
  // Prefixes
  // ---------------------------------------------------------------------------------

  lemma {:induction false} CountConcat(a: Bits, b: Bits)
    ensures Count(a + b) == Count(a) + Count(b)
  {
    if a == [] {
      assert a + b == b;
    } else {
      assert (a + b)[1..] == a[1..] + b;
      CountConcat(a[1..], b);
    }
  }

  lemma {:induction false} CountLoaded(memory: Bits)
    requires |memory| % 8 == 0
    ensures Count(Loaded(memory)) == Count(memory)
  {
    if memory != [] {
      CountLoaded(memory[8..]);
      CountConcat(Loaded(memory[8..]), memory[..8]);
      CountConcat(memory[..8], memory[8..]);
      assert memory == memory[..8] + memory[8..];
    }
  }

  lemma {:induction false} CountRepeat(bit: bool, n: nat)
    ensures Count(Repeat(bit, n)) == if bit then n else 0
  {
    if n > 0 {
      assert Repeat(bit, n)[1..] == Repeat(bit, n - 1);
      CountRepeat(bit, n - 1);
    }
  }

  lemma CountLeading(k: nat, width: nat)
    requires k <= width
    ensures Count(Leading(k, width)) == k
  {
    CountConcat(Repeat(true, k), Repeat(false, width - k));
    CountRepeat(true, k);
    CountRepeat(false, width - k);
  }

  /** get_prefix counts the ones of the mask as it lies in memory, whatever the byte order of its words. */
  lemma PrefixCountsMask(s: Subnet)
    requires IsSubnet(s, 32) || IsSubnet(s, 128)
    ensures GetPrefix(s) == Count(s.mask)
  {
    if |s.mask| == 32 {
      CountLoaded(s.mask);
    } else {
      var a, b, c, d := s.mask[..32], s.mask[32..64], s.mask[64..96], s.mask[96..];
      CountLoaded(a); CountLoaded(b); CountLoaded(c); CountLoaded(d);
      CountConcat(a, b); CountConcat(a + b, c); CountConcat(a + b + c, d);
      assert s.mask == a + b + c + d;
    }
  }

  lemma PrefixIsReadBack(address: Bits, k: nat)
    requires IsWidth(|address|) && k <= |address|
    ensures GetPrefix(Subnet(address, Leading(k, |address|))) == k
  {
    PrefixCountsMask(Subnet(address, Leading(k, |address|)));
    CountLeading(k, |address|);
  }

  // ---------------------------------------------------------------------------------
  // Membership
  // ---------------------------------------------------------------------------------

  lemma {:induction false} LoadedIsInjective(a: Bits, b: Bits)
    requires |a| == |b| && |a| % 8 == 0 && Loaded(a) == Loaded(b)
    ensures a == b
  {
    if a != [] {
      var n := |a| - 8;
      assert Loaded(a)[..n] == Loaded(a[8..]) && Loaded(a)[n..] == a[..8];
      assert Loaded(b)[..n] == Loaded(b[8..]) && Loaded(b)[n..] == b[..8];
      LoadedIsInjective(a[8..], b[8..]);
      assert a == a[..8] + a[8..] && b == b[..8] + b[8..];
    }
  }

  lemma {:induction false} LoadedAnd(a: Bits, m: Bits)
    requires |a| == |m| && |a| % 8 == 0
    ensures BitwiseAnd(Loaded(a), Loaded(m)) == Loaded(BitwiseAnd(a, m))
  {
    if a != [] {
      LoadedAnd(a[8..], m[8..]);
      assert BitwiseAnd(a, m)[8..] == BitwiseAnd(a[8..], m[8..]);
      assert BitwiseAnd(a, m)[..8] == BitwiseAnd(a[..8], m[..8]);
    }
  }

  predicate AgreeUnder(a: Bits, b: Bits, mask: Bits)
    requires |a| == |b| == |mask|
  {
    forall i :: 0 <= i < |mask| && mask[i] ==> a[i] == b[i]
  }

  lemma SameMaskedMeansAgree(a: Bits, b: Bits, mask: Bits)
    requires |a| == |b| == |mask| && |a| % 8 == 0
    ensures SameMasked(a, b, mask) <==> AgreeUnder(a, b, mask)
  {
    LoadedAnd(a, mask);
    LoadedAnd(b, mask);
    var x, y := BitwiseAnd(a, mask), BitwiseAnd(b, mask);
    if SameMasked(a, b, mask) {
      LoadedIsInjective(x, y);
      forall i | 0 <= i < |mask| && mask[i] ensures a[i] == b[i] { assert x[i] == y[i]; }
    }
    if AgreeUnder(a, b, mask) { assert x == y; }
  }

  /** Membership compares exactly the bits under the mask, for any mask. */
  lemma MembershipIsAgreement(s: Subnet, ip: Bits)
    requires IsSubnet(s, |ip|)
    ensures AddressInSubnet(s, ip) <==> AgreeUnder(ip, s.address, s.mask)
  {
    if |ip| == 32 {
      SameMaskedMeansAgree(ip, s.address, s.mask);
    } else {
      SameMaskedMeansAgree(ip[..64], s.address[..64], s.mask[..64]);
      SameMaskedMeansAgree(ip[64..], s.address[64..], s.mask[64..]);
      assert AgreeUnder(ip[64..], s.address[64..], s.mask[64..]) ==>
          forall i :: 64 <= i < 128 && s.mask[i] ==> ip[64..][i - 64] == s.address[64..][i - 64];
    }
  }

  function Cidr(address: Bits, k: nat): Subnet
    requires k <= |address|
  {
    Subnet(address, Leading(k, |address|))
  }

  /** An address is in a CIDR subnet exactly when the leading bits agree. */
  lemma CidrMembership(address: Bits, k: nat, ip: Bits)
    requires IsWidth(|address|) && |ip| == |address| && k <= |address|
    ensures AddressInSubnet(Cidr(address, k), ip) <==> ip[..k] == address[..k]
  {
    MembershipIsAgreement(Cidr(address, k), ip);
    if ip[..k] == address[..k] {
      assert forall i :: 0 <= i < k ==> ip[i] == ip[..k][i] && address[i] == address[..k][i];
    }
  }

  /**
    Of two CIDR subnets the one with the longer prefix lies inside the other when the shorter prefixes agree, and has
    no address in common with it when they do not.
   */
  lemma SubnetsNestOrAreDisjoint(a: Bits, j: nat, b: Bits, k: nat, ip: Bits)
    requires IsWidth(|a|) && |b| == |a| && |ip| == |a| && j <= k <= |a|
    requires AddressInSubnet(Cidr(b, k), ip)
    ensures AddressInSubnet(Cidr(a, j), ip) <==> a[..j] == b[..j]
  {
    CidrMembership(b, k, ip);
    CidrMembership(a, j, ip);
    assert ip[..j] == ip[..k][..j] && b[..j] == b[..k][..j];
  }

  // ---------------------------------------------------------------------------------
  // Text
  // ---------------------------------------------------------------------------------

  predicate IsDigit(c: char) {
    '0' <= c <= '9'
  }

  function Digit(d: nat): char
    requires d < 10
  {
    '0' + d as char
  }

  /** std::to_string */
  function Decimal(n: nat): string {
    if n < 10 then [Digit(n)] else Decimal(n / 10) + [Digit(n % 10)]
  }

  function LeadingDigits(text: string): (digits: string)
    ensures forall i :: 0 <= i < |digits| ==> IsDigit(digits[i])
  {
    if text == [] || !IsDigit(text[0]) then [] else [text[0]] + LeadingDigits(text[1..])
  }

  function DigitValue(c: char): nat
    requires IsDigit(c)
  {
    c as int - '0' as int
  }

  function Value(digits: string): nat
    requires forall i :: 0 <= i < |digits| ==> IsDigit(digits[i])
  {
    if digits == [] then 0 else Value(DropLast(digits)) * 10 + DigitValue(Last(digits))
  }

  /** std::from_chars into a uint8_t: whatever follows the digits is ignored. */
  function FromChars(text: string): Option<nat> {
    var digits := LeadingDigits(text);
    if digits == [] || Value(digits) > 0xFF then None else Some(Value(digits))
  }

  /** The position of the first slash. */
  function FindSlash(text: string): (r: Option<nat>)
    ensures r.Some? ==> r.value < |text| && text[r.value] == '/' && '/' !in text[..r.value]
    ensures r.None? ==> '/' !in text
  {
    if text == [] then None
    else if text[0] == '/' then Some(0)
    else
      match FindSlash(text[1..])
      case None => None
      case Some(i) =>
        assert text[..i + 1] == [text[0]] + text[1..][..i];
        Some(i + 1)
  }

  /** `parse` reads an address of the given width; without a slash the subnet is that one address. */
  method FromCidr(text: string, width: nat, parse: string -> Option<Bits>) returns (r: Option<Subnet>)
    requires IsWidth(width) && forall s :: parse(s).Some? ==> |parse(s).value| == width
    ensures FindSlash(text).None? ==>
              r == if parse(text).Some? then Some(Cidr(parse(text).value, width)) else None
    ensures FindSlash(text).Some? ==>
              var slash := FindSlash(text).value;
              var address, prefix := parse(text[..slash]), FromChars(text[slash + 1..]);
              && (r.Some? <==> address.Some? && prefix.Some? && prefix.value <= width)
              && (r.Some? ==> r.value == Cidr(address.value, prefix.value))
  {
    r := None;
    var slash := FindSlash(text);
    if slash.Some? {
      var address := parse(text[..slash.value]);
      if address.Some? {
        var prefix := FromChars(text[slash.value + 1..]);
        if prefix.Some? && prefix.value <= width {
          var mask: Bits;
          if width == 32 { mask := MaskV4(prefix.value); } else { mask := MaskV6(prefix.value); }
          r := Some(Subnet(address.value, mask));
        }
      }
    } else {
      var address := parse(text);
      if address.Some? {
        r := Some(Subnet(address.value, Repeat(true, width)));
        assert Repeat(true, width) == Leading(width, width);
      }
    }
  }

  lemma {:induction false} DecimalIsRead(n: nat)
    ensures Decimal(n) != [] && forall i :: 0 <= i < |Decimal(n)| ==> IsDigit(Decimal(n)[i])
    ensures Value(Decimal(n)) == n
  {
    if n >= 10 {
      DecimalIsRead(n / 10);
      assert DropLast(Decimal(n)) == Decimal(n / 10);
    } else {
      assert DropLast(Decimal(n)) == [];
    }
  }

  lemma {:induction false} LeadingDigitsOfDigits(digits: string, rest: string)
    requires forall i :: 0 <= i < |digits| ==> IsDigit(digits[i])
    requires rest != [] ==> !IsDigit(rest[0])
    ensures LeadingDigits(digits + rest) == digits
  {
    if digits == [] {
      assert digits + rest == rest;
    } else {
      assert (digits + rest)[1..] == digits[1..] + rest;
      LeadingDigitsOfDigits(digits[1..], rest);
    }
  }

  lemma {:induction false} FirstSlash(address: string, tail: string)
    requires '/' !in address
    ensures FindSlash(address + "/" + tail) == Some(|address|)
  {
    var text := address + "/" + tail;
    assert text[|address|] == '/';
    if address != [] {
      FirstSlash(address[1..], tail);
      assert text[1..] == address[1..] + "/" + tail;
    }
  }

  /** A number is read up to 255, the range of the type; text that starts otherwise is not. */
  lemma FromCharsReads(n: nat, rest: string)
    requires rest != [] ==> !IsDigit(rest[0])
    ensures FromChars(Decimal(n) + rest) == if n <= 255 then Some(n) else None
    ensures FromChars(rest) == None
  {
    DecimalIsRead(n);
    LeadingDigitsOfDigits(Decimal(n), rest);
    LeadingDigitsOfDigits([], rest);
    assert [] + rest == rest;
  }

  /** The text that operator std::string writes is read back, whatever else follows its digits. */
  lemma TextIsReadBack(address: string, k: nat, rest: string)
    requires '/' !in address && k <= 128
    requires rest != [] ==> !IsDigit(rest[0])
    ensures var text := address + "/" + (Decimal(k) + rest);
            && FindSlash(text) == Some(|address|) && text[..|address|] == address
            && FromChars(text[|address| + 1..]) == Some(k)
  {
    var tail := Decimal(k) + rest;
    FirstSlash(address, tail);
    DecimalIsRead(k);
    LeadingDigitsOfDigits(Decimal(k), rest);
    assert (address + "/" + tail)[|address| + 1..] == tail;
  }
}

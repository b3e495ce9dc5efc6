/** Fixed-width integers and the Option type shared by all modules. */
module Basics {
  type byte = b: int | 0 <= b < 0x100
  type uint16 = n: int | 0 <= n < 0x1_0000
  type uint32 = n: int | 0 <= n < 0x1_0000_0000
  type uint64 = n: int | 0 <= n < 0x1_0000_0000_0000_0000

  datatype Option<+T> = None | Some(value: T)

  /** The value of two bytes in network order. */
  function Be16(hi: byte, lo: byte): uint16 {
    hi * 0x100 + lo
  }

  /** The two bytes, in network order, that store a 16-bit value. */
  function Be16Bytes(n: uint16): (bytes: seq<byte>) {
    [n / 0x100, n % 0x100]
  }

  function Last<T>(s: seq<T>): T
    requires s != []
  {
    s[|s| - 1]
  }

  function DropLast<T>(s: seq<T>): seq<T>
    requires s != []
  {
    s[..|s| - 1]
  }

  function RemoveAt<T>(s: seq<T>, index: nat): seq<T>
    requires index < |s|
  {
    s[..index] + s[index + 1..]
  }

  /** s with the elements from `at` on replaced by `patch`. */
  function Splice<T>(s: seq<T>, at: int, patch: seq<T>): seq<T>
    requires 0 <= at && at + |patch| <= |s|
  {
    seq(|s|, i requires 0 <= i < |s| => if at <= i < at + |patch| then patch[i - at] else s[i])
  }

  lemma SpliceElements<T>(s: seq<T>, at: int, patch: seq<T>)
    requires 0 <= at && at + |patch| <= |s|
    ensures |Splice(s, at, patch)| == |s|
    ensures forall i {:trigger Splice(s, at, patch)[i]} :: 0 <= i < |s| ==>
              Splice(s, at, patch)[i] == if at <= i < at + |patch| then patch[i - at] else s[i]
  {
  }

  lemma SpliceParts<T>(s: seq<T>, at: int, patch: seq<T>)
    requires 0 <= at && at + |patch| <= |s|
    ensures Splice(s, at, patch) == s[..at] + patch + s[at + |patch|..]
  {
  }

  lemma Assoc<T>(a: seq<T>, b: seq<T>, c: seq<T>)
    ensures (a + b) + c == a + (b + c)
  {
  }

  lemma PrefixOfOne<T>(s: seq<T>, x: T)
    requires s <= [x]
    ensures s == [] || s == [x]
  {
  }

  lemma PrefixOfTwo<T>(s: seq<T>, x: T, y: T)
    requires s <= [x, y]
    ensures s == [] || s == [x] || s == [x, y]
  {
  }

  lemma PrefixOfThree<T>(s: seq<T>, x: T, y: T, z: T)
    requires s <= [x, y, z]
    ensures s == [] || s == [x] || s == [x, y] || s == [x, y, z]
  {
  }
}

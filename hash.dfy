/** The immutable byte-sequence value a block is identified by (Hash.java). */
module Hashes {

  /** A Java `byte`: signed, eight bits. */
  newtype JByte = x: int | -128 <= x < 128

  datatype Option<T> = None | Some(value: T)

  /** The failure `get` raises for an index outside [0, length). */
  datatype Fetched = Byte(b: JByte) | IndexOutOfBounds

  /** What `equals(Object)` may be handed: another Hash, or anything else (null included). */
  datatype Other = AHash(h: Hash) | NotAHash

  /**
   * A Hash owns its bytes as a value: the source clones the array on the way in
   * and on the way out, so no caller can reach the stored bytes; a Dafny sequence
   * gives that isolation by construction.
   */
  datatype Hash = Hash(bytes: seq<JByte>) {

    /** `length()`: the number of bytes. */
    function Length(): (n: nat)
      ensures n == |bytes|
      ensures n == 0 <==> this == Empty()
    {
      |bytes|
    }

    /** `get(i)`: the i-th byte, or the out-of-bounds failure. */
    function Get(i: int): (r: Fetched)
      ensures r.Byte? <==> 0 <= i < Length()
      ensures r.Byte? ==> r.b == bytes[i]
    {
      if 0 <= i < |bytes| then Byte(bytes[i]) else IndexOutOfBounds
    }

    /** `equals(Object)`: another Hash whose bytes agree element by element. */
    function Equals(other: Other): (r: bool)
      ensures r <==> other.AHash? && other.h.bytes == bytes
    {
      other.AHash? && ArraysEqual(bytes, other.h.bytes)
    }

    /** `toString()`: the bytes as uppercase hexadecimal, no separators. */
    function ToString(): (s: string)
      ensures |s| == 2 * Length()
      ensures forall k :: 0 <= k < |s| ==> IsHexDigit(s[k])
    {
      Hex(bytes)
    }

    /** `hashCode()`: Java's `String.hashCode` of the hex rendering. */
    function HashCode(): (c: int)
      ensures -0x8000_0000 <= c < 0x8000_0000
    {
      StringHashCode(ToString())
    }

    /** `getBytes()`: a fresh array holding a copy of the bytes. */
    method GetBytes() returns (a: array<JByte>)
      ensures fresh(a)
      ensures a[..] == bytes
    {
      a := new JByte[|bytes|](i requires 0 <= i < |bytes| => bytes[i]);
    }
  }

  /** The zero-length hash that stands before the first block. */
  function Empty(): Hash
  {
    Hash([])
  }

  /** `new Hash(data)`: copies the caller's array. */
  method FromArray(data: array<JByte>) returns (h: Hash)
    ensures h.bytes == data[..]
    ensures h.Length() == data.Length
    ensures forall i :: 0 <= i < data.Length ==> h.Get(i) == Byte(data[i])
  {
    h := Hash(data[..]);
  }

  /**
   * Whatever a caller does to the array it passed in, or to the array
   * `getBytes` handed out, the Hash keeps the bytes it was built from.
   */
  method CopiesAreIsolated(data: array<JByte>) returns (h: Hash)
    requires data.Length > 0
    modifies data
    ensures h.bytes == old(data[..])
  {
    h := FromArray(data);
    data[0] := if data[0] == 0 then 1 else 0;
    var out := h.GetBytes();
    out[0] := if out[0] == 0 then 1 else 0;
    assert h.bytes == old(data[..]);
  }

  /** `Arrays.equals` on two byte arrays: same length, same byte at every index. */
  predicate ArraysEqual(a: seq<JByte>, b: seq<JByte>)
  {
    |a| == |b| && forall i :: 0 <= i < |a| ==> a[i] == b[i]
  }

  lemma EqualsReflexive(h: Hash)
    ensures h.Equals(AHash(h))
  {
  }

  lemma EqualsSymmetric(h: Hash, k: Hash)
    ensures h.Equals(AHash(k)) <==> k.Equals(AHash(h))
  {
  }

  lemma EqualsTransitive(h: Hash, k: Hash, l: Hash)
    requires h.Equals(AHash(k)) && k.Equals(AHash(l))
    ensures h.Equals(AHash(l))
  {
  }

  /** Equal hashes render alike, so their hash codes agree as `Object` requires. */
  lemma EqualsAgreesWithHashCode(h: Hash, k: Hash)
    requires h.Equals(AHash(k))
    ensures h.ToString() == k.ToString()
    ensures h.HashCode() == k.HashCode()
  {
  }

  // ---------------------------------------------------------------------
  // Base16, section 8 of RFC 4648, upper-case alphabet.
  // ---------------------------------------------------------------------

  /** The sixteen digits 0-9 and A-F. */
  predicate IsHexDigit(c: char)
  {
    '0' <= c <= '9' || 'A' <= c <= 'F'
  }

  /** The byte's value as an unsigned octet: Java's `b & 0xFF`. */
  function Unsigned(b: JByte): (u: nat)
    ensures u < 256
    ensures b >= 0 ==> u == b as int
    ensures b < 0 ==> u == b as int + 256
  {
    (b as int) % 256
  }

  /** The signed byte whose unsigned value is `u`. */
  function Signed(u: nat): (b: JByte)
    requires u < 256
    ensures Unsigned(b) == u
  {
    if u < 128 then u as JByte else (u - 256) as JByte
  }

  function HexDigit(d: nat): (c: char)
    requires d < 16
    ensures IsHexDigit(c)
  {
    if d < 10 then ('0' as int + d) as char else ('A' as int + d - 10) as char
  }

  /** The value of an upper-case hex digit, if `c` is one. */
  function DigitValue(c: char): (r: Option<nat>)
    ensures r.Some? <==> IsHexDigit(c)
    ensures r.Some? ==> r.value < 16 && HexDigit(r.value) == c
  {
    if '0' <= c <= '9' then Some(c as int - '0' as int)
    else if 'A' <= c <= 'F' then Some(c as int - 'A' as int + 10)
    else None
  }

  /** Two digits per byte, high nibble first. */
  function HexByte(b: JByte): (s: string)
    ensures |s| == 2
    ensures s[0] == HexDigit(Unsigned(b) / 16) && s[1] == HexDigit(Unsigned(b) % 16)
  {
    [HexDigit(Unsigned(b) / 16), HexDigit(Unsigned(b) % 16)]
  }

  function Hex(bs: seq<JByte>): (s: string)
    ensures |s| == 2 * |bs|
    ensures forall k :: 0 <= k < |s| ==> IsHexDigit(s[k])
  {
    if bs == [] then [] else HexByte(bs[0]) + Hex(bs[1..])
  }

  /** The inverse of `Hex`: reads digit pairs back into bytes. */
  function Unhex(s: string): (r: Option<seq<JByte>>)
    ensures r.Some? ==> 2 * |r.value| == |s|
  {
    if s == [] then Some([])
    else if |s| < 2 then None
    else
      match (DigitValue(s[0]), DigitValue(s[1]), Unhex(s[2..]))
      case (Some(hi), Some(lo), Some(rest)) => Some([Signed(16 * hi + lo)] + rest)
      case _ => None
  }

  /** The character pair at position 2i renders the i-th byte, high nibble first. */
  lemma {:induction false} HexAt(bs: seq<JByte>, i: nat)
    requires i < |bs|
    ensures Hex(bs)[2 * i] == HexDigit(Unsigned(bs[i]) / 16)
    ensures Hex(bs)[2 * i + 1] == HexDigit(Unsigned(bs[i]) % 16)
  {
    var head, tail := HexByte(bs[0]), Hex(bs[1..]);
    assert Hex(bs) == head + tail;
    if i > 0 {
      HexAt(bs[1..], i - 1);
      assert bs[1..][i - 1] == bs[i];
      assert (head + tail)[2 * i] == tail[2 * (i - 1)];
      assert (head + tail)[2 * i + 1] == tail[2 * (i - 1) + 1];
    }
  }

  lemma DigitValueOfHexDigit(d: nat)
    requires d < 16
    ensures DigitValue(HexDigit(d)) == Some(d)
  {
  }

  lemma SignedOfUnsigned(b: JByte)
    ensures Signed(Unsigned(b)) == b
  {
  }

  lemma {:induction false} UnhexHex(bs: seq<JByte>)
    ensures Unhex(Hex(bs)) == Some(bs)
  {
    if bs != [] {
      var u := Unsigned(bs[0]);
      var s := Hex(bs);
      assert s == HexByte(bs[0]) + Hex(bs[1..]);
      assert s[2..] == Hex(bs[1..]);
      UnhexHex(bs[1..]);
      DigitValueOfHexDigit(u / 16);
      DigitValueOfHexDigit(u % 16);
      assert 16 * (u / 16) + u % 16 == u;
      SignedOfUnsigned(bs[0]);
      assert [bs[0]] + bs[1..] == bs;
    }
  }

  /** Distinct byte contents never share a rendering. */
  lemma HexInjective(a: seq<JByte>, b: seq<JByte>)
    requires Hex(a) == Hex(b)
    ensures a == b
  {
    UnhexHex(a);
    UnhexHex(b);
  }

  lemma ToStringInjective(h: Hash, k: Hash)
    requires h.ToString() == k.ToString()
    ensures h == k
  {
    HexInjective(h.bytes, k.bytes);
  }

  // ---------------------------------------------------------------------
  // Java's String.hashCode: s[0]*31^(n-1) + ... + s[n-1], in 32-bit two's complement.
  // ---------------------------------------------------------------------

  /** Two's-complement wrap-around of a Java `int` result. */
  function Wrap32(x: int): (r: int)
    ensures -0x8000_0000 <= r < 0x8000_0000
    ensures (r - x) % 0x1_0000_0000 == 0
  {
    (x + 0x8000_0000) % 0x1_0000_0000 - 0x8000_0000
  }

  function StringHashCode(s: string): (c: int)
    ensures -0x8000_0000 <= c < 0x8000_0000
  {
    if s == [] then 0 else Wrap32(31 * StringHashCode(s[..|s| - 1]) + s[|s| - 1] as int)
  }

  // ---------------------------------------------------------------------
  // Validators. The HashValidator interface is not part of this model: a
  // validator is a predicate on hashes.
  // ---------------------------------------------------------------------

  type Validator = Hash -> bool
}

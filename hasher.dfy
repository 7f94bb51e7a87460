/**
 * tangle::msg::hasher, the FNV-1a hash used for the header dictionary,
 * and combined_string, the dictionary key that either owns a std::string
 * or borrows a cstring. The width of `size_t` and the signedness of
 * `char` are platform parameters.
 */
module Hashing {
  import opened ByteString
  import CString

  /** The two platform properties the hash depends on. */
  datatype Platform = Platform(wideSize: bool, signedChar: bool)

  /** 2^(8 sizeof(size_t)): the hash state is a value below this. */
  function Modulus(pf: Platform): nat
  {
    if pf.wideSize then 0x1_0000_0000_0000_0000 else 0x1_0000_0000
  }

  /** fnv_const<sizeof(size_t)>::offset */
  function Offset(pf: Platform): nat
  {
    if pf.wideSize then 14695981039346656037 else 2166136261
  }

  /** fnv_const<sizeof(size_t)>::prime */
  function Prime(pf: Platform): nat
  {
    if pf.wideSize then 1099511628211 else 16777619
  }

  /** `(size_t)*data`: the byte read as `char`, sign-extended where `char` is signed. */
  function Widen(pf: Platform, b: uint8): (w: nat)
    ensures w < Modulus(pf) && w % 0x100 == b
    ensures (!pf.signedChar || b < 0x80) ==> w == b
  {
    if pf.signedChar && b >= 0x80 then Modulus(pf) - 0x100 + b else b
  }

  function Pow2(k: nat): nat
  {
    if k == 0 then 1 else 2 * Pow2(k - 1)
  }

  /** Exclusive or of the low `k` bits of `x` and `y`, bit by bit from the lowest. */
  function XorBits(x: nat, y: nat, k: nat): (r: nat)
    ensures r < Pow2(k)
  {
    if k == 0 then 0 else (if x % 2 == y % 2 then 0 else 1) + 2 * XorBits(x / 2, y / 2, k - 1)
  }

  /** Exclusive or of two bytes. */
  function XorByte(x: uint8, y: uint8): uint8
  {
    assert Pow2(8) == 0x100;
    XorBits(x, y, 8)
  }

  /**
   * `m_value ^= (size_t)*data`: the low byte is xored with the byte; the
   * upper bits are kept, or all flipped when the byte was sign-extended.
   */
  function Mix(pf: Platform, h: nat, b: uint8): (r: nat)
    requires h < Modulus(pf)
    ensures r < Modulus(pf)
  {
    var upper := h / 0x100;
    var flipped := if pf.signedChar && b >= 0x80 then Modulus(pf) / 0x100 - 1 - upper else upper;
    flipped * 0x100 + XorByte(h % 0x100, b)
  }

  /** One turn of the append loop: xor the byte in, then multiply by the prime modulo 2^width. */
  function Step(pf: Platform, h: nat, b: uint8): (r: nat)
    requires h < Modulus(pf)
    ensures r < Modulus(pf)
  {
    var m := Mix(pf, h, b);
    if pf.wideSize then (m * 1099511628211) % 0x1_0000_0000_0000_0000 else (m * 16777619) % 0x1_0000_0000
  }

  /** The state after feeding `buf` byte by byte, from the front. */
  function Fold(pf: Platform, h: nat, buf: Bytes): (r: nat)
    requires h < Modulus(pf)
    ensures r < Modulus(pf)
    decreases |buf|
  {
    if buf == [] then h else Fold(pf, Step(pf, h, buf[0]), buf[1..])
  }

  /** hasher::hash(s, l): a fresh hasher after append(s, l). */
  function Hash(pf: Platform, buf: Bytes): (r: nat)
    ensures r < Modulus(pf)
  {
    Fold(pf, Offset(pf), buf)
  }

  /** Appending a + b is appending a, then b. */
  lemma {:induction false} FoldConcat(pf: Platform, h: nat, a: Bytes, b: Bytes)
    requires h < Modulus(pf)
    ensures Fold(pf, h, a + b) == Fold(pf, Fold(pf, h, a), b)
    decreases |a|
  {
    if a == [] {
      assert a + b == b;
    } else {
      var h1 := Step(pf, h, a[0]);
      assert (a + b)[0] == a[0] && (a + b)[1..] == a[1..] + b;
      FoldConcat(pf, h1, a[1..], b);
      assert Fold(pf, h, a) == Fold(pf, h1, a[1..]);
    }
  }

  /** Where every byte is below 0x80, the signedness of `char` makes no difference. */
  lemma {:induction false} SignednessIrrelevantForAscii(wide: bool, h: nat, buf: Bytes)
    requires h < Modulus(Platform(wide, false))
    requires forall i :: 0 <= i < |buf| ==> buf[i] < 0x80
    ensures Fold(Platform(wide, true), h, buf) == Fold(Platform(wide, false), h, buf)
    decreases |buf|
  {
    if buf != [] {
      SignednessIrrelevantForAscii(wide, Step(Platform(wide, false), h, buf[0]), buf[1..]);
    }
  }

  /** Where `char` is signed, a byte from 0x80 up flips every upper bit of the state. */
  lemma SignedHighByte(b: uint8, h: nat)
    requires b >= 0x80 && h < 0x1_0000_0000_0000_0000
    ensures Widen(Platform(true, true), b) == 0xFFFF_FFFF_FFFF_FF00 + b
    ensures Mix(Platform(true, true), h, b) / 0x100 == 0xFF_FFFF_FFFF_FFFF - h / 0x100
    ensures Mix(Platform(true, false), h, b) / 0x100 == h / 0x100
  {
  }

  /** hasher: the running FNV-1a state. */
  class Hasher {
    const platform: Platform
    var value: nat

    /** hasher(): the offset basis. */
    constructor(pf: Platform)
      ensures platform == pf && value == Offset(pf) && value < Modulus(pf)
    {
      platform := pf;
      value := Offset(pf);
    }

    /** append(buffer, length): feed each byte, front to back. */
    method Append(buf: Bytes)
      requires value < Modulus(platform)
      modifies this
      ensures value == Fold(platform, old(value), buf)
    {
      var data := 0;
      ghost var start := value;
      while data < |buf|
        invariant 0 <= data <= |buf|
        invariant value < Modulus(platform) && value == Fold(platform, start, buf[..data])
      {
        FoldConcat(platform, start, buf[..data], [buf[data]]);
        assert buf[..data + 1] == buf[..data] + [buf[data]];
        value := Mix(platform, value, buf[data]);
        value := if platform.wideSize then (value * Prime(platform)) % 0x1_0000_0000_0000_0000 else (value * Prime(platform)) % 0x1_0000_0000;
        data := data + 1;
      }
      assert buf[..data] == buf;
    }
  }

  /** hasher::hash(s, l) == hasher{}.append(s, l).value(). */
  method HashOf(pf: Platform, buf: Bytes) returns (h: nat)
    ensures h == Hash(pf, buf)
  {
    var hs := new Hasher(pf);
    hs.Append(buf);
    h := hs.value;
  }

  /**
   * combined_string: a union of an owned std::string and a borrowed
   * cstring, tagged by `useCStr`.
   */
  class CombinedString {
    var useCStr: bool
    var owned: Bytes
    var borrowed: CString.View

    /** The active member's bytes: what length(), str() and c_str() report. */
    function Contents(): Bytes
      reads this
    {
      if useCStr then borrowed else owned
    }

    /** combined_string(): an empty borrowed string. */
    constructor Empty()
      ensures useCStr && Contents() == []
    {
      useCStr := true;
      borrowed := [];
      owned := [];
    }

    /** combined_string(const cstring&) and combined_string(const char*): borrow. */
    constructor Borrow(key: CString.View)
      ensures useCStr && Contents() == key
    {
      useCStr := true;
      borrowed := key;
      owned := [];
    }

    /** combined_string(const std::string&) and the move overload: own a copy. */
    constructor Own(key: Bytes)
      ensures !useCStr && Contents() == key
    {
      useCStr := false;
      owned := key;
      borrowed := [];
    }

    /** The copy constructor: same representation, same bytes. */
    constructor Copy(rhs: CombinedString)
      ensures useCStr == rhs.useCStr && Contents() == rhs.Contents()
    {
      useCStr := rhs.useCStr;
      owned := if rhs.useCStr then [] else rhs.owned;
      borrowed := if rhs.useCStr then rhs.borrowed else [];
    }

    /** operator=: a no-op for self-assignment, otherwise takes over rhs's representation and bytes. */
    method Assign(rhs: CombinedString)
      modifies this
      ensures useCStr == old(rhs.useCStr) && Contents() == old(rhs.Contents())
      ensures rhs == this ==> useCStr == old(useCStr) && owned == old(owned) && borrowed == old(borrowed)
    {
      if rhs == this {
        return;
      }
      useCStr := rhs.useCStr;
      if useCStr {
        borrowed := rhs.borrowed;
      } else {
        owned := rhs.owned;
      }
    }

    /** length() */
    function Length(): nat
      reads this
    {
      |Contents()|
    }

    /** hash(): hasher::hash of the active member, whichever it is. */
    function HashValue(pf: Platform): (h: nat)
      reads this
      ensures h == Hash(pf, Contents())
    {
      if useCStr then Hash(pf, borrowed) else Hash(pf, owned)
    }

    /** operator==: both sides viewed as cstring and compared through cstring::compare. */
    predicate Equals(rhs: CombinedString)
      reads this, rhs
      requires |Contents()| < CString.SIZE_RANGE && |rhs.Contents()| < CString.SIZE_RANGE
    {
      CString.Equal(Contents(), rhs.Contents())
    }
  }

  /** Keys without NUL bytes that compare equal hash equally, whatever they own or borrow. */
  lemma EqualKeysHashEqually(pf: Platform, a: CombinedString, b: CombinedString)
    requires |a.Contents()| < CString.SIZE_RANGE && |b.Contents()| < CString.SIZE_RANGE
    requires 0 !in a.Contents() && a.Equals(b)
    ensures a.HashValue(pf) == b.HashValue(pf)
  {
    CString.CompareLexicographic(a.Contents(), b.Contents());
  }

  /** Hashing a prefix and then one more byte: the last step from the prefix's state. */
  lemma HashSnoc(pf: Platform, p: Bytes, c: uint8)
    ensures Hash(pf, p + [c]) == Step(pf, Hash(pf, p), c)
  {
    FoldConcat(pf, Offset(pf), p, [c]);
  }

  /**
   * Where `char` is unsigned, one step from the same state with two
   * different bytes ends in two different states: the mixes differ in the
   * low byte only, and no multiple of the prime below 256 times it
   * vanishes modulo 2^64.
   */
  lemma StepApart(h: nat, c: uint8, d: uint8)
    requires h < 0x1_0000_0000_0000_0000 && c != d
    ensures Step(Platform(true, false), h, c) != Step(Platform(true, false), h, d)
  {
    var pf := Platform(true, false);
    XorByteInjective(h % 0x100, c, d);
    var x1, x2 := XorByte(h % 0x100, c), XorByte(h % 0x100, d);
    assert Mix(pf, h, c) == (h / 0x100) * 0x100 + x1;
    assert Mix(pf, h, d) == (h / 0x100) * 0x100 + x2;
    ProductsApart((h / 0x100) * 0x100 + x1, (h / 0x100) * 0x100 + x2);
  }

  lemma XorByteInjective(x: uint8, c: uint8, d: uint8)
    requires c != d
    ensures XorByte(x, c) != XorByte(x, d)
  {
    assert Pow2(8) == 0x100;
    XorBitsInjective(x, c, d, 8);
  }

  /** For a fixed `x`, xor over `k` bits is injective in its other operand. */
  lemma {:induction false} XorBitsInjective(x: nat, c: nat, d: nat, k: nat)
    requires c != d && c < Pow2(k) && d < Pow2(k)
    ensures XorBits(x, c, k) != XorBits(x, d, k)
  {
    assert k > 0;
    var b1, b2 := (if x % 2 == c % 2 then 0 else 1), (if x % 2 == d % 2 then 0 else 1);
    var r1, r2 := XorBits(x / 2, c / 2, k - 1), XorBits(x / 2, d / 2, k - 1);
    assert XorBits(x, c, k) == b1 + 2 * r1 && XorBits(x, d, k) == b2 + 2 * r2;
    if c % 2 == d % 2 {
      assert c == 2 * (c / 2) + c % 2 && d == 2 * (d / 2) + d % 2;
      XorBitsInjective(x / 2, c / 2, d / 2, k - 1);
      assert b1 == b2;
    } else {
      assert b1 != b2;
    }
  }

  /** Two values closer than 256 but different stay different once multiplied by the 64-bit prime. */
  lemma ProductsApart(m1: nat, m2: nat)
    requires m1 != m2 && -0x100 < m1 - m2 < 0x100
    ensures (m1 * 1099511628211) % 0x1_0000_0000_0000_0000 != (m2 * 1099511628211) % 0x1_0000_0000_0000_0000
  {
    var M, P := 0x1_0000_0000_0000_0000, 1099511628211;
    var q1, q2 := (m1 * P) / M, (m2 * P) / M;
    assert m1 * P == q1 * M + (m1 * P) % M;
    assert m2 * P == q2 * M + (m2 * P) % M;
    assert m1 * P - m2 * P == (m1 - m2) * P;
  }

  /**
   * As written, operator== stops at the first NUL while hash() covers
   * every byte: a NUL-free prefix, a NUL, then two different bytes give two
   * keys that compare equal and hash apart (where `size_t` is 64 bits wide
   * and `char` unsigned).
   */
  lemma EqualKeysHashApart(p: Bytes, c: uint8, d: uint8)
    requires 0 !in p && |p| + 2 < CString.SIZE_RANGE && c != d
    ensures CString.Equal(p + [0, c], p + [0, d])
    ensures Hash(Platform(true, false), p + [0, c]) != Hash(Platform(true, false), p + [0, d])
  {
    var pf := Platform(true, false);
    CString.EmbeddedNulEqual(p, [c], [d]);
    assert p + [0] + [c] == p + [0, c] && p + [0] + [d] == p + [0, d];
    HashSnoc(pf, p + [0], c);
    HashSnoc(pf, p + [0], d);
    StepApart(Hash(pf, p + [0]), c, d);
  }

  /** The byte-wise key equality that agrees with the hash: equal keys always hash equally. */
  predicate SameKey(a: CombinedString, b: CombinedString)
    reads a, b
    requires |a.Contents()| < CString.SIZE_RANGE && |b.Contents()| < CString.SIZE_RANGE
  {
    CString.CompareBytes(a.Contents(), b.Contents()) == 0
  }

  lemma SameKeysHashEqually(pf: Platform, a: CombinedString, b: CombinedString)
    requires |a.Contents()| < CString.SIZE_RANGE && |b.Contents()| < CString.SIZE_RANGE
    requires SameKey(a, b)
    ensures a.HashValue(pf) == b.HashValue(pf)
  {
  }
}

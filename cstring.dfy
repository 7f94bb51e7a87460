/**
 * tangle::cstring, a non-owning view over `length()` bytes. A view is
 * modelled by the bytes it covers; `size_t` arithmetic is modulo 2^64 where
 * the code relies on it (`last`, the `npos` default).
 */
module CString {
  import opened ByteString
  import JsonValue

  const SIZE_RANGE: int := 0x1_0000_0000_0000_0000
  type size_t = x: int | 0 <= x < SIZE_RANGE

  /** npos and dynamic_range: `(size_t)-1`. */
  const NPOS: size_t := SIZE_RANGE - 1

  /** A view never covers 2^64 bytes or more. */
  type View = s: Bytes | |s| < SIZE_RANGE

  function Min(a: int, b: int): int { if a <= b then a else b }

  // ---------------------------------------------------------------------
  // Construction

  /** get_length: the bytes before the terminating NUL. */
  function CLength(mem: Bytes): (n: nat)
    requires 0 in mem
    ensures n < |mem| && mem[n] == 0
    ensures forall i :: 0 <= i < n ==> mem[i] != 0
  {
    if mem[0] == 0 then 0
    else
      assert 0 in mem[1..] by {
        var k :| 0 <= k < |mem| && mem[k] == 0;
        assert mem[1..][k - 1] == 0;
      }
      1 + CLength(mem[1..])
  }

  /** cstring(const char* d): the NUL-terminated string at `d`; a null pointer gives the empty view. */
  function FromPointer(d: Option<Bytes>): (v: View)
    requires d.Some? ==> 0 in d.value && |d.value| < SIZE_RANGE
    ensures d.None? ==> v == []
    ensures d.Some? ==> 0 !in v && v + [0] <= d.value
  {
    match d
    case None => []
    case Some(mem) => mem[..CLength(mem)]
  }

  /**
   * A std::string's c_str() read as a C string (by %s, strlen and the
   * like): its bytes up to the first NUL, all of them when it holds none.
   */
  function CStr(s: Bytes): (v: Bytes)
    ensures v <= s && 0 !in v
    ensures |v| < |s| ==> s[|v|] == 0
  {
    var mem := s + [0];
    mem[..CLength(mem)]
  }

  /** cstring(const char (&d)[s]): an array literal, less its terminator, embedded NULs included. */
  function FromLiteral(arr: Bytes): (v: View)
    requires 1 <= |arr| < SIZE_RANGE
    ensures |v| == |arr| - 1 && v <= arr
  {
    arr[..|arr| - 1]
  }

  /** cstring(const char* d, size_t s): the first `s` bytes at `d`. */
  function FromBuffer(mem: Bytes, s: size_t): (v: View)
    requires s <= |mem|
    ensures |v| == s && v <= mem
  {
    mem[..s]
  }

  // ---------------------------------------------------------------------
  // Slicing

  /**
   * subspan(offset, count): empty when `offset` is at or past the end,
   * otherwise the bytes from `offset`, at most `count` of them.
   */
  function Subspan(v: View, offset: size_t, count: size_t): (r: View)
    ensures offset >= |v| ==> r == []
    ensures offset < |v| ==> |r| == Min(count, |v| - offset) && r == v[offset..offset + |r|]
  {
    if offset < |v| then
      if count <= |v| - offset then v[offset..offset + count] else v[offset..]
    else []
  }

  /** first(count) == subspan(0, count). */
  function First(v: View, count: size_t): View
  {
    Subspan(v, 0, count)
  }

  /** last(count) == subspan(length() - count, count), the offset wrapping below zero. */
  function Last(v: View, count: size_t): View
  {
    Subspan(v, (|v| - count) % SIZE_RANGE, count)
  }

  /** first(n) is the prefix of length min(n, length()). */
  lemma FirstIsPrefix(v: View, n: size_t)
    ensures First(v, n) == v[..Min(n, |v|)]
  {
  }

  /** last(n) is the suffix of length n, and empty (not the whole view) when n exceeds the length. */
  lemma LastIsSuffix(v: View, n: size_t)
    ensures n <= |v| ==> Last(v, n) == v[|v| - n..]
    ensures n > |v| ==> Last(v, n) == []
  {
    if n > |v| {
      assert (|v| - n) % SIZE_RANGE == |v| - n + SIZE_RANGE;
    }
  }

  /** With the default count, subspan is the whole tail. */
  lemma SubspanTail(v: View, offset: size_t)
    ensures offset < |v| ==> Subspan(v, offset, NPOS) == v[offset..]
  {
  }

  // ---------------------------------------------------------------------
  // Comparison

  /**
   * strncmp over at most n bytes, read unsigned: the sign of the first
   * difference, stopping early at a NUL both sides share.
   */
  function Strncmp(a: Bytes, b: Bytes, n: nat): (r: int)
    requires n <= |a| && n <= |b|
    ensures -1 <= r <= 1
    ensures n > 0 && a[0] == b[0] == 0 ==> r == 0
  {
    if n == 0 then 0
    else if a[0] != b[0] then (if a[0] < b[0] then -1 else 1)
    else if a[0] == 0 then 0
    else Strncmp(a[1..], b[1..], n - 1)
  }

  /**
   * compare: strncmp over the common length, then the length difference.
   * A view equals only views of its own length, and always itself.
   */
  function Compare(a: View, b: View): (r: int)
    ensures r == 0 ==> |a| == |b|
    ensures a == b ==> r == 0
  {
    StrncmpSelf(a, Min(|a|, |b|));
    var hint := Strncmp(a, b, Min(|a|, |b|));
    if hint != 0 then hint else |a| - |b|
  }

  /** strncmp of a text with itself finds no difference. */
  lemma {:induction false} StrncmpSelf(a: Bytes, n: nat)
    requires n <= |a|
    ensures Strncmp(a, a, n) == 0
    decreases n
  {
    if n > 0 && a[0] != 0 {
      StrncmpSelf(a[1..], n - 1);
    }
  }

  predicate Equal(a: View, b: View) { Compare(a, b) == 0 }
  predicate Less(a: View, b: View) { Compare(a, b) < 0 }
  predicate Greater(a: View, b: View) { Compare(a, b) > 0 }

  lemma {:induction false} StrncmpSwap(a: Bytes, b: Bytes, n: nat)
    requires n <= |a| && n <= |b|
    ensures Strncmp(b, a, n) == -Strncmp(a, b, n)
    decreases n
  {
    if n > 0 && a[0] == b[0] && a[0] != 0 {
      StrncmpSwap(a[1..], b[1..], n - 1);
    }
  }

  /** a < b exactly when b > a, and == is symmetric. */
  lemma CompareSwap(a: View, b: View)
    ensures Compare(b, a) == -Compare(a, b)
    ensures Less(a, b) <==> Greater(b, a)
    ensures Equal(a, b) <==> Equal(b, a)
  {
    StrncmpSwap(a, b, Min(|a|, |b|));
  }

  /**
   * When the left side holds no NUL, compare agrees with std::string:
   * zero exactly for the same bytes, negative exactly when the left comes
   * first in lexicographic order.
   */
  lemma {:induction false} CompareLexicographic(a: View, b: View)
    requires 0 !in a
    ensures Equal(a, b) <==> a == b
    ensures Less(a, b) <==> JsonValue.KeyLess(a, b)
    decreases |a|
  {
    if a != [] && b != [] && a[0] == b[0] {
      CompareLexicographic(a[1..], b[1..]);
      assert a == [a[0]] + a[1..] && b == [b[0]] + b[1..];
    } else if a != [] && b != [] {
      assert a[0] != 0;
    }
  }

  /**
   * As written, strncmp stops at a NUL both sides share, so views that
   * differ only after an embedded NUL compare equal.
   */
  lemma EmbeddedNulEqual(p: Bytes, x: Bytes, y: Bytes)
    requires 0 !in p && |x| == |y| && |p| + 1 + |x| < SIZE_RANGE
    ensures Equal(p + [0] + x, p + [0] + y)
    ensures x != y ==> p + [0] + x != p + [0] + y
  {
    StrncmpStopsAtNul(p, x, y, |p| + 1 + |x|);
    if x != y {
      var i :| 0 <= i < |x| && x[i] != y[i];
      assert (p + [0] + x)[|p| + 1 + i] == x[i];
    }
  }

  /** strncmp over two buffers sharing a NUL-free prefix and then a NUL looks no further. */
  lemma {:induction false} StrncmpStopsAtNul(p: Bytes, x: Bytes, y: Bytes, n: nat)
    requires 0 !in p && |p| < n <= |p| + 1 + |x| && n <= |p| + 1 + |y|
    ensures Strncmp(p + [0] + x, p + [0] + y, n) == 0
    decreases |p|
  {
    var a, b := p + [0] + x, p + [0] + y;
    if p != [] {
      assert a[0] == b[0] == p[0] != 0;
      assert a[1..] == p[1..] + [0] + x && b[1..] == p[1..] + [0] + y;
      StrncmpStopsAtNul(p[1..], x, y, n - 1);
    } else {
      assert a[0] == b[0] == 0;
    }
  }

  /** The byte-wise comparison a view of arbitrary bytes calls for: common prefix first, then length. */
  function CompareBytes(a: View, b: View): (r: int)
    ensures r == 0 <==> a == b
    ensures r < 0 <==> JsonValue.KeyLess(a, b)
    decreases |a|
  {
    if a == [] then (if b == [] then 0 else -1)
    else if b == [] then 1
    else if a[0] != b[0] then (if a[0] < b[0] then -1 else 1)
    else
      var r := CompareBytes(a[1..], b[1..]);
      assert a == [a[0]] + a[1..] && b == [b[0]] + b[1..];
      r
  }

  // ---------------------------------------------------------------------
  // Search

  /** The needle starts at p. */
  predicate Occurs(v: Bytes, needle: Bytes, p: int)
  {
    0 <= p && p + |needle| <= |v| && v[p..p + |needle|] == needle
  }

  /** traits_type::find (memchr): the first index in [from, from + count) holding c. */
  function MemChr(v: Bytes, from: nat, count: nat, c: uint8): (r: Option<nat>)
    requires from + count <= |v|
    ensures r.None? ==> forall i :: from <= i < from + count ==> v[i] != c
    ensures r.Some? ==> from <= r.value < from + count && v[r.value] == c
    ensures r.Some? ==> forall i :: from <= i < r.value ==> v[i] != c
    decreases count
  {
    if count == 0 then None
    else if v[from] == c then Some(from)
    else MemChr(v, from + 1, count - 1, c)
  }

  /**
   * find(s, off, len): the first position at or after `off` where the
   * needle occurs, or npos. The code scans with memchr for the needle's
   * first byte and compares from each hit. An empty needle past the end
   * reads out of bounds, so it is excluded.
   */
  method Find(v: View, needle: Bytes, off: size_t) returns (r: size_t)
    requires |needle| < SIZE_RANGE
    requires needle == [] ==> off < |v|
    ensures r != NPOS ==> off <= r && Occurs(v, needle, r)
    ensures forall p :: off <= p < r && p <= |v| ==> !Occurs(v, needle, p)
  {
    if needle == [] && off < |v| {
      return off;
    }
    var space: int := if off < |v| then |v| - off else 0;
    if |needle| <= space {
      space := space - (|needle| - 1);
      var from := off;
      var test := MemChr(v, from, space, needle[0]);
      while test.Some?
        invariant off <= from && 0 <= space && from + space == |v| - |needle| + 1
        invariant test == MemChr(v, from, space, needle[0])
        invariant forall p :: off <= p < from ==> !Occurs(v, needle, p)
        decreases space
      {
        var t := test.value;
        if v[t..t + |needle|] == needle {
          return t;
        }
        forall p | from <= p <= t ensures !Occurs(v, needle, p) {
          if p < t {
            assert v[p..p + |needle|][0] == v[p];
          }
        }
        space := space - (t - from + 1);
        from := t + 1;
        test := MemChr(v, from, space, needle[0]);
      }
      forall p | from <= p <= |v| ensures !Occurs(v, needle, p) {
        if p < from + space {
          assert v[p..p + |needle|][0] == v[p];
        }
      }
    }
    return NPOS;
  }

  /**
   * rfind(s, off, len): the last position at or before
   * min(off, length() - len) where the needle occurs, or npos, walking
   * backwards from there. An empty needle gives min(off, length()).
   */
  method RFind(v: View, needle: Bytes, off: size_t) returns (r: size_t)
    requires |needle| < SIZE_RANGE
    ensures needle == [] ==> r == Min(off, |v|)
    ensures r != NPOS ==> r <= off && Occurs(v, needle, r)
    ensures r == NPOS && needle != [] ==> forall p :: 0 <= p <= off ==> !Occurs(v, needle, p)
    ensures r != NPOS ==> forall p :: r < p <= off ==> !Occurs(v, needle, p)
  {
    if needle == [] {
      return if off < |v| then off else |v|;
    }
    if |needle| <= |v| {
      var maxOff := |v| - |needle|;
      var start := if off < maxOff then off else maxOff;
      var test := start;
      while true
        invariant 0 <= test <= start
        invariant forall p :: test < p <= off ==> !Occurs(v, needle, p)
        decreases test
      {
        if v[test] == needle[0] && v[test..test + |needle|] == needle {
          return test;
        } else if test == 0 {
          break;
        }
        test := test - 1;
      }
    }
    return NPOS;
  }

  /** find(char c, off) == find(&c, off, 1). */
  method FindByte(v: View, c: uint8, off: size_t) returns (r: size_t)
    ensures r != NPOS ==> off <= r < |v| && v[r] == c
    ensures forall p :: off <= p < r && p < |v| ==> v[p] != c
  {
    r := Find(v, [c], off);
    forall p | off <= p < r && p < |v| ensures v[p] != c {
      assert !Occurs(v, [c], p);
      assert v[p..p + 1] == [v[p]];
    }
    if r != NPOS {
      assert v[r..r + 1][0] == v[r];
    }
  }

  /** rfind(char c, off) == rfind(&c, off, 1). */
  method RFindByte(v: View, c: uint8, off: size_t) returns (r: size_t)
    ensures r != NPOS ==> r <= off && r < |v| && v[r] == c
    ensures forall p :: (if r == NPOS then 0 else r + 1) <= p <= off && p < |v| ==> v[p] != c
  {
    r := RFind(v, [c], off);
    forall p | (if r == NPOS then 0 else r + 1) <= p <= off && p < |v| ensures v[p] != c {
      assert !Occurs(v, [c], p);
      assert v[p..p + 1] == [v[p]];
    }
    if r != NPOS {
      assert v[r..r + 1][0] == v[r];
    }
  }

  // ---------------------------------------------------------------------
  // Concatenation

  /** operator+: a std::string holding the left bytes, then the right ones. */
  function Concat(a: View, b: View): (r: Bytes)
    ensures |r| == |a| + |b|
  {
    a + b
  }

  /** Slicing the concatenation at the left length gives both sides back. */
  lemma ConcatSplits(a: View, b: View)
    requires |a| + |b| < SIZE_RANGE
    ensures First(Concat(a, b), |a|) == a
    ensures |a| < |a| + |b| ==> Subspan(Concat(a, b), |a|, NPOS) == b
  {
    assert (a + b)[..|a|] == a;
    assert (a + b)[|a|..] == b;
  }
}

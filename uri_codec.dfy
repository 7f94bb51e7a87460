/**
 * Percent-encoding (section 2.1 of RFC 3986) and the path helpers of the
 * tangle uri code: urlencode keeps the unreserved characters of section
 * 2.3 and writes every other byte as '%' and two upper-case hexadecimal
 * digits; urldecode turns every well-formed "%hh" back into its byte;
 * path_split and path_join cut a path at its slashes and glue it back.
 */
module UriCodec {
  import opened ByteString

  const PERCENT: uint8 := 0x25
  const SLASH: uint8 := 0x2F
  const DASH: uint8 := 0x2D
  const DOT: uint8 := 0x2E
  const UNDERSCORE: uint8 := 0x5F
  const TILDE: uint8 := 0x7E
  const COLON: uint8 := 0x3A
  const LBRACKET: uint8 := 0x5B
  const RBRACKET: uint8 := 0x5D

  /** Which bytes an encoder leaves alone. */
  datatype Charset = Unreserved | HostChars

  /** issafe: ALPHA, DIGIT and "-._~". */
  predicate IsSafe(c: uint8)
  {
    IsAlnum(c) || c == DASH || c == DOT || c == UNDERSCORE || c == TILDE
  }

  /** host_issafe: the unreserved bytes, ':' and the brackets of an IP literal. */
  predicate IsHostSafe(c: uint8)
  {
    IsSafe(c) || c == COLON || c == LBRACKET || c == RBRACKET
  }

  predicate Safe(cs: Charset, c: uint8)
  {
    match cs
    case Unreserved => IsSafe(c)
    case HostChars => IsHostSafe(c)
  }

  /** `"0123456789ABCDEF"[d]` */
  function HexUpper(d: nat): (c: uint8)
    requires d < 16
    ensures IsXDigit(c) && HexValue(c) == d
  {
    if d < 10 then 0x30 + d else 0x41 + d - 10
  }

  /** What urlencode writes for one byte. */
  function EncodeByte(cs: Charset, c: uint8): Bytes
  {
    if Safe(cs, c) then [c] else [PERCENT, HexUpper(c / 16), HexUpper(c % 16)]
  }

  /** urlencode over the whole range, byte by byte. */
  function Encode(cs: Charset, s: Bytes): Bytes
    decreases |s|
  {
    if s == [] then [] else EncodeByte(cs, s[0]) + Encode(cs, s[1..])
  }

  /** The bytes urlencode must escape. */
  function Unsafe(cs: Charset, s: Bytes): nat
    decreases |s|
  {
    if s == [] then 0 else (if Safe(cs, s[0]) then 0 else 1) + Unsafe(cs, s[1..])
  }

  /** urlencode, with the bytes that pass and the escapes written one by one. */
  method UrlEncode(cs: Charset, s: Bytes) returns (out: Bytes)
    ensures out == Encode(cs, s)
  {
    out := [];
    var i := 0;
    while i < |s|
      invariant 0 <= i <= |s|
      invariant out + Encode(cs, s[i..]) == Encode(cs, s)
    {
      var c := s[i];
      ghost var before := out;
      if Safe(cs, c) {
        out := out + [c];
      } else {
        out := out + [PERCENT, HexUpper(c / 16), HexUpper(c % 16)];
      }
      EncodeStep(cs, s, i, before, out);
      i := i + 1;
    }
  }

  lemma EncodeStep(cs: Charset, s: Bytes, i: nat, before: Bytes, after: Bytes)
    requires i < |s| && before + Encode(cs, s[i..]) == Encode(cs, s)
    requires after == before + EncodeByte(cs, s[i])
    ensures after + Encode(cs, s[i + 1..]) == Encode(cs, s)
  {
    var t := s[i..];
    assert t[1..] == s[i + 1..];
    assert Encode(cs, t) == EncodeByte(cs, t[0]) + Encode(cs, t[1..]);
  }

  /** urldecode over the whole range: a '%' with two hexadecimal digits after it inside the range becomes one byte. */
  function Decode(s: Bytes): Bytes
    decreases |s|
  {
    if s == [] then []
    else if s[0] == PERCENT && 2 < |s| && IsXDigit(s[1]) && IsXDigit(s[2]) then
      [HexValue(s[1]) * 16 + HexValue(s[2])] + Decode(s[3..])
    else [s[0]] + Decode(s[1..])
  }

  /** urldecode, walking the range with an index and skipping the two digits of an escape. */
  method UrlDecode(s: Bytes) returns (out: Bytes)
    ensures out == Decode(s)
  {
    out := [];
    var i := 0;
    while i < |s|
      invariant 0 <= i <= |s|
      invariant out + Decode(s[i..]) == Decode(s)
    {
      ghost var before := out;
      if s[i] == PERCENT && i + 2 < |s| && IsXDigit(s[i + 1]) && IsXDigit(s[i + 2]) {
        out := out + [HexValue(s[i + 1]) * 16 + HexValue(s[i + 2])];
        DecodeEscapeStep(s, i, before, out);
        i := i + 3;
      } else {
        out := out + [s[i]];
        DecodePlainStep(s, i, before, out);
        i := i + 1;
      }
    }
  }

  lemma Assoc(a: Bytes, b: Bytes, c: Bytes)
    ensures (a + b) + c == a + (b + c)
  {
  }

  lemma DecodeEscapeStep(s: Bytes, i: nat, before: Bytes, after: Bytes)
    requires i + 2 < |s| && before + Decode(s[i..]) == Decode(s)
    requires s[i] == PERCENT && IsXDigit(s[i + 1]) && IsXDigit(s[i + 2])
    requires after == before + [HexValue(s[i + 1]) * 16 + HexValue(s[i + 2])]
    ensures after + Decode(s[i + 3..]) == Decode(s)
  {
    var t := s[i..];
    var v: uint8 := HexValue(s[i + 1]) * 16 + HexValue(s[i + 2]);
    assert after == before + [v];
    assert t[3..] == s[i + 3..];
    assert t[0] == s[i] && t[1] == s[i + 1] && t[2] == s[i + 2];
    assert Decode(t) == [v] + Decode(s[i + 3..]);
    Assoc(before, [v], Decode(s[i + 3..]));
  }

  lemma DecodePlainStep(s: Bytes, i: nat, before: Bytes, after: Bytes)
    requires i < |s| && before + Decode(s[i..]) == Decode(s)
    requires !(s[i] == PERCENT && i + 2 < |s| && IsXDigit(s[i + 1]) && IsXDigit(s[i + 2]))
    requires after == before + [s[i]]
    ensures after + Decode(s[i + 1..]) == Decode(s)
  {
    var t := s[i..];
    assert t[1..] == s[i + 1..];
    assert t[0] == s[i] && (|t| > 2 ==> t[1] == s[i + 1] && t[2] == s[i + 2]);
    assert Decode(t) == [s[i]] + Decode(s[i + 1..]);
    Assoc(before, [s[i]], Decode(s[i + 1..]));
  }

  /**
   * urldecode as written: the guard `i < in_len - 2` is computed in size_t,
   * so for a range of one byte it wraps and lets the loop read the two
   * bytes after the range. `mem` is the memory from the start of the range
   * on, with two readable bytes past it.
   */
  function DecodeAsWritten(mem: Bytes, len: nat, i: nat): Bytes
    requires len + 2 <= |mem| && len < 0x1_0000_0000_0000_0000
    decreases len - i
  {
    if i >= len then []
    else
      var bound := (len - 2) % 0x1_0000_0000_0000_0000;
      if mem[i] == PERCENT && i < bound && IsXDigit(mem[i + 1]) && IsXDigit(mem[i + 2]) then
        [HexValue(mem[i + 1]) * 16 + HexValue(mem[i + 2])] + DecodeAsWritten(mem, len, i + 3)
      else [mem[i]] + DecodeAsWritten(mem, len, i + 1)
  }

  // ---------------------------------------------------------------------
  // Paths

  /** How many times `c` occurs in `s`. */
  function Count(s: Bytes, c: uint8): nat
    decreases |s|
  {
    if s == [] then 0 else (if s[0] == c then 1 else 0) + Count(s[1..], c)
  }

  /** path_split from `prev`: the piece up to the next slash, then the rest. */
  function SplitFrom(p: Bytes, prev: nat): (r: seq<Bytes>)
    requires prev <= |p|
    ensures r != []
    decreases |p| - prev
  {
    var slash := IndexOfFrom(p, SLASH, prev);
    if slash == |p| then [p[prev..]] else [p[prev..slash]] + SplitFrom(p, slash + 1)
  }

  /** path_split: the pieces between the slashes, empty ones included. */
  function Split(p: Bytes): seq<Bytes>
  {
    SplitFrom(p, 0)
  }

  /** path_split, finding one slash after the other. */
  method PathSplit(p: Bytes) returns (out: seq<Bytes>)
    ensures out == Split(p)
  {
    out := [];
    var prev := 0;
    var slash := IndexOfFrom(p, SLASH, 0);
    while slash != |p|
      invariant prev <= slash <= |p| && slash == IndexOfFrom(p, SLASH, prev)
      invariant out + SplitFrom(p, prev) == Split(p)
      decreases |p| - prev
    {
      ghost var before := out;
      out := out + [p[prev..slash]];
      assert SplitFrom(p, prev) == [p[prev..slash]] + SplitFrom(p, slash + 1);
      SplitAssoc(before, [p[prev..slash]], SplitFrom(p, slash + 1));
      prev := slash + 1;
      slash := IndexOfFrom(p, SLASH, prev);
    }
    out := out + [p[prev..]];
  }

  lemma SplitAssoc(a: seq<Bytes>, b: seq<Bytes>, c: seq<Bytes>)
    ensures (a + b) + c == a + (b + c)
  {
  }

  /** path_join: the chunks with one slash between neighbours. */
  function Join(chunks: seq<Bytes>): Bytes
    decreases |chunks|
  {
    if chunks == [] then []
    else if |chunks| == 1 then chunks[0]
    else Join(chunks[..|chunks| - 1]) + [SLASH] + chunks[|chunks| - 1]
  }

  /** path_join, pushing a slash before every chunk but the first. */
  method PathJoin(chunks: seq<Bytes>) returns (out: Bytes)
    ensures out == Join(chunks)
  {
    out := [];
    var first := true;
    for i := 0 to |chunks|
      invariant first <==> i == 0
      invariant out == Join(chunks[..i])
    {
      assert chunks[..i + 1][..i] == chunks[..i];
      if first {
        first := false;
      } else {
        out := out + [SLASH];
      }
      out := out + chunks[i];
    }
    assert chunks[..|chunks|] == chunks;
  }
}

/**
 * The UTF-8 <-> UTF-16 transcoder of the JSON library (utf::widen,
 * utf::narrowed, utf::next_char and the isLegalUTF8 check), after the
 * classic ConvertUTF code. Sequences are judged against the UTF-8 grammar
 * of section 4 of RFC 3629; surrogate pairs follow section 2 of RFC 2781.
 */
module Utf8 {
  import opened ByteString

  // ---------------------------------------------------------------------
  // Tables and the per-sequence legality check

  /** trailingBytesForUTF8: how many bytes a lead byte says will follow it. */
  function TrailingBytes(lead: uint8): nat
  {
    if lead < 0xC0 then 0
    else if lead < 0xE0 then 1
    else if lead < 0xF0 then 2
    else if lead < 0xF8 then 3
    else if lead < 0xFC then 4
    else 5
  }

  predicate IsTail(b: int) { 0x80 <= b <= 0xBF }

  /** The inner switch of isLegalUTF8 on the lead byte and the second byte. */
  predicate SecondByteOk(lead: uint8, a: uint8)
  {
    if lead == 0xE0 then a >= 0xA0
    else if lead == 0xED then a <= 0x9F
    else if lead == 0xF0 then a >= 0x90
    else if lead == 0xF4 then a <= 0x8F
    else a >= 0x80
  }

  /**
   * isLegalUTF8(source, |source|): lengths other than 1..4 fail; every
   * byte after the lead must be a continuation byte; the second byte is
   * restricted after E0, ED, F0 and F4; leads 80..C1 and leads above F4 fail.
   */
  predicate IsLegal(src: Bytes)
  {
    1 <= |src| <= 4
    && (|src| >= 4 ==> IsTail(src[3]))
    && (|src| >= 3 ==> IsTail(src[2]))
    && (|src| >= 2 ==> IsTail(src[1]) && SecondByteOk(src[0], src[1]))
    && !(0x80 <= src[0] < 0xC2)
    && src[0] <= 0xF4
  }

  // ---------------------------------------------------------------------
  // Reference grammar: section 4 of RFC 3629

  /** Length of the character a lead byte starts under RFC 3629, 0 for a byte that cannot lead. */
  function CharLength(lead: uint8): nat
  {
    if lead <= 0x7F then 1
    else if 0xC2 <= lead <= 0xDF then 2
    else if 0xE0 <= lead <= 0xEF then 3
    else if 0xF0 <= lead <= 0xF4 then 4
    else 0
  }

  /** UTF8-char of RFC 3629 (UTF8-1 / UTF8-2 / UTF8-3 / UTF8-4). */
  predicate Rfc3629Char(c: Bytes)
  {
    (|c| == 1 && c[0] <= 0x7F)
    || (|c| == 2 && 0xC2 <= c[0] <= 0xDF && IsTail(c[1]))
    || (|c| == 3 && IsTail(c[2]) &&
        ((c[0] == 0xE0 && 0xA0 <= c[1] <= 0xBF) || (0xE1 <= c[0] <= 0xEC && IsTail(c[1])) ||
         (c[0] == 0xED && 0x80 <= c[1] <= 0x9F) || (0xEE <= c[0] <= 0xEF && IsTail(c[1]))))
    || (|c| == 4 && IsTail(c[2]) && IsTail(c[3]) &&
        ((c[0] == 0xF0 && 0x90 <= c[1] <= 0xBF) || (0xF1 <= c[0] <= 0xF3 && IsTail(c[1])) ||
         (c[0] == 0xF4 && 0x80 <= c[1] <= 0x8F)))
  }

  /** A well-formed UTF-8 string: a sequence of RFC 3629 characters. */
  predicate WellFormed(s: Bytes)
    decreases |s|
  {
    s == [] || (var n := CharLength(s[0]); 0 < n <= |s| && Rfc3629Char(s[..n]) && WellFormed(s[n..]))
  }

  /**
   * For the length its lead byte announces, isLegalUTF8 accepts a sequence
   * exactly when it is a UTF-8 character of RFC 3629.
   */
  lemma LegalIffRfc3629(c: Bytes)
    requires |c| >= 1 && |c| == TrailingBytes(c[0]) + 1
    ensures IsLegal(c) <==> Rfc3629Char(c)
    ensures IsLegal(c) ==> CharLength(c[0]) == |c|
  {
  }

  // ---------------------------------------------------------------------
  // Decoding one sequence and writing it as UTF-16 (widen)

  /**
   * The value widen accumulates for one legal sequence: every byte shifted
   * in six bits at a time, less offsetsFromUTF8 for that length.
   */
  function Decode(c: Bytes): int
    requires 1 <= |c| <= 4
  {
    var b0: int := c[0];
    if |c| == 1 then b0
    else
      var b1: int := c[1];
      if |c| == 2 then b0 * 0x40 + b1 - 0x3080
      else
        var b2: int := c[2];
        if |c| == 3 then (b0 * 0x40 + b1) * 0x40 + b2 - 0xE2080
        else ((b0 * 0x40 + b1) * 0x40 + b2) * 0x40 + (c[3] as int) - 0x3C82080
  }

  predicate IsHighSurrogate(u: int) { 0xD800 <= u <= 0xDBFF }
  predicate IsLowSurrogate(u: int) { 0xDC00 <= u <= 0xDFFF }
  predicate IsScalar(ch: int) { 0 <= ch <= 0x10FFFF && !(0xD800 <= ch <= 0xDFFF) }

  /** The UTF-16 units widen writes for one decoded value; '?' for a surrogate or a value past U+10FFFF. */
  function Units(ch: int): seq<uint16>
    requires 0 <= ch
  {
    if ch <= 0xFFFF then
      (if 0xD800 <= ch <= 0xDFFF then ['?' as int] else [ch])
    else if ch > 0x10FFFF then ['?' as int]
    else [(ch - 0x10000) / 0x400 + 0xD800, (ch - 0x10000) % 0x400 + 0xDC00]
  }

  /** A legal sequence decodes to a Unicode scalar value of the length RFC 3629 assigns it. */
  lemma DecodeLegal(c: Bytes)
    requires IsLegal(c) && |c| == TrailingBytes(c[0]) + 1
    ensures IsScalar(Decode(c))
    ensures |c| == 1 <==> Decode(c) < 0x80
    ensures |c| == 2 <==> 0x80 <= Decode(c) < 0x800
    ensures |c| == 3 <==> 0x800 <= Decode(c) < 0x10000
    ensures |c| == 4 <==> 0x10000 <= Decode(c)
  {
    LegalIffRfc3629(c);
  }

  /** What widen produces: the decoded units of every legal sequence, up to the first truncated or illegal one. */
  function Utf16Of(s: Bytes): seq<uint16>
    decreases |s|
  {
    if s == [] then []
    else
      var n := TrailingBytes(s[0]) + 1;
      if n > |s| || !IsLegal(s[..n]) then []
      else Units(Decode(s[..n])) + Utf16Of(s[n..])
  }

  /** One step of widen: the first sequence either stops the decoding or contributes its units. */
  lemma Utf16OfStep(s: Bytes)
    requires s != []
    ensures var n := TrailingBytes(s[0]) + 1;
      if n > |s| || !IsLegal(s[..n]) then Utf16Of(s) == []
      else IsScalar(Decode(s[..n])) && Utf16Of(s) == Units(Decode(s[..n])) + Utf16Of(s[n..])
  {
    var n := TrailingBytes(s[0]) + 1;
    if n <= |s| && IsLegal(s[..n]) {
      DecodeLegal(s[..n]);
    }
  }

  /** utf::widen */
  method Widen(src: Bytes) returns (out: seq<uint16>)
    ensures out == Utf16Of(src)
  {
    out := [];
    var i := 0;
    while i < |src|
      invariant 0 <= i <= |src|
      invariant out + Utf16Of(src[i..]) == Utf16Of(src)
      decreases |src| - i
    {
      ghost var rest := src[i..];
      Utf16OfStep(rest);
      var extra := TrailingBytes(src[i]);
      if extra >= |src| - i {
        break;
      }
      var c := src[i..i + extra + 1];
      assert rest[..extra + 1] == c;
      if !IsLegal(c) {
        break;
      }
      ghost var tail := src[i + extra + 1..];
      assert rest[extra + 1..] == tail;
      var ch := Decode(c);
      assert Utf16Of(rest) == Units(ch) + Utf16Of(tail);
      assert (out + Units(ch)) + Utf16Of(tail) == out + Utf16Of(rest);
      out := out + Units(ch);
      i := i + extra + 1;
    }
  }

  // ---------------------------------------------------------------------
  // Encoding UTF-16 back into UTF-8 (narrowed)

  /** The code point of a high/low surrogate pair. */
  function Combine(hi: int, lo: int): int
  {
    (hi - 0xD800) * 0x400 + (lo - 0xDC00) + 0x10000
  }

  /**
   * The bytes narrowed writes for one value: 1, 2, 3 or 4 bytes below
   * 0x80, 0x800, 0x10000 and 0x110000; otherwise '?' forced into three
   * bytes. `(ch | 0x80) & 0xBF` is written 0x80 + ch % 64, and the lead
   * byte's `ch | firstByteMark` an addition, since the shifted value is
   * below the mark's free bits.
   */
  function Encode(ch: int): Bytes
    requires 0 <= ch
  {
    if ch < 0x80 then [ch]
    else if ch < 0x800 then [0xC0 + ch / 0x40, 0x80 + ch % 0x40]
    else if ch < 0x10000 then [0xE0 + ch / 0x1000, 0x80 + ch / 0x40 % 0x40, 0x80 + ch % 0x40]
    else if ch < 0x110000 then
      [0xF0 + ch / 0x40000, 0x80 + ch / 0x1000 % 0x40, 0x80 + ch / 0x40 % 0x40, 0x80 + ch % 0x40]
    else [0xE0, 0x80, 0xBF]
  }

  /** What narrowed produces: pairs are joined; a final high surrogate is dropped; other units are written alone. */
  function Utf8Of(u: seq<uint16>): Bytes
    decreases |u|
  {
    if u == [] then []
    else if IsHighSurrogate(u[0]) then
      if |u| == 1 then []
      else if IsLowSurrogate(u[1]) then Encode(Combine(u[0], u[1])) + Utf8Of(u[2..])
      else Encode(u[0]) + Utf8Of(u[1..])
    else Encode(u[0]) + Utf8Of(u[1..])
  }

  /** utf::narrowed */
  method Narrowed(src: seq<uint16>) returns (out: Bytes)
    ensures out == Utf8Of(src)
  {
    out := [];
    var i := 0;
    while i < |src|
      invariant 0 <= i <= |src|
      invariant out + Utf8Of(src[i..]) == Utf8Of(src)
      decreases |src| - i
    {
      ghost var rest := src[i..];
      var ch: int := src[i];
      i := i + 1;
      if IsHighSurrogate(ch) {
        if i < |src| {
          var ch2 := src[i];
          if IsLowSurrogate(ch2) {
            ch := Combine(ch, ch2);
            i := i + 1;
            assert rest[2..] == src[i..];
          } else {
            assert rest[1..] == src[i..];
          }
        } else {
          i := i - 1;
          break;
        }
      } else {
        assert rest[1..] == src[i..];
      }
      out := out + Encode(ch);
    }
  }

  /** next_char: a null pointer stays null; otherwise step over the lead byte and the trailing bytes it announces. */
  function NextChar(src: Bytes, at: int): (next: int)
    requires at == -1 || 0 <= at < |src|
    ensures at == -1 ==> next == -1
    ensures at != -1 ==> next == at + 1 + TrailingBytes(src[at]) && at < next <= at + 6
  {
    if at == -1 then -1 else at + 1 + TrailingBytes(src[at])
  }

  // ---------------------------------------------------------------------
  // Properties

  /** widen never produces more UTF-16 units than there are input bytes. */
  lemma {:induction false} WidenLength(s: Bytes)
    ensures |Utf16Of(s)| <= |s|
    decreases |s|
  {
    if s != [] {
      var n := TrailingBytes(s[0]) + 1;
      if n <= |s| && IsLegal(s[..n]) {
        DecodeLegal(s[..n]);
        WidenLength(s[n..]);
      }
    }
  }

  /** Each RFC 3629 character widens to one unit (BMP) or a surrogate pair (U+10000..U+10FFFF). */
  lemma WidenOneChar(c: Bytes, rest: Bytes)
    requires Rfc3629Char(c)
    ensures var ch := Decode(c);
      IsScalar(ch) &&
      Utf16Of(c + rest) == Units(ch) + Utf16Of(rest) &&
      (ch <= 0xFFFF ==> Units(ch) == [ch]) &&
      (ch > 0xFFFF ==> |Units(ch)| == 2 && IsHighSurrogate(Units(ch)[0]) && IsLowSurrogate(Units(ch)[1])
                       && Combine(Units(ch)[0], Units(ch)[1]) == ch)
  {
    var s := c + rest;
    assert s[..|c|] == c && s[|c|..] == rest;
    LegalIffRfc3629(c);
    DecodeLegal(c);
  }

  /**
   * widen stops silently at the first truncated or illegal sequence and
   * returns what it decoded before it.
   */
  lemma {:induction false} WidenStopsAtIllFormed(p: Bytes, bad: Bytes)
    requires WellFormed(p)
    requires bad != []
    requires var n := TrailingBytes(bad[0]) + 1; n > |bad| || !IsLegal(bad[..n])
    ensures Utf16Of(p + bad) == Utf16Of(p)
    decreases |p|
  {
    if p == [] {
      assert p + bad == bad;
      Utf16OfStep(bad);
    } else {
      var n := CharLength(p[0]);
      var c, rest := p[..n], p[n..];
      var u := Units(Decode(c));
      assert p + bad == c + (rest + bad);
      assert p == c + rest;
      WidenOneChar(c, rest + bad);
      WidenOneChar(c, rest);
      assert Utf16Of(p + bad) == u + Utf16Of(rest + bad);
      assert Utf16Of(p) == u + Utf16Of(rest);
      WidenStopsAtIllFormed(rest, bad);
    }
  }

  /** narrowed of one value's units followed by anything writes that value's bytes first. */
  lemma NarrowUnits(ch: int, w: seq<uint16>)
    requires IsScalar(ch)
    ensures Utf8Of(Units(ch) + w) == Encode(ch) + Utf8Of(w)
  {
    var u := Units(ch) + w;
    if ch <= 0xFFFF {
      assert u[1..] == w;
    } else {
      assert u[2..] == w;
    }
  }

  /** Encoding a legal sequence's decoded value gives back the sequence. */
  lemma EncodeDecode(c: Bytes)
    requires Rfc3629Char(c)
    ensures Encode(Decode(c)) == c
  {
    if |c| == 2 {
      EncodeDecodeTwo(c);
    } else if |c| == 3 {
      EncodeDecodeThree(c);
    } else if |c| == 4 {
      EncodeDecodeFour(c);
    }
  }

  lemma EncodeDecodeTwo(c: Bytes)
    requires Rfc3629Char(c) && |c| == 2
    ensures Encode(Decode(c)) == c
  {
    var ch := Decode(c);
    var b0: int := c[0];
    var t1: int := c[1] - 0x80;
    assert ch == (b0 - 0xC0) * 0x40 + t1;
    DivMod(ch, b0 - 0xC0, t1, 0x40);
  }

  lemma EncodeDecodeThree(c: Bytes)
    requires Rfc3629Char(c) && |c| == 3
    ensures Encode(Decode(c)) == c
  {
    var ch := Decode(c);
    var b0: int := c[0];
    var t1: int, t2: int := c[1] - 0x80, c[2] - 0x80;
    assert ch == ((b0 - 0xE0) * 0x40 + t1) * 0x40 + t2;
    DivMod(ch, (b0 - 0xE0) * 0x40 + t1, t2, 0x40);
    DivMod(ch / 0x40, b0 - 0xE0, t1, 0x40);
    DivMod(ch, b0 - 0xE0, t1 * 0x40 + t2, 0x1000);
  }

  lemma EncodeDecodeFour(c: Bytes)
    requires Rfc3629Char(c) && |c| == 4
    ensures Encode(Decode(c)) == c
  {
    var ch := Decode(c);
    var b0: int := c[0];
    var t1: int, t2: int, t3: int := c[1] - 0x80, c[2] - 0x80, c[3] - 0x80;
    var hi := (b0 - 0xF0) * 0x40 + t1;
    assert ch == (hi * 0x40 + t2) * 0x40 + t3;
    DivMod(ch, hi * 0x40 + t2, t3, 0x40);
    DivMod(ch / 0x40, hi, t2, 0x40);
    DivMod(ch, hi, t2 * 0x40 + t3, 0x1000);
    DivMod(ch / 0x1000, b0 - 0xF0, t1, 0x40);
    DivMod(ch, b0 - 0xF0, (t1 * 0x40 + t2) * 0x40 + t3, 0x40000);
  }

  lemma DivMod(x: int, q: int, r: int, d: int)
    requires d == 0x40 || d == 0x1000 || d == 0x40000
    requires 0 <= r < d && x == q * d + r
    ensures x / d == q && x % d == r
  {
    if d == 0x40 {
      assert x == q * 0x40 + r;
    } else if d == 0x1000 {
      assert x == q * 0x1000 + r;
    } else {
      assert x == q * 0x40000 + r;
    }
  }

  /** For well-formed UTF-8, narrowed(widen(s)) == s. */
  lemma {:induction false} NarrowWidenRoundTrip(s: Bytes)
    requires WellFormed(s)
    ensures Utf8Of(Utf16Of(s)) == s
    decreases |s|
  {
    if s != [] {
      var n := CharLength(s[0]);
      var c := s[..n];
      assert s == c + s[n..];
      WidenOneChar(c, s[n..]);
      NarrowUnits(Decode(c), Utf16Of(s[n..]));
      EncodeDecode(c);
      NarrowWidenRoundTrip(s[n..]);
    }
  }

  /** narrowed writes 1, 2 or 3 bytes for a lone non-surrogate unit below 0x80, 0x800 and 0x10000. */
  lemma NarrowedByteCount(u: uint16)
    requires !IsHighSurrogate(u)
    ensures |Utf8Of([u])| == (if u < 0x80 then 1 else if u < 0x800 then 2 else 3)
  {
    assert [u][1..] == [];
  }

  /** A high surrogate at the end is dropped; one followed by a non-low unit is written as three bytes on its own. */
  lemma NarrowedLoneSurrogates(p: seq<uint16>, hi: uint16, x: uint16)
    requires IsHighSurrogate(hi) && !IsLowSurrogate(x)
    ensures Utf8Of([hi]) == []
    ensures Utf8Of([hi, x]) == Encode(hi) + Utf8Of([x]) && |Encode(hi)| == 3
  {
    assert [hi, x][1..] == [x];
  }

  /** A high surrogate followed by a low surrogate becomes one 4-byte sequence. */
  lemma NarrowedPair(hi: uint16, lo: uint16)
    requires IsHighSurrogate(hi) && IsLowSurrogate(lo)
    ensures |Utf8Of([hi, lo])| == 4 && Utf8Of([hi, lo])[0] >= 0xF0
  {
    assert [hi, lo][2..] == [];
  }
}

/**
 * What the JSON reader makes of what the JSON printer writes: strings
 * (json_string against the string loop of the tokenizer) and integers
 * (std::to_string against std::stoll).
 */
module JsonRoundTrip {
  import opened ByteString
  import opened JsonValue
  import opened JsonPrint
  import opened JsonParse
  import Utf8

  // ---------------------------------------------------------------------
  // \uXXXX

  lemma HexDigitValue(d: int)
    requires 0 <= d < 16
    ensures IsXDigit(HexDigit(d)) && HexValue(HexDigit(d)) == d
  {
  }

  /** A 16-bit unit is its four hexadecimal digits. */
  lemma FourDigits(u: uint16)
    ensures u == (u / 0x1000) * 0x1000 + (u / 0x100 % 16) * 0x100 + (u / 0x10 % 16) * 0x10 + u % 16
  {
    var q1 := u / 16;
    var q2 := q1 / 16;
    var q3 := q2 / 16;
    assert u == q1 * 16 + u % 16;
    assert q1 == q2 * 16 + q1 % 16;
    assert q2 == q3 * 16 + q2 % 16;
    assert u == q3 * 0x1000 + (q2 % 16) * 0x100 + (q1 % 16) * 0x10 + u % 16;
    assert u / 0x100 == q2;
    assert u / 0x1000 == q3;
  }

  /** One digit of a \\u escape. */
  lemma HexStep(data: Bytes, k: nat, n: nat, acc: uint16, d: int, acc2: uint16)
    requires k < |data| && 0 < n && 0 <= d < 16 && data[k] == HexDigit(d)
    requires acc2 == acc * 16 + d
    ensures HexScan(data, k, n, acc) == HexScan(data, k + 1, n - 1, acc2)
  {
    HexDigitValue(d);
  }

  /** The four digits json_string writes for a unit read back as that unit. */
  lemma HexScanHex4(data: Bytes, k: nat, u: uint16)
    requires k + 4 <= |data| && data[k..k + 4] == Hex4(u)
    ensures HexScan(data, k, 4, 0) == HexOk(u, k + 4)
  {
    var d0, d1, d2, d3 := u / 0x1000, u / 0x100 % 16, u / 0x10 % 16, u % 16;
    assert data[k] == HexDigit(d0) && data[k + 1] == HexDigit(d1);
    assert data[k + 2] == HexDigit(d2) && data[k + 3] == HexDigit(d3);
    FourDigits(u);
    var a2 := d0 * 16 + d1;
    var a3 := a2 * 16 + d2;
    HexStep(data, k, 4, 0, d0, d0);
    HexStep(data, k + 1, 3, d0, d1, a2);
    HexStep(data, k + 2, 2, a2, d2, a3);
    HexStep(data, k + 3, 1, a3, d3, u);
  }

  // ---------------------------------------------------------------------
  // Strings

  /** What the string loop appends when it reads the escaped form of one unit. */
  function UnitText(u: uint16, mode: EscapeMode): Bytes
  {
    if u < 0x80 then [u] else Decoded(u, mode)
  }

  /** What the string loop appends for the escaped forms of a run of units. */
  function UnitsText(w: seq<uint16>, mode: EscapeMode): Bytes
  {
    if w == [] then [] else UnitsText(w[..|w| - 1], mode) + UnitText(w[|w| - 1], mode)
  }

  /** The string loop reads the text json_string writes for one unit and moves past it. */
  lemma StrScanUnit(data: Bytes, j: nat, value: Bytes, start: Pos, mode: EscapeMode, u: uint16, next: nat, after: Bytes)
    requires next == j + |EscapeUnit(u)| <= |data| && data[j..next] == EscapeUnit(u)
    requires after == value + UnitText(u, mode)
    ensures StrScan(data, j, value, start, mode) == StrScan(data, next, after, start, mode)
  {
    var e := EscapeUnit(u);
    assert data[j] == e[0];
    if u >= 0x80 {
      assert e == [BACKSLASH, 'u' as int] + Hex4(u);
      assert data[j + 1] == 'u' as int;
      assert data[j + 2..j + 6] == data[j..next][2..] == e[2..] == Hex4(u);
      HexScanHex4(data, j + 2, u);
    } else if |e| == 2 {
      assert data[j + 1] == e[1];
    }
  }

  lemma SplitSlice(data: Bytes, j: nat, a: Bytes, b: Bytes, e: Bytes)
    requires e == a + b && j + |e| <= |data| && data[j..j + |e|] == e
    ensures data[j..j + |a|] == a && j + |e| == j + |a| + |b| && data[j + |a|..j + |e|] == b
  {
    assert data[j..j + |a|] == data[j..j + |e|][..|a|];
    assert data[j + |a|..j + |e|] == data[j..j + |e|][|a|..];
  }

  /**
   * The string loop reads the escaped form `e` of a run of units, ending
   * at n, and appends what it makes of each unit.
   */
  lemma {:induction false} StrScanUnits(data: Bytes, j: nat, value: Bytes, start: Pos, mode: EscapeMode,
                                        w: seq<uint16>, e: Bytes, n: nat)
    requires e == EscapeUnits(w) && n == j + |e| <= |data| && data[j..n] == e
    ensures StrScan(data, j, value, start, mode) == StrScan(data, n, value + UnitsText(w, mode), start, mode)
    decreases |w|
  {
    if w == [] {
      assert n == j && value + UnitsText(w, mode) == value;
    } else {
      var init, u := w[..|w| - 1], w[|w| - 1];
      var a, b := EscapeUnits(init), EscapeUnit(u);
      SplitSlice(data, j, a, b, e);
      StrScanUnits(data, j, value, start, mode, init, a, j + |a|);
      StrScanLast(data, j + |a|, value, start, mode, w, n);
    }
  }

  /** The last unit of a run, read after the ones before it. */
  lemma StrScanLast(data: Bytes, k: nat, value: Bytes, start: Pos, mode: EscapeMode, w: seq<uint16>, n: nat)
    requires w != [] && n == k + |EscapeUnit(w[|w| - 1])| <= |data| && data[k..n] == EscapeUnit(w[|w| - 1])
    ensures StrScan(data, k, value + UnitsText(w[..|w| - 1], mode), start, mode)
         == StrScan(data, n, value + UnitsText(w, mode), start, mode)
  {
    var mid := value + UnitsText(w[..|w| - 1], mode);
    assert value + UnitsText(w, mode) == mid + UnitText(w[|w| - 1], mode);
    StrScanUnit(data, k, mid, start, mode, w[|w| - 1], n, value + UnitsText(w, mode));
  }

  /** No UTF-16 surrogate among the units. */
  predicate NoSurrogates(w: seq<uint16>)
  {
    forall i :: 0 <= i < |w| ==> !(0xD800 <= w[i] <= 0xDFFF)
  }

  /** Well-formed UTF-8 without four-byte sequences: every character lies below U+10000. */
  predicate BmpText(s: Bytes)
  {
    Utf8.WellFormed(s) && forall i :: 0 <= i < |s| ==> s[i] < 0xF0
  }

  /** Text below U+10000 widens to units without surrogates. */
  lemma {:induction false} WidenBmp(s: Bytes)
    requires BmpText(s)
    ensures NoSurrogates(Utf8.Utf16Of(s))
    decreases |s|
  {
    if s != [] {
      var n := Utf8.CharLength(s[0]);
      var c, rest := s[..n], s[n..];
      assert s == c + rest;
      Utf8.WidenOneChar(c, rest);
      Utf8.LegalIffRfc3629(c);
      Utf8.DecodeLegal(c);
      assert BmpText(rest);
      WidenBmp(rest);
    }
  }

  /** narrowed of units without surrogates, one unit longer. */
  lemma {:induction false} NarrowSnoc(w: seq<uint16>, u: uint16)
    requires NoSurrogates(w + [u])
    ensures Utf8.Utf8Of(w + [u]) == Utf8.Utf8Of(w) + Utf8.Encode(u)
    decreases |w|
  {
    if w == [] {
      assert Utf8.Utf8Of([u]) == Utf8.Encode(u) + Utf8.Utf8Of([]);
    } else {
      assert (w + [u])[1..] == w[1..] + [u];
      assert (w + [u])[0] == w[0];
      NarrowSnoc(w[1..], u);
    }
  }

  /** In the intended mode, the string loop gives back narrowed of the units. */
  lemma {:induction false} UnitsTextIntended(w: seq<uint16>)
    requires NoSurrogates(w)
    ensures UnitsText(w, Intended) == Utf8.Utf8Of(w)
    decreases |w|
  {
    if w != [] {
      var init, u := w[..|w| - 1], w[|w| - 1];
      assert w == init + [u];
      UnitsTextIntended(init);
      NarrowSnoc(init, u);
      assert Utf8.Utf8Of([u]) == Utf8.Encode(u) + Utf8.Utf8Of([]);
    }
  }

  /** json_string's output is one string token holding what the string loop makes of the escaped units. */
  lemma QuotedTokens(s: Bytes, mode: EscapeMode)
    ensures Tokenize(Quoted(s), mode)
         == ([Token(JSON_STRING, UnitsText(Utf8.Utf16Of(s), mode), Pos(1, 1))], false)
  {
    var w := Utf8.Utf16Of(s);
    var e := EscapeUnits(w);
    var data := Quoted(s);
    assert data == [QUOTE] + e + [QUOTE];
    assert data[1..1 + |e|] == e;
    StrScanUnits(data, 1, [], Pos(1, 1), mode, w, e, 1 + |e|);
    assert [] + UnitsText(w, mode) == UnitsText(w, mode);
    var t := Token(JSON_STRING, UnitsText(w, mode), Pos(1, 1));
    assert data[1 + |e|] == QUOTE;
    assert StrScan(data, 1 + |e|, UnitsText(w, mode), Pos(1, 1), mode) == Scan(t, |data|);
    assert SkipSpace(data, 0) == 0 && Accepted(data[0]);
    assert ScanToken(data, 0, mode) == Scan(t, |data|);
    assert Tokens(data, |data|, [t], mode) == ([t], false);
    assert [] + [t] == [t];
  }

  /** from_string of json_string's output is the string the loop reads back. */
  lemma ReadQuoted(s: Bytes, mode: EscapeMode)
    ensures FromText(Quoted(s), mode) == Ok(String(UnitsText(Utf8.Utf16Of(s), mode)))
  {
    QuotedTokens(s, mode);
  }

  /**
   * Printing a string and reading it back gives the string, for
   * well-formed text below U+10000, when a \\u escape decodes to exactly
   * its own character.
   */
  lemma StringRoundTrip(s: Bytes)
    requires BmpText(s)
    ensures FromText(Quoted(s), Intended) == Ok(String(s))
  {
    ReadQuoted(s, Intended);
    WidenBmp(s);
    UnitsTextIntended(Utf8.Utf16Of(s));
    Utf8.NarrowWidenRoundTrip(s);
  }

  lemma WidenTwoByteChar()
    ensures Utf8.Utf16Of([0xC3, 0xA9]) == [0xE9]
  {
    var s: Bytes := [0xC3, 0xA9];
    Utf8.WidenOneChar(s, []);
    assert s + [] == s;
    assert Utf8.Decode(s) == 0xE9;
  }

  lemma ReadTwoByteEscape()
    ensures UnitsText([0xE9], AsWritten) == [0xC3, 0xA9, 0x00]
  {
    assert Utf8.Utf8Of([0xE9, 0]) == Utf8.Encode(0xE9) + Utf8.Utf8Of([0]);
    assert Utf8.Utf8Of([0]) == [0] + Utf8.Utf8Of([]);
    assert [0xE9][..0] == [];
    assert UnitsText([0xE9], AsWritten) == [] + UnitText(0xE9, AsWritten);
  }

  /**
   * As written, json_string's reader narrows `{ unicode, 0 }`, so every
   * \\u escape also appends a NUL byte: "é" (C3 A9), printed as "\\u00e9",
   * reads back as C3 A9 00.
   */
  lemma EscapeAppendsNul()
    ensures FromText(Quoted([0xC3, 0xA9]), AsWritten) == Ok(String([0xC3, 0xA9, 0x00]))
  {
    WidenTwoByteChar();
    ReadTwoByteEscape();
    ReadQuoted([0xC3, 0xA9], AsWritten);
  }

  lemma WidenFourByteChar()
    ensures Utf8.Utf16Of([0xF0, 0x9F, 0x98, 0x80]) == [0xD83D, 0xDE00]
  {
    var s: Bytes := [0xF0, 0x9F, 0x98, 0x80];
    Utf8.WidenOneChar(s, []);
    assert s + [] == s;
    assert Utf8.Decode(s) == 0x1F600;
  }

  lemma ReadSurrogateEscapes()
    ensures UnitsText([0xD83D, 0xDE00], Intended) == [0xED, 0xB8, 0x80]
  {
    assert Utf8.Utf8Of([0xD83D]) == [];
    assert Utf8.Utf8Of([0xDE00]) == Utf8.Encode(0xDE00) + Utf8.Utf8Of([]);
    assert [0xD83D, 0xDE00][..1] == [0xD83D];
    assert [0xD83D][..0] == [];
    assert UnitsText([0xD83D], Intended) == [] + UnitText(0xD83D, Intended);
  }

  /**
   * Characters from U+10000 on do not survive: json_string writes a
   * surrogate pair as two \\u escapes and the reader narrows each on its own,
   * dropping the high half and encoding the low half alone. U+1F600
   * (F0 9F 98 80) reads back as ED B8 80.
   */
  lemma SurrogatePairLost()
    ensures FromText(Quoted([0xF0, 0x9F, 0x98, 0x80]), Intended) == Ok(String([0xED, 0xB8, 0x80]))
  {
    WidenFourByteChar();
    ReadSurrogateEscapes();
    ReadQuoted([0xF0, 0x9F, 0x98, 0x80], Intended);
  }

  // ---------------------------------------------------------------------
  // Integers

  /** The digits std::to_string writes read back, through stoll's loop, as the number. */
  lemma {:induction false} DigitsValueDecimal(m: nat)
    ensures (JsonPrint.DigitsAreDigits(m); DigitsValue(DecimalDigits(m)) == m)
    decreases m
  {
    JsonPrint.DigitsAreDigits(m);
    if m >= 10 {
      var d := DecimalDigits(m);
      assert d[..|d| - 1] == DecimalDigits(m / 10);
      DigitsValueDecimal(m / 10);
    }
  }

  /** A run of digits reaching the end of the text is read to the end. */
  lemma {:induction false} DigitsEndAll(data: Bytes, k: nat)
    requires k <= |data|
    requires forall i :: k <= i < |data| ==> IsDigit(data[i])
    ensures DigitsEnd(data, k) == |data|
    decreases |data| - k
  {
    if k < |data| {
      DigitsEndAll(data, k + 1);
    }
  }

  /** The digits of |n| start after the sign of Decimal(n) and run to its end. */
  lemma DecimalShape(n: int64, j: nat)
    requires j == if n < 0 then 1 else 0
    ensures j < |Decimal(n)| && Decimal(n)[j..] == DecimalDigits(if n < 0 then -(n as int) else n as int)
    ensures forall i :: j <= i < |Decimal(n)| ==> IsDigit(Decimal(n)[i])
    ensures Accepted(Decimal(n)[0]) && !IsSpace(Decimal(n)[0])
    ensures Decimal(n)[0] == '-' as int <==> n < 0
  {
    var m: nat := if n < 0 then -(n as int) else n as int;
    JsonPrint.DigitsAreDigits(m);
    assert Decimal(n)[j..] == DecimalDigits(m);
    assert IsDigit(DecimalDigits(m)[0]);
  }

  /** std::stoll reads back what std::to_string wrote for every int64. */
  lemma StollDecimal(n: int64)
    ensures Stoll(Decimal(n)) == Ok(n)
  {
    var t := Decimal(n);
    var m: nat := if n < 0 then -(n as int) else n as int;
    var j := if n < 0 then 1 else 0;
    DecimalShape(n, j);
    assert SkipSpace(t, 0) == 0;
    DigitsEndAll(t, j);
    JsonPrint.DigitsAreDigits(m);
    DigitsValueDecimal(m);
    assert t[j..DigitsEnd(t, j)] == DecimalDigits(m);
  }

  /** Decimal(n) is one number token spanning the whole text. */
  lemma IntegerTokens(n: int64, mode: EscapeMode)
    ensures Tokenize(Decimal(n), mode) == ([Token(JSON_NUMBER, Decimal(n), Pos(1, 1))], false)
  {
    var data := Decimal(n);
    var j := if n < 0 then 1 else 0;
    DecimalShape(n, j);
    DigitsEndAll(data, j);
    assert SkipSpace(data, 0) == 0;
    assert data[0..|data|] == data;
    var t := Token(JSON_NUMBER, data, Pos(1, 1));
    assert PosAt(data, 0) == Pos(1, 1);
    assert ScanToken(data, 0, mode) == Scan(t, |data|);
    assert Tokens(data, |data|, [t], mode) == ([t], false);
    assert [] + [t] == [t];
  }

  /** An integer printed on its own parses back as that integer, in either mode. */
  lemma IntegerRoundTrip(n: int64, mode: EscapeMode)
    ensures FromText(Decimal(n), mode) == Ok(Integer(n))
  {
    IntegerTokens(n, mode);
    StollDecimal(n);
  }
}

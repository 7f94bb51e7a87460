/**
 * The JSON printer: string escaping (json_string), indentation
 * (make_indent) and value::to_string over every variant. The text of a
 * double (std::to_string(double)) is not modelled: it is a parameter
 * `ftoa` of the printer.
 */
module JsonPrint {
  import opened ByteString
  import opened JsonValue
  import Utf8

  const BACKSPACE := 0x08
  const FORMFEED := 0x0C

  const NULL_TEXT := Str("null")
  const TRUE_TEXT := Str("true")
  const FALSE_TEXT := Str("false")

  // ---------------------------------------------------------------------
  // Strings

  function HexDigit(d: int): uint8
    requires 0 <= d < 16
  {
    if d < 10 then '0' as int + d else 'a' as int + d - 10
  }

  /** `std::hex << std::setw(4) << std::setfill('0')` of one UTF-16 unit: four lowercase digits. */
  function Hex4(u: uint16): Bytes
  {
    [HexDigit(u / 0x1000), HexDigit(u / 0x100 % 16), HexDigit(u / 0x10 % 16), HexDigit(u % 16)]
  }

  /** What json_string writes for one UTF-16 unit. */
  function EscapeUnit(c: uint16): Bytes
  {
    var bs := '\\' as int;
    if c == '"' as int then [bs, '"' as int]
    else if c == bs then [bs, bs]
    else if c == BACKSPACE then [bs, 'b' as int]
    else if c == FORMFEED then [bs, 'f' as int]
    else if c == LF then [bs, 'n' as int]
    else if c == '\r' as int then [bs, 'r' as int]
    else if c == '\t' as int then [bs, 't' as int]
    else if c >= 0x80 then [bs, 'u' as int] + Hex4(c)
    else [c]
  }

  /** The texts of f over the units, concatenated in order. */
  function FlatMap(f: uint16 -> Bytes, w: seq<uint16>): Bytes
  {
    if w == [] then [] else FlatMap(f, w[..|w| - 1]) + f(w[|w| - 1])
  }

  function EscapeUnits(w: seq<uint16>): Bytes
  {
    FlatMap(EscapeUnit, w)
  }

  /** The text json_string writes: the string widened to UTF-16, each unit escaped, in quotes. */
  function Quoted(s: Bytes): Bytes
  {
    [QUOTE] + EscapeUnits(Utf8.Utf16Of(s)) + [QUOTE]
  }

  /** json_string: the string widened to UTF-16, then each unit escaped, in quotes. */
  method JsonString(s: Bytes) returns (out: Bytes)
    ensures out == Quoted(s)
  {
    var w := Utf8.Widen(s);
    var body := EscapeAll(w);
    out := [QUOTE] + body + [QUOTE];
  }

  /** json_string's loop over the UTF-16 units. */
  method EscapeAll(w: seq<uint16>) returns (out: Bytes)
    ensures out == EscapeUnits(w)
  {
    out := [];
    var i := 0;
    while i < |w|
      invariant 0 <= i <= |w|
      invariant out == EscapeUnits(w[..i])
    {
      assert w[..i + 1][..i] == w[..i];
      out := out + EscapeUnit(w[i]);
      i := i + 1;
    }
    assert w[..|w|] == w;
  }

  /**
   * The escapes: quote, backslash and \b \f \n \r \t get two-character
   * escapes, units from 0x80 up become \u and four lowercase hex digits,
   * and every other unit (other control characters and '/' included) is
   * written as the byte itself.
   */
  lemma EscapeUnitCases(c: uint16)
    ensures c < 0x80 && c !in {'"' as int, '\\' as int, BACKSPACE, FORMFEED, LF, '\r' as int, '\t' as int}
            ==> EscapeUnit(c) == [c]
    ensures c >= 0x80 ==>
      |EscapeUnit(c)| == 6 && EscapeUnit(c)[..2] == Str("\\u") &&
      forall i :: 2 <= i < 6 ==> IsDigit(EscapeUnit(c)[i]) || 'a' as int <= EscapeUnit(c)[i] <= 'f' as int
  {
  }

  lemma {:induction false} FlatMapAppend(f: uint16 -> Bytes, a: seq<uint16>, b: seq<uint16>)
    ensures FlatMap(f, a + b) == FlatMap(f, a) + FlatMap(f, b)
    decreases |b|
  {
    if b == [] {
      assert a + b == a;
    } else {
      var init, last := b[..|b| - 1], b[|b| - 1];
      var ab := a + b;
      assert ab[..|ab| - 1] == a + init && ab[|ab| - 1] == last;
      FlatMapAppend(f, a, init);
    }
  }

  /** Printing stops at the first ill-formed UTF-8 sequence, because the string is widened first. */
  lemma QuotedStopsAtIllFormed(p: Bytes, bad: Bytes)
    requires Utf8.WellFormed(p) && bad != []
    requires var n := Utf8.TrailingBytes(bad[0]) + 1; n > |bad| || !Utf8.IsLegal(bad[..n])
    ensures Quoted(p + bad) == Quoted(p)
  {
    Utf8.WidenStopsAtIllFormed(p, bad);
  }

  lemma EscapeUnitNoNewline(c: uint16)
    ensures LF !in EscapeUnit(c)
  {
  }

  /** No escaped text contains a raw line feed. */
  lemma {:induction false} EscapeUnitsNoNewline(w: seq<uint16>)
    ensures LF !in FlatMap(EscapeUnit, w)
    decreases |w|
  {
    if w != [] {
      EscapeUnitsNoNewline(w[..|w| - 1]);
      EscapeUnitNoNewline(w[|w| - 1]);
    }
  }

  // ---------------------------------------------------------------------
  // Indentation

  /** `s` repeated n times; none for n <= 0. */
  function Repeat(s: Bytes, n: int): Bytes
    decreases n
  {
    if n <= 0 then [] else Repeat(s, n - 1) + s
  }

  /** make_indent: "" when indenting is off, else "\n" and indentStr repeated indent * offset times. */
  function Indentation(opts: Options, offset: int): Bytes
  {
    if !opts.doIndent then [] else [LF] + Repeat(opts.indentStr, opts.indent * offset)
  }

  /** make_indent */
  method MakeIndent(opts: Options, offset: int) returns (indent: Bytes)
    ensures indent == Indentation(opts, offset)
  {
    if !opts.doIndent {
      return [];
    }
    var spaces := opts.indent * offset;
    indent := [LF];
    var i := 0;
    while i < spaces
      invariant 0 <= i && (spaces >= 0 ==> i <= spaces) && (spaces < 0 ==> i == 0)
      invariant indent == [LF] + Repeat(opts.indentStr, i)
    {
      indent := indent + opts.indentStr;
      i := i + 1;
    }
  }

  lemma {:induction false} RepeatLength(s: Bytes, n: nat)
    ensures |Repeat(s, n)| == |s| * n
  {
    if n > 0 {
      RepeatLength(s, n - 1);
    }
  }

  /** Indentation layout: none without indenting; otherwise a newline and `indent * offset` copies of indentStr. */
  lemma IndentationShape(opts: Options, offset: int)
    ensures !opts.doIndent ==> Indentation(opts, offset) == []
    ensures opts.doIndent && opts.indent * offset >= 0 ==>
      |Indentation(opts, offset)| == 1 + |opts.indentStr| * (opts.indent * offset)
      && Indentation(opts, offset)[0] == LF
    ensures Indentation(Dense(), offset) == []
  {
    if opts.doIndent && opts.indent * offset >= 0 {
      RepeatLength(opts.indentStr, opts.indent * offset);
    }
  }

  // ---------------------------------------------------------------------
  // Values

  function DecimalDigits(n: nat): Bytes
  {
    if n < 10 then ['0' as int + n] else DecimalDigits(n / 10) + ['0' as int + n % 10]
  }

  /** std::to_string of an int64. */
  function Decimal(n: int): Bytes
  {
    if n < 0 then ['-' as int] + DecimalDigits(-n) else DecimalDigits(n)
  }

  function Width(v: Value): nat
  {
    match v
    case Array(items) => |items|
    case Object(fs) => |fs|
    case _ => 0
  }

  /** value::to_string(o, opts, offset): what a value prints at a given depth. */
  function Render(v: Value, opts: Options, offset: int, ftoa: Double -> Bytes): Bytes
    decreases v, Width(v) + 1
  {
    match v
    case Null => NULL_TEXT
    case Bool(b) => if b then TRUE_TEXT else FALSE_TEXT
    case Integer(n) => Decimal(n)
    case Float(d) => ftoa(d)
    case String(s) => Quoted(s)
    case Array(items) => ['[' as int] + Members(v, 0, opts, offset + 1, ftoa) + Indentation(opts, offset) + [']' as int]
    case Object(fs) => ['{' as int] + Members(v, 0, opts, offset + 1, ftoa) + Indentation(opts, offset) + ['}' as int]
  }

  /** What precedes member i: listsep after the first member, then the deeper indentation when indenting. */
  function Lead(opts: Options, i: nat, depth: int): Bytes
  {
    (if i == 0 then [] else opts.listsep) + (if opts.doIndent then Indentation(opts, depth) else [])
  }

  /** Member i of an array or object: the value, or the escaped key, namesep and the value. */
  function Item(v: Value, i: nat, opts: Options, depth: int, ftoa: Double -> Bytes): Bytes
    requires v.Array? || v.Object?
    requires i < Width(v)
    decreases v, 0
  {
    if v.Array? then Render(v.items[i], opts, depth, ftoa)
    else Quoted(v.fields[i].key) + opts.namesep + Render(v.fields[i].val, opts, depth, ftoa)
  }

  /** The members of an array or object from index i on, each after its Lead. */
  function Members(v: Value, i: nat, opts: Options, depth: int, ftoa: Double -> Bytes): Bytes
    requires v.Array? || v.Object?
    requires i <= Width(v)
    decreases v, Width(v) - i
  {
    if i == Width(v) then []
    else Lead(opts, i, depth) + Item(v, i, opts, depth, ftoa) + Members(v, i + 1, opts, depth, ftoa)
  }

  /** value::to_string, with the array and map backends' loops. */
  method ToString(v: Value, opts: Options, offset: int, ftoa: Double -> Bytes) returns (out: Bytes)
    ensures out == Render(v, opts, offset, ftoa)
    decreases v, 3
  {
    match v
    case Null => out := NULL_TEXT;
    case Bool(b) => out := if b then TRUE_TEXT else FALSE_TEXT;
    case Integer(n) => out := Decimal(n);
    case Float(d) => out := ftoa(d);
    case String(s) => out := JsonString(s);
    case Array(_) =>
      out := WriteMembers(v, opts, offset, ftoa);
    case Object(_) =>
      out := WriteMembers(v, opts, offset, ftoa);
  }

  /** vector::backend::to_string and map::backend::to_string: brackets around the members loop. */
  method WriteMembers(v: Value, opts: Options, offset: int, ftoa: Double -> Bytes) returns (out: Bytes)
    requires v.Array? || v.Object?
    ensures out == Render(v, opts, offset, ftoa)
    decreases v, 2
  {
    var body := WriteMembersLoop(v, opts, offset + 1, ftoa);
    var close := MakeIndent(opts, offset);
    out := (if v.Array? then ['[' as int] else ['{' as int]) + body + close + (if v.Array? then [']' as int] else ['}' as int]);
  }

  /** The backends' loop over their members. */
  method WriteMembersLoop(v: Value, opts: Options, depth: int, ftoa: Double -> Bytes) returns (out: Bytes)
    requires v.Array? || v.Object?
    ensures out == Members(v, 0, opts, depth, ftoa)
    decreases v, 1
  {
    var indent := MakeIndent(opts, depth);
    out := [];
    var first := true;
    var i := 0;
    while i < Width(v)
      invariant 0 <= i <= Width(v)
      invariant first <==> i == 0
      invariant out + Members(v, i, opts, depth, ftoa) == Members(v, 0, opts, depth, ftoa)
    {
      var lead: Bytes := [];
      if first {
        first := false;
      } else {
        lead := opts.listsep;
      }
      if opts.doIndent {
        lead := lead + indent;
      }
      assert lead == Lead(opts, i, depth);
      var item := WriteItem(v, i, opts, depth, ftoa);
      ghost var rest := Members(v, i + 1, opts, depth, ftoa);
      MembersStep(v, i, opts, depth, ftoa);
      AppendAssoc(out, lead + item, rest);
      out := out + (lead + item);
      i := i + 1;
    }
  }

  /** One member, as the backends' loops write it. */
  method WriteItem(v: Value, i: nat, opts: Options, depth: int, ftoa: Double -> Bytes) returns (item: Bytes)
    requires v.Array? || v.Object?
    requires i < Width(v)
    ensures item == Item(v, i, opts, depth, ftoa)
    decreases v, 0
  {
    if v.Array? {
      item := ToString(v.items[i], opts, depth, ftoa);
    } else {
      var key := JsonString(v.fields[i].key);
      var val := ToString(v.fields[i].val, opts, depth, ftoa);
      item := key + opts.namesep + val;
    }
  }

  lemma MembersStep(v: Value, i: nat, opts: Options, depth: int, ftoa: Double -> Bytes)
    requires v.Array? || v.Object?
    requires i < Width(v)
    ensures Members(v, i, opts, depth, ftoa)
         == (Lead(opts, i, depth) + Item(v, i, opts, depth, ftoa)) + Members(v, i + 1, opts, depth, ftoa)
  {
  }

  lemma AppendAssoc(a: Bytes, b: Bytes, c: Bytes)
    ensures (a + b) + c == a + (b + c)
  {
  }

  // ---------------------------------------------------------------------
  // Properties

  /** [1,2] printed with indented(2) is "[\n  1,\n  2\n]". */
  lemma IndentedArrayLayout(ftoa: Double -> Bytes)
    ensures Render(Array([Integer(1), Integer(2)]), Indented(2), 0, ftoa)
         == ['[' as int, LF, ' ' as int, ' ' as int, '1' as int, ',' as int, LF, ' ' as int, ' ' as int, '2' as int, LF, ']' as int]
  {
    IndentedArrayMembers(Array([Integer(1), Integer(2)]), ftoa);
    assert Indentation(Indented(2), 0) == [LF];
  }

  lemma IndentedArrayMembers(v: Value, ftoa: Double -> Bytes)
    requires v == Array([Integer(1), Integer(2)])
    ensures Members(v, 0, Indented(2), 1, ftoa)
         == [LF, ' ' as int, ' ' as int, '1' as int, ',' as int, LF, ' ' as int, ' ' as int, '2' as int]
  {
    var o := Indented(2);
    var sp := ' ' as int;
    assert Indentation(o, 1) == [LF, sp, sp] by {
      assert Repeat(o.indentStr, 1) == [sp];
    }
    assert Decimal(1) == ['1' as int] && Decimal(2) == ['2' as int];
    assert Members(v, 2, o, 1, ftoa) == [];
    assert Members(v, 1, o, 1, ftoa) == [',' as int, LF, sp, sp, '2' as int];
  }

  /** An empty array printed with indenting still breaks the line before the bracket: "[\n]". */
  lemma IndentedEmptyArrayLayout(ftoa: Double -> Bytes)
    ensures Render(Array([]), Indented(2), 0, ftoa) == Str("[\n]")
  {
    assert Indentation(Indented(2), 0) == [LF];
  }

  /** [1,2] printed with dense() is "[1,2]". */
  lemma DenseArrayLayout(ftoa: Double -> Bytes)
    ensures Render(Array([Integer(1), Integer(2)]), Dense(), 0, ftoa) == Str("[1,2]")
  {
    var v := Array([Integer(1), Integer(2)]);
    assert Dense().listsep == [',' as int];
    assert Decimal(1) == ['1' as int] && Decimal(2) == ['2' as int];
    assert Members(v, 1, Dense(), 1, ftoa) == [',' as int, '2' as int];
    assert Members(v, 0, Dense(), 1, ftoa) == ['1' as int, ',' as int, '2' as int];
  }

  /** A one-letter ASCII string prints as the letter in quotes. */
  lemma QuotedLetter(c: uint8)
    requires IsAlpha(c)
    ensures Quoted([c]) == [QUOTE, c, QUOTE]
  {
    Utf8.WidenOneChar([c], []);
    assert [c] + [] == [c];
    assert Utf8.Utf16Of([c]) == [c];
    assert [c][..0] == [];
    assert FlatMap(EscapeUnit, [c]) == FlatMap(EscapeUnit, []) + EscapeUnit(c);
    assert EscapeUnit(c) == [c];
  }

  /** {"a": true, "b": null} printed with dense() is {"a":true,"b":null}. */
  lemma DenseObjectLayout(ftoa: Double -> Bytes)
    ensures var a, b, colon, comma := 'a' as int, 'b' as int, ':' as int, ',' as int;
      Render(Object([Field([a], Bool(true)), Field([b], Null)]), Dense(), 0, ftoa)
      == ['{' as int, QUOTE, a, QUOTE, colon] + TRUE_TEXT + [comma, QUOTE, b, QUOTE, colon] + NULL_TEXT + ['}' as int]
  {
    var a, b := 'a' as int, 'b' as int;
    var v := Object([Field([a], Bool(true)), Field([b], Null)]);
    DenseObjectMembers(v, ftoa);
    assert Indentation(Dense(), 0) == [];
  }

  lemma DenseObjectMembers(v: Value, ftoa: Double -> Bytes)
    requires v == Object([Field(['a' as int], Bool(true)), Field(['b' as int], Null)])
    ensures Members(v, 0, Dense(), 1, ftoa)
         == [QUOTE, 'a' as int, QUOTE, ':' as int] + TRUE_TEXT + [',' as int, QUOTE, 'b' as int, QUOTE, ':' as int] + NULL_TEXT
  {
    DenseObjectItems(v, ftoa);
    assert Lead(Dense(), 1, 1) == [',' as int];
    assert Lead(Dense(), 0, 1) == [];
    assert Members(v, 2, Dense(), 1, ftoa) == [];
  }

  lemma DenseObjectItems(v: Value, ftoa: Double -> Bytes)
    requires v == Object([Field(['a' as int], Bool(true)), Field(['b' as int], Null)])
    ensures Item(v, 0, Dense(), 1, ftoa) == [QUOTE, 'a' as int, QUOTE, ':' as int] + TRUE_TEXT
    ensures Item(v, 1, Dense(), 1, ftoa) == [QUOTE, 'b' as int, QUOTE, ':' as int] + NULL_TEXT
  {
    QuotedLetter('a' as int);
    QuotedLetter('b' as int);
    assert Dense().namesep == [':' as int];
  }

  /** With dense(), the output is one line, as long as the double texts are. */
  lemma {:induction false} DenseIsOneLine(v: Value, offset: int, ftoa: Double -> Bytes)
    requires forall d :: LF !in ftoa(d)
    ensures LF !in Render(v, Dense(), offset, ftoa)
    decreases v, Width(v) + 1
  {
    match v
    case Null =>
    case Bool(_) =>
    case Integer(n) => DecimalNoNewline(n);
    case Float(_) =>
    case String(s) => EscapeUnitsNoNewline(Utf8.Utf16Of(s));
    case Array(_) => DenseMembersOneLine(v, 0, offset + 1, ftoa);
    case Object(_) => DenseMembersOneLine(v, 0, offset + 1, ftoa);
  }

  lemma {:induction false} DenseMembersOneLine(v: Value, i: nat, depth: int, ftoa: Double -> Bytes)
    requires v.Array? || v.Object?
    requires i <= Width(v)
    requires forall d :: LF !in ftoa(d)
    ensures LF !in Members(v, i, Dense(), depth, ftoa)
    decreases v, Width(v) - i
  {
    if i < Width(v) {
      DenseMembersOneLine(v, i + 1, depth, ftoa);
      if v.Array? {
        DenseIsOneLine(v.items[i], depth, ftoa);
      } else {
        DenseIsOneLine(v.fields[i].val, depth, ftoa);
        EscapeUnitsNoNewline(Utf8.Utf16Of(v.fields[i].key));
      }
    }
  }

  lemma {:induction false} DecimalNoNewline(n: int)
    ensures LF !in Decimal(n)
  {
    var m: nat := if n < 0 then -n else n;
    DigitsAreDigits(m);
  }

  lemma {:induction false} DigitsAreDigits(n: nat)
    ensures forall i :: 0 <= i < |DecimalDigits(n)| ==> IsDigit(DecimalDigits(n)[i])
  {
    if n >= 10 {
      DigitsAreDigits(n / 10);
    }
  }
}

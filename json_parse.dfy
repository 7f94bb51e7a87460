/**
 * The JSON reader: the input cursor with its line/column position, the
 * tokenizer (strings, numbers, keywords and punctuation), the recursive
 * descent over the tokens, std::stoll for number tokens and from_string.
 * Each scanner is a function on (data, index) shaped like the loop that
 * implements it, and each method is proved to compute that function.
 */
module JsonParse {
  import opened ByteString
  import opened JsonValue
  import Utf8

  datatype Kind = JSON_ERROR | JSON_NULL | JSON_TRUE | JSON_FALSE | JSON_STRING | JSON_NUMBER
                | JSON_ARRAY_START | JSON_ARRAY_END | JSON_OBJECT_START | JSON_OBJECT_END | JSON_COLON | JSON_COMMA

  /** pos_t: one-based line and column. */
  datatype Pos = Pos(line: int, column: int)

  /** token_t: the kind, the text of strings and numbers, and where the token was taken. */
  datatype Token = Token(kind: Kind, text: Bytes, pos: Pos)

  /**
   * How a \uXXXX escape is decoded. AsWritten is what the code does: it
   * narrows the two-unit string {unit, 0}, so a NUL byte follows every
   * escape. Intended narrows the unit alone.
   */
  datatype EscapeMode = AsWritten | Intended

  /** A scanned token and the index the cursor is left at. */
  datatype Scan = Scan(tok: Token, next: nat)

  // ---------------------------------------------------------------------
  // The cursor (parser::input)

  /** The position after reading data[..k]: a line feed starts a new line at column 1, anything else moves one column on. */
  function PosAt(data: Bytes, k: nat): Pos
    requires k <= |data|
  {
    if k == 0 then Pos(1, 1)
    else
      var p := PosAt(data, k - 1);
      if data[k - 1] == LF then Pos(p.line + 1, 1) else Pos(p.line, p.column + 1)
  }

  function CountLF(s: Bytes): nat
  {
    if s == [] then 0 else CountLF(s[..|s| - 1]) + (if s[|s| - 1] == LF then 1 else 0)
  }

  /** The line is one more than the line feeds read; the column is at least 1 and restarts at 1 after a line feed. */
  lemma {:induction false} PosAtCounts(data: Bytes, k: nat)
    requires k <= |data|
    ensures PosAt(data, k).line == 1 + CountLF(data[..k])
    ensures PosAt(data, k).column >= 1
    ensures k > 0 && data[k - 1] == LF ==> PosAt(data, k).column == 1
    ensures k > 0 && data[k - 1] != LF ==> PosAt(data, k).column == PosAt(data, k - 1).column + 1
  {
    if k > 0 {
      PosAtCounts(data, k - 1);
      assert data[..k][..k - 1] == data[..k - 1];
    }
  }

  class Input {
    const data: Bytes
    var cur: nat
    var pos: Pos

    ghost predicate Valid()
      reads this
    {
      cur <= |data| && pos == PosAt(data, cur)
    }

    constructor (data: Bytes)
      ensures this.data == data && cur == 0 && pos == Pos(1, 1) && Valid()
    {
      this.data := data;
      cur := 0;
      pos := Pos(1, 1);
    }

    /** input::operator++ */
    method Next()
      requires Valid() && cur < |data|
      modifies this
      ensures Valid() && cur == old(cur) + 1
      ensures old(data[cur]) == LF ==> pos == Pos(old(pos).line + 1, 1)
      ensures old(data[cur]) != LF ==> pos == Pos(old(pos).line, old(pos).column + 1)
    {
      if data[cur] == LF {
        pos := Pos(pos.line + 1, 1);
      } else {
        pos := Pos(pos.line, pos.column + 1);
      }
      cur := cur + 1;
    }
  }

  function ErrorAt(data: Bytes, k: nat): Token
    requires k <= |data|
  {
    Token(JSON_ERROR, [], PosAt(data, k))
  }

  // ---------------------------------------------------------------------
  // String tokens

  /** What the escape `\e` appends, for every e other than 'u'. Unknown escapes keep the backslash. */
  function Unescape(e: uint8): Bytes
  {
    if e == QUOTE || e == BACKSLASH || e == '/' as int then [e]
    else if e == 'b' as int then [0x08]
    else if e == 'f' as int then [0x0C]
    else if e == 'n' as int then [LF]
    else if e == 'r' as int then ['\r' as int]
    else if e == 't' as int then ['\t' as int]
    else [BACKSLASH, e]
  }

  /** The bytes a \uXXXX escape appends. */
  function Decoded(u: uint16, mode: EscapeMode): Bytes
  {
    if mode == AsWritten then Utf8.Utf8Of([u, 0]) else Utf8.Utf8Of([u])
  }

  datatype Hex = HexOk(unit: uint16, next: nat) | HexFail(at: nat)

  /** n more hex digits from k on, shifted into a 16-bit accumulator. */
  function HexScan(data: Bytes, k: nat, n: nat, acc: uint16): (r: Hex)
    requires k <= |data|
    ensures r.HexOk? ==> r.next == k + n <= |data|
    ensures r.HexFail? ==> k <= r.at <= |data| && r.at < k + n
    decreases n
  {
    if n == 0 then HexOk(acc, k)
    else if k == |data| || !IsXDigit(data[k]) then HexFail(k)
    else HexScan(data, k + 1, n - 1, (acc * 16 + HexValue(data[k])) % 0x1_0000)
  }

  /** One digit read. */
  lemma HexScanStep(data: Bytes, k: nat, n: nat, acc: uint16)
    requires k < |data| && 0 < n && IsXDigit(data[k])
    ensures HexScan(data, k, n, acc) == HexScan(data, k + 1, n - 1, (acc * 16 + HexValue(data[k])) % 0x1_0000)
  {
  }

  /**
   * The string loop of json_string from index j, with `value` read so
   * far: a quote ends the token, end of input ends it too, a backslash at
   * the very end or a bad \u digit gives a JSON_ERROR token where the cursor
   * stopped.
   */
  function StrScan(data: Bytes, j: nat, value: Bytes, start: Pos, mode: EscapeMode): (r: Scan)
    requires j <= |data|
    ensures j <= r.next <= |data|
    decreases |data| - j
  {
    if j == |data| then Scan(Token(JSON_STRING, value, start), j)
    else if data[j] == BACKSLASH then
      if j + 1 == |data| then Scan(ErrorAt(data, j + 1), j + 1)
      else if data[j + 1] == 'u' as int then
        match HexScan(data, j + 2, 4, 0)
        case HexFail(k) => Scan(ErrorAt(data, k), k)
        case HexOk(u, k) => StrScan(data, k, value + Decoded(u, mode), start, mode)
      else StrScan(data, j + 2, value + Unescape(data[j + 1]), start, mode)
    else if data[j] == QUOTE then Scan(Token(JSON_STRING, value, start), j + 1)
    else StrScan(data, j + 1, value + [data[j]], start, mode)
  }

  /** json_string, with the cursor on the opening quote. */
  function ScanString(data: Bytes, k: nat, mode: EscapeMode): (r: Scan)
    requires k < |data|
    ensures k < r.next <= |data|
  {
    StrScan(data, k + 1, [], PosAt(data, k), mode)
  }

  // ---------------------------------------------------------------------
  // Numbers and keywords

  /** The first index at or after k that does not hold a decimal digit. */
  function DigitsEnd(data: Bytes, k: nat): (e: nat)
    requires k <= |data|
    ensures k <= e <= |data|
    ensures forall i :: k <= i < e ==> IsDigit(data[i])
    ensures e < |data| ==> !IsDigit(data[e])
    decreases |data| - k
  {
    if k < |data| && IsDigit(data[k]) then DigitsEnd(data, k + 1) else k
  }

  /** json_number: an optional '-' and then the longest run of digits. */
  function ScanNumber(data: Bytes, k: nat): (r: Scan)
    requires k < |data| && (data[k] == '-' as int || IsDigit(data[k]))
    ensures k < r.next <= |data|
    ensures r.tok.kind == JSON_NUMBER && r.tok.text == data[k..r.next]
  {
    var e := DigitsEnd(data, if data[k] == '-' as int then k + 1 else k);
    Scan(Token(JSON_NUMBER, data[k..e], PosAt(data, k)), e)
  }

  /**
   * json_token: matches `name` byte by byte from index j (name[..m]
   * already matched). The keyword token carries the position after the
   * keyword; a mismatch or end of input gives a JSON_ERROR token there.
   */
  function KeyScan(data: Bytes, j: nat, name: Bytes, m: nat, kind: Kind): (r: Scan)
    requires j <= |data| && m <= |name|
    ensures j <= r.next <= |data|
    ensures j < |data| && m < |name| && name[m] == data[j] ==> j < r.next
    decreases |name| - m
  {
    if j < |data| && m < |name| && name[m] == data[j] then KeyScan(data, j + 1, name, m + 1, kind)
    else if m < |name| then Scan(ErrorAt(data, j), j)
    else Scan(Token(kind, [], PosAt(data, j)), j)
  }

  const NULL_WORD: Bytes := ['n' as int, 'u' as int, 'l' as int, 'l' as int]
  const TRUE_WORD: Bytes := ['t' as int, 'r' as int, 'u' as int, 'e' as int]
  const FALSE_WORD: Bytes := ['f' as int, 'a' as int, 'l' as int, 's' as int, 'e' as int]

  // ---------------------------------------------------------------------
  // Tokenizer

  /** The first index at or after k that is not isspace. */
  function SkipSpace(data: Bytes, k: nat): (e: nat)
    requires k <= |data|
    ensures k <= e <= |data|
    ensures forall i :: k <= i < e ==> IsSpace(data[i])
    ensures e < |data| ==> !IsSpace(data[e])
    decreases |data| - k
  {
    if k < |data| && IsSpace(data[k]) then SkipSpace(data, k + 1) else k
  }

  function Punctuation(c: uint8): Option<Kind>
  {
    if c == '[' as int then Some(JSON_ARRAY_START)
    else if c == ']' as int then Some(JSON_ARRAY_END)
    else if c == '{' as int then Some(JSON_OBJECT_START)
    else if c == '}' as int then Some(JSON_OBJECT_END)
    else if c == ':' as int then Some(JSON_COLON)
    else if c == ',' as int then Some(JSON_COMMA)
    else None
  }

  /** The token that starts at k (a non-space byte the tokenizer accepts), and where the cursor stops. */
  function ScanToken(data: Bytes, k: nat, mode: EscapeMode): (r: Scan)
    requires k < |data|
    requires Punctuation(data[k]).Some? || data[k] in {'n' as int, 't' as int, 'f' as int, QUOTE, '-' as int} || IsDigit(data[k])
    ensures k < r.next <= |data|
  {
    var c := data[k];
    if Punctuation(c).Some? then Scan(Token(Punctuation(c).value, [], PosAt(data, k)), k + 1)
    else if c == 'n' as int then KeyScan(data, k, NULL_WORD, 0, JSON_NULL)
    else if c == 't' as int then KeyScan(data, k, TRUE_WORD, 0, JSON_TRUE)
    else if c == 'f' as int then KeyScan(data, k, FALSE_WORD, 0, JSON_FALSE)
    else if c == QUOTE then ScanString(data, k, mode)
    else ScanNumber(data, k)
  }

  predicate Accepted(c: uint8)
  {
    Punctuation(c).Some? || c in {'n' as int, 't' as int, 'f' as int, QUOTE, '-' as int} || IsDigit(c)
  }

  /** The tokens and the error flag of tokenize, from index j with `acc` pushed so far. */
  function Tokens(data: Bytes, j: nat, acc: seq<Token>, mode: EscapeMode): (seq<Token>, bool)
    requires j <= |data|
    decreases |data| - j
  {
    var k := SkipSpace(data, j);
    if k == |data| then (acc, false)
    else if !Accepted(data[k]) then (acc + [ErrorAt(data, k)], true)
    else
      var s := ScanToken(data, k, mode);
      Tokens(data, s.next, acc + [s.tok], mode)
  }

  function Tokenize(data: Bytes, mode: EscapeMode): (seq<Token>, bool)
  {
    Tokens(data, 0, [], mode)
  }

  // ---------------------------------------------------------------------
  // std::stoll

  function DigitsValue(s: Bytes): nat
    requires forall i :: 0 <= i < |s| ==> IsDigit(s[i])
  {
    if s == [] then 0
    else
      assert IsDigit(s[|s| - 1]);
      DigitsValue(s[..|s| - 1]) * 10 + (s[|s| - 1] - '0' as int)
  }

  const INT64_MIN := -0x8000_0000_0000_0000
  const INT64_MAX := 0x7FFF_FFFF_FFFF_FFFF

  /**
   * std::stoll in base 10: leading white space, an optional sign, then the
   * longest run of digits; no digits throws invalid_argument and a value
   * outside int64 throws out_of_range. Anything after the digits is ignored.
   */
  function Stoll(t: Bytes): (r: Result<int64>)
    ensures r.Throws? ==> r.ex == InvalidArgument || r.ex == OutOfRange
  {
    var i := SkipSpace(t, 0);
    var neg := i < |t| && t[i] == '-' as int;
    var j := if i < |t| && (t[i] == '-' as int || t[i] == '+' as int) then i + 1 else i;
    var e := DigitsEnd(t, j);
    if e == j then Throws(InvalidArgument)
    else
      var m: int := DigitsValue(t[j..e]);
      var n := if neg then -m else m;
      if n < INT64_MIN || n > INT64_MAX then Throws(OutOfRange) else Ok(n)
  }

  // ---------------------------------------------------------------------
  // The parser

  /** Where parse leaves the iterator: a value and the next token, the error flag set, or an exception from stoll. */
  datatype Outcome = Parsed(v: Value, next: nat) | Failed | Thrown(ex: Exception)

  /** parse: a value from token i; end of the tokens reads as null. */
  function Parse(toks: seq<Token>, i: nat): (r: Outcome)
    requires i <= |toks|
    ensures r.Parsed? ==> r.next <= |toks| && (i < |toks| ==> i < r.next)
    decreases |toks| - i, 0
  {
    if i == |toks| then Parsed(Null, i)
    else
      var t := toks[i];
      match t.kind
      case JSON_NULL => Parsed(Null, i + 1)
      case JSON_TRUE => Parsed(Bool(true), i + 1)
      case JSON_FALSE => Parsed(Bool(false), i + 1)
      case JSON_STRING => Parsed(String(t.text), i + 1)
      case JSON_NUMBER =>
        (match Stoll(t.text)
         case Ok(n) => Parsed(Integer(n), i + 1)
         case Throws(e) => Thrown(e))
      case JSON_ARRAY_START => ArrayFrom(toks, i + 1)
      case JSON_OBJECT_START => DictFrom(toks, i + 1)
      case _ => Failed
  }

  /** array: "[]" is an empty array; otherwise the element loop. */
  function ArrayFrom(toks: seq<Token>, j: nat): (r: Outcome)
    requires j <= |toks|
    ensures r.Parsed? ==> j <= r.next <= |toks|
    decreases |toks| - j, 2
  {
    if j < |toks| && toks[j].kind == JSON_ARRAY_END then Parsed(Array([]), j + 1)
    else ArrayLoop(toks, j, [])
  }

  /**
   * The element loop of array from token j, `acc` parsed so far. Running
   * out of tokens before an element ends the array (so "[" and "[1," are
   * accepted); running out after an element is an error.
   */
  function ArrayLoop(toks: seq<Token>, j: nat, acc: seq<Value>): (r: Outcome)
    requires j <= |toks|
    ensures r.Parsed? ==> j <= r.next <= |toks|
    decreases |toks| - j, 1
  {
    if j == |toks| then Parsed(Array(acc), j)
    else
      match Parse(toks, j)
      case Failed => Failed
      case Thrown(e) => Thrown(e)
      case Parsed(v, k) =>
        if k == |toks| then Failed
        else if toks[k].kind == JSON_ARRAY_END then Parsed(Array(acc + [v]), k + 1)
        else if toks[k].kind != JSON_COMMA then Failed
        else ArrayLoop(toks, k + 1, acc + [v])
  }

  /** dict: "{}" is an empty object; otherwise the member loop. */
  function DictFrom(toks: seq<Token>, j: nat): (r: Outcome)
    requires j <= |toks|
    ensures r.Parsed? ==> j <= r.next <= |toks|
    decreases |toks| - j, 2
  {
    if j < |toks| && toks[j].kind == JSON_OBJECT_END then Parsed(Object([]), j + 1)
    else DictLoop(toks, j, [])
  }

  /**
   * The member loop of dict: a key that parses as a string, ':', a value,
   * then '}' or ','. Members go in with map::add, so a repeated key keeps
   * the last value. Running out of tokens before a key ends the object.
   */
  function DictLoop(toks: seq<Token>, j: nat, acc: seq<Field>): (r: Outcome)
    requires j <= |toks|
    ensures r.Parsed? ==> j <= r.next <= |toks|
    decreases |toks| - j, 1
  {
    if j == |toks| then Parsed(Object(acc), j)
    else
      match Parse(toks, j)
      case Failed => Failed
      case Thrown(e) => Thrown(e)
      case Parsed(key, k) =>
        if !key.String? || k == |toks| || toks[k].kind != JSON_COLON then Failed
        else if k + 1 == |toks| then Failed
        else
          match Parse(toks, k + 1)
          case Failed => Failed
          case Thrown(e) => Thrown(e)
          case Parsed(val, m) =>
            if m == |toks| then Failed
            else
              var fs := Insert(acc, key.s, val);
              if toks[m].kind == JSON_OBJECT_END then Parsed(Object(fs), m + 1)
              else if toks[m].kind != JSON_COMMA then Failed
              else DictLoop(toks, m + 1, fs)
  }

  /** from_string: null when tokenizing or parsing sets the error flag; stoll's exceptions escape. */
  function FromText(data: Bytes, mode: EscapeMode): Result<Value>
  {
    var (toks, error) := Tokenize(data, mode);
    if error then Ok(Null)
    else
      match Parse(toks, 0)
      case Parsed(v, _) => Ok(v)
      case Failed => Ok(Null)
      case Thrown(e) => Throws(e)
  }

  // ---------------------------------------------------------------------
  // The scanners and the parser as the code runs them

  /** The \u digit loop of json_string, with the cursor on the 'u'; on success the cursor is left on the last digit. */
  method ReadHex(inp: Input) returns (ok: bool, unicode: uint16)
    requires inp.Valid() && inp.cur < |inp.data|
    modifies inp
    ensures inp.Valid()
    ensures var h := HexScan(inp.data, old(inp.cur) + 1, 4, 0);
      if ok then h == HexOk(unicode, inp.cur + 1) else h == HexFail(inp.cur)
  {
    ghost var h := HexScan(inp.data, inp.cur + 1, 4, 0);
    unicode := 0;
    var i := 0;
    while i < 4
      invariant 0 <= i <= 4
      invariant inp.Valid() && inp.cur < |inp.data|
      invariant HexScan(inp.data, inp.cur + 1, 4 - i, unicode) == h
    {
      inp.Next();
      var k := inp.cur;
      assert HexScan(inp.data, k, 4 - i, unicode) == h;
      if k == |inp.data| {
        return false, unicode;
      }
      var c := inp.data[k];
      if !IsXDigit(c) {
        return false, unicode;
      }
      HexScanStep(inp.data, k, 4 - i, unicode);
      unicode := (unicode * 16 + HexValue(c)) % 0x1_0000;
      i := i + 1;
    }
    ok := true;
  }

  /**
   * One escape sequence of json_string, with the cursor on the backslash.
   * On success the cursor is left on the last byte of the sequence.
   */
  method ReadEscape(inp: Input, mode: EscapeMode, ghost value: Bytes, ghost start: Pos) returns (ok: bool, bytes: Bytes)
    requires inp.Valid() && inp.cur < |inp.data| && inp.data[inp.cur] == BACKSLASH
    modifies inp
    ensures inp.Valid()
    ensures ok ==> old(inp.cur) < inp.cur < |inp.data|
    ensures ok ==> StrScan(inp.data, inp.cur + 1, value + bytes, start, mode) == StrScan(inp.data, old(inp.cur), value, start, mode)
    ensures !ok ==> Scan(Token(JSON_ERROR, [], inp.pos), inp.cur) == StrScan(inp.data, old(inp.cur), value, start, mode)
  {
    bytes := [];
    inp.Next();
    if inp.cur == |inp.data| {
      return false, [];
    }
    var e := inp.data[inp.cur];
    if e == 'u' as int {
      var unicode;
      ok, unicode := ReadHex(inp);
      if ok {
        bytes := Utf8.Narrowed(if mode == AsWritten then [unicode, 0] else [unicode]);
      }
    } else {
      ok, bytes := true, Unescape(e);
    }
  }

  /** json_string: the cursor is on the opening quote. */
  method ReadString(inp: Input, mode: EscapeMode) returns (t: Token)
    requires inp.Valid() && inp.cur < |inp.data| && inp.data[inp.cur] == QUOTE
    modifies inp
    ensures inp.Valid() && Scan(t, inp.cur) == ScanString(inp.data, old(inp.cur), mode)
  {
    ghost var whole := ScanString(inp.data, inp.cur, mode);
    var pos := inp.pos;
    inp.Next();
    var value: Bytes := [];
    while inp.cur < |inp.data|
      invariant inp.Valid()
      invariant StrScan(inp.data, inp.cur, value, pos, mode) == whole
      decreases |inp.data| - inp.cur
    {
      var c := inp.data[inp.cur];
      if c == BACKSLASH {
        var ok, bytes := ReadEscape(inp, mode, value, pos);
        if !ok {
          return Token(JSON_ERROR, [], inp.pos);
        }
        value := value + bytes;
      } else if c == QUOTE {
        inp.Next();
        break;
      } else {
        value := value + [c];
      }
      inp.Next();
    }
    t := Token(JSON_STRING, value, pos);
  }

  /** json_number */
  method ReadNumber(inp: Input) returns (t: Token)
    requires inp.Valid() && inp.cur < |inp.data|
    requires inp.data[inp.cur] == '-' as int || IsDigit(inp.data[inp.cur])
    modifies inp
    ensures inp.Valid() && Scan(t, inp.cur) == ScanNumber(inp.data, old(inp.cur))
  {
    var save := inp.cur;
    var pos := inp.pos;
    if inp.data[inp.cur] == '-' as int {
      inp.Next();
    }
    ghost var e := DigitsEnd(inp.data, inp.cur);
    while inp.cur < |inp.data| && IsDigit(inp.data[inp.cur])
            invariant inp.Valid() && DigitsEnd(inp.data, inp.cur) == e
      decreases |inp.data| - inp.cur
    {
      inp.Next();
    }
    t := Token(JSON_NUMBER, inp.data[save..inp.cur], pos);
  }

  /** json_token: matches `name`; the cursor stops at the first byte that differs. */
  method ReadKeyword(inp: Input, kind: Kind, name: Bytes) returns (t: Token)
    requires inp.Valid()
    modifies inp
    ensures inp.Valid() && Scan(t, inp.cur) == KeyScan(inp.data, old(inp.cur), name, 0, kind)
  {
    ghost var whole := KeyScan(inp.data, inp.cur, name, 0, kind);
    var m := 0;
    while inp.cur < |inp.data| && m < |name| && name[m] == inp.data[inp.cur]
      invariant inp.Valid() && m <= |name|
      invariant KeyScan(inp.data, inp.cur, name, m, kind) == whole
      decreases |name| - m
    {
      m := m + 1;
      inp.Next();
    }
    if m < |name| {
      return Token(JSON_ERROR, [], inp.pos);
    }
    t := Token(kind, [], inp.pos);
  }

  /** The whitespace loop at the head of each tokenize step. */
  method SkipSpaces(inp: Input)
    requires inp.Valid()
    modifies inp
    ensures inp.Valid() && inp.cur == SkipSpace(inp.data, old(inp.cur))
  {
    while inp.cur < |inp.data| && IsSpace(inp.data[inp.cur])
      invariant inp.Valid() && SkipSpace(inp.data, inp.cur) == SkipSpace(inp.data, old(inp.cur))
      decreases |inp.data| - inp.cur
    {
      inp.Next();
    }
  }

  /** The switch of tokenize on a byte that starts a token. */
  method ReadToken(inp: Input, mode: EscapeMode) returns (t: Token)
    requires inp.Valid() && inp.cur < |inp.data| && Accepted(inp.data[inp.cur])
    modifies inp
    ensures inp.Valid() && Scan(t, inp.cur) == ScanToken(inp.data, old(inp.cur), mode)
  {
    var c := inp.data[inp.cur];
    if Punctuation(c).Some? {
      t := Token(Punctuation(c).value, [], inp.pos);
      inp.Next();
    } else if c == 'n' as int {
      t := ReadKeyword(inp, JSON_NULL, NULL_WORD);
    } else if c == 't' as int {
      t := ReadKeyword(inp, JSON_TRUE, TRUE_WORD);
    } else if c == 'f' as int {
      t := ReadKeyword(inp, JSON_FALSE, FALSE_WORD);
    } else if c == QUOTE {
      t := ReadString(inp, mode);
    } else {
      t := ReadNumber(inp);
    }
  }

  /** tokenize */
  method ReadTokens(inp: Input, mode: EscapeMode) returns (toks: seq<Token>, error: bool)
    requires inp.Valid()
    modifies inp
    ensures (toks, error) == Tokens(inp.data, old(inp.cur), [], mode)
  {
    ghost var whole := Tokens(inp.data, inp.cur, [], mode);
    error := false;
    toks := [];
    while inp.cur < |inp.data|
      invariant inp.Valid()
      invariant Tokens(inp.data, inp.cur, toks, mode) == whole
      decreases |inp.data| - inp.cur
    {
      SkipSpaces(inp);
      if inp.cur == |inp.data| {
        break;
      }
      if !Accepted(inp.data[inp.cur]) {
        toks := toks + [Token(JSON_ERROR, [], inp.pos)];
        error := true;
        return;
      }
      var t := ReadToken(inp, mode);
      toks := toks + [t];
    }
  }

  /** parse */
  method ParseValue(toks: seq<Token>, i: nat) returns (r: Outcome)
    requires i <= |toks|
    ensures r == Parse(toks, i)
    decreases |toks| - i, 0
  {
    if i == |toks| {
      return Parsed(Null, i);
    }
    var t := toks[i];
    match t.kind
    case JSON_NULL => r := Parsed(Null, i + 1);
    case JSON_TRUE => r := Parsed(Bool(true), i + 1);
    case JSON_FALSE => r := Parsed(Bool(false), i + 1);
    case JSON_STRING => r := Parsed(String(t.text), i + 1);
    case JSON_NUMBER =>
      var n := Stoll(t.text);
      r := if n.Ok? then Parsed(Integer(n.value), i + 1) else Thrown(n.ex);
    case JSON_ARRAY_START => r := ParseArray(toks, i + 1);
    case JSON_OBJECT_START => r := ParseDict(toks, i + 1);
    case _ => r := Failed;
  }

  /** array, collecting the elements in a vector backend. */
  method ParseArray(toks: seq<Token>, j: nat) returns (r: Outcome)
    requires j <= |toks|
    ensures r == ArrayFrom(toks, j)
    decreases |toks| - j, 1
  {
    var out := new ArrayBackend();
    if j < |toks| && toks[j].kind == JSON_ARRAY_END {
      return Parsed(Array(out.values), j + 1);
    }
    var cur := j;
    while cur < |toks|
      invariant j <= cur <= |toks|
      invariant ArrayLoop(toks, cur, out.values) == ArrayLoop(toks, j, [])
      decreases |toks| - cur
    {
      var item := ParseValue(toks, cur);
      if item.Failed? {
        return Failed;
      } else if item.Thrown? {
        return item;
      }
      out.Add(item.v);
      cur := item.next;
      if cur == |toks| {
        return Failed;
      }
      if toks[cur].kind == JSON_ARRAY_END {
        return Parsed(Array(out.values), cur + 1);
      }
      if toks[cur].kind != JSON_COMMA {
        return Failed;
      }
      cur := cur + 1;
    }
    r := Parsed(Array(out.values), cur);
  }

  /** dict, collecting the members in a map backend. */
  method ParseDict(toks: seq<Token>, j: nat) returns (r: Outcome)
    requires j <= |toks|
    ensures r == DictFrom(toks, j)
    decreases |toks| - j, 1
  {
    var out := new ObjectBackend();
    if j < |toks| && toks[j].kind == JSON_OBJECT_END {
      return Parsed(Object(out.values), j + 1);
    }
    var cur := j;
    while cur < |toks|
      invariant j <= cur <= |toks|
      invariant out.Valid()
      invariant DictLoop(toks, cur, out.values) == DictLoop(toks, j, [])
      decreases |toks| - cur
    {
      var key := ParseValue(toks, cur);
      if key.Failed? {
        return Failed;
      } else if key.Thrown? {
        return key;
      }
      cur := key.next;
      if !key.v.String? || cur == |toks| || toks[cur].kind != JSON_COLON {
        return Failed;
      }
      cur := cur + 1;
      if cur == |toks| {
        return Failed;
      }
      var val := ParseValue(toks, cur);
      if val.Failed? {
        return Failed;
      } else if val.Thrown? {
        return val;
      }
      out.Add(key.v.s, val.v);
      cur := val.next;
      if cur == |toks| {
        return Failed;
      }
      if toks[cur].kind == JSON_OBJECT_END {
        return Parsed(Object(out.values), cur + 1);
      }
      if toks[cur].kind != JSON_COMMA {
        return Failed;
      }
      cur := cur + 1;
    }
    r := Parsed(Object(out.values), cur);
  }

  /** from_string */
  method ReadJson(data: Bytes, mode: EscapeMode) returns (r: Result<Value>)
    ensures r == FromText(data, mode)
  {
    var inp := new Input(data);
    var toks, error := ReadTokens(inp, mode);
    if error {
      return Ok(Null);
    }
    var o := ParseValue(toks, 0);
    match o
    case Parsed(v, _) => r := Ok(v);
    case Failed => r := Ok(Null);
    case Thrown(e) => r := Throws(e);
  }
}

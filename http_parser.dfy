/**
 * The HTTP parsers of tangle: the first line of a request or of a response
 * is gathered up to its CRLF and split into its parts, and the rest of the
 * head goes to the header parser.
 */
module Http {
  import opened ByteString
  import opened HeaderText
  import opened HeaderParser

  const DOT := 0x2E
  /** The bytes "HTTP/". */
  const HTTP_SLASH: Bytes := [0x48, 0x54, 0x54, 0x50, 0x2F]

  /** http_version: major and minor, both 0 until a first line sets them. */
  datatype Version = Version(major: int, minor: int)

  /**
   * The part of the parser the final class keeps: http_request's method
   * and resource, or http_response's status and reason. The resource and
   * the reason double as the buffer the first line is gathered in.
   */
  datatype Head =
    | RequestHead(methodName: Bytes, resource: Bytes)
    | ResponseHead(status: int, reason: Bytes)
  {
    function Buffer(): Bytes
    {
      if RequestHead? then resource else reason
    }

    function WithBuffer(b: Bytes): (h: Head)
      ensures h.Buffer() == b && h.RequestHead? == RequestHead?
    {
      if RequestHead? then this.(resource := b) else this.(reason := b)
    }
  }

  // ---------------------------------------------------------------------
  // Numbers and versions

  predicate AllDigits(s: Bytes)
  {
    forall j :: 0 <= j < |s| ==> IsDigit(s[j])
  }

  /** The end of the run of decimal digits that starts at from. */
  function DigitsEnd(s: Bytes, from: nat): (e: nat)
    requires from <= |s|
    ensures from <= e <= |s|
    ensures forall j :: from <= j < e ==> IsDigit(s[j])
    ensures e == |s| || !IsDigit(s[e])
    decreases |s| - from
  {
    if from == |s| || !IsDigit(s[from]) then from else DigitsEnd(s, from + 1)
  }

  /** The value of a string of decimal digits, most significant first. */
  function Decimal(ds: Bytes): nat
    requires AllDigits(ds)
    decreases |ds|
  {
    if ds == [] then 0 else 10 * Decimal(ds[..|ds| - 1]) + (ds[|ds| - 1] - 0x30)
  }

  /** parse_number: the end of the run of digits at from, and its value. */
  method ParseNumber(s: Bytes, from: nat) returns (next: nat, val: nat)
    requires from <= |s|
    ensures next == DigitsEnd(s, from)
    ensures AllDigits(s[from..next]) && val == Decimal(s[from..next])
  {
    next, val := from, 0;
    while next < |s| && IsDigit(s[next])
      invariant from <= next <= |s| && DigitsEnd(s, next) == DigitsEnd(s, from)
      invariant AllDigits(s[from..next]) && val == Decimal(s[from..next])
      decreases |s| - next
    {
      assert s[from..next + 1][..next - from] == s[from..next];
      val := val * 10 + (s[next] - 0x30);
      next := next + 1;
    }
  }

  /**
   * The version parse_proto accepts: "HTTP/", a run of digits, ".", a run
   * of digits, and nothing after them.
   */
  function Proto(s: Bytes): Option<Version>
  {
    if |s| < 5 || s[..5] != HTTP_SLASH then None
    else
      var dot := DigitsEnd(s, 5);
      if dot == 5 || dot == |s| || s[dot] != DOT then None
      else
        var end := DigitsEnd(s, dot + 1);
        if end == dot + 1 || end != |s| then None
        else Some(Version(Decimal(s[5..dot]), Decimal(s[dot + 1..])))
  }

  /** parse_proto, character by character. */
  method ParseProto(s: Bytes) returns (v: Option<Version>)
    ensures v == Proto(s)
  {
    if |s| < 5 || s[0] != 0x48 || s[1] != 0x54 || s[2] != 0x54 || s[3] != 0x50 || s[4] != 0x2F {
      assert |s| >= 5 ==> s[..5][0] != 0x48 || s[..5][1] != 0x54 || s[..5][2] != 0x54 || s[..5][3] != 0x50 || s[..5][4] != 0x2F;
      return None;
    }
    assert s[..5] == HTTP_SLASH;
    var dot, major := ParseNumber(s, 5);
    if dot == 5 || dot == |s| || s[dot] != DOT {
      return None;
    }
    var end, minor := ParseNumber(s, dot + 1);
    if end == dot + 1 || end != |s| {
      return None;
    }
    assert s[dot + 1..end] == s[dot + 1..];
    return Some(Version(major, minor));
  }

  // ---------------------------------------------------------------------
  // Splitting the first line

  /** The first index from `from` on, below hi, that is not a space; hi when there is none. */
  function SkipSpaces(s: Bytes, from: nat, hi: nat): (k: nat)
    requires from <= hi <= |s|
    ensures from <= k <= hi
    ensures forall j :: from <= j < k ==> s[j] == SP
    ensures k < hi ==> s[k] != SP
    decreases hi - from
  {
    if from == hi || s[from] != SP then from else SkipSpaces(s, from + 1, hi)
  }

  /** hi moved back over the spaces before it, never below lo. */
  function TrimSpaces(s: Bytes, lo: nat, hi: nat): (k: nat)
    requires lo <= hi <= |s|
    ensures lo <= k <= hi
    ensures forall j :: k <= j < hi ==> s[j] == SP
    ensures lo < k ==> s[k - 1] != SP
    decreases hi - lo
  {
    if lo == hi || s[hi - 1] != SP then hi else TrimSpaces(s, lo, hi - 1)
  }

  /** find_last_of: the last index holding c, or |s| when there is none. */
  function LastIndexOf(s: Bytes, c: uint8): (k: nat)
    ensures k <= |s|
    ensures k == |s| ==> forall j :: 0 <= j < |s| ==> s[j] != c
    ensures k < |s| ==> s[k] == c && forall j :: k < j < |s| ==> s[j] != c
    decreases |s|
  {
    if s == [] then 0
    else if s[|s| - 1] == c then |s| - 1
    else
      var k := LastIndexOf(s[..|s| - 1], c);
      if k == |s| - 1 then |s| else k
  }

  /** What splitting a first line leaves: the status, the head and the version. */
  datatype LineResult = LineResult(status: Parsing, head: Head, proto: Version)

  /**
   * The request line, its CR dropped: the method runs to the first space,
   * the version follows the last one, and the resource is what lies
   * between them with the spaces around it dropped. Until the version is
   * read the head keeps the whole line as its resource and the version is
   * not set; once it is, the method is set too, even if the resource turns
   * out empty.
   */
  function RequestLine(line: Bytes, methodName: Bytes, proto: Version): (r: LineResult)
    ensures r.head.RequestHead?
  {
    var protoPos := LastIndexOf(line, SP);
    var methodPos := IndexOfFrom(line, SP, 0);
    if protoPos == |line| || protoPos == methodPos then LineResult(Error, RequestHead(methodName, line), proto)
    else match Proto(line[protoPos + 1..])
      case None => LineResult(Error, RequestHead(methodName, line), proto)
      case Some(v) => RequestTarget(line, methodPos, protoPos, v)
  }

  /**
   * The part of an accepted request line between the method, ending at
   * methodPos, and the version, starting after protoPos: the resource is
   * what lies between with the spaces around it dropped, and must not be
   * empty.
   */
  function RequestTarget(line: Bytes, methodPos: nat, protoPos: nat, v: Version): (r: LineResult)
    requires methodPos <= protoPos <= |line|
    ensures r.proto == v && r.head.RequestHead? && r.head.methodName == line[..methodPos]
  {
    var lo := SkipSpaces(line, methodPos, protoPos);
    var hi := TrimSpaces(line, lo, protoPos);
    if lo == hi then LineResult(Error, RequestHead(line[..methodPos], line), v)
    else LineResult(Separator, RequestHead(line[..methodPos], line[lo..hi]), v)
  }

  /**
   * The status line, its CR dropped: the version runs to the first space,
   * the status code follows the spaces after it and must be at least 100
   * and followed by a space, and the reason is the rest after the spaces
   * that follow the code. The code read is kept even when it is refused.
   */
  function ResponseLine(line: Bytes, status: int, proto: Version): (r: LineResult)
    ensures r.head.ResponseHead?
  {
    var statusPos := IndexOfFrom(line, SP, 0);
    if statusPos == |line| then LineResult(Error, ResponseHead(status, line), proto)
    else match Proto(line[..statusPos])
      case None => LineResult(Error, ResponseHead(status, line), proto)
      case Some(v) => StatusCode(line, statusPos, v)
  }

  /** The rest of the status line once its version v is read. */
  function StatusCode(line: Bytes, statusPos: nat, v: Version): (r: LineResult)
    requires statusPos <= |line|
    ensures r.head.ResponseHead?
  {
    var cur := SkipSpaces(line, statusPos, |line|);
    var msg := DigitsEnd(line, cur);
    var code := Decimal(line[cur..msg]);
    if msg == cur || msg == |line| || line[msg] != SP || code < 100 then LineResult(Error, ResponseHead(code, line), v)
    else LineResult(Separator, ResponseHead(code, line[SkipSpaces(line, msg, |line|)..]), v)
  }

  /** The request half of first_line once the line is complete. */
  method SplitRequestLine(line: Bytes, methodName: Bytes, proto: Version) returns (r: LineResult)
    ensures r == RequestLine(line, methodName, proto)
  {
    var protoPos := LastIndexOf(line, SP);
    if protoPos == |line| {
      return LineResult(Error, RequestHead(methodName, line), proto);
    }
    var methodPos := IndexOfFrom(line, SP, 0);
    if protoPos == methodPos {
      return LineResult(Error, RequestHead(methodName, line), proto);
    }
    var v := ParseProto(line[protoPos + 1..]);
    if v.None? {
      return LineResult(Error, RequestHead(methodName, line), proto);
    }
    var lo := AdvanceOverSpaces(line, methodPos, protoPos);
    var hi := RetreatOverSpaces(line, lo, protoPos);
    if lo == hi {
      return LineResult(Error, RequestHead(line[..methodPos], line), v.value);
    }
    return LineResult(Separator, RequestHead(line[..methodPos], line[lo..hi]), v.value);
  }

  /** The response half of first_line once the line is complete. */
  method SplitStatusLine(line: Bytes, status: int, proto: Version) returns (r: LineResult)
    ensures r == ResponseLine(line, status, proto)
  {
    var statusPos := IndexOfFrom(line, SP, 0);
    if statusPos == |line| {
      return LineResult(Error, ResponseHead(status, line), proto);
    }
    var v := ParseProto(line[..statusPos]);
    if v.None? {
      return LineResult(Error, ResponseHead(status, line), proto);
    }
    var cur := AdvanceOverSpaces(line, statusPos, |line|);
    var msg, code := ParseNumber(line, cur);
    if msg == cur || msg == |line| || line[msg] != SP || code < 100 {
      return LineResult(Error, ResponseHead(code, line), v.value);
    }
    var rest := AdvanceOverSpaces(line, msg, |line|);
    return LineResult(Separator, ResponseHead(code, line[rest..]), v.value);
  }

  /** The loop that moves a position forward over spaces, up to hi. */
  method AdvanceOverSpaces(s: Bytes, from: nat, hi: nat) returns (k: nat)
    requires from <= hi <= |s|
    ensures k == SkipSpaces(s, from, hi)
  {
    k := from;
    while k < hi && s[k] == SP
      invariant from <= k <= hi && SkipSpaces(s, k, hi) == SkipSpaces(s, from, hi)
      decreases hi - k
    {
      k := k + 1;
    }
  }

  /** The loop that moves an end position back over spaces, down to lo. */
  method RetreatOverSpaces(s: Bytes, lo: nat, hi: nat) returns (k: nat)
    requires lo <= hi <= |s|
    ensures k == TrimSpaces(s, lo, hi)
  {
    k := hi;
    while lo < k && s[k - 1] == SP
      invariant lo <= k <= hi && TrimSpaces(s, lo, k) == TrimSpaces(s, lo, hi)
      decreases k
    {
      k := k - 1;
    }
  }

  // ---------------------------------------------------------------------
  // Gathering the first line

  /**
   * A first line gathered: still incomplete (the buffer grows by the whole
   * chunk), broken by a CR without LF, or complete.
   */
  datatype Gathered = More(buffer: Bytes, count: nat) | Broken(count: nat) | Line(line: Bytes, count: nat)

  /**
   * The buffering half of first_line: the CR is looked for in the chunk,
   * unless the buffer already ends with one, in which case the chunk must
   * open with the LF. A complete line is the buffered bytes up to the CR,
   * and the count is the bytes of the chunk up to and with the LF.
   */
  function Gather(buffer: Bytes, data: Bytes): (g: Gathered)
    ensures g.More? ==> g.count == |data| && g.buffer == buffer + data
    ensures g.Broken? ==> g.count < |data|
    ensures g.Line? ==> 0 < g.count <= |data| && g.line + [CR, LF] == buffer + data[..g.count]
  {
    if buffer == [] || buffer[|buffer| - 1] != CR then
      var it := IndexOfFrom(data, CR, 0);
      if it + 1 >= |data| then More(buffer + data, |data|)
      else if data[it + 1] != LF then Broken(it)
      else
        assert buffer + data[..it + 2] == buffer + data[..it] + [CR, LF];
        Line(buffer + data[..it], it + 2)
    else if data == [] then More(buffer, 0)
    else if data[0] != LF then Broken(0)
    else
      assert buffer == buffer[..|buffer| - 1] + [CR];
      Line(buffer[..|buffer| - 1], 1)
  }

  /** What first_line reports and leaves. */
  datatype Outcome = Outcome(count: nat, status: Parsing, head: Head, proto: Version)

  /** first_line of http_request or http_response, whichever the head belongs to. */
  function ReadFirstLine(head: Head, proto: Version, data: Bytes): (o: Outcome)
    ensures o.count <= |data| && o.head.RequestHead? == head.RequestHead?
    ensures o.status == Reading ==> o.count == |data| && o.proto == proto && o.head.Buffer() == head.Buffer() + data
  {
    match Gather(head.Buffer(), data)
    case More(b, c) => Outcome(c, Reading, head.WithBuffer(b), proto)
    case Broken(c) => Outcome(c, Error, head, proto)
    case Line(line, c) =>
      var r := if head.RequestHead? then RequestLine(line, head.methodName, proto) else ResponseLine(line, head.status, proto);
      Outcome(c, r.status, r.head, r.proto)
  }

  // ---------------------------------------------------------------------
  // The parser

  /** What an HTTP parser holds: its header parser, the version, the first-line flag and the head. */
  datatype MessageState = MessageState(fields: ParserState, proto: Version, needsFirstLine: bool, head: Head)

  /** What one append reports and the state it leaves. */
  datatype Delivered = Delivered(count: nat, status: Parsing, after: MessageState)

  /**
   * append: while the first line is pending, first_line takes the chunk;
   * once it completes, the header parser takes the rest of the chunk and
   * the count covers both.
   */
  function Deliver(s: MessageState, data: Bytes): (d: Delivered)
    requires s.fields.Valid()
    ensures d.count <= |data|
    ensures d.after.head.RequestHead? == s.head.RequestHead?
    ensures d.after.needsFirstLine ==> s.needsFirstLine && d.status != Separator
  {
    if s.needsFirstLine then
      var o := ReadFirstLine(s.head, s.proto, data);
      if o.status != Separator then Delivered(o.count, o.status, s.(proto := o.proto, head := o.head))
      else
        var f := Feed(s.fields, data[o.count..]);
        Delivered(o.count + f.count, f.status, MessageState(f.after, o.proto, false, o.head))
    else
      var f := Feed(s.fields, data);
      Delivered(f.count, f.status, s.(fields := f.after))
  }

  /**
   * http_parser_base with its final class: http_request when the head is
   * a request head, http_response when it is a response head.
   */
  class HttpParser {
    var fields: Parser
    var proto: Version
    var needsFirstLine: bool
    var head: Head

    function State(): MessageState
      reads this, fields
    {
      MessageState(fields.State(), proto, needsFirstLine, head)
    }

    /** An http_request: no version, method or resource yet. */
    constructor Request()
      ensures fresh(fields)
      ensures State() == MessageState(ParserState([], [], map[], 0), Version(0, 0), true, RequestHead([], []))
    {
      fields := new Parser();
      proto, needsFirstLine, head := Version(0, 0), true, RequestHead([], []);
    }

    /** An http_response: no version, status 0 and no reason yet. */
    constructor Response()
      ensures fresh(fields)
      ensures State() == MessageState(ParserState([], [], map[], 0), Version(0, 0), true, ResponseHead(0, []))
    {
      fields := new Parser();
      proto, needsFirstLine, head := Version(0, 0), true, ResponseHead(0, []);
    }

    method Append(data: Bytes) returns (count: nat, status: Parsing)
      requires fields.Valid()
      modifies this, fields
      ensures fields == old(fields)
      ensures var d := Deliver(old(State()), data);
        count == d.count && status == d.status && State() == d.after
    {
      if needsFirstLine {
        var n;
        n, status := FirstLine(data);
        if status != Separator {
          return n, status;
        }
        needsFirstLine := false;
        var m;
        m, status := fields.Append(data[n..]);
        count := n + m;
      } else {
        count, status := fields.Append(data);
      }
    }

    /** first_line: gather the line, then split it. */
    method FirstLine(data: Bytes) returns (count: nat, status: Parsing)
      modifies this
      ensures var o := ReadFirstLine(old(head), old(proto), data);
        count == o.count && status == o.status && head == o.head && proto == o.proto
      ensures fields == old(fields) && needsFirstLine == old(needsFirstLine)
    {
      var buffer := head.Buffer();
      if buffer == [] || buffer[|buffer| - 1] != CR {
        var it := IndexOfFrom(data, CR, 0);
        if it + 1 >= |data| {
          head := head.WithBuffer(buffer + data);
          return |data|, Reading;
        }
        if data[it + 1] != LF {
          return it, Error;
        }
        buffer := buffer + data[..it + 1];
        count := it + 2;
      } else if |data| == 0 {
        return 0, Reading;
      } else if data[0] != LF {
        return 0, Error;
      } else {
        count := 1;
      }
      var line := buffer[..|buffer| - 1];
      assert Gather(head.Buffer(), data) == Line(line, count);
      var r;
      if head.RequestHead? {
        r := SplitRequestLine(line, head.methodName, proto);
      } else {
        r := SplitStatusLine(line, head.status, proto);
      }
      status, head, proto := r.status, r.head, r.proto;
    }

    /** dict: the header parser's dictionary, moved out. */
    method Dict() returns (d: map<Bytes, seq<Bytes>>)
      modifies fields
      ensures d == old(fields.dict) && fields.dict == map[]
      ensures fields.contents == old(fields.contents) && fields.fieldList == old(fields.fieldList)
      ensures fields.lastLineEnd == old(fields.lastLineEnd)
    {
      d := fields.TakeDict();
    }
  }
}

/**
 * What the HTTP parsers promise: a version, a request line and a status
 * line are read back exactly from their parts and split into those parts;
 * splitting the first line over two chunks reads the same line; and once
 * the head is complete the count of a fresh parser's append ends right
 * before the CRLF of the empty line.
 */
module HttpFacts {
  import opened ByteString
  import opened HeaderText
  import opened HeaderParser
  import HeaderParserFacts
  import opened Http

  /** A version as it is written: "HTTP/" major "." minor. */
  function ProtoText(major: Bytes, minor: Bytes): (s: Bytes)
    ensures |s| == 6 + |major| + |minor|
  {
    HTTP_SLASH + major + [DOT] + minor
  }

  predicate Digits(d: Bytes)
  {
    d != [] && AllDigits(d)
  }

  /** No byte of a written version is a space. */
  lemma ProtoTextHasNoSpace(major: Bytes, minor: Bytes)
    requires Digits(major) && Digits(minor)
    ensures forall j :: 0 <= j < |ProtoText(major, minor)| ==> ProtoText(major, minor)[j] != SP
  {
    var s := ProtoText(major, minor);
    forall j | 0 <= j < |s|
      ensures s[j] != SP
    {
      if j < 5 {
        assert s[j] == HTTP_SLASH[j];
      } else if j < 5 + |major| {
        assert s[j] == major[j - 5];
      } else if j == 5 + |major| {
        assert s[j] == DOT;
      } else {
        assert s[j] == minor[j - 6 - |major|];
      }
    }
  }

  /** parse_proto reads back the version it is given. */
  lemma ProtoRoundTrip(major: Bytes, minor: Bytes)
    requires Digits(major) && Digits(minor)
    ensures Proto(ProtoText(major, minor)) == Some(Version(Decimal(major), Decimal(minor)))
  {
    var s := ProtoText(major, minor);
    var dot := 5 + |major|;
    assert s[..5] == HTTP_SLASH;
    assert s[5..dot] == major;
    assert s[dot] == DOT;
    assert s[dot + 1..] == minor;
    assert forall j :: 5 <= j < dot ==> IsDigit(s[j]) by {
      forall j | 5 <= j < dot
        ensures IsDigit(s[j])
      {
        assert s[j] == major[j - 5];
      }
    }
    assert DigitsEnd(s, 5) == dot;
    assert forall j :: dot + 1 <= j < |s| ==> IsDigit(s[j]) by {
      forall j | dot + 1 <= j < |s|
        ensures IsDigit(s[j])
      {
        assert s[j] == minor[j - dot - 1];
      }
    }
    assert DigitsEnd(s, dot + 1) == |s|;
  }

  /** Whatever parse_proto accepts is a written version, with the value it reads. */
  lemma ProtoParsed(s: Bytes)
    requires Proto(s).Some?
    ensures exists major, minor ::
      (Digits(major) && Digits(minor) && s == ProtoText(major, minor) && Proto(s).value == Version(Decimal(major), Decimal(minor)))
  {
    var dot := DigitsEnd(s, 5);
    var major, minor := s[5..dot], s[dot + 1..];
    assert s == ProtoText(major, minor) by {
      assert s == s[..5] + s[5..dot] + [s[dot]] + s[dot + 1..];
    }
  }

  /**
   * A line whose first space is at a and last at b, with a non-space on
   * either inner side and a version after b, is a request line whose method
   * is what precedes a and whose resource is what lies between.
   */
  lemma RequestLineAt(line: Bytes, a: nat, b: nat, v: Version, methodName: Bytes, proto: Version)
    requires a + 1 < b < |line| && line[a] == SP && line[b] == SP
    requires forall j :: 0 <= j < a ==> line[j] != SP
    requires forall j :: b < j < |line| ==> line[j] != SP
    requires line[a + 1] != SP && line[b - 1] != SP
    requires Proto(line[b + 1..]) == Some(v)
    ensures RequestLine(line, methodName, proto) == LineResult(Separator, RequestHead(line[..a], line[a + 1..b]), v)
  {
    assert IndexOfFrom(line, SP, 0) == a;
    assert Http.LastIndexOf(line, SP) == b;
    assert SkipSpaces(line, a, b) == a + 1;
    assert TrimSpaces(line, a + 1, b) == b;
    assert RequestTarget(line, a, b, v) == LineResult(Separator, RequestHead(line[..a], line[a + 1..b]), v);
    assert RequestLine(line, methodName, proto) == RequestTarget(line, a, b, v);
  }

  /**
   * A request line made of a method without spaces, a resource that neither
   * starts nor ends with a space, and a version, one space apart, is split
   * back into exactly those parts.
   */
  lemma RequestLineRoundTrip(m: Bytes, res: Bytes, major: Bytes, minor: Bytes, methodName: Bytes, proto: Version)
    requires forall j :: 0 <= j < |m| ==> m[j] != SP
    requires res != [] && res[0] != SP && res[|res| - 1] != SP
    requires Digits(major) && Digits(minor)
    ensures RequestLine(m + [SP] + res + [SP] + ProtoText(major, minor), methodName, proto)
      == LineResult(Separator, RequestHead(m, res), Version(Decimal(major), Decimal(minor)))
  {
    var p := ProtoText(major, minor);
    var head := m + [SP] + res;
    var line := head + [SP] + p;
    ProtoTextHasNoSpace(major, minor);
    ProtoRoundTrip(major, minor);
    RequestLayout(m, res, p);
    RequestLineAt(line, |m|, |head|, Version(Decimal(major), Decimal(minor)), methodName, proto);
  }

  /** Where the spaces of a request line built from its parts lie. */
  lemma RequestLayout(m: Bytes, res: Bytes, p: Bytes)
    requires forall j :: 0 <= j < |m| ==> m[j] != SP
    requires res != [] && res[0] != SP && res[|res| - 1] != SP
    requires forall j :: 0 <= j < |p| ==> p[j] != SP
    ensures var head := m + [SP] + res; var line := head + [SP] + p; var b := |head|;
      && |m| + 1 < b < |line| && line[|m|] == SP && line[b] == SP
      && (forall j :: 0 <= j < |m| ==> line[j] != SP)
      && (forall j :: b < j < |line| ==> line[j] != SP)
      && line[|m| + 1] != SP && line[b - 1] != SP
      && line[b + 1..] == p && line[..|m|] == m && line[|m| + 1..b] == res
  {
    var head := m + [SP] + res;
    var line := head + [SP] + p;
    var b := |head|;
    assert line[..b] == head && line[b] == SP && line[b + 1..] == p;
    assert forall j :: b < j < |line| ==> line[j] != SP by {
      forall j | b < j < |line|
        ensures line[j] != SP
      {
        assert line[j] == p[j - b - 1];
      }
    }
    assert forall j :: 0 <= j < |m| ==> line[j] != SP by {
      forall j | 0 <= j < |m|
        ensures line[j] != SP
      {
        assert line[j] == head[j] == m[j];
      }
    }
    assert line[|m|] == head[|m|] == SP;
    assert line[|m| + 1] == head[|m| + 1] == res[0];
    assert line[b - 1] == head[b - 1] == res[|res| - 1];
    assert line[..|m|] == head[..|m|] == m;
    assert line[|m| + 1..b] == head[|m| + 1..] == res;
  }

  /**
   * A request line is accepted only as a method without spaces, at least
   * one space, a resource that neither starts nor ends with a space, at
   * least one space, and a version without spaces; the parts read are
   * those. So a line with a single space, or with only spaces between the
   * first and the last one, is refused.
   */
  lemma RequestLineParsed(line: Bytes, methodName: Bytes, proto: Version) returns (lo: nat, hi: nat, last: nat)
    ensures var r := RequestLine(line, methodName, proto);
      r.status == Separator ==> RequestParts(line, r.head.methodName, r.head.resource, lo, hi, last) && Proto(line[last + 1..]) == Some(r.proto)
  {
    var r := RequestLine(line, methodName, proto);
    if r.status == Separator {
      var first, v;
      first, last, lo, hi, v := RequestSeparator(line, methodName, proto);
      RequestPartsAt(line, first, last, lo, hi);
    } else {
      lo, hi, last := 0, 0, 0;
    }
  }

  /**
   * The layout of an accepted request line: the method m without spaces,
   * at least one space, the resource res from lo to hi neither starting
   * nor ending with a space, spaces up to the last one at `last`, and no
   * space after it.
   */
  ghost predicate RequestParts(line: Bytes, m: Bytes, res: Bytes, lo: nat, hi: nat, last: nat)
  {
    && |m| < lo < hi <= last < |line|
    && line[..|m|] == m && (forall j :: 0 <= j < |m| ==> m[j] != SP)
    && (forall j :: |m| <= j < lo ==> line[j] == SP)
    && line[lo..hi] == res && res[0] != SP && res[|res| - 1] != SP
    && (forall j :: hi <= j <= last ==> line[j] == SP)
    && (forall j :: last < j < |line| ==> line[j] != SP)
  }

  lemma RequestPartsAt(line: Bytes, first: nat, last: nat, lo: nat, hi: nat)
    requires last == Http.LastIndexOf(line, SP) < |line| && first == IndexOfFrom(line, SP, 0) < last
    requires lo == SkipSpaces(line, first, last) && hi == TrimSpaces(line, lo, last) && lo < hi
    ensures RequestParts(line, line[..first], line[lo..hi], lo, hi, last)
  {
  }

  /** Where the parts of an accepted request line lie. */
  lemma RequestSeparator(line: Bytes, methodName: Bytes, proto: Version) returns (first: nat, last: nat, lo: nat, hi: nat, v: Version)
    requires RequestLine(line, methodName, proto).status == Separator
    ensures last == Http.LastIndexOf(line, SP) < |line| && first == IndexOfFrom(line, SP, 0) < last
    ensures lo == SkipSpaces(line, first, last) && hi == TrimSpaces(line, lo, last) && lo < hi
    ensures RequestLine(line, methodName, proto) == LineResult(Separator, RequestHead(line[..first], line[lo..hi]), v)
    ensures Proto(line[last + 1..]) == Some(v)
  {
    last := Http.LastIndexOf(line, SP);
    first := IndexOfFrom(line, SP, 0);
    lo := SkipSpaces(line, first, last);
    hi := TrimSpaces(line, lo, last);
    v := RequestLine(line, methodName, proto).proto;
  }

  /**
   * A status line made of a version, a status code of at least 100, and a
   * reason that does not start with a space, one space apart, is split back
   * into exactly those parts.
   */
  lemma StatusLineRoundTrip(major: Bytes, minor: Bytes, code: Bytes, reason: Bytes, status: int, proto: Version)
    requires Digits(major) && Digits(minor) && Digits(code) && Decimal(code) >= 100
    requires reason == [] || reason[0] != SP
    ensures ResponseLine(ProtoText(major, minor) + [SP] + code + [SP] + reason, status, proto)
      == LineResult(Separator, ResponseHead(Decimal(code), reason), Version(Decimal(major), Decimal(minor)))
  {
    var p, v := ProtoText(major, minor), Version(Decimal(major), Decimal(minor));
    ProtoTextHasNoSpace(major, minor);
    ProtoRoundTrip(major, minor);
    StatusLayout(p, code, reason, v);
    StatusLineAt(p + [SP] + code + [SP] + reason, |p|, code, reason, v, status, proto);
  }

  /**
   * The line has its first space at a, the version v before it, the
   * digits of code after it up to a space, and reason after that space.
   */
  ghost predicate StatusShape(line: Bytes, a: nat, code: Bytes, reason: Bytes, v: Version)
  {
    && Digits(code) && Decimal(code) >= 100
    && a + |code| + 1 < |line| && line[a] == SP && line[a + |code| + 1] == SP
    && (forall j :: 0 <= j < a ==> line[j] != SP)
    && Proto(line[..a]) == Some(v)
    && (forall j :: a < j <= a + |code| ==> IsDigit(line[j]))
    && line[a + 1..a + |code| + 1] == code && line[a + |code| + 2..] == reason
    && (reason == [] || reason[0] != SP)
  }

  /**
   * A line of that shape is a status line whose status is the value of the
   * code and whose reason is what follows the space after it.
   */
  lemma StatusLineAt(line: Bytes, a: nat, code: Bytes, reason: Bytes, v: Version, status: int, proto: Version)
    requires StatusShape(line, a, code, reason, v)
    ensures ResponseLine(line, status, proto) == LineResult(Separator, ResponseHead(Decimal(code), reason), v)
  {
    assert IndexOfFrom(line, SP, 0) == a;
    StatusCodeAt(line, a, code, reason, v);
  }

  /** The part after the version, for the same line. */
  lemma StatusCodeAt(line: Bytes, a: nat, code: Bytes, reason: Bytes, v: Version)
    requires Digits(code) && Decimal(code) >= 100
    requires a + |code| + 1 < |line| && line[a] == SP && line[a + |code| + 1] == SP
    requires forall j :: a < j <= a + |code| ==> IsDigit(line[j])
    requires line[a + 1..a + |code| + 1] == code && line[a + |code| + 2..] == reason
    requires reason == [] || reason[0] != SP
    ensures StatusCode(line, a, v) == LineResult(Separator, ResponseHead(Decimal(code), reason), v)
  {
    var msg := a + |code| + 1;
    assert line[a + 1] == code[0];
    assert SkipSpaces(line, a, |line|) == a + 1;
    assert DigitsEnd(line, a + 1) == msg;
    assert reason != [] ==> line[msg + 1] == reason[0];
    assert SkipSpaces(line, msg, |line|) == msg + 1;
  }

  /** A status line built from its parts has that shape. */
  lemma StatusLayout(p: Bytes, code: Bytes, reason: Bytes, v: Version)
    requires forall j :: 0 <= j < |p| ==> p[j] != SP
    requires Proto(p) == Some(v) && Digits(code) && Decimal(code) >= 100
    requires reason == [] || reason[0] != SP
    ensures StatusShape(p + [SP] + code + [SP] + reason, |p|, code, reason, v)
  {
    var front := p + [SP] + code;
    var line := front + [SP] + reason;
    var a, msg := |p|, |front|;
    assert msg == a + |code| + 1;
    assert line[..msg] == front && line[msg] == SP && line[msg + 1..] == reason;
    assert forall j :: 0 <= j < a ==> line[j] != SP by {
      forall j | 0 <= j < a
        ensures line[j] != SP
      {
        assert line[j] == front[j] == p[j];
      }
    }
    assert forall j :: a < j < msg ==> IsDigit(line[j]) by {
      forall j | a < j < msg
        ensures IsDigit(line[j])
      {
        assert line[j] == front[j] == code[j - a - 1];
      }
    }
    assert line[a] == front[a] == SP;
    assert line[..a] == front[..a] == p;
    assert line[a + 1..msg] == front[a + 1..] == code;
  }

  /**
   * A status line is accepted only as a version without spaces, spaces, a
   * run of digits worth at least 100, at least one space, and a reason that
   * does not start with a space; the parts read are those.
   */
  lemma StatusLineParsed(line: Bytes, status: int, proto: Version) returns (first: nat, cur: nat, msg: nat, rest: nat)
    ensures var r := ResponseLine(line, status, proto);
      r.status == Separator ==>
        && first < cur < msg < rest <= |line|
        && (forall j :: 0 <= j < first ==> line[j] != SP) && Proto(line[..first]) == Some(r.proto)
        && (forall j :: first <= j < cur ==> line[j] == SP)
        && AllDigits(line[cur..msg]) && r.head.status == Decimal(line[cur..msg]) && r.head.status >= 100
        && (forall j :: msg <= j < rest ==> line[j] == SP)
        && r.head.reason == line[rest..] && (rest == |line| || line[rest] != SP)
  {
    var r := ResponseLine(line, status, proto);
    first := IndexOfFrom(line, SP, 0);
    if r.status == Separator {
      cur := SkipSpaces(line, first, |line|);
      msg := DigitsEnd(line, cur);
      rest := SkipSpaces(line, msg, |line|);
      assert line[cur..msg] == line[cur..msg];
    } else {
      cur, msg, rest := 0, 0, 0;
    }
  }

  /** The first CR of a + b lies past a when a holds none. */
  lemma IndexOfFromAppend(a: Bytes, b: Bytes, c: uint8)
    requires forall j :: 0 <= j < |a| ==> a[j] != c
    ensures IndexOfFrom(a + b, c, 0) == |a| + IndexOfFrom(b, c, 0)
  {
    var s, k := a + b, |a| + IndexOfFrom(b, c, 0);
    assert forall j :: 0 <= j < k ==> s[j] != c by {
      forall j | 0 <= j < k
        ensures s[j] != c
      {
        if j >= |a| {
          assert s[j] == b[j - |a|];
        }
      }
    }
    assert k < |s| ==> s[k] == c;
  }

  /**
   * Splitting the first line over two chunks reads the same line: when the
   * first chunk leaves the line incomplete, the second one completes or
   * breaks it exactly when the two together would, the line is the same,
   * and the counts differ by the first chunk. (A CR ending the first chunk
   * and not followed by LF is an error either way, but the count points at
   * the CR in one case and past it in the other.)
   */
  lemma GatherChunks(b0: Bytes, a: Bytes, b: Bytes)
    requires Gather(b0, a).More?
    ensures SameGather(Gather(b0, a + b), Gather(b0 + a, b), |a|)
  {
    if a == [] {
      assert a + b == b && b0 + a == b0;
    } else if IndexOfFrom(a, CR, 0) == |a| {
      GatherChunksNoCR(b0, a, b);
    } else {
      GatherChunksLastCR(b0, a, b);
    }
  }

  /**
   * Two readings of the same line agree: in outcome, in what is buffered,
   * in the line, and in the count, which differs by the n bytes already
   * given to the second reading.
   */
  predicate SameGather(whole: Gathered, g: Gathered, n: nat)
  {
    && (whole.More? <==> g.More?) && (whole.Broken? <==> g.Broken?) && (whole.Line? <==> g.Line?)
    && (whole.More? ==> whole.buffer == g.buffer)
    && (!whole.Broken? ==> whole.count == n + g.count)
    && (whole.Line? ==> whole.line == g.line)
  }

  /** The first chunk's bytes can join the buffer or the second chunk. */
  lemma Regroup(b0: Bytes, a: Bytes, b: Bytes, k: nat)
    requires k <= |b|
    ensures b0 + (a + b)[..|a| + k] == (b0 + a) + b[..k]
    ensures b0 + (a + b) == (b0 + a) + b
  {
    assert (a + b)[..|a| + k] == a + b[..k];
  }

  /** GatherChunks when the first chunk holds no CR. */
  lemma GatherChunksNoCR(b0: Bytes, a: Bytes, b: Bytes)
    requires Gather(b0, a).More? && a != [] && IndexOfFrom(a, CR, 0) == |a|
    ensures SameGather(Gather(b0, a + b), Gather(b0 + a, b), |a|)
  {
    IndexOfFromAppend(a, b, CR);
    var ib := IndexOfFrom(b, CR, 0);
    var it := IndexOfFrom(a + b, CR, 0);
    assert it == |a| + ib;
    assert b0 == [] || b0[|b0| - 1] != CR;
    assert (b0 + a)[|b0 + a| - 1] != CR by {
      assert (b0 + a)[|b0 + a| - 1] == a[|a| - 1];
    }
    if ib + 1 >= |b| {
      Regroup(b0, a, b, |b|);
      assert Gather(b0 + a, b) == More((b0 + a) + b, |b|);
      assert Gather(b0, a + b) == More(b0 + (a + b), |a + b|);
    } else if b[ib + 1] != LF {
      assert (a + b)[it + 1] == b[ib + 1];
      assert Gather(b0 + a, b) == Broken(ib);
      assert Gather(b0, a + b) == Broken(it);
    } else {
      assert (a + b)[it + 1] == b[ib + 1];
      Regroup(b0, a, b, ib);
      assert Gather(b0 + a, b) == Line((b0 + a) + b[..ib], ib + 2);
      assert Gather(b0, a + b) == Line(b0 + (a + b)[..it], it + 2);
    }
  }

  /** GatherChunks when the first chunk ends in its first CR. */
  lemma GatherChunksLastCR(b0: Bytes, a: Bytes, b: Bytes)
    requires Gather(b0, a).More? && a != [] && IndexOfFrom(a, CR, 0) != |a|
    ensures SameGather(Gather(b0, a + b), Gather(b0 + a, b), |a|)
  {
    var it := IndexOfFrom(a, CR, 0);
    assert b0 == [] || b0[|b0| - 1] != CR;
    GatherScan(b0, a);
    assert it == |a| - 1;
    assert IndexOfFrom(a + b, CR, 0) == it by {
      assert (a + b)[..it + 1] == a;
    }
    GatherScan(b0, a + b);
    assert (b0 + a)[|b0 + a| - 1] == CR;
    GatherAfterCR(b0 + a, b);
    if b == [] {
      assert a + b == a && (b0 + a) + b == b0 + a;
    } else {
      assert (a + b)[it + 1] == b[0];
      DropLast(b0, a, b);
    }
  }

  /** Dropping the first chunk's last byte from the buffer keeps the same bytes as the joined chunks do. */
  lemma DropLast(b0: Bytes, a: Bytes, b: Bytes)
    requires a != []
    ensures (b0 + a)[..|b0 + a| - 1] == b0 + (a + b)[..|a| - 1]
  {
    assert (a + b)[..|a| - 1] == a[..|a| - 1];
  }

  /** Gather with a buffer not ending in CR looks for the CR in the chunk. */
  lemma GatherScan(buf: Bytes, d: Bytes)
    requires buf == [] || buf[|buf| - 1] != CR
    ensures var it := IndexOfFrom(d, CR, 0);
      && (it + 1 >= |d| ==> Gather(buf, d) == More(buf + d, |d|))
      && (it + 1 < |d| && d[it + 1] != LF ==> Gather(buf, d) == Broken(it))
      && (it + 1 < |d| && d[it + 1] == LF ==> Gather(buf, d) == Line(buf + d[..it], it + 2))
  {
  }

  /** Gather with a buffer ending in CR reads only the chunk's first byte. */
  lemma GatherAfterCR(buf: Bytes, d: Bytes)
    requires buf != [] && buf[|buf| - 1] == CR
    ensures d == [] ==> Gather(buf, d) == More(buf, 0)
    ensures d != [] && d[0] != LF ==> Gather(buf, d) == Broken(0)
    ensures d != [] && d[0] == LF ==> Gather(buf, d) == Line(buf[..|buf| - 1], 1)
  {
  }

  /**
   * The count a fresh parser reports with the head complete ends right
   * before the CRLF of the empty line, so the head is that count plus two
   * bytes of the chunk.
   */
  lemma HeadCount(s: MessageState, data: Bytes)
    requires s.needsFirstLine && s.fields == ParserState([], [], map[], 0)
    ensures var d := Deliver(s, data);
      d.status == Separator ==> d.count + 2 <= |data| && data[d.count] == CR && data[d.count + 1] == LF
  {
    var d := Deliver(s, data);
    if d.status == Separator {
      var o := ReadFirstLine(s.head, s.proto, data);
      HeaderParserFacts.FeedCount(s.fields, data[o.count..]);
    }
  }
}

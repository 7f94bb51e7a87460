/**
 * The header-block parser of tangle's message layer: bytes arrive in
 * chunks, complete CRLF lines are cut into (name, value) spans over the
 * buffered bytes, a line starting with white space continues the previous
 * value, and the empty line ends the block, at which point every field is
 * cleaned by `produce` and filed under its lower-cased name.
 */
module HeaderParser {
  import opened ByteString
  import opened HeaderText

  const COLON := 0x3A
  const SIZE_RANGE := 0x1_0000_0000_0000_0000

  /** What an append reports. */
  datatype Parsing = Reading | Separator | Error

  /** A slice of the buffered bytes. */
  datatype Span = Span(offset: nat, length: nat)
  {
    predicate Within(bound: nat) { offset + length <= bound }
  }

  /** One header line, or a line and its continuations: the name and the value after the colon. */
  datatype Field = Field(name: Span, value: Span)

  /** Every span of every field ends at or before `bound`. */
  predicate Within(fields: seq<Field>, bound: nat)
  {
    forall i :: 0 <= i < |fields| ==> fields[i].name.Within(bound) && fields[i].value.Within(bound)
  }

  /** get: the bytes a span covers. */
  function Get(contents: Bytes, sp: Span): (r: Bytes)
    requires sp.Within(|contents|)
    ensures |r| == sp.length
  {
    contents[sp.offset..sp.offset + sp.length]
  }

  /** One turn of append's loop: it stops with a status, or cuts one line and goes on after it. */
  datatype Turn = Stop(status: Parsing, position: nat) | Next(lineEnd: nat, fields: seq<Field>)

  /**
   * The line at `cur`: with no CRLF yet, more bytes are wanted; a CR not
   * followed by LF is an error; an empty line is the separator; a line
   * starting with white space continues the last value (an error when
   * there is none); any other line needs a colon and starts a field.
   */
  function Step(buf: Bytes, cur: nat, fields: seq<Field>): (t: Turn)
    requires cur <= |buf| && Within(fields, cur)
    ensures t.Next? ==> cur < t.lineEnd <= |buf| && Within(t.fields, t.lineEnd)
  {
    var it := IndexOfFrom(buf, CR, cur);
    if it + 1 >= |buf| then Stop(Reading, 0)
    else if buf[it + 1] != LF then Stop(Error, it)
    else if it == cur then Stop(Separator, it)
    else
      var next := it + 2;
      if IsSpace(buf[cur]) then
        if fields == [] then Stop(Error, next) else Next(next, Continued(fields, next))
      else
        var colon := IndexOfFrom(buf[..next], COLON, cur);
        if colon == next then Stop(Error, next) else Next(next, fields + [Cut(cur, colon, next)])
  }

  /** Where the line-cutting loop of append stops, and the fields it has cut by then. */
  datatype Scanned = Scanned(status: Parsing, position: nat, lineEnd: nat, fields: seq<Field>)

  /** The reference for append's loop, from the start of the first line not yet cut. */
  function Scan(buf: Bytes, cur: nat, fields: seq<Field>): Scanned
    requires cur <= |buf| && Within(fields, cur)
    decreases |buf| - cur
  {
    match Step(buf, cur, fields)
    case Stop(status, position) => Scanned(status, position, cur, fields)
    case Next(next, cut) => Scan(buf, next, cut)
  }

  /** The field of a first line: name up to the colon, value after it through the line's CRLF. */
  function Cut(cur: nat, colon: nat, next: nat): (f: Field)
    requires cur <= colon < next
    ensures f.name.offset == cur && f.name.offset + f.name.length == colon
    ensures f.value.offset == colon + 1 && f.value.offset + f.value.length == next
  {
    Field(Span(cur, colon - cur), Span(colon + 1, next - colon - 1))
  }

  /** Scan moves the line mark forward within the buffer, and the fields stay within the lines cut. */
  lemma {:induction false} ScanBounds(buf: Bytes, cur: nat, fields: seq<Field>)
    requires cur <= |buf| && Within(fields, cur)
    ensures var r := Scan(buf, cur, fields);
      cur <= r.lineEnd <= |buf| && Within(r.fields, r.lineEnd)
    decreases |buf| - cur
  {
    var t := Step(buf, cur, fields);
    if t.Next? {
      ScanBounds(buf, t.lineEnd, t.fields);
    }
  }

  /**
   * Where Scan stops: a separator is a CRLF at the line mark, an error lies
   * at or after it, and when more bytes are wanted no complete line
   * follows the mark.
   */
  lemma {:induction false} ScanStatus(buf: Bytes, cur: nat, fields: seq<Field>)
    requires cur <= |buf| && Within(fields, cur)
    ensures var r := Scan(buf, cur, fields);
      && (r.status == Separator ==>
            r.position == r.lineEnd && r.position + 1 < |buf| && buf[r.position] == CR && buf[r.position + 1] == LF)
      && (r.status == Error ==> r.lineEnd <= r.position <= |buf|)
      && (r.status == Reading ==> r.lineEnd <= |buf| && IndexOfFrom(buf, CR, r.lineEnd) + 1 >= |buf|)
    decreases |buf| - cur
  {
    var t := Step(buf, cur, fields);
    if t.Next? {
      ScanStatus(buf, t.lineEnd, t.fields);
    }
  }

  /** A continuation line: the last value now runs to the end of that line. */
  function Continued(fields: seq<Field>, next: nat): (r: seq<Field>)
    requires fields != [] && fields[|fields| - 1].value.offset <= next
    ensures |r| == |fields| && r[..|r| - 1] == fields[..|fields| - 1]
    ensures r[|r| - 1].name == fields[|fields| - 1].name
    ensures r[|r| - 1].value == Span(fields[|fields| - 1].value.offset, next - fields[|fields| - 1].value.offset)
  {
    var last := fields[|fields| - 1];
    fields[..|fields| - 1] + [Field(last.name, Span(last.value.offset, next - last.value.offset))]
  }

  /**
   * report_read as the code would have it: the bytes of the latest chunk
   * that come before `position`, or 0 when `position` lies in an earlier
   * chunk.
   */
  function ReportRead(prev: nat, position: nat): (count: nat)
    ensures count <= position
    ensures position >= prev ==> prev + count == position
    ensures position <= prev ==> count == 0
  {
    if position > prev then position - prev else 0
  }

  /** report_read as written: the operands of the subtraction are swapped, and size_t wraps. */
  function ReportReadAsWritten(prev: nat, position: nat): (count: nat)
    requires prev < SIZE_RANGE && position < SIZE_RANGE
    ensures count < SIZE_RANGE
    ensures position <= prev ==> count == 0
  {
    if position > prev then (prev - position + SIZE_RANGE) % SIZE_RANGE else 0
  }

  /** The dictionary key of a field: the produced name, lower-cased. */
  function Key(buf: Bytes, f: Field): Bytes
    requires f.name.Within(|buf|)
  {
    LowerAll(Unfold(Trim(Get(buf, f.name))))
  }

  /** The dictionary value of a field: the produced value. */
  function Value(buf: Bytes, f: Field): Bytes
    requires f.value.Within(|buf|)
  {
    Unfold(Trim(Get(buf, f.value)))
  }

  /** The keys of a list of fields, in order. */
  function Keys(buf: Bytes, fields: seq<Field>): (r: seq<Bytes>)
    requires Within(fields, |buf|)
    ensures |r| == |fields| && forall i :: 0 <= i < |fields| ==> r[i] == Key(buf, fields[i])
    decreases |fields|
  {
    if fields == [] then [] else Keys(buf, fields[..|fields| - 1]) + [Key(buf, fields[|fields| - 1])]
  }

  /** The values of a list of fields, in order. */
  function Values(buf: Bytes, fields: seq<Field>): (r: seq<Bytes>)
    requires Within(fields, |buf|)
    ensures |r| == |fields| && forall i :: 0 <= i < |fields| ==> r[i] == Value(buf, fields[i])
    decreases |fields|
  {
    if fields == [] then [] else Values(buf, fields[..|fields| - 1]) + [Value(buf, fields[|fields| - 1])]
  }

  /** Each value appended to the list under its key, in order. */
  function Group(keys: seq<Bytes>, values: seq<Bytes>): map<Bytes, seq<Bytes>>
    requires |keys| == |values|
    decreases |keys|
  {
    if keys == [] then map[]
    else
      var d := Group(keys[..|keys| - 1], values[..|values| - 1]);
      var k := keys[|keys| - 1];
      d[k := (if k in d then d[k] else []) + [values[|values| - 1]]]
  }

  /** The dictionary rearrange builds. */
  function Collect(buf: Bytes, fields: seq<Field>): map<Bytes, seq<Bytes>>
    requires Within(fields, |buf|)
  {
    Group(Keys(buf, fields), Values(buf, fields))
  }

  /** One more pair filed: Group over a prefix grows by one update. */
  lemma GroupSnoc(keys: seq<Bytes>, values: seq<Bytes>, i: nat)
    requires |keys| == |values| && i < |keys|
    ensures var d := Group(keys[..i], values[..i]);
      Group(keys[..i + 1], values[..i + 1]) == d[keys[i] := (if keys[i] in d then d[keys[i]] else []) + [values[i]]]
  {
    assert keys[..i + 1][..i] == keys[..i];
    assert values[..i + 1][..i] == values[..i];
  }

  /** What a header parser holds between two appends. */
  datatype ParserState = ParserState(contents: Bytes, fieldList: seq<Field>, dict: map<Bytes, seq<Bytes>>, lastLineEnd: nat)
  {
    /** The cut lines lie in the buffer, and every field in them. */
    predicate Valid()
    {
      lastLineEnd <= |contents| && Within(fieldList, lastLineEnd)
    }
  }

  /** What one append reports and the state it leaves. */
  datatype Fed = Fed(count: nat, status: Parsing, after: ParserState)

  /**
   * append on a parser state: the chunk is buffered and scanned from the
   * last line mark; reading takes the whole chunk, an error or the
   * separator takes the bytes before the line that stopped the scan, and
   * the separator files the fields into the dictionary and clears the
   * buffer and the field list.
   */
  function Feed(s: ParserState, data: Bytes): (f: Fed)
    requires s.Valid()
    ensures f.count <= |data|
    ensures f.status == Reading ==> f.count == |data|
    ensures f.status != Separator ==> f.after.Valid() && f.after.contents == s.contents + data && f.after.dict == s.dict
    ensures f.status == Separator ==> f.after.contents == [] && f.after.fieldList == []
  {
    if data == [] then Fed(0, Reading, s)
    else
      var buf := s.contents + data;
      ScanBounds(buf, s.lastLineEnd, s.fieldList);
      ScanStatus(buf, s.lastLineEnd, s.fieldList);
      var r := Scan(buf, s.lastLineEnd, s.fieldList);
      if r.status == Reading then Fed(|data|, Reading, ParserState(buf, r.fields, s.dict, r.lineEnd))
      else if r.status == Error then Fed(ReportRead(|s.contents|, r.position), Error, ParserState(buf, r.fields, s.dict, r.lineEnd))
      else Fed(ReportRead(|s.contents|, r.position), Separator, ParserState([], [], Collect(buf, r.fields), r.lineEnd))
  }

  /** A header parser that is fed the head of a message chunk by chunk. */
  class Parser {
    var contents: Bytes
    var fieldList: seq<Field>
    var dict: map<Bytes, seq<Bytes>>
    var lastLineEnd: nat

    /** The parser's fields as a value. */
    function State(): ParserState
      reads this
    {
      ParserState(contents, fieldList, dict, lastLineEnd)
    }

    ghost predicate Valid()
      reads this
    {
      State().Valid()
    }

    constructor()
      ensures Valid()
      ensures contents == [] && fieldList == [] && dict == map[] && lastLineEnd == 0
    {
      contents, fieldList, dict, lastLineEnd := [], [], map[], 0;
    }

    /**
     * append: buffer the chunk and cut every complete line after the last
     * one cut; on the empty line, rearrange.
     */
    method Append(data: Bytes) returns (count: nat, status: Parsing)
      requires Valid()
      modifies this
      ensures var f := Feed(old(State()), data);
        count == f.count && status == f.status && State() == f.after
      ensures status != Separator ==> Valid()
    {
      if |data| == 0 {
        return 0, Reading;
      }
      var prev := |contents|;
      contents := contents + data;
      var position;
      ghost var start, fields := lastLineEnd, fieldList;
      status, position := CutLines(contents);
      ScanBounds(contents, start, fields);
      if status == Reading {
        return |data|, Reading;
      }
      count := ReportRead(prev, position);
      if status == Separator {
        Rearrange();
      }
    }

    /**
     * The loop of append: from the last line mark, cut complete lines into
     * fields until a line is incomplete, empty or malformed.
     */
    method CutLines(buf: Bytes) returns (status: Parsing, position: nat)
      requires lastLineEnd <= |buf| && Within(fieldList, lastLineEnd)
      modifies this
      ensures var r := Scan(buf, old(lastLineEnd), old(fieldList));
        status == r.status && position == r.position && lastLineEnd == r.lineEnd && fieldList == r.fields
      ensures contents == old(contents) && dict == old(dict)
    {
      ghost var target := Scan(buf, lastLineEnd, fieldList);
      var more := true;
      status, position := Reading, 0;
      while more
        invariant contents == old(contents) && dict == old(dict)
        invariant lastLineEnd <= |buf| && Within(fieldList, lastLineEnd)
        invariant more ==> Scan(buf, lastLineEnd, fieldList) == target
        invariant !more ==> target == Scanned(status, position, lastLineEnd, fieldList)
        decreases |buf| - lastLineEnd + (if more then 1 else 0)
      {
        more, status, position := CutLine(buf);
      }
    }

    /** One turn of the loop of append, on the line at the line mark. */
    method CutLine(buf: Bytes) returns (more: bool, status: Parsing, position: nat)
      requires lastLineEnd <= |buf| && Within(fieldList, lastLineEnd)
      modifies this
      ensures contents == old(contents) && dict == old(dict)
      ensures var t := Step(buf, old(lastLineEnd), old(fieldList));
        && (more <==> t.Next?)
        && (t.Stop? ==> status == t.status && position == t.position
                         && lastLineEnd == old(lastLineEnd) && fieldList == old(fieldList))
        && (t.Next? ==> lastLineEnd == t.lineEnd && fieldList == t.fields)
    {
      var cur := lastLineEnd;
      var it := IndexOfFrom(buf, CR, cur);
      if it + 1 >= |buf| {
        return false, Reading, 0;
      }
      if buf[it + 1] != LF {
        return false, Error, it;
      }
      if it == cur {
        return false, Separator, it;
      }
      var next := it + 2;
      if IsSpace(buf[cur]) {
        if fieldList == [] {
          return false, Error, next;
        }
        lastLineEnd := next;
        fieldList := Continued(fieldList, next);
      } else {
        var colon := IndexOfFrom(buf[..next], COLON, cur);
        if colon == next {
          return false, Error, next;
        }
        lastLineEnd := next;
        fieldList := fieldList + [Cut(cur, colon, next)];
      }
      return true, Reading, 0;
    }

    /**
     * rearrange: file every field under its key, then drop the buffer and
     * the spans. The line mark is left where it was.
     */
    method Rearrange()
      requires Within(fieldList, |contents|)
      modifies this
      ensures dict == Collect(old(contents), old(fieldList))
      ensures contents == [] && fieldList == [] && lastLineEnd == old(lastLineEnd)
    {
      var buf, fields := contents, fieldList;
      ghost var keys, values := Keys(buf, fields), Values(buf, fields);
      dict := map[];
      var i := 0;
      while i < |fields|
        invariant i <= |fields| && dict == Group(keys[..i], values[..i])
        invariant lastLineEnd == old(lastLineEnd)
      {
        var key, value := FieldText(buf, fields[i]);
        assert key == keys[i] && value == values[i];
        var list := if key in dict then dict[key] else [];
        GroupSnoc(keys, values, i);
        dict := dict[key := list + [value]];
        i := i + 1;
      }
      assert keys[..i] == keys && values[..i] == values;
      fieldList, contents := [], [];
    }

    /** The key and the value of one field, as rearrange files them. */
    static method FieldText(buf: Bytes, f: Field) returns (key: Bytes, value: Bytes)
      requires f.name.Within(|buf|) && f.value.Within(|buf|)
      ensures key == Key(buf, f) && value == Value(buf, f)
    {
      key := Produce(Get(buf, f.name));
      key := Lower(key);
      value := Produce(Get(buf, f.value));
    }

    /** dict(): the dictionary is moved out; what is left behind is empty. */
    method TakeDict() returns (d: map<Bytes, seq<Bytes>>)
      modifies this
      ensures d == old(dict) && dict == map[]
      ensures contents == old(contents) && fieldList == old(fieldList) && lastLineEnd == old(lastLineEnd)
    {
      d := dict;
      dict := map[];
    }
  }
}

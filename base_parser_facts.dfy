/**
 * What the header parser promises: the dictionary groups values by key in
 * arrival order, the way the bytes are split into chunks does not change
 * what is cut, names never hold the colon, and the count of an append
 * covers the bytes of that append before the separator.
 */
module HeaderParserFacts {
  import opened ByteString
  import opened HeaderText
  import opened HeaderParser

  /** The values whose key is k, in order: the reference for Group. */
  function Select(keys: seq<Bytes>, values: seq<Bytes>, k: Bytes): (r: seq<Bytes>)
    requires |keys| == |values|
    ensures |r| <= |keys|
    decreases |keys|
  {
    if keys == [] then []
    else
      var rest := Select(keys[..|keys| - 1], values[..|values| - 1], k);
      if keys[|keys| - 1] == k then rest + [values[|values| - 1]] else rest
  }

  /** Select finds a value exactly for the keys that occur. */
  lemma {:induction false} SelectEmpty(keys: seq<Bytes>, values: seq<Bytes>, k: Bytes)
    requires |keys| == |values|
    ensures Select(keys, values, k) == [] <==> k !in keys
    decreases |keys|
  {
    if keys != [] {
      SelectEmpty(keys[..|keys| - 1], values[..|values| - 1], k);
      assert keys == keys[..|keys| - 1] + [keys[|keys| - 1]];
    }
  }

  /**
   * Group files every value under its key: a key is present exactly when
   * some field has it, and its list holds the values of those fields in
   * arrival order.
   */
  lemma {:induction false} GroupIsSelect(keys: seq<Bytes>, values: seq<Bytes>, k: Bytes)
    requires |keys| == |values|
    ensures k in Group(keys, values) <==> k in keys
    ensures k in Group(keys, values) ==> Group(keys, values)[k] == Select(keys, values, k)
    decreases |keys|
  {
    if keys != [] {
      var ks, vs := keys[..|keys| - 1], values[..|values| - 1];
      GroupIsSelect(ks, vs, k);
      SelectEmpty(ks, vs, k);
      assert keys == ks + [keys[|keys| - 1]];
    }
  }

  /** The dictionary of rearrange, key by key. */
  lemma CollectGroups(buf: Bytes, fields: seq<Field>, k: Bytes)
    requires Within(fields, |buf|)
    ensures k in Collect(buf, fields) <==> exists i :: 0 <= i < |fields| && Key(buf, fields[i]) == k
    ensures k in Collect(buf, fields) ==> Collect(buf, fields)[k] == Select(Keys(buf, fields), Values(buf, fields), k)
  {
    var keys := Keys(buf, fields);
    GroupIsSelect(keys, Values(buf, fields), k);
    if k in keys {
      var i :| 0 <= i < |keys| && keys[i] == k;
      assert Key(buf, fields[i]) == k;
    }
  }

  /** Every key of the dictionary is in lower case. */
  lemma CollectKeysLower(buf: Bytes, fields: seq<Field>, k: Bytes)
    requires Within(fields, |buf|) && k in Collect(buf, fields)
    ensures forall j :: 0 <= j < |k| ==> !IsUpper(k[j])
  {
    CollectGroups(buf, fields, k);
  }

  /** A complete line inside the first chunk is found the same way once more bytes follow. */
  lemma {:induction false} IndexOfFromPrefix(a: Bytes, b: Bytes, c: uint8, from: nat)
    requires from <= |a| && IndexOfFrom(a, c, from) < |a|
    ensures IndexOfFrom(a + b, c, from) == IndexOfFrom(a, c, from)
    decreases |a| - from
  {
    if a[from] != c {
      IndexOfFromPrefix(a, b, c, from + 1);
    }
  }

  /** A line the first chunk completes is cut the same way with more bytes after it. */
  lemma StepPrefix(a: Bytes, b: Bytes, cur: nat, fields: seq<Field>)
    requires cur <= |a| && Within(fields, cur) && Step(a, cur, fields).Next?
    ensures Step(a + b, cur, fields) == Step(a, cur, fields)
  {
    var it := IndexOfFrom(a, CR, cur);
    IndexOfFromPrefix(a, b, CR, cur);
    assert (a + b)[..it + 2] == a[..it + 2];
  }

  /**
   * Splitting the input does not matter: when the bytes so far leave the
   * parser reading, scanning them together with the next chunk gives what
   * scanning the next chunk from where the first one stopped gives.
   */
  lemma {:induction false} ScanChunks(a: Bytes, b: Bytes, cur: nat, fields: seq<Field>)
    requires cur <= |a| && Within(fields, cur) && Scan(a, cur, fields).status == Reading
    ensures var r := Scan(a, cur, fields);
      r.lineEnd <= |a| && Within(r.fields, r.lineEnd) && Scan(a + b, cur, fields) == Scan(a + b, r.lineEnd, r.fields)
    decreases |a| - cur
  {
    var t := Step(a, cur, fields);
    if t.Next? {
      StepPrefix(a, b, cur, fields);
      ScanChunks(a, b, t.lineEnd, t.fields);
    }
  }

  /** No name holds a colon. */
  ghost predicate NamesClean(buf: Bytes, fields: seq<Field>)
    requires Within(fields, |buf|)
  {
    forall i :: 0 <= i < |fields| ==> COLON !in Get(buf, fields[i].name)
  }

  /** A name is cut at the first colon of its line, so no name Scan cuts holds one. */
  lemma {:induction false} ScanNames(buf: Bytes, cur: nat, fields: seq<Field>)
    requires cur <= |buf| && Within(fields, cur) && NamesClean(buf, fields)
    ensures var r := Scan(buf, cur, fields);
      r.lineEnd <= |buf| && Within(r.fields, r.lineEnd) && NamesClean(buf, r.fields)
    decreases |buf| - cur
  {
    ScanBounds(buf, cur, fields);
    var t := Step(buf, cur, fields);
    if t.Next? {
      StepNames(buf, cur, fields);
      ScanNames(buf, t.lineEnd, t.fields);
    }
  }

  /** One line cut keeps the names clean. */
  lemma StepNames(buf: Bytes, cur: nat, fields: seq<Field>)
    requires cur <= |buf| && Within(fields, cur) && NamesClean(buf, fields)
    ensures var t := Step(buf, cur, fields);
      t.Next? ==> NamesClean(buf, t.fields)
  {
    var t := Step(buf, cur, fields);
    if t.Next? {
      var next := IndexOfFrom(buf, CR, cur) + 2;
      if IsSpace(buf[cur]) {
        forall i | 0 <= i < |t.fields|
          ensures COLON !in Get(buf, t.fields[i].name)
        {
          assert t.fields[i].name == fields[i].name;
        }
      } else {
        var colon := IndexOfFrom(buf[..next], COLON, cur);
        assert Get(buf, t.fields[|fields|].name) == buf[..next][cur..colon];
        assert t.fields[..|fields|] == fields;
      }
    }
  }

  /**
   * The count append reports never exceeds the bytes it was given (those
   * of `buf` after `prev`), and on a separator inside the latest chunk it
   * is the number of bytes before the separator's CRLF.
   */
  lemma AppendCount(buf: Bytes, prev: nat, cur: nat, fields: seq<Field>)
    requires cur <= prev <= |buf| && Within(fields, cur)
    ensures var r := Scan(buf, cur, fields);
      && (r.status != Reading ==> ReportRead(prev, r.position) <= |buf| - prev)
      && (r.status == Separator && r.position >= prev ==>
            var count := ReportRead(prev, r.position);
            count + 1 < |buf| - prev && buf[prev + count] == CR && buf[prev + count + 1] == LF)
  {
    ScanStatus(buf, cur, fields);
  }

  /**
   * Fed to a parser whose line mark is at the end of what it holds (a fresh
   * one, say), the count of an append that completes the head ends right
   * before the CRLF of the empty line.
   */
  lemma FeedCount(s: ParserState, data: Bytes)
    requires s.Valid() && s.lastLineEnd == |s.contents|
    ensures var f := Feed(s, data);
      f.status == Separator ==> f.count + 2 <= |data| && data[f.count] == CR && data[f.count + 1] == LF
  {
    if data != [] {
      var buf := s.contents + data;
      ScanBounds(buf, s.lastLineEnd, s.fieldList);
      ScanStatus(buf, s.lastLineEnd, s.fieldList);
      var r := Scan(buf, s.lastLineEnd, s.fieldList);
      if r.status == Separator {
        var count := r.position - |s.contents|;
        assert Feed(s, data).count == count;
        assert buf[r.position] == data[count] && buf[r.position + 1] == data[count + 1];
      }
    }
  }

  /**
   * report_read as written: for a head with one field, fed at once to a
   * fresh parser, the separator is found at 6 and the count reported is
   * 2^64 - 6 instead of 6.
   */
  lemma ReportReadWraps()
    ensures var buf := [0x61, COLON, 0x20, 0x62, CR, LF, CR, LF];
      var r := Scan(buf, 0, []);
      && r.status == Separator && r.position == 6
      && ReportReadAsWritten(0, r.position) == SIZE_RANGE - 6
      && ReportRead(0, r.position) == 6
  {
    var buf: Bytes := [0x61, COLON, 0x20, 0x62, CR, LF, CR, LF];
    assert IndexOfFrom(buf, CR, 4) == 4;
    assert IndexOfFrom(buf, CR, 3) == 4;
    assert IndexOfFrom(buf, CR, 2) == 4;
    assert IndexOfFrom(buf, CR, 1) == 4;
    assert IndexOfFrom(buf, CR, 0) == 4;
    assert IndexOfFrom(buf[..6], COLON, 1) == 1;
    assert IndexOfFrom(buf[..6], COLON, 0) == 1;
    var f := Cut(0, 1, 6);
    assert Step(buf, 0, []) == Next(6, [f]);
    assert IndexOfFrom(buf, CR, 6) == 6;
    assert Step(buf, 6, [f]) == Stop(Separator, 6);
  }

  /** Whenever the separator lies in the latest chunk past its first byte, report_read as written overflows the chunk. */
  lemma ReportReadAsWrittenOverflows(prev: nat, position: nat, length: nat)
    requires prev < position <= prev + length && prev + length < SIZE_RANGE / 2
    ensures ReportReadAsWritten(prev, position) > length
    ensures ReportRead(prev, position) <= length
  {
  }
}

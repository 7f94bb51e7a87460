/** What query_builder::parse, string and list promise of each other. */
module UriQueryFacts {
  import opened ByteString
  import opened UriCodec
  import opened UriQuery
  import UriCodecFacts

  /** Every name holds at least one value: what add and parse leave behind. */
  ghost predicate Filled(values: Values)
  {
    forall k :: k in values ==> values[k] != []
  }

  // ---------------------------------------------------------------------
  // string with and without the question mark

  /** A field's text is never empty: it holds the '='. */
  lemma FieldTextNonEmpty(f: Field)
    ensures FieldText(f) != []
  {
    assert |FieldText(f)| >= 1;
  }

  /** A rendering is empty exactly when there are no fields. */
  lemma RenderEmpty(fields: seq<Field>, lead: Bytes)
    ensures Render(fields, lead) == [] <==> fields == []
  {
    if fields != [] {
      var ts := Texts(fields);
      FieldTextNonEmpty(fields[|fields| - 1]);
      assert |Glue(ts, lead)| >= |ts[|ts| - 1]| > 0;
    }
  }

  lemma {:induction false} GlueLead(ts: seq<Bytes>)
    ensures Glue(ts, [QMARK]) == if ts == [] then [] else [QMARK] + Glue(ts, [])
    decreases |ts|
  {
    var n := |ts|;
    if n == 1 {
      assert ts[..0] == [];
    } else if n > 1 {
      var init, last := ts[..n - 1], ts[n - 1];
      GlueLead(init);
      var r := Glue(init, []);
      assert Glue(ts, [QMARK]) == [QMARK] + r + [AMP] + last;
      assert Glue(ts, []) == r + [AMP] + last;
    }
  }

  /** start_with_qmark only puts a '?' in front of a non-empty form_urlencoded string. */
  lemma QmarkLead(fields: seq<Field>)
    ensures Render(fields, Lead(true)) ==
      if fields == [] then [] else [QMARK] + Render(fields, Lead(false))
  {
    GlueLead(Texts(fields));
  }

  // ---------------------------------------------------------------------
  // Scanning over encoded text

  /** What urlencode writes: unreserved bytes and '%'. */
  ghost predicate Plain(s: Bytes)
  {
    forall k :: 0 <= k < |s| ==> IsSafe(s[k]) || s[k] == PERCENT
  }

  lemma PlainEncode(s: Bytes)
    ensures Plain(Encode(Unreserved, s))
  {
    UriCodecFacts.EncodeOnlySafe(s);
  }

  /** No scan stops at a byte urlencode writes, except the scan over spaces. */
  lemma PlainByte(b: uint8)
    requires IsSafe(b) || b == PERCENT
    ensures !Stops(Name, b) && !Stops(Value, b) && Stops(Spaces, b)
  {
  }

  /** Where a scan stops, from what lies between. */
  lemma {:induction false} ScanToAt(q: Bytes, c: nat, kind: Scan, k: nat)
    requires c <= k <= |q|
    requires forall j :: c <= j < k ==> !Stops(kind, q[j])
    requires k < |q| ==> Stops(kind, q[k])
    ensures ScanTo(q, c, kind) == k
    decreases k - c
  {
    if c < k {
      ScanToAt(q, c + 1, kind, k);
    }
  }

  /** A scan for a name or a value runs over encoded text to the byte that follows it. */
  lemma ScanOver(q: Bytes, a: nat, s: Bytes, kind: Scan)
    requires a + |s| <= |q| && q[a..a + |s|] == s && Plain(s) && kind != Spaces
    requires a + |s| < |q| ==> Stops(kind, q[a + |s|])
    ensures ScanTo(q, a, kind) == a + |s|
  {
    forall j | a <= j < a + |s|
      ensures !Stops(kind, q[j])
    {
      assert q[j] == s[j - a];
      PlainByte(s[j - a]);
    }
    ScanToAt(q, a, kind, a + |s|);
  }

  /** A scan over spaces ends at once on a byte that is no space, or at the end. */
  lemma ScanNoSpace(q: Bytes, a: nat)
    requires a <= |q| && (a < |q| ==> !IsSpace(q[a]))
    ensures ScanTo(q, a, Spaces) == a
  {
  }

  // ---------------------------------------------------------------------
  // Reading back one field

  /** Where the parts of a written field lie. */
  lemma FieldLayout(q: Bytes, c: nat, f: Field, rest: Bytes)
    requires c <= |q| && q[c..] == FieldText(f) + rest
    ensures var n, v := Encode(Unreserved, f.0), Encode(Unreserved, f.1);
      c + |n| + 1 + |v| <= |q| &&
      q[c..c + |n|] == n && q[c + |n|] == EQUALS &&
      q[c + |n| + 1..c + |n| + 1 + |v|] == v && q[c + |n| + 1 + |v|..] == rest
  {
    var n, v := Encode(Unreserved, f.0), Encode(Unreserved, f.1);
    var t := q[c..];
    assert t == n + [EQUALS] + v + rest;
    assert q[c..c + |n|] == t[..|n|];
    assert q[c + |n|] == t[|n|];
    assert q[c + |n| + 1..c + |n| + 1 + |v|] == t[|n| + 1..|n| + 1 + |v|];
    assert q[c + |n| + 1 + |v|..] == t[|n| + 1 + |v|..];
  }

  /** The first byte of encoded text, or of what follows it. */
  lemma FirstByte(q: Bytes, a: nat, s: Bytes, stop: uint8)
    requires a + |s| <= |q| && q[a..a + |s|] == s && Plain(s)
    requires a + |s| < |q| ==> q[a + |s|] == stop
    requires stop == EQUALS || stop == AMP
    ensures a < |q| ==> !IsSpace(q[a])
  {
    if s != [] {
      assert q[a] == s[0];
      PlainByte(s[0]);
    }
  }

  /** The scans over an encoded name and the '=' after it. */
  lemma NameScans(q: Bytes, c: nat, n: Bytes)
    requires c + |n| < |q| && q[c..c + |n|] == n && q[c + |n|] == EQUALS && Plain(n)
    ensures ScanTo(q, c, Spaces) == c && ScanTo(q, c, Name) == c + |n| && ScanTo(q, c + |n|, Spaces) == c + |n|
  {
    FirstByte(q, c, n, EQUALS);
    ScanNoSpace(q, c);
    ScanOver(q, c, n, Name);
    ScanNoSpace(q, c + |n|);
  }

  /** The scans over an encoded value, up to the '&' after it or the end. */
  lemma ValueScans(q: Bytes, a: nat, v: Bytes)
    requires a + |v| <= |q| && q[a..a + |v|] == v && (a + |v| < |q| ==> q[a + |v|] == AMP) && Plain(v)
    ensures ScanTo(q, a, Spaces) == a && ScanTo(q, a, Value) == a + |v| && ScanTo(q, a + |v|, Spaces) == a + |v|
  {
    FirstByte(q, a, v, AMP);
    ScanNoSpace(q, a);
    ScanOver(q, a, v, Value);
    ScanNoSpace(q, a + |v|);
  }

  /** A name and a value written as `n=v`, with '&' or the end after them, are read back decoded. */
  lemma ReadPieces(q: Bytes, c: nat, n: Bytes, v: Bytes)
    requires c + |n| + 1 + |v| <= |q|
    requires q[c..c + |n|] == n && q[c + |n|] == EQUALS && q[c + |n| + 1..c + |n| + 1 + |v|] == v
    requires c + |n| + 1 + |v| < |q| ==> q[c + |n| + 1 + |v|] == AMP
    requires Plain(n) && Plain(v)
    ensures ReadField(q, c) == FieldRead(n, v, c + |n| + 1 + |v|)
  {
    NameScans(q, c, n);
    ValueScans(q, c + |n| + 1, v);
    ReadFieldWith(q, c, c + |n|, c + |n| + 1 + |v|);
  }

  /** parse reads a written field back whole, stopping at the '&' after it or the end. */
  lemma ReadWritten(q: Bytes, c: nat, f: Field, rest: Bytes)
    requires c <= |q| && q[c..] == FieldText(f) + rest
    requires rest == [] || rest[0] == AMP
    ensures ReadField(q, c) == FieldRead(Encode(Unreserved, f.0), Encode(Unreserved, f.1), c + |FieldText(f)|)
  {
    var n, v := Encode(Unreserved, f.0), Encode(Unreserved, f.1);
    FieldLayout(q, c, f, rest);
    var end := c + |n| + 1 + |v|;
    assert end < |q| ==> q[end] == AMP by {
      if end < |q| {
        assert q[end..][0] == q[end];
      }
    }
    PlainEncode(f.0);
    PlainEncode(f.1);
    ReadPieces(q, c, n, v);
  }

  /** ReadField, once its scans are known. */
  lemma ReadFieldWith(q: Bytes, c: nat, eq: nat, end: nat)
    requires c <= eq < end <= |q|
    requires ScanTo(q, c, Spaces) == c && ScanTo(q, c, Name) == eq
    requires q[eq] == EQUALS && ScanTo(q, eq, Spaces) == eq && ScanTo(q, eq + 1, Spaces) == eq + 1
    requires ScanTo(q, eq + 1, Value) == end && ScanTo(q, end, Spaces) == end
    ensures ReadField(q, c) == FieldRead(q[c..eq], q[eq + 1..end], end)
  {
  }

  // ---------------------------------------------------------------------
  // parse after string

  lemma {:induction false} GlueCons(t: Bytes, ts: seq<Bytes>)
    ensures Glue([t] + ts, []) == t + (if ts == [] then [] else [AMP] + Glue(ts, []))
    decreases |ts|
  {
    var all := [t] + ts;
    var n := |ts|;
    if n == 0 {
      assert all[..0] == [];
      assert Glue(all, []) == [] + [] + t;
    } else {
      var init, last := ts[..n - 1], ts[n - 1];
      assert all[..|all| - 1] == [t] + init;
      assert Glue(all, []) == Glue([t] + init, []) + [AMP] + last;
      GlueCons(t, init);
      if n == 1 {
        assert init == [];
        assert Glue(ts, []) == [] + [] + last;
      } else {
        var r := Glue(init, []);
        assert Glue(ts, []) == r + [AMP] + last;
        assert Glue([t] + init, []) == t + ([AMP] + r);
        Assoc(t, [AMP] + r, [AMP] + last);
      }
    }
  }

  /** form_urlencoded string with a field in front. */
  lemma RenderCons(f: Field, fields: seq<Field>)
    ensures Render([f] + fields, []) ==
      FieldText(f) + (if fields == [] then [] else [AMP] + Render(fields, []))
  {
    assert Texts([f] + fields) == [FieldText(f)] + Texts(fields);
    GlueCons(FieldText(f), Texts(fields));
  }

  /** What follows a written field: nothing, or '&' and the fields after it. */
  lemma AfterWritten(q: Bytes, c: nat, f: Field, fs: seq<Field>)
    requires c <= |q| && q[c..] == Render([f] + fs, [])
    ensures var next := c + |FieldText(f)|;
      next <= |q| &&
      q[c..] == FieldText(f) + (if fs == [] then [] else [AMP] + Render(fs, [])) &&
      (fs == [] ==> next == |q|) &&
      (fs != [] ==> next < |q| && q[next] == AMP && q[next + 1..] == Render(fs, []))
  {
    RenderCons(f, fs);
    var t := FieldText(f);
    var rest := if fs == [] then [] else [AMP] + Render(fs, []);
    var next := c + |t|;
    assert q[next..] == q[c..][|t|..] == rest;
    if fs != [] {
      assert q[next] == q[next..][0];
      assert q[next + 1..] == q[next..][1..];
    }
  }

  /** Every field with its name and value encoded, as string writes them. */
  function EncodeAll(fields: seq<Field>): (r: seq<Field>)
    ensures |r| == |fields|
    ensures forall i :: 0 <= i < |fields| ==> r[i] == (Encode(Unreserved, fields[i].0), Encode(Unreserved, fields[i].1))
  {
    seq(|fields|, i requires 0 <= i < |fields| => (Encode(Unreserved, fields[i].0), Encode(Unreserved, fields[i].1)))
  }

  lemma EncodeAllCons(f: Field, fs: seq<Field>)
    ensures EncodeAll([f] + fs) == [(Encode(Unreserved, f.0), Encode(Unreserved, f.1))] + EncodeAll(fs)
  {
    assert ([f] + fs)[0] == f;
    forall i | 0 <= i < |fs|
      ensures ([f] + fs)[i + 1] == fs[i]
    {
    }
  }

  /** parse reads the first written field, then goes on after the '&' that follows it, if any. */
  lemma WrittenStep(q: Bytes, c: nat, f: Field, fs: seq<Field>) returns (next: nat)
    requires c <= |q| && q[c..] == Render([f] + fs, [])
    ensures next <= |q|
    ensures fs == [] ==> FieldsFrom(q, c) == [(Encode(Unreserved, f.0), Encode(Unreserved, f.1))]
    ensures fs != [] ==> next < |q| && q[next + 1..] == Render(fs, [])
    ensures fs != [] ==> FieldsFrom(q, c) == [(Encode(Unreserved, f.0), Encode(Unreserved, f.1))] + FieldsFrom(q, next + 1)
  {
    AfterWritten(q, c, f, fs);
    var rest := if fs == [] then [] else [AMP] + Render(fs, []);
    next := c + |FieldText(f)|;
    ReadWritten(q, c, f, rest);
    FieldsFromStep(q, c, Encode(Unreserved, f.0), Encode(Unreserved, f.1), next);
  }

  /** parse finds the written fields from `c` on, one by one, still encoded. */
  lemma {:induction false} FieldsWritten(q: Bytes, c: nat, fields: seq<Field>)
    requires c <= |q| && q[c..] == Render(fields, [])
    ensures FieldsFrom(q, c) == EncodeAll(fields)
    decreases |fields|
  {
    if fields == [] {
      assert |q[c..]| == 0;
    } else {
      var f, fs := fields[0], fields[1..];
      assert fields == [f] + fs;
      var next := WrittenStep(q, c, f, fs);
      EncodeAllCons(f, fs);
      if fs == [] {
        assert EncodeAll(fs) == [];
      } else {
        assert FieldsFrom(q, next + 1) == EncodeAll(fs) by {
          FieldsWritten(q, next + 1, fs);
        }
      }
    }
  }

  lemma DecodeAllEncodeAll(fields: seq<Field>)
    ensures DecodeAll(EncodeAll(fields)) == fields
  {
    forall i | 0 <= i < |fields|
      ensures DecodeAll(EncodeAll(fields))[i] == fields[i]
    {
      UriCodecFacts.DecodeEncode(Unreserved, fields[i].0);
      UriCodecFacts.DecodeEncode(Unreserved, fields[i].1);
    }
  }

  /** parse reads back every field that form_urlencoded string wrote, in order. */
  lemma ParseRender(fields: seq<Field>)
    ensures ParseQuery(Render(fields, [])) == AddAll(map[], fields)
  {
    var q := Render(fields, []);
    assert q[0..] == q;
    FieldsWritten(q, 0, fields);
    DecodeAllEncodeAll(fields);
  }

  // ---------------------------------------------------------------------
  // Adding back what list produced

  lemma {:induction false} AddAllSnoc(acc: Values, fields: seq<Field>, f: Field)
    ensures AddAll(acc, fields + [f]) == Added(AddAll(acc, fields), f.0, f.1)
    decreases |fields|
  {
    if fields == [] {
      assert [] + [f] == [f];
    } else {
      assert (fields + [f])[1..] == fields[1..] + [f];
      AddAllSnoc(Added(acc, fields[0].0, fields[0].1), fields[1..], f);
    }
  }

  lemma {:induction false} AddAllAppend(acc: Values, a: seq<Field>, b: seq<Field>)
    ensures AddAll(acc, a + b) == AddAll(AddAll(acc, a), b)
    decreases |a|
  {
    if a == [] {
      assert a + b == b;
    } else {
      assert (a + b)[1..] == a[1..] + b;
      AddAllAppend(Added(acc, a[0].0, a[0].1), a[1..], b);
    }
  }

  /** Adding the values of a name that is not there yet gives it those values. */
  lemma {:induction false} AddEntries(acc: Values, k: Bytes, vs: seq<Bytes>, j: nat)
    requires k !in acc && 0 < j <= |vs|
    ensures AddAll(acc, Entries(k, vs[..j])) == acc[k := vs[..j]]
    decreases j
  {
    if j == 1 {
      assert Entries(k, vs[..1]) == [(k, vs[0])];
      assert [(k, vs[0])][1..] == [];
      assert AddAll(acc, [(k, vs[0])]) == Added(acc, k, vs[0]);
      assert vs[..1] == [] + [vs[0]];
    } else {
      AddEntries(acc, k, vs, j - 1);
      EntriesSnoc(k, vs, j - 1);
      AddAllSnoc(acc, Entries(k, vs[..j - 1]), (k, vs[j - 1]));
      assert vs[..j - 1] + [vs[j - 1]] == vs[..j];
    }
  }

  /** The values of the names visited so far. */
  ghost function Visited(values: Values, order: seq<Bytes>): Values
    requires forall k :: k in order ==> k in values
  {
    map k | k in values && k in order :: values[k]
  }

  /** A name of the order is not among the names before it. */
  lemma NotBefore(order: seq<Bytes>, i: nat)
    requires i < |order| && forall a, b :: 0 <= a < b < |order| ==> order[a] != order[b]
    ensures order[i] !in order[..i]
  {
    forall m | 0 <= m < i
      ensures order[..i][m] != order[i]
    {
      assert order[..i][m] == order[m];
    }
  }

  /** Visiting one more name. */
  lemma VisitedSnoc(values: Values, order: seq<Bytes>, i: nat)
    requires i < |order| && forall k :: k in order ==> k in values
    ensures Visited(values, order[..i + 1]) == Visited(values, order[..i])[order[i] := values[order[i]]]
  {
    assert order[..i + 1] == order[..i] + [order[i]];
  }

  lemma {:induction false} AddPairs(values: Values, order: seq<Bytes>, i: nat)
    requires IsOrder(values, order) && Filled(values) && i <= |order|
    ensures AddAll(map[], Pairs(values, order[..i])) == Visited(values, order[..i])
    decreases i
  {
    if i == 0 {
      assert Visited(values, order[..0]) == map[];
    } else {
      var j := i - 1;
      var k, vs := order[j], values[order[j]];
      var before := Visited(values, order[..j]);
      AddPairs(values, order, j);
      PairsSnoc(values, order, j);
      AddAllAppend(map[], Pairs(values, order[..j]), Entries(k, vs));
      NotBefore(order, j);
      assert vs[..|vs|] == vs;
      AddEntries(before, k, vs, |vs|);
      VisitedSnoc(values, order, j);
    }
  }

  /**
   * form_urlencoded string, then parse, gives back the builder: every
   * name with its values in the order they were added, whatever order the
   * names were visited in.
   */
  lemma QueryRoundTrip(values: Values, order: seq<Bytes>)
    requires IsOrder(values, order) && Filled(values)
    ensures ParseQuery(Render(Pairs(values, order), [])) == values
  {
    ParseRender(Pairs(values, order));
    AddPairs(values, order, |order|);
    assert order[..|order|] == order;
    assert Visited(values, order) == values;
  }

  // ---------------------------------------------------------------------
  // What parse leaves behind

  lemma {:induction false} AddAllFilled(acc: Values, fields: seq<Field>)
    requires Filled(acc)
    ensures Filled(AddAll(acc, fields))
    decreases |fields|
  {
    if fields != [] {
      AddAllFilled(Added(acc, fields[0].0, fields[0].1), fields[1..]);
    }
  }

  /** Every name parse finds holds at least one value, the empty one when no '=' follows the name. */
  lemma ParseFilled(q: Bytes)
    ensures Filled(ParseQuery(q))
  {
    AddAllFilled(map[], DecodeAll(FieldsFrom(q, 0)));
  }
}

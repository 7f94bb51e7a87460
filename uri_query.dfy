/**
 * uri::query_builder: decoded name/value pairs of a query component, kept
 * per name in the order they were added. The builder's std::unordered_map
 * visits its names in an order the standard leaves open, so `list` and
 * `string` take that order as a parameter.
 */
module UriQuery {
  import opened ByteString
  import opened UriCodec

  const AMP: uint8 := 0x26
  const EQUALS: uint8 := 0x3D
  const QMARK: uint8 := 0x3F

  type Values = map<Bytes, seq<Bytes>>
  type Field = (Bytes, Bytes)

  /** `order` is one visit of every name in the map, each once. */
  ghost predicate IsOrder(values: Values, order: seq<Bytes>)
  {
    (forall k :: k in values ==> k in order) &&
    (forall k :: k in order ==> k in values) &&
    (forall i, j :: 0 <= i < j < |order| ==> order[i] != order[j])
  }

  /** add: the value goes to the end of the name's list. */
  function Added(values: Values, name: Bytes, value: Bytes): Values
  {
    values[name := (if name in values then values[name] else []) + [value]]
  }

  /** The fields of one name, in order. */
  function Entries(name: Bytes, vs: seq<Bytes>): (r: seq<Field>)
    ensures |r| == |vs| && forall i :: 0 <= i < |vs| ==> r[i] == (name, vs[i])
  {
    seq(|vs|, i requires 0 <= i < |vs| => (name, vs[i]))
  }

  /** list: every name's fields, the names taken in `order`. */
  function Pairs(values: Values, order: seq<Bytes>): seq<Field>
    requires forall k :: k in order ==> k in values
    decreases |order|
  {
    if order == [] then []
    else Pairs(values, order[..|order| - 1]) + Entries(order[|order| - 1], values[order[|order| - 1]])
  }

  /** One field as string writes it: the name and the value encoded, joined by '='. */
  function FieldText(f: Field): Bytes
  {
    Encode(Unreserved, f.0) + [EQUALS] + Encode(Unreserved, f.1)
  }

  /** Texts glued together: `lead` before the first, '&' before every later one. */
  function Glue(texts: seq<Bytes>, lead: Bytes): Bytes
    decreases |texts|
  {
    if texts == [] then []
    else
      var n := |texts|;
      Glue(texts[..n - 1], lead) + (if n == 1 then lead else [AMP]) + texts[n - 1]
  }

  /** The text of every field, in order. */
  function Texts(fields: seq<Field>): (r: seq<Bytes>)
    ensures |r| == |fields| && forall i :: 0 <= i < |fields| ==> r[i] == FieldText(fields[i])
  {
    seq(|fields|, i requires 0 <= i < |fields| => FieldText(fields[i]))
  }

  /** string: every field's text, `lead` before the first and '&' before every later one. */
  function Render(fields: seq<Field>, lead: Bytes): Bytes
  {
    Glue(Texts(fields), lead)
  }

  /** The lead that the start_with_qmark flag asks for. */
  function Lead(startWithQmark: bool): Bytes
  {
    if startWithQmark then [QMARK] else []
  }

  // ---------------------------------------------------------------------
  // parse

  /** What a scan over the query stops at. */
  datatype Scan = Spaces | Name | Value

  predicate Stops(kind: Scan, b: uint8)
  {
    match kind
    case Spaces => !IsSpace(b)
    case Name => IsSpace(b) || b == EQUALS || b == AMP
    case Value => IsSpace(b) || b == AMP
  }

  /** The WS, LOOK_FOR2('=', '&') and LOOK_FOR('&') loops: the first stop at or after `c`, or the end. */
  function ScanTo(q: Bytes, c: nat, kind: Scan): (k: nat)
    requires c <= |q|
    ensures c <= k <= |q|
    ensures k < |q| ==> Stops(kind, q[k])
    decreases |q| - c
  {
    if c == |q| || Stops(kind, q[c]) then c else ScanTo(q, c + 1, kind)
  }

  /** One `name[=value]` field read from `c` on: the name and value as they stand in the query, and where reading stopped. */
  datatype FieldRead = FieldRead(name: Bytes, value: Bytes, next: nat)

  function ReadField(q: Bytes, c: nat): (r: FieldRead)
    requires c <= |q|
    ensures c <= r.next <= |q|
  {
    var ns := ScanTo(q, c, Spaces);
    var ne := ScanTo(q, ns, Name);
    var c3 := ScanTo(q, ne, Spaces);
    if c3 < |q| && q[c3] == EQUALS then
      var vs := ScanTo(q, c3 + 1, Spaces);
      var ve := ScanTo(q, vs, Value);
      FieldRead(q[ns..ne], q[vs..ve], ScanTo(q, ve, Spaces))
    else FieldRead(q[ns..ne], [], c3)
  }

  /** The fields parse reads from `c` on, as they stand in the query: reading goes on while an '&' follows a field. */
  function FieldsFrom(q: Bytes, c: nat): seq<Field>
    requires c <= |q|
    decreases |q| - c
  {
    if c == |q| then []
    else
      var f := ReadField(q, c);
      [(f.name, f.value)] + (if f.next < |q| && q[f.next] == AMP then FieldsFrom(q, f.next + 1) else [])
  }

  /** One field read from `c`, then the rest. */
  lemma FieldsFromStep(q: Bytes, c: nat, x: Bytes, y: Bytes, next: nat)
    requires c < |q| && ReadField(q, c) == FieldRead(x, y, next)
    ensures next <= |q| && FieldsFrom(q, c) ==
      [(x, y)] + (if next < |q| && q[next] == AMP then FieldsFrom(q, next + 1) else [])
  {
  }

  /** A field with its name and value decoded. */
  function Decoded(f: Field): Field
  {
    (Decode(f.0), Decode(f.1))
  }

  /** Every field decoded. */
  function DecodeAll(fields: seq<Field>): (r: seq<Field>)
    ensures |r| == |fields| && forall i :: 0 <= i < |fields| ==> r[i] == Decoded(fields[i])
  {
    seq(|fields|, i requires 0 <= i < |fields| => Decoded(fields[i]))
  }

  /** Adding the fields one after the other. */
  function AddAll(acc: Values, fields: seq<Field>): Values
    decreases |fields|
  {
    if fields == [] then acc else AddAll(Added(acc, fields[0].0, fields[0].1), fields[1..])
  }

  lemma AddAllCons(acc: Values, f: Field, rest: seq<Field>)
    ensures AddAll(acc, [f] + rest) == AddAll(Added(acc, f.0, f.1), rest)
  {
    assert ([f] + rest)[0] == f && ([f] + rest)[1..] == rest;
  }

  /** query_builder::parse: every field read, added in the order it stands in the query. */
  function ParseQuery(q: Bytes): Values
  {
    AddAll(map[], DecodeAll(FieldsFrom(q, 0)))
  }

  class QueryBuilder {
    /** m_values */
    var values: Values

    constructor ()
      ensures values == map[]
    {
      values := map[];
    }

    /** add: appends the value to the name's list, keeping the values already there. */
    method Add(name: Bytes, value: Bytes)
      modifies this
      ensures values == Added(old(values), name, value)
    {
      var list := if name in values then values[name] else [];
      values := values[name := list + [value]];
    }

    /** remove: erases every value of the name; an unknown name changes nothing. */
    method Remove(name: Bytes)
      modifies this
      ensures values == old(values) - {name}
    {
      if name in values {
        values := values - {name};
      }
    }

    /** list: one pair per value, visiting the names in `order`. */
    method List(order: seq<Bytes>) returns (out: seq<Field>)
      requires IsOrder(values, order)
      ensures out == Pairs(values, order)
    {
      out := [];
      for i := 0 to |order|
        invariant out == Pairs(values, order[..i])
      {
        var vs := values[order[i]];
        assert Pairs(values, order[..i]) + Entries(order[i], vs[..0]) == Pairs(values, order[..i]);
        for j := 0 to |vs|
          invariant out == Pairs(values, order[..i]) + Entries(order[i], vs[..j])
        {
          PairsStep(Pairs(values, order[..i]), order[i], vs, j);
          out := out + [(order[i], vs[j])];
        }
        assert vs[..|vs|] == vs;
        PairsSnoc(values, order, i);
      }
      assert order[..|order|] == order;
    }

    /** string: every pair as `name=value`, encoded; a '?' opens a non-empty result under start_with_qmark. */
    method ToString(order: seq<Bytes>, startWithQmark: bool) returns (out: Bytes)
      requires IsOrder(values, order)
      ensures out == Render(Pairs(values, order), Lead(startWithQmark))
    {
      out := [];
      var first := true;
      ghost var done: seq<Field> := [];
      for i := 0 to |order|
        invariant done == Pairs(values, order[..i])
        invariant first <==> done == []
        invariant out == Render(done, Lead(startWithQmark))
      {
        var name := UrlEncode(Unreserved, order[i]);
        name := name + [EQUALS];
        out, first := WriteValues(out, first, startWithQmark, order[i], name, values[order[i]], done);
        PairsSnoc(values, order, i);
        done := done + Entries(order[i], values[order[i]]);
      }
      assert order[..|order|] == order;
    }
  }

  /** The inner loop of string: the fields of one name, each after its separator. */
  method WriteValues(out0: Bytes, first0: bool, startWithQmark: bool, key: Bytes, name: Bytes, vs: seq<Bytes>,
                     ghost done0: seq<Field>) returns (out: Bytes, first: bool)
    requires name == Encode(Unreserved, key) + [EQUALS]
    requires first0 <==> done0 == []
    requires out0 == Render(done0, Lead(startWithQmark))
    ensures first <==> done0 + Entries(key, vs) == []
    ensures out == Render(done0 + Entries(key, vs), Lead(startWithQmark))
  {
    out, first := out0, first0;
    ghost var lead := Lead(startWithQmark);
    ghost var done := done0;
    assert done0 + Entries(key, vs[..0]) == done0;
    for j := 0 to |vs|
      invariant done == done0 + Entries(key, vs[..j])
      invariant first <==> done == []
      invariant out == Render(done, lead)
    {
      ghost var before := out;
      ghost var sep: Bytes := [AMP];
      if first {
        first := false;
        sep := lead;
        if startWithQmark {
          out := out + [QMARK];
        }
      } else {
        out := out + [AMP];
      }
      var value := UrlEncode(Unreserved, vs[j]);
      out := out + (name + value);
      RenderStep(done, (key, vs[j]), lead, before, sep, out);
      PairsStep(done0, key, vs, j);
      done := done + [(key, vs[j])];
    }
    assert vs[..|vs|] == vs;
  }

  /** One more name of the order. */
  lemma PairsSnoc(values: Values, order: seq<Bytes>, i: nat)
    requires i < |order| && forall k :: k in order ==> k in values
    ensures Pairs(values, order[..i + 1]) == Pairs(values, order[..i]) + Entries(order[i], values[order[i]])
  {
    assert order[..i + 1][..i] == order[..i];
  }

  /** One more value of the current name. */
  lemma PairsStep(p: seq<Field>, name: Bytes, vs: seq<Bytes>, j: nat)
    requires j < |vs|
    ensures p + Entries(name, vs[..j + 1]) == (p + Entries(name, vs[..j])) + [(name, vs[j])]
  {
    EntriesSnoc(name, vs, j);
    FieldAssoc(p, Entries(name, vs[..j]), [(name, vs[j])]);
  }

  /** Writing the separator and one more field extends the rendering by that field. */
  lemma RenderStep(done: seq<Field>, f: Field, lead: Bytes, before: Bytes, sep: Bytes, after: Bytes)
    requires before == Render(done, lead)
    requires sep == if done == [] then lead else [AMP]
    requires after == before + sep + (Encode(Unreserved, f.0) + [EQUALS] + Encode(Unreserved, f.1))
    ensures after == Render(done + [f], lead)
  {
    RenderSnoc(done, f, lead);
  }

  lemma EntriesSnoc(name: Bytes, vs: seq<Bytes>, j: nat)
    requires j < |vs|
    ensures Entries(name, vs[..j + 1]) == Entries(name, vs[..j]) + [(name, vs[j])]
  {
  }

  lemma FieldAssoc(a: seq<Field>, b: seq<Field>, c: seq<Field>)
    ensures (a + b) + c == a + (b + c)
  {
  }

  /** Rendering one more field. */
  lemma RenderSnoc(fields: seq<Field>, f: Field, lead: Bytes)
    ensures Render(fields + [f], lead) ==
      Render(fields, lead) + (if fields == [] then lead else [AMP]) + FieldText(f)
  {
    var ts := Texts(fields);
    assert Texts(fields + [f]) == ts + [FieldText(f)];
    assert (ts + [FieldText(f)])[..|ts|] == ts;
  }

  /** The reading half of one pass of the parse loop. */
  method NextField(q: Bytes, c0: nat) returns (name: Bytes, value: Bytes, c: nat)
    requires c0 <= |q|
    ensures var f := ReadField(q, c0); (name, value) == Decoded((f.name, f.value)) && c == f.next
  {
    c := ScanTo(q, c0, Spaces);
    var nameStart := c;
    c := ScanTo(q, c, Name);
    name := UrlDecode(q[nameStart..c]);
    c := ScanTo(q, c, Spaces);
    value := [];
    if c < |q| && q[c] == EQUALS {
      c := c + 1;
      c := ScanTo(q, c, Spaces);
      var valueStart := c;
      c := ScanTo(q, c, Value);
      value := UrlDecode(q[valueStart..c]);
      c := ScanTo(q, c, Spaces);
    }
  }

  /** Adding the field read at `c0`, `x=y` as it stands in the query, and then the fields after it. */
  lemma ParseStep(q: Bytes, c0: nat, acc: Values, x: Bytes, y: Bytes, next: nat)
    requires c0 < |q| && ReadField(q, c0) == FieldRead(x, y, next)
    ensures AddAll(acc, DecodeAll(FieldsFrom(q, c0))) ==
      AddAll(Added(acc, Decode(x), Decode(y)), DecodeAll(if next < |q| && q[next] == AMP then FieldsFrom(q, next + 1) else []))
  {
    FieldsFromStep(q, c0, x, y, next);
    AddDecodedCons(acc, (x, y), if next < |q| && q[next] == AMP then FieldsFrom(q, next + 1) else []);
  }

  lemma AddDecodedCons(acc: Values, f: Field, rest: seq<Field>)
    ensures AddAll(acc, DecodeAll([f] + rest)) == AddAll(Added(acc, Decode(f.0), Decode(f.1)), DecodeAll(rest))
  {
    assert DecodeAll([f] + rest) == [Decoded(f)] + DecodeAll(rest);
    AddAllCons(acc, Decoded(f), DecodeAll(rest));
  }

  /** query_builder::parse: fields are read and added one after the other while '&' follows them. */
  method Parse(q: Bytes) returns (b: QueryBuilder)
    ensures fresh(b) && b.values == ParseQuery(q)
  {
    b := new QueryBuilder();
    var c := 0;
    while c < |q|
      invariant c <= |q|
      invariant AddAll(b.values, DecodeAll(FieldsFrom(q, c))) == ParseQuery(q)
      decreases |q| - c
    {
      ghost var before, c0 := b.values, c;
      var name, value;
      name, value, c := NextField(q, c);
      b.Add(name, value);
      ghost var f := ReadField(q, c0);
      ParseStep(q, c0, before, f.name, f.value, c);
      if !(c < |q| && q[c] == AMP) {
        break;
      }
      c := c + 1;
    }
  }
}

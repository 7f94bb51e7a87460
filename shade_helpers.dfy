/**
 * The helpers the shade manager uses on the bridge's json answers
 * (internal.h; manager_internal.h holds the same helpers under
 * shade::api): unpacking a document that has the right outer type,
 * reading a member, walking an array with a predicate object, finding the
 * error a bridge reports, and the http client that gathers a response body
 * and hands its parse to a handler.
 *
 * A predicate object (the template parameter F) is its state, of type S,
 * together with a call operator that takes the state and an element and
 * gives the next state (and, for find_first, whether to stop).
 */
module ShadeHelpers {
  import opened ByteString
  import opened JsonValue
  import opened JsonSerdes
  import JsonSerdesFacts
  import JsonParse

  // ---------------------------------------------------------------------
  // unpack_json

  /**
   * unpack_json for a struct: false, and the target untouched, unless the
   * document is an object; otherwise json::unpack.
   */
  function UnpackJson(ms: seq<Member>, doc: Value, ctx: Data): (r: (bool, Data))
    requires Fits(Struct(ms), ctx)
    ensures !doc.Object? ==> r == (false, ctx)
    ensures Fits(Struct(ms), r.1)
  {
    if !doc.Object? then (false, ctx) else Unpack(Struct(ms), doc, ctx, ItemsOptional)
  }

  /** For a struct the guard changes nothing: json::unpack itself refuses a non-object. */
  lemma UnpackJsonIsUnpack(ms: seq<Member>, doc: Value, ctx: Data)
    requires Fits(Struct(ms), ctx)
    ensures UnpackJson(ms, doc, ctx) == Unpack(Struct(ms), doc, ctx, ItemsOptional)
  {
    if !doc.Object? {
      JsonSerdesFacts.StructUnpackNeedsObject(ms, doc, ctx, ItemsOptional);
    }
  }

  /**
   * unpack_json for a vector: false, and the target untouched, unless the
   * document is an array; otherwise json::unpack.
   */
  function UnpackJsonVector(e: Shape, doc: Value, ctx: Data): (r: (bool, Data))
    requires Fits(SeqOf(e), ctx)
    ensures !doc.Array? ==> r == (false, ctx)
    ensures Fits(SeqOf(e), r.1)
  {
    if !doc.Array? then (false, ctx) else Unpack(SeqOf(e), doc, ctx, ItemsOptional)
  }

  /**
   * For a vector the guard matters: json::unpack reads a non-array as an
   * empty array and succeeds, where unpack_json fails.
   */
  lemma VectorGuardMatters(e: Shape, doc: Value, ctx: Data)
    requires Fits(SeqOf(e), ctx) && !doc.Array?
    ensures Unpack(SeqOf(e), doc, ctx, ItemsOptional) == (true, DSeq([]))
    ensures !UnpackJsonVector(e, doc, ctx).0
  {
  }

  // ---------------------------------------------------------------------
  // map

  /** map(obj, key): the member when obj is an object holding key, null otherwise. */
  function MapMember(obj: Value, key: Bytes): (r: Value)
    ensures !obj.Object? ==> r == Null
    ensures obj.Object? ==> r == (match Lookup(obj.fields, key) case Some(v) => v case None => Null)
  {
    if !obj.Object? then Null
    else
      match Lookup(obj.fields, key)
      case None => Null
      case Some(v) => v
  }

  /** A member just stored is the member read back; other members read as before. */
  lemma MapMemberInsert(fs: seq<Field>, k: Bytes, v: Value, k2: Bytes)
    ensures MapMember(Object(Insert(fs, k, v)), k2) == if k2 == k then v else MapMember(Object(fs), k2)
  {
    LookupInsert(fs, k, v, k2);
  }

  // ---------------------------------------------------------------------
  // foreach and find_first

  /** The elements a walk visits: an array's, and none of anything else. */
  function Elements(obj: Value): seq<Value>
  {
    if obj.Array? then obj.items else []
  }

  /** The state after calling the predicate on each element in turn. */
  function Fold<S>(pred: (S, Value) -> S, s: S, items: seq<Value>): S
  {
    if items == [] then s else Fold(pred, pred(s, items[0]), items[1..])
  }

  /** Folding a split sequence is folding its halves in turn. */
  lemma {:induction false} FoldAppend<S>(pred: (S, Value) -> S, s: S, a: seq<Value>, b: seq<Value>)
    ensures Fold(pred, s, a + b) == Fold(pred, Fold(pred, s, a), b)
  {
    if a == [] {
      assert a + b == b;
    } else {
      assert (a + b)[1..] == a[1..] + b;
      FoldAppend(pred, pred(s, a[0]), a[1..], b);
    }
  }

  /** foreach: the predicate called on every element of an array, in order; never on anything else. */
  method Foreach<S>(obj: Value, pred: (S, Value) -> S, s0: S) returns (s: S)
    ensures s == Fold(pred, s0, Elements(obj))
    ensures !obj.Array? ==> s == s0
  {
    if !obj.Array? {
      return s0;
    }
    s := s0;
    for i := 0 to |obj.items|
      invariant Fold(pred, s0, obj.items) == Fold(pred, s, obj.items[i..])
    {
      assert obj.items[i..][1..] == obj.items[i + 1..];
      s := pred(s, obj.items[i]);
    }
    assert obj.items[|obj.items|..] == [];
  }

  /** A predicate that records what it is called with sees each element once, in order. */
  lemma {:induction false} FoldRecords(seen: seq<Value>, items: seq<Value>)
    ensures Fold((acc: seq<Value>, v: Value) => acc + [v], seen, items) == seen + items
    decreases |items|
  {
    if items != [] {
      FoldRecords(seen + [items[0]], items[1..]);
      assert seen + [items[0]] + items[1..] == seen + items;
    }
  }

  /** The state after calling the predicate on each element until a call says to stop. */
  function Scan<S>(pred: (S, Value) -> (bool, S), s: S, items: seq<Value>): S
  {
    if items == [] then s
    else
      var (stop, t) := pred(s, items[0]);
      if stop then t else Scan(pred, t, items[1..])
  }

  /** Whether some call of the walk says to stop. */
  predicate Stops<S>(pred: (S, Value) -> (bool, S), s: S, items: seq<Value>)
  {
    items != [] && (pred(s, items[0]).0 || Stops(pred, pred(s, items[0]).1, items[1..]))
  }

  /** Once a call has said to stop, later elements are never looked at. */
  lemma {:induction false} ScanStops<S>(pred: (S, Value) -> (bool, S), s: S, items: seq<Value>, rest: seq<Value>)
    requires Stops(pred, s, items)
    ensures Scan(pred, s, items + rest) == Scan(pred, s, items)
  {
    assert (items + rest)[0] == items[0];
    if !pred(s, items[0]).0 {
      assert (items + rest)[1..] == items[1..] + rest;
      ScanStops(pred, pred(s, items[0]).1, items[1..], rest);
    }
  }

  /** When no call says to stop, find_first walks the whole array, as foreach does. */
  lemma {:induction false} ScanWithoutStop<S>(pred: (S, Value) -> (bool, S), s: S, items: seq<Value>)
    requires !Stops(pred, s, items)
    ensures Scan(pred, s, items) == Fold((t: S, v: Value) => pred(t, v).1, s, items)
  {
    if items != [] {
      ScanWithoutStop(pred, pred(s, items[0]).1, items[1..]);
    }
  }

  /** find_first: the predicate called on the elements of an array in order, up to the first that says to stop. */
  method FindFirst<S>(obj: Value, pred: (S, Value) -> (bool, S), s0: S) returns (s: S)
    ensures s == Scan(pred, s0, Elements(obj))
    ensures !obj.Array? ==> s == s0
  {
    if !obj.Array? {
      return s0;
    }
    s := s0;
    for i := 0 to |obj.items|
      invariant Scan(pred, s0, obj.items) == Scan(pred, s, obj.items[i..])
    {
      assert obj.items[i..][1..] == obj.items[i + 1..];
      var stop: bool;
      stop, s := pred(s, obj.items[i]).0, pred(s, obj.items[i]).1;
      if stop {
        return;
      }
    }
    assert obj.items[|obj.items|..] == [];
  }

  // ---------------------------------------------------------------------
  // get_error

  /** hue::error_type. */
  datatype ErrorType = ErrorType(kind: int32, address: Bytes, description: Bytes)

  /** "type", "address", "description", "error". */
  const KEY_TYPE: Bytes := [0x74, 0x79, 0x70, 0x65]
  const KEY_ADDRESS: Bytes := [0x61, 0x64, 0x64, 0x72, 0x65, 0x73, 0x73]
  const KEY_DESCRIPTION: Bytes := [0x64, 0x65, 0x73, 0x63, 0x72, 0x69, 0x70, 0x74, 0x69, 0x6F, 0x6E]
  const KEY_ERROR: Bytes := [0x65, 0x72, 0x72, 0x6F, 0x72]

  /** The registrations of hue::error_type: type, address and description, all required. */
  const ERROR_MEMBERS: seq<Member> := [
    Member(KEY_TYPE, Plain, Prim(PInt(W32))),
    Member(KEY_ADDRESS, Plain, Prim(PString)),
    Member(KEY_DESCRIPTION, Plain, Prim(PString))]

  /** std::vector<std::unordered_map<std::string, hue::error_type>>. */
  const ERROR_DOC: Shape := SeqOf(MapOf(Struct(ERROR_MEMBERS)))

  /** An error as its record. */
  function ErrorData(e: ErrorType): (d: Data)
    ensures Fits(Struct(ERROR_MEMBERS), d)
  {
    DRecord([DInt(e.kind), DString(e.address), DString(e.description)])
  }

  /**
   * get_error: the document unpacked as an array of maps of errors; the
   * entry "error" of the first map, if the array and that map are not
   * empty and it is there.
   */
  function GetError(doc: Value): (r: Option<ErrorType>)
    ensures !doc.Array? ==> r == None
  {
    var (ok, ctx) := UnpackJsonVector(MapOf(Struct(ERROR_MEMBERS)), doc, DSeq([]));
    if !ok || ctx.items == [] || ctx.items[0].entries == [] then None
    else
      match Find(ctx.items[0].entries, KEY_ERROR)
      case None => None
      case Some(d) =>
        assert Fits(Struct(ERROR_MEMBERS), d) by {
          FindFits(Struct(ERROR_MEMBERS), ctx.items[0].entries, KEY_ERROR);
        }
        Some(ErrorType(d.fields[0].n, d.fields[1].s, d.fields[2].s))
  }

  /** The error shape has distinct member names and plain members. */
  lemma ErrorDocRoundTrips()
    ensures JsonSerdesFacts.RoundTrips(ERROR_DOC)
  {
    var ms := ERROR_MEMBERS;
    assert ms[0].name != ms[1].name && ms[0].name != ms[2].name && ms[1].name != ms[2].name;
    assert JsonSerdesFacts.DistinctNames(ms);
    assert forall i :: 0 <= i < |ms| ==> JsonSerdesFacts.RoundTrips(ms[i].shape) && JsonSerdesFacts.ItemShapeOk(ms[i]);
    assert JsonSerdesFacts.RoundTrips(Struct(ms));
    assert JsonSerdesFacts.RoundTrips(MapOf(Struct(ms)));
  }

  /** The document a bridge sends to report one error: `[{"error": {...}}]`. */
  function ErrorReport(e: ErrorType): (d: Data)
    ensures Fits(ERROR_DOC, d)
  {
    DSeq([DMap([Entry(KEY_ERROR, ErrorData(e))])])
  }

  /** A reported error is found, whole. */
  lemma ErrorFound(e: ErrorType)
    ensures GetError(Pack(ERROR_DOC, ErrorReport(e))) == Some(e)
  {
    ErrorDocRoundTrips();
    JsonSerdesFacts.RoundTrip(ERROR_DOC, ErrorReport(e), DSeq([]));
  }

  /** get_error for a code: the error's type, when the structured get_error succeeds. */
  function GetErrorCode(doc: Value): (r: Option<int32>)
    ensures r.Some? <==> GetError(doc).Some?
    ensures r.Some? ==> r.value == GetError(doc).value.kind
  {
    match GetError(doc)
    case None => None
    case Some(err) => Some(err.kind)
  }

  // ---------------------------------------------------------------------
  // http_client::on_data

  class HttpClient {
    /** The status of the response's header. */
    var status: int
    /** The body received so far. */
    var data: Bytes
    /** The calls of the handler so far: status and parsed body. */
    var delivered: seq<(int, Value)>
    /** Whether load_handler_ has been reset. */
    var released: bool

    constructor()
      ensures status == 0 && data == [] && delivered == [] && !released
    {
      status := 0;
      data := [];
      delivered := [];
      released := false;
    }

    /** on_headers: the status is kept. */
    method OnHeaders(status: int)
      modifies this
      ensures this.status == status && data == old(data) && delivered == old(delivered) && released == old(released)
    {
      this.status := status;
    }

    /**
     * on_data: a chunk is appended to the body; the empty chunk that ends
     * the body parses it, clears it and hands the status and the parsed
     * value to the handler. An exception thrown by the parse leaves
     * everything as it was and is returned.
     */
    method OnData(chunk: Bytes) returns (thrown: Option<Exception>)
      modifies this
      ensures |chunk| > 0 ==> thrown == None && data == old(data) + chunk && delivered == old(delivered) && released == old(released)
      ensures |chunk| == 0 ==> match JsonParse.FromText(old(data), JsonParse.Intended)
        case Ok(v) => thrown == None && data == [] && delivered == old(delivered) + [(status, v)] && released
        case Throws(ex) => thrown == Some(ex) && data == old(data) && delivered == old(delivered) && released == old(released)
      ensures status == old(status)
    {
      if |chunk| == 0 {
        var value := JsonParse.ReadJson(data, JsonParse.Intended);
        if value.Throws? {
          return Some(value.ex);
        }
        data := [];
        delivered := delivered + [(status, value.value)];
        released := true;
        return None;
      }
      data := data + chunk;
      return None;
    }
  }

  /** The chunks joined in order. */
  function Concat(chunks: seq<Bytes>): Bytes
  {
    if chunks == [] then [] else Concat(chunks[..|chunks| - 1]) + chunks[|chunks| - 1]
  }

  /**
   * A body that arrives in non-empty chunks, then the empty chunk: the
   * handler receives the parse of the whole body, however it was split.
   */
  method Receive(c: HttpClient, chunks: seq<Bytes>) returns (thrown: Option<Exception>)
    requires c.data == [] && forall i :: 0 <= i < |chunks| ==> |chunks[i]| > 0
    modifies c
    ensures match JsonParse.FromText(Concat(chunks), JsonParse.Intended)
      case Ok(v) => thrown == None && c.delivered == old(c.delivered) + [(c.status, v)] && c.data == []
      case Throws(ex) => thrown == Some(ex) && c.delivered == old(c.delivered)
  {
    for i := 0 to |chunks|
      invariant c.data == Concat(chunks[..i]) && c.delivered == old(c.delivered) && c.status == old(c.status)
    {
      assert chunks[..i + 1][..i] == chunks[..i];
      thrown := c.OnData(chunks[i]);
    }
    assert chunks[..|chunks|] == chunks;
    thrown := c.OnData([]);
  }
}

/**
 * tangle::uri: the identifier text and four lazily computed offsets into it
 * (scheme end, path, query and fragment start). The offsets are mutable
 * caches: `ensure_*` fill them, `invalidate_*` forget them, and the setters
 * replace one slice of the text in place.
 */
module Uri {
  import opened ByteString
  import opened UriCodec

  const HASH: uint8 := 0x23
  const PLUS: uint8 := 0x2B
  const QMARK: uint8 := 0x3F

  /** A cached offset: not yet calculated (ncalc), absent (npos), or a position. */
  datatype Offset = NCalc | NPos | At(pos: nat)

  // ---------------------------------------------------------------------
  // Where the components lie, computed from the text alone

  /** A byte of a scheme after its first letter. */
  predicate IsSchemeChar(c: uint8)
  {
    IsAlnum(c) || c == PLUS || c == DASH || c == DOT
  }

  /** The run of scheme bytes from `i` on: where it ends. */
  function SchemeRun(s: Bytes, i: nat): (k: nat)
    requires i <= |s|
    ensures i <= k <= |s| && (k < |s| ==> !IsSchemeChar(s[k]))
    decreases |s| - i
  {
    if i == |s| || !IsSchemeChar(s[i]) then i else SchemeRun(s, i + 1)
  }

  /** ensure_scheme: the position of the ':' after a scheme, if the text starts with one. */
  function SchemeEnd(s: Bytes): (r: Option<nat>)
    ensures r.Some? ==> 0 < r.value < |s| && s[r.value] == COLON
  {
    if s == [] || !IsAlpha(s[0]) then None
    else
      var c := SchemeRun(s, 1);
      if c < |s| && s[c] == COLON then Some(c) else None
  }

  /** The cache value ensure_scheme computes. */
  function SchemeOffset(s: Bytes): Offset
  {
    match SchemeEnd(s)
    case None => NPos
    case Some(k) => At(k)
  }

  /** What the path, query and fragment scans stop at. */
  datatype Stop = AuthorityEnd | PathEnd | QueryEnd

  predicate Stops(kind: Stop, c: uint8)
  {
    match kind
    case AuthorityEnd => c == SLASH || c == QMARK || c == HASH
    case PathEnd => c == QMARK || c == HASH
    case QueryEnd => c == HASH
  }

  /** The first stop at or after `i`, or the end of the text. */
  function Until(s: Bytes, i: nat, kind: Stop): (k: nat)
    requires i <= |s|
    ensures i <= k <= |s| && (k < |s| ==> Stops(kind, s[k]))
    decreases |s| - i
  {
    if i == |s| || Stops(kind, s[i]) then i else Until(s, i + 1, kind)
  }

  /** ensure_path, once the scheme ends at `k`: after "//" the authority runs to the first '/', '?' or '#'. */
  function AfterScheme(s: Bytes, k: nat): (p: nat)
    requires k < |s|
    ensures k < p <= |s|
  {
    if k + 2 >= |s| || s[k + 1] != SLASH || s[k + 2] != SLASH then k + 1
    else Until(s, k + 3, AuthorityEnd)
  }

  /** ensure_path: where the path starts. */
  function PathStart(s: Bytes): (p: nat)
    ensures p <= |s|
    ensures SchemeEnd(s).Some? ==> SchemeEnd(s).value < p
  {
    match SchemeEnd(s)
    case None => 0
    case Some(k) => AfterScheme(s, k)
  }

  /** ensure_query: where the query starts, at the first '?' or '#' of the path or at the end. */
  function QueryStart(s: Bytes): (q: nat)
    ensures PathStart(s) <= q <= |s|
  {
    Until(s, PathStart(s), PathEnd)
  }

  /** ensure_fragment: where the fragment starts, at the first '#' from the query on or at the end. */
  function FragmentStart(s: Bytes): (f: nat)
    ensures QueryStart(s) <= f <= |s|
  {
    Until(s, QueryStart(s), QueryEnd)
  }

  /** has_authority: a scheme followed by "//". */
  predicate HasAuthority(s: Bytes)
  {
    SchemeEnd(s).Some? && SchemeEnd(s).value + 2 < |s| &&
    s[SchemeEnd(s).value + 1] == SLASH && s[SchemeEnd(s).value + 2] == SLASH
  }

  /** hierarchical (deprecated): true without a scheme, otherwise has_authority. */
  predicate Hierarchical(s: Bytes)
  {
    SchemeEnd(s).None? || HasAuthority(s)
  }

  // ---------------------------------------------------------------------
  // The getters, on the text

  function SchemeOf(s: Bytes): Bytes
  {
    match SchemeEnd(s)
    case None => []
    case Some(k) => s[..k]
  }

  function AuthorityOf(s: Bytes): Bytes
  {
    if HasAuthority(s) then s[SchemeEnd(s).value + 3..PathStart(s)] else []
  }

  function PathOf(s: Bytes): Bytes
  {
    s[PathStart(s)..QueryStart(s)]
  }

  function QueryOf(s: Bytes): Bytes
  {
    s[QueryStart(s)..FragmentStart(s)]
  }

  /** resource: the path and the query. */
  function ResourceOf(s: Bytes): Bytes
  {
    s[PathStart(s)..FragmentStart(s)]
  }

  function FragmentOf(s: Bytes): Bytes
  {
    s[FragmentStart(s)..]
  }

  // ---------------------------------------------------------------------
  // The setters, on the text

  /** std::string::replace(at, len, v). */
  function Replace(s: Bytes, at: nat, len: nat, v: Bytes): (r: Bytes)
    requires at + len <= |s|
    ensures |r| == |s| - len + |v|
  {
    s[..at] + v + s[at + len..]
  }

  /** scheme(value): the scheme replaced; nothing happens without a scheme. */
  function WithScheme(s: Bytes, v: Bytes): Bytes
  {
    match SchemeEnd(s)
    case None => s
    case Some(k) => Replace(s, 0, k, v)
  }

  /** authority(value): the authority replaced; nothing happens without one. */
  function WithAuthority(s: Bytes, v: Bytes): Bytes
  {
    if !HasAuthority(s) then s
    else
      var start := SchemeEnd(s).value + 3;
      Replace(s, start, PathStart(s) - start, v)
  }

  /** The path that path(value) writes: a '/' goes first under an authority unless the value has one. */
  function PathText(s: Bytes, v: Bytes): Bytes
  {
    if HasAuthority(s) && (v == [] || v[0] != SLASH) then [SLASH] + v else v
  }

  /** path(value): the path replaced. */
  function WithPath(s: Bytes, v: Bytes): Bytes
  {
    Replace(s, PathStart(s), QueryStart(s) - PathStart(s), PathText(s, v))
  }

  /** query(value): the query replaced. */
  function WithQuery(s: Bytes, v: Bytes): Bytes
  {
    Replace(s, QueryStart(s), FragmentStart(s) - QueryStart(s), v)
  }

  /** fragment(value): everything from the fragment on replaced. */
  function WithFragment(s: Bytes, v: Bytes): Bytes
  {
    Replace(s, FragmentStart(s), |s| - FragmentStart(s), v)
  }

  // ---------------------------------------------------------------------
  // The object

  class Uri {
    /** m_uri */
    var text: Bytes
    /** m_scheme, m_path, m_query, m_part */
    var scheme: Offset
    var path: Offset
    var query: Offset
    var part: Offset

    /**
     * Every offset is either not calculated or the one its ensure_* would
     * compute, and an offset is only known when the ones before it are.
     */
    ghost predicate Valid()
      reads this
    {
      (scheme == NCalc || scheme == SchemeOffset(text)) &&
      (path == NCalc || path == At(PathStart(text))) &&
      (query == NCalc || query == At(QueryStart(text))) &&
      (part == NCalc || part == At(FragmentStart(text))) &&
      (path != NCalc ==> scheme != NCalc) &&
      (query != NCalc ==> path != NCalc) &&
      (part != NCalc ==> query != NCalc)
    }

    /** uri(ident): the text, with nothing calculated. */
    constructor (ident: Bytes)
      ensures Valid() && text == ident
      ensures scheme == NCalc && path == NCalc && query == NCalc && part == NCalc
    {
      text := ident;
      scheme, path, query, part := NCalc, NCalc, NCalc, NCalc;
    }

    /** The copy constructor copies the text and the offsets calculated so far. */
    constructor Copy(other: Uri)
      requires other.Valid()
      ensures Valid() && text == other.text
      ensures scheme == other.scheme && path == other.path && query == other.query && part == other.part
    {
      text := other.text;
      scheme, path, query, part := other.scheme, other.path, other.query, other.part;
    }

    /** The copy assignment: the same as the copy constructor, over an existing object. */
    method Assign(other: Uri)
      requires other.Valid()
      modifies this
      ensures Valid() && text == other.text
      ensures scheme == other.scheme && path == other.path && query == other.query && part == other.part
    {
      text := other.text;
      scheme, path, query, part := other.scheme, other.path, other.query, other.part;
    }

    /** The move assignment: the text moves over, both objects forget their offsets. */
    method MoveAssign(other: Uri)
      requires other != this
      modifies this, other
      ensures Valid() && other.Valid()
      ensures text == old(other.text) && other.text == []
      ensures scheme == NCalc && path == NCalc && query == NCalc && part == NCalc
      ensures other.scheme == NCalc && other.path == NCalc && other.query == NCalc && other.part == NCalc
    {
      text := other.text;
      other.text := [];
      other.InvalidateScheme();
      InvalidateScheme();
    }

    // invalidate_*: each forgets its own offset and every later one.

    method InvalidateFragment()
      modifies this
      ensures text == old(text) && scheme == old(scheme) && path == old(path) && query == old(query)
      ensures part == NCalc
      ensures old(Valid()) ==> Valid()
    {
      part := NCalc;
    }

    method InvalidateQuery()
      modifies this
      ensures text == old(text) && scheme == old(scheme) && path == old(path)
      ensures query == NCalc && part == NCalc
      ensures old(Valid()) ==> Valid()
    {
      InvalidateFragment();
      query := NCalc;
    }

    method InvalidatePath()
      modifies this
      ensures text == old(text) && scheme == old(scheme)
      ensures path == NCalc && query == NCalc && part == NCalc
      ensures old(Valid()) ==> Valid()
    {
      InvalidateQuery();
      path := NCalc;
    }

    method InvalidateScheme()
      modifies this
      ensures text == old(text)
      ensures scheme == NCalc && path == NCalc && query == NCalc && part == NCalc
      ensures Valid()
    {
      InvalidatePath();
      scheme := NCalc;
    }

    // ensure_*: each calculates its offset, and the ones before it, once.

    method EnsureScheme()
      requires Valid()
      modifies this
      ensures Valid() && text == old(text) && scheme == SchemeOffset(text)
      ensures path == old(path) && query == old(query) && part == old(part)
    {
      if scheme != NCalc {
        return;
      }
      scheme := NPos;
      if |text| == 0 || !IsAlpha(text[0]) {
        return;
      }
      var c := 1;
      while c < |text| && IsSchemeChar(text[c])
        invariant 1 <= c <= |text|
        invariant SchemeRun(text, c) == SchemeRun(text, 1)
        decreases |text| - c
      {
        c := c + 1;
      }
      if c == |text| || text[c] != COLON {
        return;
      }
      scheme := At(c);
    }

    method EnsurePath()
      requires Valid()
      modifies this
      ensures Valid() && text == old(text) && scheme == SchemeOffset(text) && path == At(PathStart(text))
      ensures query == old(query) && part == old(part)
    {
      if path != NCalc {
        return;
      }
      EnsureScheme();
      if scheme == NPos {
        path := At(0);
        return;
      }
      var k := scheme.pos;
      path := At(k + 1);
      if k + 2 >= |text| || text[k + 1] != SLASH || text[k + 2] != SLASH {
        return;
      }
      var p := ScanFrom(text, k + 3, AuthorityEnd);
      path := At(p);
    }

    method EnsureQuery()
      requires Valid()
      modifies this
      ensures Valid() && text == old(text) && scheme == SchemeOffset(text)
      ensures path == At(PathStart(text)) && query == At(QueryStart(text)) && part == old(part)
    {
      if query != NCalc {
        return;
      }
      EnsurePath();
      var q := ScanFrom(text, path.pos, PathEnd);
      query := At(q);
    }

    method EnsureFragment()
      requires Valid()
      modifies this
      ensures Valid() && text == old(text) && scheme == SchemeOffset(text) && path == At(PathStart(text))
      ensures query == At(QueryStart(text)) && part == At(FragmentStart(text))
    {
      if part != NCalc {
        return;
      }
      EnsureQuery();
      var f := ScanFrom(text, query.pos, QueryEnd);
      part := At(f);
    }

    // The queries and getters fill the caches they need and change nothing else.

    method HasScheme() returns (r: bool)
      requires Valid()
      modifies this
      ensures Valid() && text == old(text) && scheme == SchemeOffset(text)
      ensures path == old(path) && query == old(query) && part == old(part)
      ensures r <==> SchemeEnd(text).Some?
    {
      EnsureScheme();
      r := scheme != NPos;
    }

    method HasAuthorityM() returns (r: bool)
      requires Valid()
      modifies this
      ensures Valid() && text == old(text) && scheme == SchemeOffset(text) && path == At(PathStart(text))
      ensures query == old(query) && part == old(part)
      ensures r == HasAuthority(text)
    {
      EnsurePath();
      if scheme == NPos {
        return false;
      }
      var k := scheme.pos;
      if path.pos - k <= 2 {
        return false;
      }
      r := text[k + 1] == SLASH && text[k + 2] == SLASH;
    }

    /** is_opaque: no authority. */
    method IsOpaque() returns (r: bool)
      requires Valid()
      modifies this
      ensures Valid() && text == old(text) && scheme == SchemeOffset(text) && path == At(PathStart(text))
      ensures query == old(query) && part == old(part)
      ensures r == !HasAuthority(text)
    {
      var a := HasAuthorityM();
      r := !a;
    }

    /** relative (deprecated): no scheme. */
    method Relative() returns (r: bool)
      requires Valid()
      modifies this
      ensures Valid() && text == old(text)
      ensures r <==> SchemeEnd(text).None?
    {
      var h := HasScheme();
      r := !h;
    }

    /** absolute (deprecated): a scheme. */
    method Absolute() returns (r: bool)
      requires Valid()
      modifies this
      ensures Valid() && text == old(text)
      ensures r <==> SchemeEnd(text).Some?
    {
      r := HasScheme();
    }

    /** hierarchical (deprecated). */
    method HierarchicalM() returns (r: bool)
      requires Valid()
      modifies this
      ensures Valid() && text == old(text)
      ensures r == Hierarchical(text)
    {
      EnsurePath();
      if scheme == NPos {
        return true;
      }
      var k := scheme.pos;
      if path.pos - k <= 2 {
        return false;
      }
      r := text[k + 1] == SLASH && text[k + 2] == SLASH;
    }

    method Scheme() returns (r: Bytes)
      requires Valid()
      modifies this
      ensures Valid() && text == old(text)
      ensures r == SchemeOf(text)
    {
      var h := HasScheme();
      if !h {
        return [];
      }
      r := text[..scheme.pos];
    }

    method Authority() returns (r: Bytes)
      requires Valid()
      modifies this
      ensures Valid() && text == old(text)
      ensures r == AuthorityOf(text)
    {
      var h := HasScheme();
      if !h {
        return [];
      }
      var o := IsOpaque();
      if o {
        return [];
      }
      var start := scheme.pos + 3;
      r := text[start..path.pos];
    }

    method Path() returns (r: Bytes)
      requires Valid()
      modifies this
      ensures Valid() && text == old(text)
      ensures r == PathOf(text)
    {
      EnsureQuery();
      r := text[path.pos..query.pos];
    }

    method Query() returns (r: Bytes)
      requires Valid()
      modifies this
      ensures Valid() && text == old(text)
      ensures r == QueryOf(text)
    {
      EnsureFragment();
      r := text[query.pos..part.pos];
    }

    method Resource() returns (r: Bytes)
      requires Valid()
      modifies this
      ensures Valid() && text == old(text)
      ensures r == ResourceOf(text)
    {
      EnsureFragment();
      r := text[path.pos..part.pos];
    }

    method Fragment() returns (r: Bytes)
      requires Valid()
      modifies this
      ensures Valid() && text == old(text)
      ensures r == FragmentOf(text)
    {
      EnsureFragment();
      r := text[part.pos..];
    }

    // The setters replace one slice of the text and forget the offsets that may have moved.

    method SetScheme(value: Bytes)
      requires Valid()
      modifies this
      ensures text == WithScheme(old(text), value)
      ensures SchemeEnd(old(text)).None? ==>
        scheme == NPos && path == old(path) && query == old(query) && part == old(part)
      ensures SchemeEnd(old(text)).Some? ==>
        scheme == NCalc && path == NCalc && query == NCalc && part == NCalc
      ensures Valid()
    {
      var h := HasScheme();
      if !h {
        return;
      }
      text := Replace(text, 0, scheme.pos, value);
      InvalidateScheme();
    }

    method SetAuthority(value: Bytes)
      requires Valid()
      modifies this
      ensures text == WithAuthority(old(text), value)
      ensures scheme == SchemeOffset(old(text))
      ensures HasAuthority(old(text)) ==> path == NCalc && query == NCalc && part == NCalc
      ensures !HasAuthority(old(text)) ==> path == At(PathStart(text)) && query == old(query) && part == old(part)
      ensures Valid()
    {
      var o := IsOpaque();
      if o {
        return;
      }
      var start := scheme.pos + 3;
      SchemePrefixKept(text, start, path.pos - start, value);
      text := Replace(text, start, path.pos - start, value);
      InvalidatePath();
    }

    method SetPath(value: Bytes)
      requires Valid()
      modifies this
      ensures text == WithPath(old(text), value)
      ensures scheme == SchemeOffset(old(text)) && path == NCalc && query == NCalc && part == NCalc
      ensures SchemeEnd(old(text)).Some? || SchemeEnd(text).None? ==> Valid()
    {
      EnsureQuery();
      ghost var s, p, q := text, path.pos, query.pos;
      var a := HasAuthorityM();
      if a && (value == [] || value[0] != SLASH) {
        text := Replace(text, path.pos, query.pos - path.pos, [SLASH]);
        path := At(path.pos + 1);
        query := path;
        text := Replace(text, path.pos, query.pos - path.pos, value);
        ReplaceTwice(s, p, q, value);
      } else {
        text := Replace(text, path.pos, query.pos - path.pos, value);
      }
      assert text == Replace(s, p, q - p, PathText(s, value));
      if SchemeEnd(s).Some? {
        SchemePrefixKept(s, p, q - p, PathText(s, value));
      }
      InvalidatePath();
    }

    method SetQuery(value: Bytes)
      requires Valid()
      modifies this
      ensures text == WithQuery(old(text), value)
      ensures scheme == SchemeOffset(old(text)) && path == At(PathStart(old(text)))
      ensures query == At(QueryStart(old(text))) && part == NCalc
      ensures QueryValue(value) ==> Valid()
    {
      EnsureFragment();
      if QueryValue(value) {
        QueryKept(text, value);
      }
      text := Replace(text, query.pos, part.pos - query.pos, value);
      InvalidateFragment();
    }

    method SetFragment(value: Bytes)
      requires Valid()
      modifies this
      ensures text == WithFragment(old(text), value)
      ensures scheme == SchemeOffset(old(text)) && path == At(PathStart(old(text)))
      ensures query == At(QueryStart(old(text))) && part == At(FragmentStart(old(text)))
      ensures FragmentValue(value) ==> Valid()
    {
      EnsureFragment();
      if FragmentValue(value) {
        FragmentKept(text, value);
      }
      text := Replace(text, part.pos, |text| - part.pos, value);
    }
  }

  /** The scans of ensure_path, ensure_query and ensure_fragment. */
  method ScanFrom(s: Bytes, i: nat, kind: Stop) returns (k: nat)
    requires i <= |s|
    ensures k == Until(s, i, kind)
  {
    k := i;
    while k < |s| && !Stops(kind, s[k])
      invariant i <= k <= |s| && Until(s, k, kind) == Until(s, i, kind)
      decreases |s| - k
    {
      k := k + 1;
    }
  }

  /** Writing a '/' over a span and then `v` after it is writing "/" + `v` over the span. */
  lemma ReplaceTwice(s: Bytes, p: nat, q: nat, v: Bytes)
    requires p <= q <= |s|
    ensures Replace(Replace(s, p, q - p, [SLASH]), p + 1, 0, v) == Replace(s, p, q - p, [SLASH] + v)
  {
    var t := Replace(s, p, q - p, [SLASH]);
    assert t[..p + 1] == s[..p] + [SLASH] && t[p + 1..] == s[q..];
  }

  /** The scheme ends where it did when the text changes only after the ':'. */
  lemma SchemePrefixKept(s: Bytes, at: nat, len: nat, v: Bytes)
    requires at + len <= |s| && SchemeEnd(s).Some? && SchemeEnd(s).value < at
    ensures SchemeEnd(Replace(s, at, len, v)) == SchemeEnd(s)
  {
    var t := Replace(s, at, len, v);
    assert t[..at] == s[..at];
    assert t[0] == t[..at][0];
    SchemeRunKept(s, t, 1, at);
    var k := SchemeEnd(s).value;
    assert t[k] == t[..at][k];
  }

  /** Two texts that agree before `n` run over the same scheme bytes, if the run ends by `n`. */
  lemma {:induction false} SchemeRunKept(s: Bytes, t: Bytes, i: nat, n: nat)
    requires 1 <= i <= n <= |s| && n <= |t| && s[..n] == t[..n]
    requires SchemeRun(s, i) <= n
    requires SchemeRun(s, i) == n && n < |t| ==> !IsSchemeChar(t[n])
    ensures SchemeRun(t, i) == SchemeRun(s, i)
    decreases n - i
  {
    if i < n {
      assert s[i] == s[..n][i] == t[..n][i] == t[i];
      if IsSchemeChar(s[i]) {
        SchemeRunKept(s, t, i + 1, n);
      }
    }
  }

  /** The scheme run ends by `n` when the byte at `n` is no scheme byte. */
  lemma {:induction false} SchemeRunBound(s: Bytes, i: nat, n: nat)
    requires i <= n <= |s| && (n < |s| ==> !IsSchemeChar(s[n]))
    ensures SchemeRun(s, i) <= n
    decreases n - i
  {
    if i < n && IsSchemeChar(s[i]) {
      SchemeRunBound(s, i + 1, n);
    }
  }

  /** Two texts that agree before `n` stop a scan at the same place, if the scan ends by `n`. */
  lemma {:induction false} UntilKept(s: Bytes, t: Bytes, i: nat, kind: Stop, n: nat)
    requires i <= n <= |s| && n <= |t| && s[..n] == t[..n]
    requires Until(s, i, kind) <= n
    requires Until(s, i, kind) == n && n < |t| ==> Stops(kind, t[n])
    ensures Until(t, i, kind) == Until(s, i, kind)
    decreases n - i
  {
    if i < n {
      assert s[i] == s[..n][i] == t[..n][i] == t[i];
      if !Stops(kind, s[i]) {
        UntilKept(s, t, i + 1, kind, n);
      }
    }
  }

  /** A byte that ends the path: neither a scheme byte nor a ':' nor a '/'. */
  predicate PathStop(s: Bytes, n: nat)
  {
    n < |s| ==> s[n] == QMARK || s[n] == HASH
  }

  /**
   * Two texts that agree before `n`, where both hold '?', '#' or their end
   * and the first has its query by then, have their scheme, path and query
   * at the same places.
   */
  lemma PrefixKept(s: Bytes, t: Bytes, n: nat)
    requires n <= |s| && n <= |t| && s[..n] == t[..n]
    requires PathStop(s, n) && PathStop(t, n) && QueryStart(s) <= n
    ensures SchemeEnd(t) == SchemeEnd(s) && PathStart(t) == PathStart(s) && QueryStart(t) == QueryStart(s)
  {
    SchemeKept(s, t, n);
    if SchemeEnd(s).Some? {
      var k := SchemeEnd(s).value;
      assert k < n;
      if k + 2 < n {
        assert s[k + 1] == s[..n][k + 1] == t[..n][k + 1] == t[k + 1];
        assert s[k + 2] == s[..n][k + 2] == t[..n][k + 2] == t[k + 2];
        if s[k + 1] == SLASH && s[k + 2] == SLASH {
          UntilKept(s, t, k + 3, AuthorityEnd, n);
        }
      }
    }
    UntilKept(s, t, PathStart(s), PathEnd, n);
  }

  lemma SchemeKept(s: Bytes, t: Bytes, n: nat)
    requires n <= |s| && n <= |t| && s[..n] == t[..n]
    requires PathStop(s, n) && PathStop(t, n)
    ensures SchemeEnd(t) == SchemeEnd(s)
  {
    if n > 0 {
      assert s[0] == s[..n][0] == t[..n][0] == t[0];
      if IsAlpha(s[0]) {
        SchemeRunBound(s, 1, n);
        SchemeRunKept(s, t, 1, n);
        var c := SchemeRun(s, 1);
        if c < n {
          assert s[c] == s[..n][c] == t[..n][c] == t[c];
        }
      }
    }
  }

  /** A value that query(value) can write without moving the scheme, the path or the query. */
  predicate QueryValue(v: Bytes)
  {
    v == [] || v[0] == QMARK || v[0] == HASH
  }

  /** A value that fragment(value) can write without moving any offset. */
  predicate FragmentValue(v: Bytes)
  {
    v == [] || v[0] == HASH
  }

  lemma QueryKept(s: Bytes, v: Bytes)
    requires QueryValue(v)
    ensures var t := WithQuery(s, v);
      SchemeEnd(t) == SchemeEnd(s) && PathStart(t) == PathStart(s) && QueryStart(t) == QueryStart(s)
  {
    var q, f := QueryStart(s), FragmentStart(s);
    var t := WithQuery(s, v);
    assert t[..q] == s[..q];
    if v == [] && q < |t| {
      assert t[q] == s[f];
    }
    PrefixKept(s, t, q);
  }

  lemma FragmentKept(s: Bytes, v: Bytes)
    requires FragmentValue(v)
    ensures var t := WithFragment(s, v);
      SchemeEnd(t) == SchemeEnd(s) && PathStart(t) == PathStart(s) &&
      QueryStart(t) == QueryStart(s) && FragmentStart(t) == FragmentStart(s)
  {
    var f := FragmentStart(s);
    var t := WithFragment(s, v);
    assert t[..f] == s[..f];
    PrefixKept(s, t, f);
    UntilKept(s, t, QueryStart(s), QueryEnd, f);
  }
}

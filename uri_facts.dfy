/** What the offsets of a uri mean, and what each setter replaces. */
module UriFacts {
  import opened ByteString
  import opened UriCodec
  import opened Uri

  // ---------------------------------------------------------------------
  // The scheme

  /** The text starts with ALPHA *( ALPHA / DIGIT / "+" / "-" / "." ) and a ':' at `k` (section 3.1 of RFC 3986). */
  ghost predicate SchemeAt(s: Bytes, k: nat)
  {
    0 < k < |s| && IsAlpha(s[0]) && (forall j :: 1 <= j < k ==> IsSchemeChar(s[j])) && s[k] == COLON
  }

  lemma {:induction false} SchemeRunAll(s: Bytes, i: nat)
    requires i <= |s|
    ensures forall j :: i <= j < SchemeRun(s, i) ==> IsSchemeChar(s[j])
    decreases |s| - i
  {
    if i < |s| && IsSchemeChar(s[i]) {
      SchemeRunAll(s, i + 1);
    }
  }

  lemma {:induction false} SchemeRunStops(s: Bytes, i: nat, k: nat)
    requires i <= k < |s| && !IsSchemeChar(s[k]) && forall j :: i <= j < k ==> IsSchemeChar(s[j])
    ensures SchemeRun(s, i) == k
    decreases k - i
  {
    if i < k {
      SchemeRunStops(s, i + 1, k);
    }
  }

  /** has_scheme finds the ':' at `k` exactly when a scheme ends there. */
  lemma SchemeEndIff(s: Bytes, k: nat)
    ensures SchemeEnd(s) == Some(k) <==> SchemeAt(s, k)
  {
    if SchemeEnd(s) == Some(k) {
      SchemeRunAll(s, 1);
    }
    if SchemeAt(s, k) {
      SchemeRunStops(s, 1, k);
    }
  }

  /** Without a scheme no position ends one. */
  lemma NoSchemeIff(s: Bytes)
    ensures SchemeEnd(s).None? <==> forall k :: !SchemeAt(s, k)
  {
    if SchemeEnd(s).Some? {
      SchemeEndIff(s, SchemeEnd(s).value);
    } else {
      forall k | SchemeAt(s, k)
        ensures false
      {
        SchemeEndIff(s, k);
      }
    }
  }

  /** A text with no ':' before position `n`, and no scheme byte or ':' at `n`, has no scheme. */
  lemma NoSchemeFrom(t: Bytes, n: nat)
    requires n <= |t| && forall j :: 0 <= j < n ==> t[j] != COLON
    requires n < |t| ==> t[n] != COLON && !IsSchemeChar(t[n])
    ensures SchemeEnd(t).None?
  {
    if t != [] && IsAlpha(t[0]) {
      SchemeRunBound(t, 1, n);
    }
  }

  /** A text that starts like a text without a scheme, and then stops the scheme scan, has none either. */
  lemma NoSchemeHead(u: Bytes, t: Bytes, n: nat)
    requires SchemeEnd(u).None? && n <= |u| && n <= |t| && u[..n] == t[..n]
    requires n < |t| ==> t[n] != COLON && !IsSchemeChar(t[n])
    ensures SchemeEnd(t).None?
  {
    if t != [] && IsAlpha(t[0]) {
      assert forall j :: 0 <= j < n ==> u[j] == t[j] by {
        forall j | 0 <= j < n
          ensures u[j] == t[j]
        {
          assert u[j] == u[..n][j] && t[j] == t[..n][j];
        }
      }
      SchemeRunBound(t, 1, n);
      var c := SchemeRun(t, 1);
      if c < n {
        SchemeRunAll(t, 1);
        SchemeRunStops(u, 1, c);
      }
    }
  }

  /** path(v) over a text without a scheme, for a `v` that starts like one, or with a byte that stops the scan: still no scheme. */
  lemma WithPathNoScheme(s: Bytes, v: Bytes, u: Bytes, n: nat)
    requires SchemeEnd(s).None? && SchemeEnd(u).None? && n <= |v| && n <= |u| && v[..n] == u[..n]
    requires n < |v| ==> v[n] != COLON && !IsSchemeChar(v[n])
    ensures SchemeEnd(WithPath(s, v)).None?
  {
    var q := QueryStart(s);
    var t := WithPath(s, v);
    assert t == v + s[q..];
    assert t[..n] == v[..n];
    if n == |v| && n < |t| {
      assert t[n] == s[q];
    }
    NoSchemeHead(u, t, n);
  }

  /** path(v) over a text without a scheme, for a `v` without ':': still no scheme. */
  lemma WithPathNoColon(s: Bytes, v: Bytes)
    requires SchemeEnd(s).None? && forall j :: 0 <= j < |v| ==> v[j] != COLON
    ensures SchemeEnd(WithPath(s, v)).None?
  {
    var q := QueryStart(s);
    var t := WithPath(s, v);
    assert t == v + s[q..];
    if |v| < |t| {
      assert t[|v|] == s[q];
    }
    NoSchemeFrom(t, |v|);
  }

  // ---------------------------------------------------------------------
  // The layout of the components

  lemma {:induction false} UntilSkips(s: Bytes, i: nat, kind: Stop)
    requires i <= |s|
    ensures forall j :: i <= j < Until(s, i, kind) ==> !Stops(kind, s[j])
    decreases |s| - i
  {
    if i < |s| && !Stops(kind, s[i]) {
      UntilSkips(s, i + 1, kind);
    }
  }

  /** What comes before the path: nothing, the scheme and ':', or the scheme, "://" and the authority. */
  function Front(s: Bytes): Bytes
  {
    if HasAuthority(s) then SchemeOf(s) + [COLON, SLASH, SLASH] + AuthorityOf(s)
    else if SchemeEnd(s).Some? then SchemeOf(s) + [COLON]
    else []
  }

  lemma FrontIsPrefix(s: Bytes)
    ensures Front(s) == s[..PathStart(s)]
  {
    if SchemeEnd(s).Some? {
      var k := SchemeEnd(s).value;
      if HasAuthority(s) {
        assert s[..PathStart(s)] == s[..k] + [s[k], s[k + 1], s[k + 2]] + s[k + 3..PathStart(s)];
      } else {
        assert s[..k + 1] == s[..k] + [s[k]];
      }
    }
  }

  /** The offsets cut the text into its components in order. */
  lemma Layout(s: Bytes)
    ensures s == Front(s) + PathOf(s) + QueryOf(s) + FragmentOf(s)
    ensures ResourceOf(s) == PathOf(s) + QueryOf(s)
  {
    FrontIsPrefix(s);
    Cut(s, PathStart(s), QueryStart(s), FragmentStart(s));
  }

  lemma Cut(s: Bytes, p: nat, q: nat, f: nat)
    requires p <= q <= f <= |s|
    ensures s == s[..p] + s[p..q] + s[q..f] + s[f..] && s[p..f] == s[p..q] + s[q..f]
  {
  }

  /** The path holds no '?' and no '#'. */
  lemma PathPlain(s: Bytes)
    ensures forall j :: 0 <= j < |PathOf(s)| ==> PathOf(s)[j] != QMARK && PathOf(s)[j] != HASH
  {
    UntilSkips(s, PathStart(s), PathEnd);
  }

  /** The query is empty or starts at its '?', and holds no '#'. */
  lemma QueryShape(s: Bytes)
    ensures QueryOf(s) == [] || QueryOf(s)[0] == QMARK
    ensures forall j :: 0 <= j < |QueryOf(s)| ==> QueryOf(s)[j] != HASH
  {
    var q := QueryStart(s);
    UntilSkips(s, q, QueryEnd);
    if q < FragmentStart(s) {
      assert s[q] != HASH;
    }
  }

  /** The fragment is empty or starts at its '#'. */
  lemma FragmentShape(s: Bytes)
    ensures FragmentOf(s) == [] || FragmentOf(s)[0] == HASH
  {
  }

  /** path(v) over a text without a scheme: `v`, then the query and the fragment. */
  lemma WithPathNoSchemeText(s: Bytes, v: Bytes)
    requires SchemeEnd(s).None?
    ensures WithPath(s, v) == v + QueryOf(s) + FragmentOf(s)
  {
    var q, f := QueryStart(s), FragmentStart(s);
    assert PathStart(s) == 0 && !HasAuthority(s);
    assert WithPath(s, v) == [] + v + s[q..];
    TailAt(s, q, f);
    assert QueryOf(s) == s[q..f] && FragmentOf(s) == s[f..];
    Assoc(v, s[q..f], s[f..]);
  }

  /** A tail of a text is its part up to `f` followed by the rest. */
  lemma TailAt(s: Bytes, q: nat, f: nat)
    requires q <= f <= |s|
    ensures s[q..] == s[q..f] + s[f..]
  {
  }

  /** Under an authority the path is empty or starts with '/'. */
  lemma PathUnderAuthority(s: Bytes)
    requires HasAuthority(s)
    ensures PathOf(s) == [] || PathOf(s)[0] == SLASH
  {
    var p := PathStart(s);
    if p < QueryStart(s) {
      assert PathOf(s)[0] == s[p];
    }
  }

  /** has_authority: the authority holds no '/', '?' or '#'. */
  lemma AuthorityPlain(s: Bytes)
    ensures forall j :: 0 <= j < |AuthorityOf(s)| ==>
      AuthorityOf(s)[j] != SLASH && AuthorityOf(s)[j] != QMARK && AuthorityOf(s)[j] != HASH
  {
    if HasAuthority(s) {
      UntilSkips(s, SchemeEnd(s).value + 3, AuthorityEnd);
    }
  }

  /** is_opaque, relative and absolute read the scheme and the authority. */
  lemma HierarchicalDiffers(s: Bytes)
    ensures SchemeEnd(s).None? ==> Hierarchical(s) && !HasAuthority(s)
    ensures SchemeEnd(s).Some? ==> (Hierarchical(s) <==> HasAuthority(s))
  {
  }

  // ---------------------------------------------------------------------
  // Scans over moved text

  lemma {:induction false} UntilShift(s: Bytes, i: nat, t: Bytes, j: nat, kind: Stop)
    requires i <= |s| && j <= |t| && s[i..] == t[j..]
    ensures Until(t, j, kind) == Until(s, i, kind) - i + j
    decreases |s| - i
  {
    if i < |s| {
      assert s[i] == s[i..][0] == t[j..][0] == t[j];
      assert s[i + 1..] == s[i..][1..] == t[j..][1..] == t[j + 1..];
      UntilShift(s, i + 1, t, j + 1, kind);
    }
  }

  /** A scan runs over bytes that do not stop it. */
  lemma {:induction false} UntilOver(s: Bytes, i: nat, k: nat, kind: Stop)
    requires i <= k <= |s| && forall j :: i <= j < k ==> !Stops(kind, s[j])
    ensures Until(s, i, kind) == Until(s, k, kind)
    decreases k - i
  {
    if i < k {
      UntilOver(s, i + 1, k, kind);
    }
  }

  // ---------------------------------------------------------------------
  // The setters replace one component

  lemma SameSlice(s: Bytes, t: Bytes, n: nat, a: nat, b: nat)
    requires a <= b <= n <= |s| && n <= |t| && s[..n] == t[..n]
    ensures s[a..b] == t[a..b]
  {
    assert s[a..b] == s[..n][a..b];
    assert t[a..b] == t[..n][a..b];
  }

  /** query(v), for a query: the query becomes `v`, every other component stays. */
  lemma SetQueryParts(s: Bytes, v: Bytes)
    requires v == [] || v[0] == QMARK
    requires forall j :: 0 <= j < |v| ==> v[j] != HASH
    ensures var t := WithQuery(s, v);
      QueryOf(t) == v && Front(t) == Front(s) && PathOf(t) == PathOf(s) && FragmentOf(t) == FragmentOf(s) &&
      HasAuthority(t) == HasAuthority(s) && SchemeOf(t) == SchemeOf(s) && AuthorityOf(t) == AuthorityOf(s)
  {
    var q, f := QueryStart(s), FragmentStart(s);
    var t := WithQuery(s, v);
    QueryKept(s, v);
    assert t[..q] == s[..q];
    assert t[q..q + |v|] == v;
    assert t[q + |v|..] == s[f..];
    UntilOver(t, q, q + |v|, QueryEnd);
    UntilShift(s, f, t, q + |v|, QueryEnd);
    SameSlice(s, t, q, 0, PathStart(s));
    SameSlice(s, t, q, PathStart(s), q);
    SameFront(s, t, PathStart(s));
  }

  /** fragment(v), for a fragment: the fragment becomes `v`, every other component stays. */
  lemma SetFragmentParts(s: Bytes, v: Bytes)
    requires FragmentValue(v)
    ensures var t := WithFragment(s, v);
      FragmentOf(t) == v && Front(t) == Front(s) && PathOf(t) == PathOf(s) && QueryOf(t) == QueryOf(s) &&
      HasAuthority(t) == HasAuthority(s) && SchemeOf(t) == SchemeOf(s) && AuthorityOf(t) == AuthorityOf(s)
  {
    var f := FragmentStart(s);
    var t := WithFragment(s, v);
    FragmentKept(s, v);
    var p, q := PathStart(s), QueryStart(s);
    assert t[..f] == s[..f];
    SameSlice(s, t, f, 0, p);
    SameSlice(s, t, f, p, q);
    SameSlice(s, t, f, q, f);
    SameFront(s, t, p);
  }

  lemma ShiftSlice(s: Bytes, i: nat, t: Bytes, j: nat, a: nat, b: nat)
    requires i <= |s| && j <= |t| && s[i..] == t[j..] && a <= b && i + b <= |s|
    ensures s[i + a..i + b] == t[j + a..j + b]
  {
    assert s[i + a..i + b] == s[i..][a..b];
    assert t[j + a..j + b] == t[j..][a..b];
  }

  /** The scans for the query and the fragment, over text that moved from `p` to `p2`. */
  lemma ScansMoved(s: Bytes, p: nat, t: Bytes, p2: nat, q: nat, f: nat)
    requires p <= |s| && p2 <= |t| && s[p..] == t[p2..]
    requires q == Until(s, p, PathEnd) && f == Until(s, q, QueryEnd)
    ensures Until(t, p2, PathEnd) == q - p + p2 && Until(t, q - p + p2, QueryEnd) == f - p + p2
  {
    UntilShift(s, p, t, p2, PathEnd);
    assert s[q..] == t[q - p + p2..] by {
      ShiftSlice(s, p, t, p2, q - p, |s| - p);
    }
    UntilShift(s, q, t, q - p + p2, QueryEnd);
  }

  /** Three consecutive slices of text that moved from `p` to `p2`. */
  lemma SlicesMoved(s: Bytes, p: nat, t: Bytes, p2: nat, q: nat, f: nat)
    requires p <= q <= f <= |s| && p2 <= |t| && s[p..] == t[p2..]
    ensures t[p2..q - p + p2] == s[p..q] && t[q - p + p2..f - p + p2] == s[q..f] && t[f - p + p2..] == s[f..]
  {
    ShiftSlice(s, p, t, p2, 0, q - p);
    ShiftSlice(s, p, t, p2, q - p, f - p);
    ShiftSlice(s, p, t, p2, f - p, |s| - p);
  }

  /** The components of a text, given where they start. */
  lemma PartsAt(s: Bytes, p: nat, q: nat, f: nat)
    requires p == PathStart(s) && q == QueryStart(s) && f == FragmentStart(s)
    ensures p <= q <= f <= |s| && PathOf(s) == s[p..q] && QueryOf(s) == s[q..f] && FragmentOf(s) == s[f..]
  {
  }

  /** Two texts that agree up to their common path start, with the scheme at the same place, share everything before the path. */
  lemma SameFront(s: Bytes, t: Bytes, p: nat)
    requires SchemeEnd(t) == SchemeEnd(s) && p == PathStart(s) == PathStart(t) && s[..p] == t[..p]
    ensures HasAuthority(t) == HasAuthority(s) && Front(t) == Front(s)
    ensures SchemeOf(t) == SchemeOf(s) && AuthorityOf(t) == AuthorityOf(s)
  {
    if SchemeEnd(s).Some? {
      var k := SchemeEnd(s).value;
      SameSlice(s, t, p, 0, k);
      if k + 3 <= p {
        SameSlice(s, t, p, k + 1, k + 3);
        assert s[k + 1] == s[k + 1..k + 3][0] && s[k + 2] == s[k + 1..k + 3][1];
        assert t[k + 1] == t[k + 1..k + 3][0] && t[k + 2] == t[k + 1..k + 3][1];
        SameSlice(s, t, p, k + 3, p);
      }
    }
    FrontIsPrefix(s);
    FrontIsPrefix(t);
  }

  /** The rest of a text after a moved path start: path, query and fragment stay. */
  lemma TailMoved(s: Bytes, t: Bytes, p: nat, p2: nat)
    requires p == PathStart(s) && p2 == PathStart(t) && s[p..] == t[p2..]
    ensures PathOf(t) == PathOf(s) && QueryOf(t) == QueryOf(s) && FragmentOf(t) == FragmentOf(s)
  {
    var q, f := QueryStart(s), FragmentStart(s);
    var q2, f2 := q - p + p2, f - p + p2;
    assert QueryStart(t) == q2 && FragmentStart(t) == f2 by {
      ScansMoved(s, p, t, p2, q, f);
    }
    SlicesMoved(s, p, t, p2, q, f);
    PartsAt(s, p, q, f);
    PartsAt(t, p2, q2, f2);
  }

  /** Two texts with the scheme at the same place that agree from its ':' on share every component but the scheme. */
  lemma SameAfterScheme(s: Bytes, t: Bytes, k: nat)
    requires SchemeEnd(s) == Some(k) && SchemeEnd(t) == Some(k) && k <= |s| && k <= |t| && s[k..] == t[k..]
    ensures PathStart(t) == PathStart(s) && HasAuthority(t) == HasAuthority(s) && AuthorityOf(t) == AuthorityOf(s)
    ensures PathOf(t) == PathOf(s) && QueryOf(t) == QueryOf(s) && FragmentOf(t) == FragmentOf(s)
  {
    var p := PathStart(s);
    assert |s| == |t|;
    if k + 2 < |s| {
      assert t[k + 1] == t[k..][1] == s[k..][1] == s[k + 1];
      assert t[k + 2] == t[k..][2] == s[k..][2] == s[k + 2];
    }
    assert HasAuthority(t) == HasAuthority(s);
    assert PathStart(t) == p by {
      if HasAuthority(s) {
        ShiftSlice(s, k, t, k, 3, |s| - k);
        UntilShift(s, k + 3, t, k + 3, AuthorityEnd);
      }
    }
    assert s[p..] == t[p..] by {
      ShiftSlice(s, k, t, k, p - k, |s| - k);
    }
    TailMoved(s, t, p, p);
    if HasAuthority(s) {
      assert s[k + 3..p] == t[k + 3..p] by {
        ShiftSlice(s, k, t, k, 3, p - k);
      }
    }
  }

  /** authority(v) keeps the scheme and the "//". */
  lemma AuthorityKeepsScheme(s: Bytes, v: Bytes)
    requires HasAuthority(s)
    ensures var t := WithAuthority(s, v);
      SchemeEnd(t) == SchemeEnd(s) && HasAuthority(t) && SchemeOf(t) == SchemeOf(s)
  {
    var k := SchemeEnd(s).value;
    var start := k + 3;
    var t := WithAuthority(s, v);
    SchemePrefixKept(s, start, PathStart(s) - start, v);
    assert t[..start] == s[..start];
    SameSlice(s, t, start, 0, k);
    SameSlice(s, t, start, k + 1, k + 3);
    assert t[k + 1] == t[k + 1..k + 3][0] && t[k + 2] == t[k + 1..k + 3][1];
  }

  /** authority(v), for a `v` without '/', '?' or '#': the path starts right after it. */
  lemma AuthorityEndsAt(s: Bytes, v: Bytes)
    requires HasAuthority(s)
    requires forall j :: 0 <= j < |v| ==> v[j] != SLASH && v[j] != QMARK && v[j] != HASH
    ensures var t, start := WithAuthority(s, v), SchemeEnd(s).value + 3;
      PathStart(t) == start + |v| && AuthorityOf(t) == v && t[start + |v|..] == s[PathStart(s)..]
  {
    var start, p := SchemeEnd(s).value + 3, PathStart(s);
    var t := WithAuthority(s, v);
    AuthorityKeepsScheme(s, v);
    assert t[start..start + |v|] == v;
    assert t[start + |v|..] == s[p..];
    UntilOver(t, start, start + |v|, AuthorityEnd);
    UntilShift(s, p, t, start + |v|, AuthorityEnd);
  }

  /** authority(v), for an authority without '/', '?' or '#': the authority becomes `v`, every other component stays. */
  lemma SetAuthorityParts(s: Bytes, v: Bytes)
    requires HasAuthority(s)
    requires forall j :: 0 <= j < |v| ==> v[j] != SLASH && v[j] != QMARK && v[j] != HASH
    ensures var t := WithAuthority(s, v);
      HasAuthority(t) && SchemeOf(t) == SchemeOf(s) && AuthorityOf(t) == v &&
      PathOf(t) == PathOf(s) && QueryOf(t) == QueryOf(s) && FragmentOf(t) == FragmentOf(s)
  {
    AuthorityKeepsScheme(s, v);
    AuthorityEndsAt(s, v);
    var t := WithAuthority(s, v);
    TailMoved(s, t, PathStart(s), PathStart(t));
  }

  /** path(v) under an authority keeps the front, and the path starts where it did. */
  lemma PathKeepsFront(s: Bytes, v: Bytes)
    requires HasAuthority(s)
    ensures var t := WithPath(s, v);
      HasAuthority(t) && PathStart(t) == PathStart(s) && Front(t) == Front(s) &&
      SchemeEnd(t) == SchemeEnd(s) && SchemeOf(t) == SchemeOf(s) && AuthorityOf(t) == AuthorityOf(s)
  {
    var k := SchemeEnd(s).value;
    var p, q, w := PathStart(s), QueryStart(s), PathText(s, v);
    var t := WithPath(s, v);
    SchemePrefixKept(s, p, q - p, w);
    assert t[..p] == s[..p];
    SameSlice(s, t, p, k + 1, k + 3);
    assert t[k + 1] == t[k + 1..k + 3][0] && t[k + 2] == t[k + 1..k + 3][1];
    assert t[p] == w[0] == SLASH;
    UntilKept(s, t, k + 3, AuthorityEnd, p);
    SameFront(s, t, p);
  }

  /** path(v) under an authority, for a `v` without '?' or '#': the query starts right after the written path. */
  lemma PathEndsAt(s: Bytes, v: Bytes)
    requires HasAuthority(s)
    requires forall j :: 0 <= j < |v| ==> v[j] != QMARK && v[j] != HASH
    ensures var t, p, w := WithPath(s, v), PathStart(s), PathText(s, v);
      QueryStart(t) == p + |w| && PathOf(t) == w && t[p + |w|..] == s[QueryStart(s)..]
  {
    var p, q, w := PathStart(s), QueryStart(s), PathText(s, v);
    var t := WithPath(s, v);
    PathKeepsFront(s, v);
    assert t[p..p + |w|] == w;
    assert t[p + |w|..] == s[q..];
    UntilOver(t, p, p + |w|, PathEnd);
    UntilShift(s, q, t, p + |w|, PathEnd);
  }

  /** The rest of a text after a moved query start: query and fragment stay. */
  lemma QueryTailMoved(s: Bytes, t: Bytes, q: nat, q2: nat)
    requires q == QueryStart(s) && q2 == QueryStart(t) && s[q..] == t[q2..]
    ensures QueryOf(t) == QueryOf(s) && FragmentOf(t) == FragmentOf(s)
  {
    var f := FragmentStart(s);
    assert FragmentStart(t) == f - q + q2 by {
      UntilShift(s, q, t, q2, QueryEnd);
    }
    SlicesMoved(s, q, t, q2, q, f);
  }

  /** path(v) under an authority, for a path without '?' or '#': the path becomes `v` behind a '/', every other component stays. */
  lemma SetPathParts(s: Bytes, v: Bytes)
    requires HasAuthority(s)
    requires forall j :: 0 <= j < |v| ==> v[j] != QMARK && v[j] != HASH
    ensures var t := WithPath(s, v);
      PathOf(t) == PathText(s, v) && PathOf(t)[0] == SLASH &&
      HasAuthority(t) && SchemeOf(t) == SchemeOf(s) && AuthorityOf(t) == AuthorityOf(s) &&
      Front(t) == Front(s) && QueryOf(t) == QueryOf(s) && FragmentOf(t) == FragmentOf(s)
  {
    PathKeepsFront(s, v);
    PathEndsAt(s, v);
    var t := WithPath(s, v);
    QueryTailMoved(s, t, QueryStart(s), QueryStart(t));
  }
}

/** What uri::normal, uri::make_base and uri::canonical promise about the components of their result. */
module UriResolveFacts {
  import opened ByteString
  import opened UriCodec
  import opened UriAuth
  import opened Uri
  import opened UriNormal
  import opened UriResolve
  import UriFacts
  import UriAuthFacts
  import UriNormalFacts

  // ---------------------------------------------------------------------
  // The scheme step

  /** ToLower keeps a scheme byte a scheme byte, and a letter a letter. */
  lemma LowerKeepsScheme(c: uint8)
    ensures IsSchemeChar(c) ==> IsSchemeChar(ToLower(c))
    ensures IsAlpha(c) ==> IsAlpha(ToLower(c))
  {
  }

  /** Lowering a scheme that ends at `k` lowers the first `k` bytes and leaves the ':' where it was. */
  lemma LowerSchemeEnd(s: Bytes, k: nat)
    requires SchemeEnd(s) == Some(k)
    ensures var t := LowerScheme(s);
      SchemeEnd(t) == Some(k) && |t| == |s| && t[..k] == LowerAll(s[..k]) && t[k..] == s[k..]
  {
    var t := LowerScheme(s);
    assert t == LowerAll(s[..k]) + s[k..];
    UriFacts.SchemeEndIff(s, k);
    LowerKeepsScheme(s[0]);
    forall j | 1 <= j < k
      ensures IsSchemeChar(t[j])
    {
      LowerKeepsScheme(s[j]);
    }
    UriFacts.SchemeEndIff(t, k);
  }

  /** Lowering the scheme leaves it where it was and changes no other component. */
  lemma LowerSchemeParts(s: Bytes)
    ensures var t := LowerScheme(s);
      SchemeEnd(t) == SchemeEnd(s) && HasAuthority(t) == HasAuthority(s) &&
      SchemeOf(t) == LowerAll(SchemeOf(s)) && AuthorityOf(t) == AuthorityOf(s) &&
      PathOf(t) == PathOf(s) && QueryOf(t) == QueryOf(s) && FragmentOf(t) == FragmentOf(s)
  {
    if SchemeEnd(s).Some? {
      var k := SchemeEnd(s).value;
      LowerSchemeEnd(s, k);
      UriFacts.SameAfterScheme(s, LowerScheme(s), k);
    }
  }

  // ---------------------------------------------------------------------
  // The authority step

  /** No '/', '?' or '#': a text that stays inside one authority. */
  predicate Plain(v: Bytes)
  {
    Avoids(v, SLASH) && Avoids(v, QMARK) && Avoids(v, HASH)
  }

  lemma EncodedPlain(cs: Charset, x: Bytes)
    ensures Plain(Encode(cs, x))
  {
    UriAuthFacts.EncodeAvoids(cs, x, SLASH);
    UriAuthFacts.EncodeAvoids(cs, x, QMARK);
    UriAuthFacts.EncodeAvoids(cs, x, HASH);
  }

  lemma PlainConcat(a: Bytes, b: Bytes)
    requires Plain(a) && Plain(b)
    ensures Plain(a + b)
  {
  }

  lemma UserInfoPlain(user: Bytes, password: Bytes)
    requires Plain(user) && Plain(password)
    ensures Plain(UserInfoText(user, password))
  {
    assert Plain([COLON]) && Plain([AT]);
    if user != [] {
      if password != [] {
        PlainConcat([COLON], password);
        PlainConcat(user, [COLON] + password);
        PlainConcat(user + ([COLON] + password), [AT]);
        assert user + [COLON] + password == user + ([COLON] + password);
      } else {
        PlainConcat(user, [AT]);
        assert user + [] == user;
      }
    }
  }

  lemma PortPlain(port: Bytes)
    requires Plain(port)
    ensures Plain(if port != [] then [COLON] + port else [])
  {
    assert Plain([COLON]);
    PlainConcat([COLON], port);
  }

  /** What auth_builder::string writes holds no '/', '?' or '#', so it stays one authority. */
  lemma AuthStringPlain(a: Auth, flag: AuthFlag)
    ensures Plain(AuthString(a, flag))
  {
    var user := if flag == NoUserinfo then [] else Encode(Unreserved, a.user);
    var password := if flag == UiSafe then [] else Encode(HostChars, a.password);
    var host := Encode(HostChars, a.host);
    var port := Encode(Unreserved, a.port);
    EncodedPlain(Unreserved, a.user);
    EncodedPlain(HostChars, a.password);
    EncodedPlain(HostChars, a.host);
    EncodedPlain(Unreserved, a.port);
    UserInfoPlain(user, password);
    PortPlain(port);
    PlainConcat(UserInfoText(user, password), host);
    PlainConcat(UserInfoText(user, password) + host, if port != [] then [COLON] + port else []);
  }

  /** The authority written over the lowered text: every other component as in the original. */
  lemma AuthorityStep(s: Bytes, v: Bytes)
    requires HasAuthority(s)
    requires Plain(v)
    ensures var t := WithAuthority(LowerScheme(s), v);
      HasAuthority(t) && SchemeOf(t) == LowerAll(SchemeOf(s)) && AuthorityOf(t) == v &&
      PathOf(t) == PathOf(s) && QueryOf(t) == QueryOf(s) && FragmentOf(t) == FragmentOf(s)
  {
    LowerSchemeParts(s);
    UriFacts.SetAuthorityParts(LowerScheme(s), v);
  }

  /** The path step under an authority: the path normalised, an empty one becoming "/", nothing else changed. */
  lemma PathStepAuthority(s: Bytes)
    requires HasAuthority(s)
    ensures var t := PathStep(s);
      HasAuthority(t) && SchemeOf(t) == SchemeOf(s) && AuthorityOf(t) == AuthorityOf(s) &&
      PathOf(t) == (if PathOf(s) == [] then [SLASH] else NormalPath(PathOf(s))) &&
      QueryOf(t) == QueryOf(s) && FragmentOf(t) == FragmentOf(s)
  {
    var np := NormalPath(PathOf(s));
    assert forall j :: 0 <= j < |np| ==> np[j] != QMARK && np[j] != HASH by {
      UriNormalFacts.NormalPathBytes(PathOf(s));
    }
    assert PathStep(s) == WithPath(s, np);
    UriFacts.SetPathParts(s, np);
    UriFacts.PathUnderAuthority(s);
    if PathOf(s) == [] {
      UriNormalFacts.NormalPathEmpty();
    } else {
      UriNormalFacts.NormalPathLeadingSlash(PathOf(s));
    }
  }

  /**
   * normal of a uri with an authority that passes the host and port checks:
   * the scheme lowercased, the authority rebuilt from the checked parts,
   * the path normalised (an empty one becomes "/"), query and fragment kept.
   */
  lemma NormalAuthorityParts(s: Bytes, flag: AuthFlag)
    requires HasAuthority(s)
    requires NormalAuth(AuthParse(AuthorityOf(s)), LowerAll(SchemeOf(s))).Some?
    ensures var r := NormalText(s, flag);
      var a := NormalAuth(AuthParse(AuthorityOf(s)), LowerAll(SchemeOf(s))).value;
      HasAuthority(r) && SchemeOf(r) == LowerAll(SchemeOf(s)) && AuthorityOf(r) == AuthString(a, flag) &&
      PathOf(r) == (if PathOf(s) == [] then [SLASH] else NormalPath(PathOf(s))) &&
      QueryOf(r) == QueryOf(s) && FragmentOf(r) == FragmentOf(s)
  {
    var a := NormalAuth(AuthParse(AuthorityOf(s)), LowerAll(SchemeOf(s))).value;
    var v := AuthString(a, flag);
    var s2 := WithAuthority(LowerScheme(s), v);
    assert NormalText(s, flag) == PathStep(s2) by {
      LowerSchemeParts(s);
    }
    AuthStringPlain(a, flag);
    AuthorityStep(s, v);
    PathStepAuthority(s2);
  }

  /** normal empties a uri with an authority exactly when the host or the port check fails. */
  lemma NormalRejects(s: Bytes, flag: AuthFlag)
    requires HasAuthority(s)
    ensures NormalText(s, flag) == [] <==> NormalAuth(AuthParse(AuthorityOf(s)), LowerAll(SchemeOf(s))).None?
  {
    LowerSchemeParts(s);
    if NormalAuth(AuthParse(AuthorityOf(s)), LowerAll(SchemeOf(s))).Some? {
      NormalAuthorityParts(s, flag);
    }
  }

  // ---------------------------------------------------------------------
  // The other shapes

  /** normal of a uri without a scheme: only the path changes. */
  lemma NormalWithoutScheme(s: Bytes, flag: AuthFlag)
    requires SchemeEnd(s).None?
    ensures NormalText(s, flag) == NormalPath(PathOf(s)) + QueryOf(s) + FragmentOf(s)
  {
    assert LowerScheme(s) == s;
    assert NormalText(s, flag) == WithPath(s, NormalPath(PathOf(s)));
    UriFacts.WithPathNoSchemeText(s, NormalPath(PathOf(s)));
  }

  /** normal of an opaque uri ("mailto:user@host"): only the scheme changes. */
  lemma NormalOpaque(s: Bytes, flag: AuthFlag)
    requires SchemeEnd(s).Some? && !HasAuthority(s)
    ensures NormalText(s, flag) == LowerAll(SchemeOf(s)) + [COLON] + PathOf(s) + QueryOf(s) + FragmentOf(s)
  {
    var t := LowerScheme(s);
    LowerSchemeParts(s);
    UriFacts.Layout(t);
  }

  // ---------------------------------------------------------------------
  // make_base

  /** The fragment, then the query, emptied: every other component kept. */
  lemma EmptyQueryAndFragment(t: Bytes)
    ensures var t2 := WithQuery(WithFragment(t, []), []);
      HasAuthority(t2) == HasAuthority(t) && SchemeOf(t2) == SchemeOf(t) && AuthorityOf(t2) == AuthorityOf(t) &&
      PathOf(t2) == PathOf(t) && QueryOf(t2) == [] && FragmentOf(t2) == []
  {
    var t1 := WithFragment(t, []);
    UriFacts.SetFragmentParts(t, []);
    UriFacts.SetQueryParts(t1, []);
  }

  /** remove_filename of a path that is empty or starts with '/': empty, or starting and ending with '/'. */
  lemma CutShape(p: Bytes)
    requires p == [] || p[0] == SLASH
    requires forall j :: 0 <= j < |p| ==> p[j] != QMARK && p[j] != HASH
    ensures var rf := RemoveFilename(p);
      (p == [] ==> rf == []) && (p != [] ==> rf != [] && rf[0] == SLASH && rf[|rf| - 1] == SLASH) &&
      forall j :: 0 <= j < |rf| ==> rf[j] != QMARK && rf[j] != HASH
  {
    if p != [] {
      assert !Avoids(p, SLASH);
    }
  }

  /** The path cut after its last '/' under an authority: it ends in '/', and nothing else changes. */
  lemma CutPath(t: Bytes)
    requires HasAuthority(t)
    ensures var r := WithPath(t, RemoveFilename(PathOf(t)));
      HasAuthority(r) && SchemeOf(r) == SchemeOf(t) && AuthorityOf(r) == AuthorityOf(t) &&
      QueryOf(r) == QueryOf(t) && FragmentOf(r) == FragmentOf(t) &&
      PathOf(r) == (if PathOf(t) == [] then [SLASH] else RemoveFilename(PathOf(t))) &&
      PathOf(r)[|PathOf(r)| - 1] == SLASH
  {
    var p := PathOf(t);
    UriFacts.PathPlain(t);
    UriFacts.PathUnderAuthority(t);
    CutShape(p);
    var rf := RemoveFilename(p);
    UriFacts.SetPathParts(t, rf);
    assert PathText(t, rf) == if p == [] then [SLASH] else rf;
  }

  /**
   * make_base of a non-empty text with an authority, or without a scheme:
   * "http" when there was no scheme, the authority kept, query and
   * fragment emptied, the path cut after its last '/' so that it ends in one.
   */
  lemma MakeBaseParts(s: Bytes)
    requires s != [] && (SchemeEnd(s).None? || HasAuthority(s))
    ensures var t := if SchemeEnd(s).None? then HTTP_PREFIX + s else s;
      var r := MakeBaseText(s);
      HasAuthority(r) && SchemeOf(r) == (if SchemeEnd(s).None? then HTTP else SchemeOf(s)) &&
      AuthorityOf(r) == AuthorityOf(t) && QueryOf(r) == [] && FragmentOf(r) == [] &&
      PathOf(r) == (if PathOf(t) == [] then [SLASH] else RemoveFilename(PathOf(t))) &&
      PathOf(r)[|PathOf(r)| - 1] == SLASH
  {
    var t := if SchemeEnd(s).None? then HTTP_PREFIX + s else s;
    if SchemeEnd(s).None? {
      HttpPrefix(s);
    }
    var t2 := WithQuery(WithFragment(t, []), []);
    EmptyQueryAndFragment(t);
    CutPath(t2);
  }

  // ---------------------------------------------------------------------
  // canonical

  /** The merged path holds no '?' or '#'. */
  lemma MergedPlain(ident: Bytes, base: Bytes)
    ensures var v := MergedPath(PathOf(ident), PathOf(base));
      forall j :: 0 <= j < |v| ==> v[j] != QMARK && v[j] != HASH
  {
    UriFacts.PathPlain(ident);
    UriFacts.PathPlain(base);
  }

  /**
   * The resolution step of canonical against a base with an authority: the
   * base's scheme and authority, the identifier's query and fragment, and
   * the merged path behind a '/'.
   */
  lemma MergeParts(ident: Bytes, base: Bytes)
    requires HasAuthority(base)
    ensures var v := MergedPath(PathOf(ident), PathOf(base));
      var m := WithPath(WithQuery(WithFragment(base, FragmentOf(ident)), QueryOf(ident)), v);
      HasAuthority(m) && SchemeOf(m) == SchemeOf(base) && AuthorityOf(m) == AuthorityOf(base) &&
      PathOf(m) == (if v != [] && v[0] == SLASH then v else [SLASH] + v) &&
      QueryOf(m) == QueryOf(ident) && FragmentOf(m) == FragmentOf(ident)
  {
    var v := MergedPath(PathOf(ident), PathOf(base));
    var t1 := WithFragment(base, FragmentOf(ident));
    UriFacts.FragmentShape(ident);
    UriFacts.SetFragmentParts(base, FragmentOf(ident));
    var t2 := WithQuery(t1, QueryOf(ident));
    UriFacts.QueryShape(ident);
    UriFacts.SetQueryParts(t1, QueryOf(ident));
    MergedPlain(ident, base);
    UriFacts.SetPathParts(t2, v);
  }

  /**
   * canonical of an identifier without an authority, and without a scheme
   * or with the base's scheme in another case, against a base with an
   * authority that normal accepts: the result takes the base's lowered
   * scheme and rebuilt authority, the identifier's query and fragment, and
   * the normal form of the merged path (section 5.2.2 of RFC 3986, with
   * the base's whole path in front).
   */
  lemma CanonicalResolves(ident: Bytes, base: Bytes, flag: AuthFlag)
    requires !HasAuthority(ident) && HasAuthority(base)
    requires SchemeEnd(ident).None? || LowerAll(SchemeOf(ident)) == LowerAll(SchemeOf(base))
    requires NormalAuth(AuthParse(AuthorityOf(base)), LowerAll(SchemeOf(base))).Some?
    ensures var r := CanonicalText(ident, base, flag);
      var v := MergedPath(PathOf(ident), PathOf(base));
      var a := NormalAuth(AuthParse(AuthorityOf(base)), LowerAll(SchemeOf(base))).value;
      HasAuthority(r) && SchemeOf(r) == LowerAll(SchemeOf(base)) && AuthorityOf(r) == AuthString(a, flag) &&
      PathOf(r) == NormalPath(if v != [] && v[0] == SLASH then v else [SLASH] + v) &&
      QueryOf(r) == QueryOf(ident) && FragmentOf(r) == FragmentOf(ident)
  {
    var v := MergedPath(PathOf(ident), PathOf(base));
    var m := WithPath(WithQuery(WithFragment(base, FragmentOf(ident)), QueryOf(ident)), v);
    MergeParts(ident, base);
    assert CanonicalText(ident, base, flag) == NormalText(m, flag);
    NormalAuthorityParts(m, flag);
  }
}

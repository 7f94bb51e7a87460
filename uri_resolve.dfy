/**
 * uri::normal, uri::make_base and uri::canonical over `Uri` objects: each
 * is stated as a function on the text, and done by a method through the
 * object's getters and setters, in the order of the original.
 */
module UriResolve {
  import opened ByteString
  import opened UriCodec
  import opened UriAuth
  import opened Uri
  import opened UriNormal
  import UriFacts
  import UriNormalFacts

  // ---------------------------------------------------------------------
  // normal

  /** The host and port checks of normal: the authority it writes back, or None when the uri is to be emptied. */
  method NormalizeAuth(auth: Auth, scheme: Bytes) returns (r: Option<Auth>)
    ensures r == NormalAuth(auth, scheme)
  {
    if auth.host == [] {
      return None;
    }
    var host := Lower(auth.host);
    var hostOk := CheckHost(host);
    if !hostOk {
      return None;
    }
    var portOk := CheckPort(auth.port);
    if !portOk {
      return None;
    }
    var port := auth.port;
    if port != [] {
      var n := ParsePort(port);
      if n == DefaultPort(scheme) {
        port := [];
      }
    }
    return Some(auth.(host := host, port := port));
  }

  /** The scheme step of normal: the scheme, if any, lowercased. */
  method LowerSchemeOf(tmp: Uri)
    requires tmp.Valid()
    modifies tmp
    ensures tmp.Valid() && tmp.text == LowerScheme(old(tmp.text))
  {
    tmp.EnsurePath();
    if tmp.scheme != NPos {
      var scheme := tmp.Scheme();
      var lowered := Lower(scheme);
      tmp.SetScheme(lowered);
    }
  }

  /** The path step of normal, over the object. */
  method NormalizePathOf(tmp: Uri)
    requires tmp.Valid()
    modifies tmp
    ensures tmp.Valid() && tmp.text == PathStep(old(tmp.text))
  {
    var a := tmp.HasAuthorityM();
    var h := tmp.HasScheme();
    if a || !h {
      var path := tmp.Path();
      var normalized := NormalizePath(path);
      if !h {
        UriNormalFacts.NormalPathNoScheme(tmp.text);
      }
      tmp.SetPath(normalized);
    }
  }

  /** normal(tmp, flag): the scheme lowered, the authority rebuilt or the whole uri emptied, the path normalised. */
  method Normal(tmp: Uri, flag: AuthFlag) returns (r: Uri)
    requires tmp.Valid()
    modifies tmp
    ensures r.Valid() && r.text == NormalText(old(tmp.text), flag)
  {
    LowerSchemeOf(tmp);
    var a := tmp.HasAuthorityM();
    if a {
      var authority := tmp.Authority();
      var scheme := tmp.Scheme();
      var auth := NormalizeAuth(AuthParse(authority), scheme);
      if auth.None? {
        r := new Uri([]);
        return;
      }
      tmp.SetAuthority(AuthString(auth.value, flag));
    }
    NormalizePathOf(tmp);
    r := tmp;
  }

  // ---------------------------------------------------------------------
  // make_base

  /** "http://" */
  const HTTP_PREFIX: Bytes := [0x68, 0x74, 0x74, 0x70, COLON, SLASH, SLASH]

  /** "http://" in front of a text gives it the scheme "http" and, unless the text is empty, an authority. */
  lemma HttpPrefix(s: Bytes)
    ensures SchemeEnd(HTTP_PREFIX + s) == Some(4) && SchemeOf(HTTP_PREFIX + s) == HTTP
    ensures s != [] ==> HasAuthority(HTTP_PREFIX + s)
  {
    var t := HTTP_PREFIX + s;
    UriFacts.SchemeEndIff(t, 4);
  }

  /**
   * make_base, on the text: an empty text stays empty; otherwise "http://"
   * goes in front of a text without a scheme, the fragment and the query
   * are emptied and the path loses what follows its last '/'.
   */
  function MakeBaseText(s: Bytes): Bytes
  {
    if s == [] then s
    else
      var t := if SchemeEnd(s).None? then HTTP_PREFIX + s else s;
      var t1 := WithQuery(WithFragment(t, []), []);
      WithPath(t1, RemoveFilename(PathOf(t1)))
  }

  method MakeBase(document: Uri) returns (r: Uri)
    requires document.Valid()
    modifies document
    ensures r.Valid() && r.text == MakeBaseText(old(document.text))
  {
    if document.text == [] {
      r := new Uri.Copy(document);
      return;
    }
    var tmp := new Uri.Copy(document);
    var h := tmp.HasScheme();
    if !h {
      HttpPrefix(tmp.text);
      var prefixed := new Uri(HTTP_PREFIX + tmp.text);
      tmp.MoveAssign(prefixed);
    }
    ghost var t := tmp.text;
    FragmentKept(t, []);
    tmp.SetFragment([]);
    QueryKept(tmp.text, []);
    tmp.SetQuery([]);
    var path := tmp.Path();
    tmp.SetPath(RemoveFilename(path));
    tmp.EnsureQuery();
    r := tmp;
  }

  // ---------------------------------------------------------------------
  // canonical

  /** The path canonical writes into the base: an absolute one as it is, else after the base's path and a '/'. */
  function MergedPath(identPath: Bytes, basePath: Bytes): Bytes
  {
    if identPath != [] && identPath[0] == SLASH then identPath
    else if basePath != [] then basePath + [SLASH] + identPath
    else identPath
  }

  /**
   * canonical, on the text: an identifier with an authority, or with a
   * scheme the base does not share (ignoring case), is normalised alone;
   * any other takes the base's scheme and authority, its own query and
   * fragment, and its path merged with the base's, and is normalised.
   */
  function CanonicalText(ident: Bytes, base: Bytes, flag: AuthFlag): Bytes
  {
    if HasAuthority(ident) then NormalText(ident, flag)
    else if SchemeEnd(ident).Some? && (SchemeEnd(base).None? || LowerAll(SchemeOf(ident)) != LowerAll(SchemeOf(base))) then
      NormalText(ident, flag)
    else
      var t := WithQuery(WithFragment(base, FragmentOf(ident)), QueryOf(ident));
      NormalText(WithPath(t, MergedPath(PathOf(ident), PathOf(base))), flag)
  }

  /** The scheme test of canonical: the identifier has a scheme, and the base none or another one, ignoring case. */
  method SchemeDiffers(identifier: Uri, base: Uri) returns (differs: bool)
    requires identifier.Valid() && base.Valid()
    modifies identifier, base
    ensures identifier.Valid() && base.Valid()
    ensures identifier.text == old(identifier.text) && base.text == old(base.text)
    ensures differs <==> (SchemeEnd(identifier.text).Some? &&
      (SchemeEnd(base.text).None? || LowerAll(SchemeOf(identifier.text)) != LowerAll(SchemeOf(base.text))))
  {
    var identScheme := identifier.HasScheme();
    if !identScheme {
      return false;
    }
    var baseScheme := base.HasScheme();
    if !baseScheme {
      return true;
    }
    var identSchemeText := identifier.Scheme();
    var baseSchemeText := base.Scheme();
    var il := Lower(identSchemeText);
    var bl := Lower(baseSchemeText);
    differs := il != bl;
  }

  /** The first steps of the resolution: the identifier's fragment and query written over the base's. */
  method TakeQueryAndFragment(temp: Uri, identifier: Uri)
    requires temp.Valid() && identifier.Valid() && temp != identifier
    modifies temp, identifier
    ensures temp.Valid() && identifier.Valid() && identifier.text == old(identifier.text)
    ensures temp.text == WithQuery(WithFragment(old(temp.text), FragmentOf(identifier.text)), QueryOf(identifier.text))
    ensures SchemeEnd(temp.text) == SchemeEnd(old(temp.text))
  {
    ghost var b := temp.text;
    var fragment := identifier.Fragment();
    UriFacts.FragmentShape(identifier.text);
    FragmentKept(b, fragment);
    temp.SetFragment(fragment);
    var query := identifier.Query();
    UriFacts.QueryShape(identifier.text);
    QueryKept(temp.text, query);
    temp.SetQuery(query);
  }

  /** The resolution of canonical: a copy of the base with the identifier's fragment, query and merged path. */
  method Merge(identifier: Uri, base: Uri) returns (temp: Uri)
    requires identifier.Valid() && base.Valid()
    requires SchemeEnd(base.text).Some? || SchemeEnd(identifier.text).None?
    modifies identifier, base
    ensures fresh(temp) && temp.Valid()
    ensures identifier.text == old(identifier.text) && base.text == old(base.text)
    ensures temp.text == WithPath(WithQuery(WithFragment(base.text, FragmentOf(identifier.text)), QueryOf(identifier.text)),
      MergedPath(PathOf(identifier.text), PathOf(base.text)))
  {
    ghost var ident, b := identifier.text, base.text;
    temp := new Uri.Copy(base);
    TakeQueryAndFragment(temp, identifier);
    ghost var t := temp.text;
    var path := identifier.Path();
    var basePath := base.Path();
    if SchemeEnd(t).None? {
      NoSchemeMerged(t, ident, b, path, basePath);
    }
    WriteMergedPath(temp, path, basePath);
  }

  /** The last step of the resolution: the identifier's path, after the base's unless it starts with '/'. */
  method WriteMergedPath(temp: Uri, path: Bytes, basePath: Bytes)
    requires temp.Valid()
    requires SchemeEnd(temp.text).Some? || SchemeEnd(WithPath(temp.text, MergedPath(path, basePath))).None?
    modifies temp
    ensures temp.Valid() && temp.text == WithPath(old(temp.text), MergedPath(path, basePath))
  {
    if path != [] && path[0] == SLASH {
      temp.SetPath(path);
    } else if basePath != [] {
      temp.SetPath(basePath + [SLASH] + path);
    } else {
      temp.SetPath(path);
    }
  }

  method Canonical(identifier: Uri, base: Uri, flag: AuthFlag) returns (r: Uri)
    requires identifier.Valid() && base.Valid()
    modifies identifier, base
    ensures r.Valid() && r.text == CanonicalText(old(identifier.text), old(base.text), flag)
  {
    var hasAuthority := identifier.HasAuthorityM();
    if hasAuthority {
      var copy := new Uri.Copy(identifier);
      r := Normal(copy, flag);
      return;
    }
    var differs := SchemeDiffers(identifier, base);
    if differs {
      var copy := new Uri.Copy(identifier);
      r := Normal(copy, flag);
      return;
    }
    var temp := Merge(identifier, base);
    r := Normal(temp, flag);
  }

  /** Without a scheme in the base or the identifier, the merged path gives the resolved text none either. */
  lemma NoSchemeMerged(t: Bytes, ident: Bytes, base: Bytes, path: Bytes, basePath: Bytes)
    requires SchemeEnd(t).None? && SchemeEnd(base).None? && SchemeEnd(ident).None?
    requires path == PathOf(ident) && basePath == PathOf(base)
    ensures SchemeEnd(WithPath(t, MergedPath(path, basePath))).None?
  {
    var v := MergedPath(path, basePath);
    if path != [] && path[0] == SLASH {
      UriFacts.WithPathNoScheme(t, v, t, 0);
    } else if basePath != [] {
      assert v[..|basePath|] == basePath == base[..|basePath|];
      assert v[|basePath|] == SLASH;
      UriFacts.WithPathNoScheme(t, v, base, |basePath|);
    } else {
      assert v[..|path|] == path == ident[..|path|];
      UriFacts.WithPathNoScheme(t, v, ident, |path|);
    }
  }
}

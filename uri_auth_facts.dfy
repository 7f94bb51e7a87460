/** auth_builder::parse takes apart what auth_builder::string builds. */
module UriAuthFacts {
  import opened ByteString
  import opened UriCodec
  import opened UriAuth
  import UriCodecFacts

  /** What survives a trip through auth_builder::string under `flag`. */
  function AuthKept(a: Auth, flag: AuthFlag): Auth
  {
    var user := if flag == NoUserinfo then [] else a.user;
    var password := if flag == UiSafe || user == [] then [] else a.password;
    Auth(user, password, a.host, a.port)
  }

  /** Hosts that auth_builder::parse reads back: a name without ':' that does not open with '[', or an IP literal in brackets. */
  predicate HostReadsBack(h: Bytes)
  {
    (Avoids(h, COLON) && (h == [] || h[0] != LBRACKET)) ||
    (|h| >= 2 && h[0] == LBRACKET && h[|h| - 1] == RBRACKET && Avoids(h[1..|h| - 1], RBRACKET))
  }

  lemma {:induction false} EncodeAppend(cs: Charset, a: Bytes, b: Bytes)
    ensures Encode(cs, a + b) == Encode(cs, a) + Encode(cs, b)
    decreases |a|
  {
    if a == [] {
      assert a + b == b;
    } else {
      assert (a + b)[1..] == a[1..] + b;
      EncodeAppend(cs, a[1..], b);
    }
  }

  /** An encoder never writes a byte it escapes, unless the byte is '%' or a hex digit. */
  lemma {:induction false} EncodeAvoids(cs: Charset, s: Bytes, b: uint8)
    requires b != PERCENT && !IsXDigit(b)
    requires Safe(cs, b) ==> Avoids(s, b)
    ensures Avoids(Encode(cs, s), b)
    decreases |s|
  {
    if s != [] {
      EncodeAvoids(cs, s[1..], b);
    }
  }

  /** An encoded user name or port holds neither '@' nor ':'. */
  lemma UnreservedAvoids(s: Bytes)
    ensures Avoids(Encode(Unreserved, s), AT) && Avoids(Encode(Unreserved, s), COLON)
  {
    EncodeAvoids(Unreserved, s, AT);
    EncodeAvoids(Unreserved, s, COLON);
  }

  /** An encoded password holds no '@'. */
  lemma PasswordAvoids(s: Bytes)
    ensures Avoids(Encode(HostChars, s), AT)
  {
    EncodeAvoids(HostChars, s, AT);
  }

  /** An encoded host name holds no '@' and no ':', and opens with '[' only if the name did. */
  lemma HostAvoids(s: Bytes)
    requires Avoids(s, COLON) && (s == [] || s[0] != LBRACKET)
    ensures Avoids(Encode(HostChars, s), AT) && Avoids(Encode(HostChars, s), COLON)
    ensures Encode(HostChars, s) == [] || Encode(HostChars, s)[0] != LBRACKET
  {
    EncodeAvoids(HostChars, s, AT);
    EncodeAvoids(HostChars, s, COLON);
  }

  /** An encoded IP literal keeps its brackets and holds no '@' and no other ']'. */
  lemma LiteralAvoids(s: Bytes) returns (inner: Bytes)
    requires |s| >= 2 && s[0] == LBRACKET && s[|s| - 1] == RBRACKET && Avoids(s[1..|s| - 1], RBRACKET)
    ensures Encode(HostChars, s) == [LBRACKET] + inner + [RBRACKET]
    ensures Avoids(inner, RBRACKET) && Avoids(inner, AT)
  {
    var x := s[1..|s| - 1];
    inner := Encode(HostChars, x);
    assert s == [LBRACKET] + x + [RBRACKET];
    EncodeAppend(HostChars, [LBRACKET] + x, [RBRACKET]);
    EncodeAppend(HostChars, [LBRACKET], x);
    EncodeAvoids(HostChars, x, RBRACKET);
    EncodeAvoids(HostChars, x, AT);
  }

  lemma EncodeEmpty(cs: Charset, s: Bytes)
    ensures Encode(cs, s) == [] <==> s == []
  {
    UriCodecFacts.EncodeLength(cs, s);
  }

  lemma ConcatAvoids(a: Bytes, b: Bytes, c: uint8)
    requires Avoids(a, c) && Avoids(b, c)
    ensures Avoids(a + b, c)
  {
  }

  /** The '@' that ends the user info is the first one. */
  lemma UserInfoAt(user: Bytes, password: Bytes, rest: Bytes)
    requires Avoids(user, AT) && Avoids(password, AT) && Avoids(rest, AT)
    ensures IndexOfFrom(UserInfoText(user, password) + rest, AT, 0) ==
      if user == [] then |rest| else |UserInfoText(user, password)| - 1
  {
    var u := UserInfoText(user, password);
    var t := u + rest;
    if user == [] {
      assert t == rest;
      IndexOfAt(t, AT, 0, |t|);
    } else {
      var head := user + (if password != [] then [COLON] + password else []);
      assert u == head + [AT];
      assert Avoids(head, AT);
      assert forall j :: 0 <= j < |head| ==> t[j] == head[j];
      IndexOfAt(t, AT, 0, |head|);
    }
  }

  /** Inside the user info the first ':' separates the name from the password. */
  lemma UserInfoSplit(user: Bytes, password: Bytes)
    requires user != [] && Avoids(user, COLON)
    ensures var ui := UserInfoText(user, password)[..|UserInfoText(user, password)| - 1];
      var sep := IndexOfFrom(ui, COLON, 0);
      ui[..sep] == user && (if sep < |ui| then ui[sep + 1..] == password && password != [] else password == [])
  {
    var u := UserInfoText(user, password);
    var ui := u[..|u| - 1];
    if password != [] {
      assert ui == user + [COLON] + password;
      IndexOfAt(ui, COLON, 0, |user|);
      assert ui[..|user|] == user;
      assert ui[|user| + 1..] == password;
    } else {
      assert ui == user;
      IndexOfAt(ui, COLON, 0, |ui|);
    }
  }

  /** Where auth_builder::parse finds the port colon in user info, host and port. */
  lemma ColonAt(u: Bytes, h: Bytes, port: Bytes)
    requires Avoids(h, COLON) && Avoids(port, COLON)
    ensures var p := if port != [] then [COLON] + port else [];
      PortColon(u + h + p, |u|) == if port != [] then Some(|u| + |h|) else None
  {
    var p := if port != [] then [COLON] + port else [];
    var t := u + h + p;
    if port != [] {
      assert t[|u| + |h|] == COLON;
      assert forall j :: |u| + |h| < j < |t| ==> t[j] == port[j - |u| - |h| - 1];
      LastIndexOfAt(t, COLON, |u| + |h|);
    } else {
      assert t == u + h;
    }
  }

  /** The slices auth_builder::parse hands to urldecode. */
  lemma Slices(u: Bytes, h: Bytes, port: Bytes)
    ensures var p := if port != [] then [COLON] + port else [];
      var t := u + h + p;
      t[|u|..if port != [] then |u| + |h| else |t|] == h &&
      (port != [] ==> t[|u| + |h| + 1..] == port) &&
      (u != [] ==> t[..|u| - 1] == u[..|u| - 1])
  {
  }

  /** The text that auth_builder::string writes, for the parts as encoded. */
  function Layout(user: Bytes, password: Bytes, h: Bytes, port: Bytes): Bytes
  {
    UserInfoText(user, password) + h + (if port != [] then [COLON] + port else [])
  }

  /** What auth_builder::parse reads from that text, before decoding. */
  function LayoutParts(user: Bytes, password: Bytes, h: Bytes, port: Bytes): Auth
  {
    if user == [] then Auth([], [], Decode(h), Decode(port))
    else Auth(Decode(user), Decode(password), Decode(h), Decode(port))
  }

  /** The parts read from a built authority, once its separators are found. */
  lemma PartsLayout(user: Bytes, password: Bytes, h: Bytes, port: Bytes, pos: nat)
    requires user != [] ==> Avoids(user, COLON)
    requires pos == if user == [] then |Layout(user, password, h, port)| else |UserInfoText(user, password)| - 1
    ensures var t := Layout(user, password, h, port);
      var u := UserInfoText(user, password);
      var colon := if port != [] then Some(|u| + |h|) else None;
      AuthParts(t, pos, |u|, colon) == LayoutParts(user, password, h, port)
  {
    if user == [] {
      PartsNoUser(password, h, port);
    } else {
      PartsUser(user, password, h, port);
    }
  }

  lemma PartsNoUser(password: Bytes, h: Bytes, port: Bytes)
    ensures var t := Layout([], password, h, port);
      var colon := if port != [] then Some(|h|) else None;
      AuthParts(t, |t|, 0, colon) == Auth([], [], Decode(h), Decode(port))
  {
    Slices([], h, port);
    assert Decode([]) == [];
  }

  lemma PartsUser(user: Bytes, password: Bytes, h: Bytes, port: Bytes)
    requires user != [] && Avoids(user, COLON)
    ensures var t := Layout(user, password, h, port);
      var u := UserInfoText(user, password);
      var colon := if port != [] then Some(|u| + |h|) else None;
      AuthParts(t, |u| - 1, |u|, colon) == Auth(Decode(user), Decode(password), Decode(h), Decode(port))
  {
    var u := UserInfoText(user, password);
    var t := Layout(user, password, h, port);
    var colon := if port != [] then Some(|u| + |h|) else None;
    Slices(u, h, port);
    UserInfoSplit(user, password);
    var ui := t[..|u| - 1];
    assert ui == u[..|u| - 1];
    var sep := IndexOfFrom(ui, COLON, 0);
    assert Decode(ui[..sep]) == Decode(user);
    var pw := if sep < |ui| then Decode(ui[sep + 1..]) else [];
    assert pw == Decode(password) by {
      assert Decode([]) == [];
    }
    var hostEnd := if colon.Some? then colon.value else |t|;
    assert Decode(t[|u|..hostEnd]) == Decode(h);
    var pt := if colon.Some? then Decode(t[colon.value + 1..]) else [];
    assert pt == Decode(port) by {
      assert Decode([]) == [];
    }
    assert AuthParts(t, |u| - 1, |u|, colon) == Auth(Decode(ui[..sep]), pw, Decode(t[|u|..hostEnd]), pt);
  }

  /** Where the user info of a built authority ends and its host starts. */
  lemma HostStart(user: Bytes, password: Bytes, h: Bytes, port: Bytes) returns (pos: nat)
    requires Avoids(user, AT) && Avoids(password, AT) && Avoids(h, AT) && Avoids(port, AT)
    ensures var t := Layout(user, password, h, port);
      pos == IndexOfFrom(t, AT, 0) &&
      pos == (if user == [] then |t| else |UserInfoText(user, password)| - 1) &&
      (if pos == |t| then 0 else pos + 1) == |UserInfoText(user, password)|
  {
    var p := if port != [] then [COLON] + port else [];
    var u := UserInfoText(user, password);
    var t := Layout(user, password, h, port);
    ConcatAvoids([COLON], port, AT);
    ConcatAvoids(h, p, AT);
    assert t == u + (h + p);
    UserInfoAt(user, password, h + p);
    pos := IndexOfFrom(t, AT, 0);
  }

  /** The byte at the host start of a built authority. */
  lemma HostByte(u: Bytes, h: Bytes, port: Bytes)
    ensures var t := u + h + (if port != [] then [COLON] + port else []);
      |u| < |t| ==> t[|u|] == if h != [] then h[0] else COLON
  {
  }

  /** auth_builder::parse finds every separator of a built authority where it was put. */
  lemma ParseLayout(user: Bytes, password: Bytes, h: Bytes, port: Bytes)
    requires Avoids(user, AT) && Avoids(user, COLON) && Avoids(password, AT)
    requires Avoids(h, AT) && Avoids(h, COLON) && (h == [] || h[0] != LBRACKET)
    requires Avoids(port, AT) && Avoids(port, COLON)
    ensures AuthParse(Layout(user, password, h, port)) == LayoutParts(user, password, h, port)
  {
    var u := UserInfoText(user, password);
    var pos := HostStart(user, password, h, port);
    HostByte(u, h, port);
    ColonAt(u, h, port);
    PartsLayout(user, password, h, port, pos);
  }

  /** The closing bracket of an IP literal in a built authority. */
  lemma LiteralEnd(u: Bytes, inner: Bytes, port: Bytes)
    requires Avoids(inner, RBRACKET)
    ensures var h := [LBRACKET] + inner + [RBRACKET];
      var t := u + h + (if port != [] then [COLON] + port else []);
      var end := |u| + |h| - 1;
      t[|u|] == LBRACKET && IndexOfFrom(t, RBRACKET, |u|) == end &&
      (end + 1 < |t| ==> t[end + 1] == COLON) && (end + 1 < |t| <==> port != [])
  {
    var h := [LBRACKET] + inner + [RBRACKET];
    var t := u + h + (if port != [] then [COLON] + port else []);
    var end := |u| + |h| - 1;
    assert t[end] == RBRACKET;
    assert forall j :: |u| <= j < end ==> t[j] == h[j - |u|] != RBRACKET;
    IndexOfAt(t, RBRACKET, |u|, end);
  }

  /** auth_builder::parse finds every separator of a built authority around an IP literal. */
  lemma ParseLayoutLiteral(user: Bytes, password: Bytes, inner: Bytes, port: Bytes)
    requires Avoids(user, AT) && Avoids(user, COLON) && Avoids(password, AT)
    requires Avoids(inner, AT) && Avoids(inner, RBRACKET)
    requires Avoids(port, AT) && Avoids(port, COLON)
    ensures var h := [LBRACKET] + inner + [RBRACKET];
      AuthParse(Layout(user, password, h, port)) == LayoutParts(user, password, h, port)
  {
    var h := [LBRACKET] + inner + [RBRACKET];
    assert Avoids(h, AT);
    var u := UserInfoText(user, password);
    var pos := HostStart(user, password, h, port);
    LiteralEnd(u, inner, port);
    PartsLayout(user, password, h, port, pos);
  }

  /** auth_builder::parse reads the encoded parts back out of what auth_builder::string wrote. */
  lemma BuiltParse(a: Auth, flag: AuthFlag)
    requires HostReadsBack(a.host)
    ensures var user := if flag == NoUserinfo then [] else Encode(Unreserved, a.user);
      var password := if flag == UiSafe then [] else Encode(HostChars, a.password);
      AuthParse(AuthString(a, flag)) ==
        LayoutParts(user, password, Encode(HostChars, a.host), Encode(Unreserved, a.port))
  {
    var user := if flag == NoUserinfo then [] else Encode(Unreserved, a.user);
    var password := if flag == UiSafe then [] else Encode(HostChars, a.password);
    var h := Encode(HostChars, a.host);
    var port := Encode(Unreserved, a.port);
    assert AuthString(a, flag) == Layout(user, password, h, port);
    UnreservedAvoids(a.user);
    UnreservedAvoids(a.port);
    PasswordAvoids(a.password);
    if Avoids(a.host, COLON) && (a.host == [] || a.host[0] != LBRACKET) {
      HostAvoids(a.host);
      ParseLayout(user, password, h, port);
    } else {
      var inner := LiteralAvoids(a.host);
      ParseLayoutLiteral(user, password, inner, port);
    }
  }

  /** Reading back a built authority gives the parts the flag keeps. */
  lemma AuthRoundTrip(a: Auth, flag: AuthFlag)
    requires HostReadsBack(a.host)
    ensures AuthParse(AuthString(a, flag)) == AuthKept(a, flag)
  {
    BuiltParse(a, flag);
    EncodeEmpty(Unreserved, a.user);
    UriCodecFacts.DecodeEncode(Unreserved, a.user);
    UriCodecFacts.DecodeEncode(HostChars, a.password);
    UriCodecFacts.DecodeEncode(HostChars, a.host);
    UriCodecFacts.DecodeEncode(Unreserved, a.port);
  }

  /** Decoding keeps a non-empty text non-empty. */
  lemma DecodeNonEmpty(s: Bytes)
    requires s != []
    ensures Decode(s) != []
  {
  }

  /**
   * A host that opens with '[' is read only when a ']' closes it at the end
   * of the authority or right before the port colon; otherwise every part
   * comes back empty.
   */
  lemma LiteralHost(auth: Bytes, pos: nat, host: nat)
    requires pos == IndexOfFrom(auth, AT, 0) && host == (if pos == |auth| then 0 else pos + 1)
    requires host < |auth| && auth[host] == LBRACKET
    ensures var end := IndexOfFrom(auth, RBRACKET, host);
      var closed := end < |auth| && (end + 1 == |auth| || auth[end + 1] == COLON);
      (closed <==> AuthParse(auth) != NoAuth) &&
      (closed ==> AuthParse(auth).host == Decode(auth[host..end + 1]))
  {
    assert AuthParse(auth) == LiteralParts(auth, pos, host);
    var end := IndexOfFrom(auth, RBRACKET, host);
    if end < |auth| && (end + 1 == |auth| || auth[end + 1] == COLON) {
      var colon := if end + 1 >= |auth| then None else Some(end + 1);
      var r := AuthParts(auth, pos, host, colon);
      assert LiteralParts(auth, pos, host) == r;
      assert r.host == Decode(auth[host..end + 1]);
      assert auth[host..end + 1] != [];
      DecodeNonEmpty(auth[host..end + 1]);
    }
  }
}

/**
 * The authority component of a uri, split into its parts and built back
 * (uri::auth_builder): `[user[:password]@]host[:port]`, with a host that
 * may be an IP literal in brackets (section 3.2 of RFC 3986).
 */
module UriAuth {
  import opened ByteString
  import opened UriCodec

  const AT: uint8 := 0x40

  /** auth_builder: the four decoded parts. */
  datatype Auth = Auth(user: Bytes, password: Bytes, host: Bytes, port: Bytes)

  /** auth_flag: what auth_builder::string does with the user info. */
  datatype AuthFlag = UiSafe | WithPass | NoUserinfo

  const NoAuth := Auth([], [], [], [])

  /** The parts of the authority once the host start and the port colon are known. */
  function AuthParts(auth: Bytes, pos: nat, host: nat, colon: Option<nat>): (r: Auth)
    requires host <= |auth| && (host != 0 ==> pos < host)
    requires colon.Some? ==> host <= colon.value < |auth|
    ensures r.host == Decode(auth[host..if colon.Some? then colon.value else |auth|])
    ensures r.port == if colon.Some? then Decode(auth[colon.value + 1..]) else []
  {
    var hostEnd := if colon.Some? then colon.value else |auth|;
    var hostPart := Decode(auth[host..hostEnd]);
    var port := if colon.Some? then Decode(auth[colon.value + 1..]) else [];
    if host != 0 then
      var userInfo := auth[..pos];
      var sep := IndexOfFrom(userInfo, COLON, 0);
      var password := if sep < |userInfo| then Decode(userInfo[sep + 1..]) else [];
      Auth(Decode(userInfo[..sep]), password, hostPart, port)
    else Auth([], [], hostPart, port)
  }

  /** The port colon outside brackets: the last ':', unless it lies in the user info. */
  function PortColon(auth: Bytes, host: nat): (colon: Option<nat>)
    ensures colon.Some? ==> host <= colon.value < |auth|
  {
    var colon := LastIndexOf(auth, COLON);
    if colon.Some? && colon.value < host then None else colon
  }

  /**
   * The parts of an authority whose host opens with '[': the literal runs
   * to the first ']', which must end the authority or precede the port
   * colon; anything else gives the empty result.
   */
  function LiteralParts(auth: Bytes, pos: nat, host: nat): Auth
    requires host < |auth| && (host != 0 ==> pos < host)
  {
    var end := IndexOfFrom(auth, RBRACKET, host);
    if end == |auth| then NoAuth
    else if |auth| > end + 1 && auth[end + 1] != COLON then NoAuth
    else AuthParts(auth, pos, host, if end + 1 >= |auth| then None else Some(end + 1))
  }

  /**
   * auth_builder::parse. The host starts after the first '@'; the port
   * follows the last ':' unless that colon is inside the user info, or the
   * host is an IP literal in brackets.
   */
  function AuthParse(auth: Bytes): (r: Auth)
  {
    var pos := IndexOfFrom(auth, AT, 0);
    var host := if pos == |auth| then 0 else pos + 1;
    if host < |auth| && auth[host] == LBRACKET then LiteralParts(auth, pos, host)
    else AuthParts(auth, pos, host, PortColon(auth, host))
  }

  /** The user info and '@' that precede the host, when there is a user name. */
  function UserInfoText(user: Bytes, password: Bytes): Bytes
  {
    if user == [] then [] else user + (if password != [] then [COLON] + password else []) + [AT]
  }

  /**
   * auth_builder::string: the user name and port encoded with the
   * unreserved set, the password and host with the host set; the flag
   * drops the password (UiSafe) or the whole user info (NoUserinfo).
   */
  function AuthString(a: Auth, flag: AuthFlag): Bytes
  {
    var user := if flag == NoUserinfo then [] else Encode(Unreserved, a.user);
    var password := if flag == UiSafe then [] else Encode(HostChars, a.password);
    var host := Encode(HostChars, a.host);
    var port := Encode(Unreserved, a.port);
    if port == [] && user == [] then host
    else UserInfoText(user, password) + host + (if port != [] then [COLON] + port else [])
  }
}

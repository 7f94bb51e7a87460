/**
 * uri::normal, uri::canonical, uri::make_base and their helpers
 * (default_port, tolower, remove_filename): the normalisation of
 * section 6.2.2.1 (case), section 6.2.3 (default port) and the dot-segment
 * removal of section 5.2.4 of RFC 3986, as this library does them.
 *
 * Each operation is stated twice: a function on the text, which says
 * what comes out, and a method that does it the way the library does,
 * through the `Uri` object, its setters and the loops of the original.
 */
module UriNormal {
  import opened ByteString
  import opened UriCodec
  import opened UriAuth
  import opened Uri

  // ---------------------------------------------------------------------
  // default_port

  const HTTP: Bytes := [0x68, 0x74, 0x74, 0x70]
  const HTTPS: Bytes := [0x68, 0x74, 0x74, 0x70, 0x73]
  const FTP: Bytes := [0x66, 0x74, 0x70]
  const SSH: Bytes := [0x73, 0x73, 0x68]
  const TELNET: Bytes := [0x74, 0x65, 0x6C, 0x6E, 0x65, 0x74]

  /** The port a known scheme uses when none is given, or -1. The comparison is case-sensitive. */
  function DefaultPort(scheme: Bytes): (r: int)
    ensures r == 80 <==> scheme == HTTP
    ensures r == 443 <==> scheme == HTTPS
    ensures r == 21 <==> scheme == FTP
    ensures r == 22 <==> scheme == SSH
    ensures r == 23 <==> scheme == TELNET
    ensures r == -1 <==> scheme !in {HTTP, HTTPS, FTP, SSH, TELNET}
  {
    if scheme == HTTP then 80
    else if scheme == HTTPS then 443
    else if scheme == FTP then 21
    else if scheme == SSH then 22
    else if scheme == TELNET then 23
    else -1
  }

  // ---------------------------------------------------------------------
  // tolower

  /** tolower: every byte through std::tolower in the C locale. */
  method Lower(s: Bytes) returns (r: Bytes)
    ensures r == LowerAll(s)
  {
    r := s;
    for i := 0 to |s|
      invariant |r| == |s|
      invariant forall j :: 0 <= j < i ==> r[j] == ToLower(s[j])
      invariant forall j :: i <= j < |s| ==> r[j] == s[j]
    {
      r := r[i := ToLower(r[i])];
    }
  }

  // ---------------------------------------------------------------------
  // remove_filename

  /** remove_filename: the path up to and including its last '/'; a path without one is kept whole. */
  function RemoveFilename(path: Bytes): (r: Bytes)
    ensures |r| <= |path| && r == path[..|r|]
    ensures Avoids(path, SLASH) ==> r == path
    ensures !Avoids(path, SLASH) ==> r != [] && r[|r| - 1] == SLASH && Avoids(path[|r|..], SLASH)
  {
    match LastIndexOf(path, SLASH)
    case None => path
    case Some(k) => path[..k + 1]
  }

  // ---------------------------------------------------------------------
  // The path of normal: dot segments

  const DOT_SEGMENT: Bytes := [DOT]
  const DOT_DOT: Bytes := [DOT, DOT]

  /** A segment the resolution keeps as it is: neither empty, nor ".", nor "..". */
  predicate Clean(seg: Bytes)
  {
    seg != [] && seg != DOT_SEGMENT && seg != DOT_DOT
  }

  /** The two vectors of the resolution loop: `canon` and the leading `overshots`. */
  datatype Resolved = Resolved(canon: seq<Bytes>, overshots: seq<Bytes>)

  /**
   * One turn of the resolution loop: empty and "." segments are skipped,
   * ".." drops the last kept segment or, with none left, becomes an
   * overshot, and every other segment is kept.
   */
  function Push(r: Resolved, seg: Bytes): Resolved
  {
    if seg == [] || seg == DOT_SEGMENT then r
    else if seg == DOT_DOT then
      if r.canon == [] then r.(overshots := r.overshots + [seg])
      else r.(canon := r.canon[..|r.canon| - 1])
    else r.(canon := r.canon + [seg])
  }

  /** The resolution loop over the segments, from the first to the last. */
  function Resolve(segs: seq<Bytes>): Resolved
    decreases |segs|
  {
    if segs == [] then Resolved([], []) else Push(Resolve(segs[..|segs| - 1]), segs[|segs| - 1])
  }

  /** The resolution loop of normal, pushing onto and popping from `canon`. */
  method ResolveSegments(recoded: seq<Bytes>) returns (canon: seq<Bytes>, overshots: seq<Bytes>)
    ensures Resolved(canon, overshots) == Resolve(recoded)
  {
    canon, overshots := [], [];
    for i := 0 to |recoded|
      invariant Resolved(canon, overshots) == Resolve(recoded[..i])
    {
      assert recoded[..i + 1][..i] == recoded[..i];
      var p := recoded[i];
      if p == [] || p == DOT_SEGMENT {
        continue;
      }
      if p == DOT_DOT {
        if canon == [] {
          overshots := overshots + [p];
        } else {
          canon := canon[..|canon| - 1];
        }
        continue;
      }
      canon := canon + [p];
    }
    assert recoded[..|recoded|] == recoded;
  }

  /** One segment decoded and encoded again with the unreserved set. */
  function Recode(seg: Bytes): Bytes
  {
    Encode(Unreserved, Decode(seg))
  }

  function RecodeAll(segs: seq<Bytes>): (r: seq<Bytes>)
    ensures |r| == |segs| && forall i :: 0 <= i < |segs| ==> r[i] == Recode(segs[i])
  {
    seq(|segs|, i requires 0 <= i < |segs| => Recode(segs[i]))
  }

  /** A path of more than one segment whose first segment is empty, that is, one that starts with '/'. */
  predicate AbsoluteSegments(recoded: seq<Bytes>)
  {
    |recoded| > 1 && recoded[0] == []
  }

  /** A path of more than one segment that ends in "/", "/." or "/..": it names a directory. */
  predicate EmptyAtEnd(recoded: seq<Bytes>)
  {
    |recoded| > 1 && !Clean(recoded[|recoded| - 1])
  }

  /** The kept segments, with an empty one at the end of a directory path. */
  function Kept(recoded: seq<Bytes>): seq<Bytes>
  {
    Resolve(recoded).canon + (if EmptyAtEnd(recoded) then [[]] else [])
  }

  /**
   * The path normal writes: every segment recoded, dot segments resolved,
   * a directory path still ending in '/'; an absolute path keeps its
   * leading '/' and loses its overshots, a relative one keeps them.
   */
  function NormalPath(path: Bytes): Bytes
  {
    var recoded := RecodeAll(Split(path));
    if AbsoluteSegments(recoded) then [SLASH] + Join(Kept(recoded))
    else Join(Resolve(recoded).overshots + Kept(recoded))
  }

  /** The path part of normal: split, recode, resolve, join. */
  method NormalizePath(path: Bytes) returns (out: Bytes)
    ensures out == NormalPath(path)
  {
    var parts := PathSplit(path);
    var recoded: seq<Bytes> := [];
    for i := 0 to |parts|
      invariant |recoded| == i && forall j :: 0 <= j < i ==> recoded[j] == Recode(parts[j])
    {
      var decoded := UrlDecode(parts[i]);
      var encoded := UrlEncode(Unreserved, decoded);
      recoded := recoded + [encoded];
    }
    assert recoded == RecodeAll(parts);
    var absolutePath := |recoded| > 1 && recoded[0] == [];
    var emptyAtEnd := |recoded| > 1 &&
      (recoded[|recoded| - 1] == [] || recoded[|recoded| - 1] == DOT_SEGMENT || recoded[|recoded| - 1] == DOT_DOT);
    assert emptyAtEnd == EmptyAtEnd(recoded) && absolutePath == AbsoluteSegments(recoded);
    var canon, overshots := ResolveSegments(recoded);
    if emptyAtEnd {
      canon := canon + [[]];
    }
    assert canon == Kept(recoded);
    if absolutePath {
      var joined := PathJoin(canon);
      out := [SLASH] + joined;
    } else {
      canon := overshots + canon;
      out := PathJoin(canon);
    }
  }

  // ---------------------------------------------------------------------
  // The authority of normal: host and port

  /** The bytes normal lets through in a lowercased host: alphanumerics and "-.[]:". */
  predicate HostByte(c: uint8)
  {
    IsAlnum(c) || c == DASH || c == DOT || c == LBRACKET || c == RBRACKET || c == COLON
  }

  /** The host check loop of normal. */
  method CheckHost(host: Bytes) returns (ok: bool)
    ensures ok <==> forall j :: 0 <= j < |host| ==> HostByte(host[j])
  {
    for i := 0 to |host|
      invariant forall j :: 0 <= j < i ==> HostByte(host[j])
    {
      if !HostByte(host[i]) {
        return false;
      }
    }
    return true;
  }

  /** The port check loop of normal: empty or digits only. */
  method CheckPort(port: Bytes) returns (ok: bool)
    ensures ok <==> forall j :: 0 <= j < |port| ==> IsDigit(port[j])
  {
    for i := 0 to |port|
      invariant forall j :: 0 <= j < i ==> IsDigit(port[j])
    {
      if !IsDigit(port[i]) {
        return false;
      }
    }
    return true;
  }

  /** The decimal value of a run of digits, as atoi reads it. */
  function Atoi(digits: Bytes): (n: nat)
    decreases |digits|
  {
    if digits == [] then 0
    else Atoi(digits[..|digits| - 1]) * 10 + (if IsDigit(digits[|digits| - 1]) then digits[|digits| - 1] - 0x30 else 0)
  }

  /** atoi over a port that holds only digits. */
  method ParsePort(port: Bytes) returns (n: nat)
    requires forall j :: 0 <= j < |port| ==> IsDigit(port[j])
    ensures n == Atoi(port)
  {
    n := 0;
    for i := 0 to |port|
      invariant n == Atoi(port[..i])
    {
      assert port[..i + 1][..i] == port[..i];
      n := n * 10 + (port[i] - 0x30);
    }
    assert port[..|port|] == port;
  }

  /**
   * The authority normal writes back, or None when the uri becomes empty:
   * an empty host, a host byte outside "-.[]:" and the alphanumerics, or a
   * port that is not all digits; a port equal to the scheme's default goes.
   */
  function NormalAuth(a: Auth, scheme: Bytes): (r: Option<Auth>)
    ensures r.Some? <==> (a.host != [] &&
      (forall j :: 0 <= j < |a.host| ==> HostByte(ToLower(a.host[j]))) &&
      (forall j :: 0 <= j < |a.port| ==> IsDigit(a.port[j])))
    ensures r.Some? ==> r.value.user == a.user && r.value.password == a.password && r.value.host == LowerAll(a.host)
    ensures r.Some? ==> r.value.port == (if a.port != [] && Atoi(a.port) == DefaultPort(scheme) then [] else a.port)
  {
    var host := LowerAll(a.host);
    if a.host == [] then None
    else if exists j :: 0 <= j < |host| && !HostByte(host[j]) then None
    else if exists j :: 0 <= j < |a.port| && !IsDigit(a.port[j]) then None
    else Some(a.(host := host, port := if a.port != [] && Atoi(a.port) == DefaultPort(scheme) then [] else a.port))
  }

  // ---------------------------------------------------------------------
  // normal, on the text

  /** The scheme lowercased; nothing changes without a scheme. */
  function LowerScheme(s: Bytes): Bytes
  {
    WithScheme(s, LowerAll(SchemeOf(s)))
  }

  /**
   * The path step of normal: under an authority, or without a scheme, the
   * path is normalised; an opaque path ("mailto:user@host") is kept.
   */
  function PathStep(s: Bytes): Bytes
  {
    if HasAuthority(s) || SchemeEnd(s).None? then WithPath(s, NormalPath(PathOf(s))) else s
  }

  /** normal, on the text: the empty text when the authority is rejected. */
  function NormalText(s: Bytes, flag: AuthFlag): Bytes
  {
    var s1 := LowerScheme(s);
    if HasAuthority(s1) then
      match NormalAuth(AuthParse(AuthorityOf(s1)), SchemeOf(s1))
      case None => []
      case Some(a) => PathStep(WithAuthority(s1, AuthString(a, flag)))
    else PathStep(s1)
  }
}

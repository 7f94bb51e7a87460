/**
 * Where the shade storage keeps its file (storage::build_filename, one
 * definition per platform): the user's home directory, a separator when
 * the directory does not already end in one, then ".shade.cfg".
 *
 * The environment is read by the caller: a variable is None when it is
 * not set and Some(text) when it is.
 */
module ShadeConfig {
  import opened ByteString

  /** storage::confname, ".shade.cfg". */
  const CONFNAME: Bytes := [0x2E, 0x73, 0x68, 0x61, 0x64, 0x65, 0x2E, 0x63, 0x66, 0x67]

  const SLASH: uint8 := 0x2F
  const BACKSLASH: uint8 := 0x5C
  const DOT: uint8 := 0x2E

  /** The directory, a separator only where it does not end in one, and the file name. */
  function InDirectory(dir: Bytes, sep: uint8): (r: Bytes)
    requires |dir| > 0
    ensures |r| > |CONFNAME| && r[|r| - |CONFNAME|..] == CONFNAME && r[|r| - |CONFNAME| - 1] == sep
    ensures dir[|dir| - 1] == sep ==> r == dir + CONFNAME
    ensures dir[|dir| - 1] != sep ==> r == dir + [sep] + CONFNAME
  {
    var out := if dir[|dir| - 1] != sep then dir + [sep] else dir;
    out + CONFNAME
  }

  /**
   * A directory given with or without its final separator names the same
   * file; a second separator is kept, though.
   */
  lemma TrailingSeparatorIgnored(dir: Bytes, sep: uint8)
    requires |dir| > 0 && dir[|dir| - 1] != sep
    ensures InDirectory(dir + [sep], sep) == InDirectory(dir, sep)
    ensures InDirectory(dir + [sep, sep], sep) != InDirectory(dir, sep)
  {
    var d := dir + [sep];
    assert d[|d| - 1] == sep;
    var d2 := dir + [sep, sep];
    assert d2[|d2| - 1] == sep;
    assert |InDirectory(d2, sep)| != |InDirectory(dir, sep)|;
  }

  // ---------------------------------------------------------------------
  // POSIX

  /**
   * The path build_filename gives on POSIX: under HOME when it is set, else
   * under "."; it always ends in "/.shade.cfg". A HOME that is set but
   * empty would make the code read the last character of an empty string.
   */
  function PosixFilename(home: Option<Bytes>): (r: Bytes)
    requires home.Some? ==> |home.value| > 0
    ensures |r| > |CONFNAME| && r[|r| - |CONFNAME|..] == CONFNAME && r[|r| - |CONFNAME| - 1] == SLASH
    ensures home.None? ==> r == [DOT, SLASH] + CONFNAME
    ensures home.Some? ==> |r| > |home.value| && r[..|home.value|] == home.value
  {
    InDirectory(if home.Some? then home.value else [DOT], SLASH)
  }

  /** With HOME set, the path is HOME with exactly the one separator it needs, then the file name. */
  lemma PosixUnderHome(home: Bytes)
    requires |home| > 0
    ensures home[|home| - 1] == SLASH ==> PosixFilename(Some(home)) == home + CONFNAME
    ensures home[|home| - 1] != SLASH ==> PosixFilename(Some(home)) == home + [SLASH] + CONFNAME
  {
  }

  /** storage::build_filename on POSIX, appending piece by piece. */
  method BuildFilenamePosix(home: Option<Bytes>) returns (out: Bytes)
    requires home.Some? ==> |home.value| > 0
    ensures out == PosixFilename(home)
  {
    out := [];
    if home.Some? {
      out := out + home.value;
    } else {
      out := out + [DOT];
    }
    if out[|out| - 1] != SLASH {
      out := out + [SLASH];
    }
    out := out + CONFNAME;
  }

  // ---------------------------------------------------------------------
  // Windows

  /**
   * The path build_filename gives on Windows: under HOME when it is set,
   * else under HOMEDRIVE followed by HOMEPATH, and the empty path when
   * either of those is missing. A set but empty directory would make the
   * code read the last character of an empty string.
   */
  function WindowsFilename(home: Option<Bytes>, drive: Option<Bytes>, path: Option<Bytes>): (r: Bytes)
    requires home.Some? ==> |home.value| > 0
    requires home.None? && drive.Some? && path.Some? ==> |drive.value + path.value| > 0
    ensures r == [] <==> home.None? && (drive.None? || path.None?)
    ensures r != [] ==> |r| > |CONFNAME| && r[|r| - |CONFNAME|..] == CONFNAME && r[|r| - |CONFNAME| - 1] == BACKSLASH
    ensures home.Some? ==> r == InDirectory(home.value, BACKSLASH)
    ensures home.None? && drive.Some? && path.Some? ==> r == InDirectory(drive.value + path.value, BACKSLASH)
  {
    if home.Some? then InDirectory(home.value, BACKSLASH)
    else if drive.None? || path.None? then []
    else InDirectory(drive.value + path.value, BACKSLASH)
  }

  /** storage::build_filename on Windows, appending piece by piece. */
  method BuildFilenameWindows(home: Option<Bytes>, drive: Option<Bytes>, path: Option<Bytes>) returns (out: Bytes)
    requires home.Some? ==> |home.value| > 0
    requires home.None? && drive.Some? && path.Some? ==> |drive.value + path.value| > 0
    ensures out == WindowsFilename(home, drive, path)
  {
    out := [];
    if home.Some? {
      out := out + home.value;
    } else {
      if drive.None? || path.None? {
        return [];
      }
      out := out + drive.value;
      out := out + path.value;
    }
    if out[|out| - 1] != BACKSLASH {
      out := out + [BACKSLASH];
    }
    out := out + CONFNAME;
  }
}

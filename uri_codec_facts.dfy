/** What urlencode, urldecode, path_split and path_join promise of each other. */
module UriCodecFacts {
  import opened ByteString
  import opened UriCodec

  /** urlencode leaves a safe byte as it is and turns every other byte into three. */
  lemma {:induction false} EncodeLength(cs: Charset, s: Bytes)
    ensures |Encode(cs, s)| == |s| + 2 * Unsafe(cs, s)
    decreases |s|
  {
    if s != [] {
      EncodeLength(cs, s[1..]);
    }
  }

  /** The unreserved encoding writes only unreserved bytes and '%'. */
  lemma {:induction false} EncodeOnlySafe(s: Bytes)
    ensures forall k :: 0 <= k < |Encode(Unreserved, s)| ==>
      IsSafe(Encode(Unreserved, s)[k]) || Encode(Unreserved, s)[k] == PERCENT
    decreases |s|
  {
    if s != [] {
      EncodeOnlySafe(s[1..]);
    }
  }

  /** A string of bytes the charset allows passes through urlencode unchanged. */
  lemma {:induction false} EncodeKeepsSafe(cs: Charset, s: Bytes)
    requires forall k :: 0 <= k < |s| ==> Safe(cs, s[k])
    ensures Encode(cs, s) == s
    decreases |s|
  {
    if s != [] {
      EncodeKeepsSafe(cs, s[1..]);
    }
  }

  /** urldecode undoes urlencode, for either charset. */
  lemma {:induction false} DecodeEncode(cs: Charset, s: Bytes)
    ensures Decode(Encode(cs, s)) == s
    decreases |s|
  {
    if s != [] {
      var c := s[0];
      var rest := Encode(cs, s[1..]);
      DecodeEncode(cs, s[1..]);
      if Safe(cs, c) {
        assert ([c] + rest)[1..] == rest;
      } else {
        var e := [PERCENT, HexUpper(c / 16), HexUpper(c % 16)];
        assert (e + rest)[3..] == rest;
        assert HexValue(e[1]) * 16 + HexValue(e[2]) == c;
      }
    }
  }

  /** urlencode never maps two strings to the same text. */
  lemma EncodeInjective(cs: Charset, s: Bytes, t: Bytes)
    requires Encode(cs, s) == Encode(cs, t)
    ensures s == t
  {
    DecodeEncode(cs, s);
    DecodeEncode(cs, t);
  }

  /** Text without '%' decodes to itself. */
  lemma {:induction false} DecodePlain(s: Bytes)
    requires forall k :: 0 <= k < |s| ==> s[k] != PERCENT
    ensures Decode(s) == s
    decreases |s|
  {
    if s != [] {
      DecodePlain(s[1..]);
    }
  }

  /** For a range of two bytes or more the as-written guard is the intended one. */
  lemma {:induction false} DecodeAsWrittenFrom(mem: Bytes, len: nat, i: nat)
    requires 2 <= len && len + 2 <= |mem| && len < 0x1_0000_0000_0000_0000 && i <= len
    ensures DecodeAsWritten(mem, len, i) == Decode(mem[i..len])
    decreases len - i
  {
    if i < len {
      var s := mem[i..len];
      if mem[i] == PERCENT && i < len - 2 && IsXDigit(mem[i + 1]) && IsXDigit(mem[i + 2]) {
        DecodeAsWrittenFrom(mem, len, i + 3);
        assert s[3..] == mem[i + 3..len];
      } else {
        DecodeAsWrittenFrom(mem, len, i + 1);
        assert s[1..] == mem[i + 1..len];
      }
    }
  }

  /** A one-byte range "%" followed in memory by "41" decodes to "A" as written, where "%" is meant. */
  lemma DecodeAsWrittenReadsPast()
    ensures DecodeAsWritten([PERCENT, 0x34, 0x31], 1, 0) == [0x41]
    ensures Decode([PERCENT]) == [PERCENT]
  {
    assert DecodeAsWritten([PERCENT, 0x34, 0x31], 1, 3) == [];
  }

  // ---------------------------------------------------------------------
  // path_split and path_join

  /** Joining a chunk in front of a non-empty list. */
  lemma {:induction false} JoinCons(c: Bytes, cs: seq<Bytes>)
    requires cs != []
    ensures Join([c] + cs) == c + [SLASH] + Join(cs)
    decreases |cs|
  {
    var all := [c] + cs;
    if |cs| > 1 {
      assert all[..|all| - 1] == [c] + cs[..|cs| - 1];
      JoinCons(c, cs[..|cs| - 1]);
    } else {
      assert all[..|all| - 1] == [c];
    }
  }

  lemma {:induction false} SplitFromJoin(p: Bytes, prev: nat)
    requires prev <= |p|
    ensures Join(SplitFrom(p, prev)) == p[prev..]
    decreases |p| - prev
  {
    var slash := IndexOfFrom(p, SLASH, prev);
    if slash < |p| {
      var piece, rest := p[prev..slash], SplitFrom(p, slash + 1);
      assert SplitFrom(p, prev) == [piece] + rest;
      SplitFromJoin(p, slash + 1);
      JoinCons(piece, rest);
      CutAtSlash(p, prev, slash);
    }
  }

  /** A text from `prev` on is its piece up to the slash at `slash`, the slash, and the rest. */
  lemma CutAtSlash(p: Bytes, prev: nat, slash: nat)
    requires prev <= slash < |p| && p[slash] == SLASH
    ensures p[prev..] == p[prev..slash] + [SLASH] + p[slash + 1..]
  {
  }

  /** path_join puts back together what path_split took apart. */
  lemma JoinSplit(p: Bytes)
    ensures Join(Split(p)) == p
  {
    SplitFromJoin(p, 0);
  }

  lemma {:induction false} SplitFromPieces(p: Bytes, prev: nat)
    requires prev <= |p|
    ensures forall k :: 0 <= k < |SplitFrom(p, prev)| ==> Avoids(SplitFrom(p, prev)[k], SLASH)
    decreases |p| - prev
  {
    var slash := IndexOfFrom(p, SLASH, prev);
    if slash < |p| {
      SplitFromPieces(p, slash + 1);
    }
  }

  lemma {:induction false} CountAppend(a: Bytes, b: Bytes, c: uint8)
    ensures Count(a + b, c) == Count(a, c) + Count(b, c)
    decreases |a|
  {
    if a != [] {
      assert (a + b)[1..] == a[1..] + b;
      CountAppend(a[1..], b, c);
    } else {
      assert a + b == b;
    }
  }

  lemma {:induction false} CountNone(a: Bytes, c: uint8)
    requires forall j :: 0 <= j < |a| ==> a[j] != c
    ensures Count(a, c) == 0
    decreases |a|
  {
    if a != [] {
      CountNone(a[1..], c);
    }
  }

  lemma {:induction false} SplitFromCount(p: Bytes, prev: nat)
    requires prev <= |p|
    ensures |SplitFrom(p, prev)| == Count(p[prev..], SLASH) + 1
    decreases |p| - prev
  {
    var slash := IndexOfFrom(p, SLASH, prev);
    if slash < |p| {
      SplitFromCount(p, slash + 1);
      SplitFromStep(p, prev);
      assert p[prev..] == p[prev..slash] + ([SLASH] + p[slash + 1..]);
      CountAppend(p[prev..slash], [SLASH] + p[slash + 1..], SLASH);
      CountAppend([SLASH], p[slash + 1..], SLASH);
      CountNone(p[prev..slash], SLASH);
    } else {
      CountNone(p[prev..], SLASH);
    }
  }

  /** path_split returns one piece more than there are slashes. */
  lemma SplitCount(p: Bytes)
    ensures |Split(p)| == Count(p, SLASH) + 1
  {
    SplitFromCount(p, 0);
    assert p[0..] == p;
  }

  /** No piece of path_split holds a slash. */
  lemma SplitPieces(p: Bytes)
    ensures forall k :: 0 <= k < |Split(p)| ==> Avoids(Split(p)[k], SLASH)
  {
    SplitFromPieces(p, 0);
  }

  /** Where a text that starts with a slash-free chunk has its first slash. */
  lemma ChunkAt(p: Bytes, prev: nat, c: Bytes, rest: Bytes)
    requires prev <= |p| && p[prev..] == c + rest
    requires Avoids(c, SLASH)
    requires rest == [] || rest[0] == SLASH
    ensures IndexOfFrom(p, SLASH, prev) == prev + |c|
    ensures p[prev..prev + |c|] == c && p[prev + |c|..] == rest
  {
    var tail := p[prev..];
    assert forall j :: prev <= j < prev + |c| ==> p[j] == tail[j - prev] == c[j - prev];
    assert rest != [] ==> p[prev + |c|] == tail[|c|] == SLASH;
    IndexOfAt(p, SLASH, prev, prev + |c|);
    assert p[prev..prev + |c|] == tail[..|c|];
    assert p[prev + |c|..] == tail[|c|..];
  }

  lemma SplitFromStep(p: Bytes, prev: nat)
    requires prev <= |p| && IndexOfFrom(p, SLASH, prev) < |p|
    ensures SplitFrom(p, prev) ==
      [p[prev..IndexOfFrom(p, SLASH, prev)]] + SplitFrom(p, IndexOfFrom(p, SLASH, prev) + 1)
  {
  }

  lemma SplitFromCons(p: Bytes, prev: nat, end: nat, c: Bytes, cs: seq<Bytes>)
    requires prev <= end < |p| && IndexOfFrom(p, SLASH, prev) == end
    requires p[prev..end] == c && SplitFrom(p, end + 1) == cs
    ensures SplitFrom(p, prev) == [c] + cs
  {
    SplitFromStep(p, prev);
  }

  lemma {:induction false} SplitFromJoined(p: Bytes, prev: nat, chunks: seq<Bytes>)
    requires prev <= |p| && chunks != []
    requires forall k :: 0 <= k < |chunks| ==> Avoids(chunks[k], SLASH)
    requires p[prev..] == Join(chunks)
    ensures SplitFrom(p, prev) == chunks
    decreases |chunks|
  {
    var c := chunks[0];
    if |chunks| == 1 {
      assert p[prev..] == c + [];
      ChunkAt(p, prev, c, []);
      assert prev + |c| == |p|;
      assert SplitFrom(p, prev) == [p[prev..]];
    } else {
      var cs := chunks[1..];
      assert chunks == [c] + cs;
      JoinCons(c, cs);
      ChunkAt(p, prev, c, [SLASH] + Join(cs));
      var end := prev + |c|;
      assert p[end + 1..] == p[end..][1..] == Join(cs);
      SplitFromJoined(p, end + 1, cs);
      SplitFromCons(p, prev, end, c, cs);
    }
  }

  /** path_split takes apart what path_join put together, when no chunk holds a slash. */
  lemma SplitJoin(chunks: seq<Bytes>)
    requires chunks != []
    requires forall k :: 0 <= k < |chunks| ==> Avoids(chunks[k], SLASH)
    ensures Split(Join(chunks)) == chunks
  {
    var p := Join(chunks);
    assert p[0..] == p;
    SplitFromJoined(p, 0, chunks);
  }
}

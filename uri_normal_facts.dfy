/** What the path normalisation of uri::normal promises. */
module UriNormalFacts {
  import opened ByteString
  import opened UriCodec
  import UriCodecFacts
  import UriAuthFacts
  import opened UriNormal
  import opened Uri
  import UriFacts

  predicate AllClean(segs: seq<Bytes>)
  {
    forall k :: 0 <= k < |segs| ==> Clean(segs[k])
  }

  predicate AllDotDot(segs: seq<Bytes>)
  {
    forall k :: 0 <= k < |segs| ==> segs[k] == DOT_DOT
  }

  // ---------------------------------------------------------------------
  // Dot-segment resolution

  /** The resolution keeps only clean segments in `canon` and only ".." in `overshots`, all taken from its input. */
  lemma {:induction false} ResolveShape(segs: seq<Bytes>)
    ensures AllClean(Resolve(segs).canon) && AllDotDot(Resolve(segs).overshots)
    ensures forall x :: x in Resolve(segs).canon ==> x in segs
    ensures forall x :: x in Resolve(segs).overshots ==> x in segs
    ensures |Resolve(segs).canon| + |Resolve(segs).overshots| <= |segs|
    decreases |segs|
  {
    if segs != [] {
      var init := segs[..|segs| - 1];
      ResolveShape(init);
      assert forall x :: x in init ==> x in segs;
      var r := Resolve(init);
      if r.canon != [] {
        assert forall x :: x in r.canon[..|r.canon| - 1] ==> x in r.canon;
      }
    }
  }

  /** Clean segments resolve to themselves, with no overshots. */
  lemma {:induction false} ResolveClean(segs: seq<Bytes>)
    requires AllClean(segs)
    ensures Resolve(segs) == Resolved(segs, [])
    decreases |segs|
  {
    if segs != [] {
      var init, last := segs[..|segs| - 1], segs[|segs| - 1];
      assert init + [last] == segs;
      assert Resolve(init) == Resolved(init, []) by {
        ResolveClean(init);
      }
      PushClean(init, last);
    }
  }

  lemma PushClean(c: seq<Bytes>, seg: Bytes)
    requires Clean(seg)
    ensures Push(Resolved(c, []), seg) == Resolved(c + [seg], [])
  {
  }

  /** Leading ".." segments are all overshots. */
  lemma {:induction false} ResolveOvershots(o: seq<Bytes>)
    requires AllDotDot(o)
    ensures Resolve(o) == Resolved([], o)
    decreases |o|
  {
    if o != [] {
      ResolveOvershots(o[..|o| - 1]);
      assert o[..|o| - 1] + [o[|o| - 1]] == o;
    }
  }

  /** Overshots followed by clean segments resolve to exactly those two lists. */
  lemma {:induction false} ResolveAfter(o: seq<Bytes>, c: seq<Bytes>)
    requires AllDotDot(o) && AllClean(c)
    ensures Resolve(o + c) == Resolved(c, o)
    decreases |c|
  {
    if c == [] {
      assert o + c == o;
      ResolveOvershots(o);
    } else {
      var init := c[..|c| - 1];
      ResolveAfter(o, init);
      assert (o + c)[..|o + c| - 1] == o + init;
      assert init + [c[|c| - 1]] == c;
    }
  }

  /** Resolving again what the resolution left, overshots first, gives the same result. */
  lemma ResolveIdempotent(segs: seq<Bytes>)
    ensures Resolve(Resolve(segs).overshots + Resolve(segs).canon) == Resolve(segs)
  {
    ResolveShape(segs);
    ResolveAfter(Resolve(segs).overshots, Resolve(segs).canon);
  }

  /** A trailing empty segment is skipped. */
  lemma ResolveSkipsEmpty(segs: seq<Bytes>)
    ensures Resolve(segs + [[]]) == Resolve(segs)
  {
    assert (segs + [[]])[..|segs|] == segs;
  }

  /** Going up one level drops the last kept segment, if there is one. */
  lemma ResolveUp(segs: seq<Bytes>)
    requires Resolve(segs).canon != []
    ensures Resolve(segs + [DOT_DOT]).canon == Resolve(segs).canon[..|Resolve(segs).canon| - 1]
    ensures Resolve(segs + [DOT_DOT]).overshots == Resolve(segs).overshots
  {
    assert (segs + [DOT_DOT])[..|segs|] == segs;
  }

  // ---------------------------------------------------------------------
  // The bytes of a normal path

  /** A byte of a recoded segment: unreserved, or the '%' of an escape. */
  predicate SegmentByte(c: uint8)
  {
    IsSafe(c) || c == PERCENT
  }

  predicate SegmentBytes(seg: Bytes)
  {
    forall j :: 0 <= j < |seg| ==> SegmentByte(seg[j])
  }

  predicate PathBytes(p: Bytes)
  {
    forall j :: 0 <= j < |p| ==> SegmentByte(p[j]) || p[j] == SLASH
  }

  lemma RecodeBytes(seg: Bytes)
    ensures SegmentBytes(Recode(seg))
  {
    UriCodecFacts.EncodeOnlySafe(Decode(seg));
  }

  /** A segment is recoded to nothing only when it was empty. */
  lemma RecodeEmpty(seg: Bytes)
    ensures Recode(seg) == [] <==> seg == []
  {
    if seg != [] {
      UriAuthFacts.DecodeNonEmpty(seg);
    }
    UriAuthFacts.EncodeEmpty(Unreserved, Decode(seg));
  }

  lemma {:induction false} JoinBytes(chunks: seq<Bytes>)
    requires forall k :: 0 <= k < |chunks| ==> SegmentBytes(chunks[k])
    ensures PathBytes(Join(chunks))
    decreases |chunks|
  {
    if |chunks| > 1 {
      JoinBytes(chunks[..|chunks| - 1]);
    }
  }

  /** A segment that normalising again leaves as it is. */
  predicate Settled(chunks: seq<Bytes>)
  {
    forall k :: 0 <= k < |chunks| ==> SegmentBytes(chunks[k]) && Recode(chunks[k]) == chunks[k]
  }

  lemma SettledConcat(a: seq<Bytes>, b: seq<Bytes>)
    requires Settled(a) && Settled(b)
    ensures Settled(a + b)
  {
  }

  /** Recoding twice is recoding once. */
  lemma RecodeTwice(seg: Bytes)
    ensures Recode(Recode(seg)) == Recode(seg)
  {
    UriCodecFacts.DecodeEncode(Unreserved, Decode(seg));
  }

  lemma RecodedSettled(path: Bytes)
    ensures Settled(RecodeAll(Split(path)))
  {
    forall k | 0 <= k < |Split(path)|
      ensures SegmentBytes(Recode(Split(path)[k])) && Recode(Recode(Split(path)[k])) == Recode(Split(path)[k])
    {
      RecodeBytes(Split(path)[k]);
      RecodeTwice(Split(path)[k]);
    }
  }

  /** The resolution of settled segments leaves settled segments. */
  lemma ResolvedSettled(segs: seq<Bytes>)
    requires Settled(segs)
    ensures Settled(Resolve(segs).canon) && Settled(Resolve(segs).overshots)
  {
    ResolveShape(segs);
    var r := Resolve(segs);
    forall k | 0 <= k < |r.canon|
      ensures SegmentBytes(r.canon[k]) && Recode(r.canon[k]) == r.canon[k]
    {
      assert r.canon[k] in segs;
    }
    forall k | 0 <= k < |r.overshots|
      ensures SegmentBytes(r.overshots[k]) && Recode(r.overshots[k]) == r.overshots[k]
    {
      assert r.overshots[k] in segs;
    }
  }

  /** Everything normal joins is settled: the overshots, the kept segments and the final empty one. */
  lemma KeptSettled(path: Bytes)
    ensures Settled(Resolve(RecodeAll(Split(path))).overshots) && Settled(Kept(RecodeAll(Split(path))))
  {
    var recoded := RecodeAll(Split(path));
    RecodedSettled(path);
    ResolvedSettled(recoded);
    assert Recode([]) == [];
    SettledConcat(Resolve(recoded).canon, if EmptyAtEnd(recoded) then [[]] else []);
  }

  /** A normal path holds only unreserved bytes, '%' and '/': no '?', '#' or ':'. */
  lemma NormalPathBytes(path: Bytes)
    ensures PathBytes(NormalPath(path))
  {
    var recoded := RecodeAll(Split(path));
    KeptSettled(path);
    SettledConcat(Resolve(recoded).overshots, Kept(recoded));
    if AbsoluteSegments(recoded) {
      JoinBytes(Kept(recoded));
    } else {
      JoinBytes(Resolve(recoded).overshots + Kept(recoded));
    }
  }
  /** A text without a scheme keeps none when its path is normalised: the normal path holds no ':'. */
  lemma NormalPathNoScheme(s: Bytes)
    requires SchemeEnd(s).None?
    ensures SchemeEnd(WithPath(s, NormalPath(PathOf(s)))).None?
  {
    var np := NormalPath(PathOf(s));
    assert forall j :: 0 <= j < |np| ==> np[j] != COLON by {
      NormalPathBytes(PathOf(s));
    }
    UriFacts.WithPathNoColon(s, np);
  }

  // ---------------------------------------------------------------------
  // The leading and the trailing slash

  /** path_split yields more than one piece, the first one empty, exactly when the path starts with '/'. */
  lemma SplitLeading(path: Bytes)
    ensures (|Split(path)| > 1 && Split(path)[0] == []) <==> (path != [] && path[0] == SLASH)
  {
    var slash := IndexOfFrom(path, SLASH, 0);
    if slash < |path| {
      UriCodecFacts.SplitFromStep(path, 0);
    }
  }

  lemma AbsoluteIff(path: Bytes)
    ensures AbsoluteSegments(RecodeAll(Split(path))) <==> (path != [] && path[0] == SLASH)
  {
    SplitLeading(path);
    RecodeEmpty(Split(path)[0]);
  }

  lemma JoinFirst(chunks: seq<Bytes>)
    requires chunks != [] && chunks[0] != []
    ensures Join(chunks) != [] && Join(chunks)[0] == chunks[0][0]
  {
    if |chunks| > 1 {
      assert chunks == [chunks[0]] + chunks[1..];
      UriCodecFacts.JoinCons(chunks[0], chunks[1..]);
    }
  }

  lemma JoinLast(chunks: seq<Bytes>)
    requires chunks != []
    ensures var j, c := Join(chunks), chunks[|chunks| - 1];
      (c != [] ==> j != [] && j[|j| - 1] == c[|c| - 1]) &&
      (c == [] && |chunks| > 1 ==> j != [] && j[|j| - 1] == SLASH)
  {
  }

  /** A normal path starts with '/' exactly when the path did. */
  lemma NormalPathLeadingSlash(path: Bytes)
    ensures (NormalPath(path) != [] && NormalPath(path)[0] == SLASH) <==> (path != [] && path[0] == SLASH)
  {
    AbsoluteIff(path);
    var recoded := RecodeAll(Split(path));
    if !AbsoluteSegments(recoded) {
      var chunks := Resolve(recoded).overshots + Kept(recoded);
      KeptSettled(path);
      SettledConcat(Resolve(recoded).overshots, Kept(recoded));
      ResolveShape(recoded);
      if chunks != [] && chunks[0] != [] {
        JoinFirst(chunks);
      } else if chunks != [] {
        assert chunks == [[]];
      }
    }
  }

  /** With more than one segment and a clean last one, the last segment is kept last. */
  lemma LastKept(recoded: seq<Bytes>)
    requires |recoded| > 1 && !EmptyAtEnd(recoded)
    ensures Resolve(recoded).canon != [] && Resolve(recoded).canon[|Resolve(recoded).canon| - 1] == recoded[|recoded| - 1]
  {
  }

  /** Joined segments that end in an empty one end in '/', behind an optional leading '/'. */
  lemma EndsInSlash(lead: Bytes, pre: seq<Bytes>, out: Bytes)
    requires (lead == [] || lead == [SLASH]) && out == lead + Join(pre + [[]])
    ensures out == [] || out[|out| - 1] == SLASH
  {
    if pre != [] {
      JoinLast(pre + [[]]);
    } else {
      assert Join(pre + [[]]) == [];
    }
  }

  /** Joined segments that end in a non-empty one without '/' do not end in '/'. */
  lemma EndsInSegment(lead: Bytes, chunks: seq<Bytes>, out: Bytes)
    requires chunks == [] || (chunks[|chunks| - 1] != [] && SegmentBytes(chunks[|chunks| - 1]))
    requires (lead == [] || (lead == [SLASH] && chunks != [])) && out == lead + Join(chunks)
    ensures out == [] || out[|out| - 1] != SLASH
  {
    if chunks != [] {
      JoinLast(chunks);
    }
  }

  /** A normal path ends in '/' exactly when the path named a directory (and did not resolve to nothing). */
  lemma NormalPathTrailingSlash(path: Bytes)
    ensures var out := NormalPath(path);
      (EmptyAtEnd(RecodeAll(Split(path))) ==> out == [] || out[|out| - 1] == SLASH) &&
      (!EmptyAtEnd(RecodeAll(Split(path))) ==> out == [] || out[|out| - 1] != SLASH)
  {
    var recoded := RecodeAll(Split(path));
    var r := Resolve(recoded);
    var abs := AbsoluteSegments(recoded);
    var lead: Bytes := if abs then [SLASH] else [];
    var chunks := if abs then Kept(recoded) else r.overshots + Kept(recoded);
    assert NormalPath(path) == lead + Join(chunks);
    if EmptyAtEnd(recoded) {
      var pre := if abs then r.canon else r.overshots + r.canon;
      assert chunks == pre + [[]];
      EndsInSlash(lead, pre, NormalPath(path));
    } else {
      assert Settled(chunks) by {
        KeptSettled(path);
        SettledConcat(r.overshots, Kept(recoded));
      }
      ResolveShape(recoded);
      if |recoded| > 1 {
        LastKept(recoded);
      }
      assert abs ==> r.canon != [];
      EndsInSegment(lead, chunks, NormalPath(path));
    }
  }

  // ---------------------------------------------------------------------
  // Normalising twice

  /** An empty first segment is skipped before the clean ones. */
  lemma {:induction false} ResolveEmptyFirst(c: seq<Bytes>)
    requires AllClean(c)
    ensures Resolve([[]] + c) == Resolved(c, [])
    decreases |c|
  {
    if c == [] {
      assert Resolve([[]]) == Push(Resolve([]), []);
    } else {
      var init := c[..|c| - 1];
      ResolveEmptyFirst(init);
      assert ([[]] + c)[..|c|] == [[]] + init;
      assert init + [c[|c| - 1]] == c;
    }
  }

  lemma SettledSlashFree(chunks: seq<Bytes>)
    requires Settled(chunks)
    ensures forall k :: 0 <= k < |chunks| ==> Avoids(chunks[k], SLASH)
  {
  }

  lemma RecodeAllSettled(chunks: seq<Bytes>)
    requires Settled(chunks)
    ensures RecodeAll(chunks) == chunks
  {
  }

  lemma NormalPathEmpty()
    ensures NormalPath([]) == []
  {
    assert Split([]) == [[]];
    assert RecodeAll([[]]) == [[]];
    assert Resolve([[]]) == Push(Resolve([]), []);
  }

  /** Settled segments joined come back from path_split and recoding unchanged. */
  lemma SplitSettled(all: seq<Bytes>, out: Bytes)
    requires Settled(all) && all != [] && out == Join(all)
    ensures RecodeAll(Split(out)) == all
  {
    SettledSlashFree(all);
    UriCodecFacts.SplitJoin(all);
    RecodeAllSettled(all);
  }

  /** normal's path, read from the recoded segments of the path. */
  lemma NormalPathFrom(out: Bytes, all: seq<Bytes>, o: seq<Bytes>, k: seq<Bytes>)
    requires RecodeAll(Split(out)) == all && Resolve(all).overshots == o && Kept(all) == k
    ensures NormalPath(out) == if AbsoluteSegments(all) then [SLASH] + Join(k) else Join(o + k)
  {
  }

  /** Settled segments with an empty one at the end, or at the front, are still settled. */
  lemma SettledAround(o: seq<Bytes>, canon: seq<Bytes>, e: bool)
    requires Settled(canon) && (Settled(o) || o == [])
    ensures Settled([[]] + (canon + (if e then [[]] else [])))
    ensures Settled(o + (canon + (if e then [[]] else [])))
  {
    assert Recode([]) == [];
    assert Settled([[]]);
    SettledConcat(canon, if e then [[]] else []);
    SettledConcat([[]], canon + (if e then [[]] else []));
    SettledConcat(o, canon + (if e then [[]] else []));
  }

  /** The segments of an absolute normal path: an empty one, then the kept ones. */
  lemma AbsoluteSplit(out: Bytes, canon: seq<Bytes>, e: bool)
    requires Settled(canon) && (e || canon != [])
    requires out == [SLASH] + Join(canon + (if e then [[]] else []))
    ensures RecodeAll(Split(out)) == [[]] + (canon + (if e then [[]] else []))
  {
    var c := canon + (if e then [[]] else []);
    var all := [[]] + c;
    assert Settled(all) by {
      SettledAround([], canon, e);
    }
    assert Join(all) == out by {
      UriCodecFacts.JoinCons([], c);
    }
    SplitSettled(all, out);
  }

  /** Resolving the segments of an absolute normal path keeps them all. */
  lemma AbsoluteResolve(canon: seq<Bytes>, e: bool)
    requires AllClean(canon) && (e || canon != [])
    ensures var c := canon + (if e then [[]] else []);
      AbsoluteSegments([[]] + c) && Kept([[]] + c) == c
  {
    var c := canon + (if e then [[]] else []);
    var all := [[]] + c;
    assert Resolve(all).canon == canon by {
      ResolveEmptyFirst(canon);
      if e {
        assert all == ([[]] + canon) + [[]];
        ResolveSkipsEmpty([[]] + canon);
      } else {
        assert all == [[]] + canon;
      }
    }
    if !e {
      assert all[|all| - 1] == canon[|canon| - 1];
    }
  }

  /** An absolute normal path normalises to itself. */
  lemma AbsoluteAgain(out: Bytes, canon: seq<Bytes>, e: bool)
    requires Settled(canon) && AllClean(canon) && (e || canon != [])
    requires out == [SLASH] + Join(canon + (if e then [[]] else []))
    ensures NormalPath(out) == out
  {
    var c := canon + (if e then [[]] else []);
    var all := [[]] + c;
    AbsoluteSplit(out, canon, e);
    AbsoluteResolve(canon, e);
    NormalPathFrom(out, all, Resolve(all).overshots, c);
  }

  lemma Associative(a: seq<Bytes>, b: seq<Bytes>, c: seq<Bytes>)
    ensures a + (b + c) == (a + b) + c
  {
  }

  /** Where overshots and kept segments lead and end. */
  lemma EndOfRelative(o: seq<Bytes>, canon: seq<Bytes>, e: bool)
    requires AllDotDot(o) && AllClean(canon) && o + canon != []
    requires !e && canon == [] ==> |o| <= 1
    ensures var all := o + (canon + (if e then [[]] else []));
      !AbsoluteSegments(all) && EmptyAtEnd(all) == e
  {
    var all := o + (canon + (if e then [[]] else []));
    assert all[0] == (if o != [] then o[0] else canon[0]);
    if !e && canon != [] {
      assert all[|all| - 1] == canon[|canon| - 1];
    }
  }

  /** A relative normal path normalises to itself. */
  lemma RelativeAgain(out: Bytes, o: seq<Bytes>, canon: seq<Bytes>, e: bool)
    requires Settled(o) && Settled(canon) && AllDotDot(o) && AllClean(canon)
    requires !e && canon == [] ==> |o| <= 1
    requires out == Join(o + (canon + (if e then [[]] else [])))
    ensures NormalPath(out) == out
  {
    var c := canon + (if e then [[]] else []);
    var all := o + c;
    if o == [] && canon == [] {
      assert all == [] || all == [[]];
      NormalPathEmpty();
    } else {
      assert RecodeAll(Split(out)) == all by {
        SettledAround(o, canon, e);
        SplitSettled(all, out);
      }
      assert Resolve(all) == Resolved(canon, o) by {
        ResolveAfter(o, canon);
        if e {
          Associative(o, canon, [[]]);
          ResolveSkipsEmpty(o + canon);
        } else {
          assert c == canon;
        }
      }
      assert !AbsoluteSegments(all) && Kept(all) == c by {
        EndOfRelative(o, canon, e);
      }
      NormalPathFrom(out, all, o, c);
    }
  }

  /** Normalising a normal path changes nothing. */
  lemma NormalPathIdempotent(path: Bytes)
    ensures NormalPath(NormalPath(path)) == NormalPath(path)
  {
    var recoded := RecodeAll(Split(path));
    var r := Resolve(recoded);
    var e := EmptyAtEnd(recoded);
    assert Settled(r.canon) && Settled(r.overshots) by {
      RecodedSettled(path);
      ResolvedSettled(recoded);
    }
    ResolveShape(recoded);
    if !e && |recoded| > 1 {
      LastKept(recoded);
    }
    if AbsoluteSegments(recoded) {
      AbsoluteAgain(NormalPath(path), r.canon, e);
    } else {
      RelativeAgain(NormalPath(path), r.overshots, r.canon, e);
    }
  }
}

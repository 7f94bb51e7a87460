/**
 * The text clean-up base_parser applies to every header name and value
 * before it goes into the dictionary: `produce` trims white space at both
 * ends and replaces each folded line break (a run of white space holding a
 * CR) with one space; `lower` folds ASCII upper case for the keys.
 */
module HeaderText {
  import opened ByteString

  const CR: uint8 := 0x0D
  const SP: uint8 := 0x20

  /** Every byte of s[i..j] is white space in the sense of isspace. */
  predicate AllSpace(s: Bytes, i: nat, j: nat)
    requires i <= j <= |s|
  {
    forall k :: i <= k < j ==> IsSpace(s[k])
  }

  /** s without its leading white space. */
  function TrimStart(s: Bytes): (r: Bytes)
    ensures r == [] || !IsSpace(r[0])
    decreases |s|
  {
    if s != [] && IsSpace(s[0]) then TrimStart(s[1..]) else s
  }

  /** s without its trailing white space. */
  function TrimEnd(s: Bytes): (r: Bytes)
    ensures r == [] || (s != [] && r[0] == s[0] && !IsSpace(r[|r| - 1]))
    decreases |s|
  {
    if s != [] && IsSpace(s[|s| - 1]) then TrimEnd(s[..|s| - 1]) else s
  }

  /** The first two loops of produce: white space off both ends. */
  function Trim(s: Bytes): (r: Bytes)
    ensures r == [] || (!IsSpace(r[0]) && !IsSpace(r[|r| - 1]))
  {
    TrimEnd(TrimStart(s))
  }

  /** Where the white space run that ends s starts. */
  function RunStart(s: Bytes): (k: nat)
    ensures k <= |s| && (k == 0 || !IsSpace(s[k - 1]))
    ensures s != [] && IsSpace(s[|s| - 1]) ==> k < |s|
    decreases |s|
  {
    if s == [] || !IsSpace(s[|s| - 1]) then |s| else RunStart(s[..|s| - 1])
  }

  /** A white space run as it reaches the output: one space where it folds a line, as is otherwise. */
  function Collapse(w: Bytes): Bytes
  {
    if CR in w then [SP] else w
  }

  /**
   * The reference for the last loop of produce, run by run from the end:
   * a byte that is not white space is kept, and a maximal run of white
   * space is collapsed.
   */
  function Unfold(s: Bytes): Bytes
    decreases |s|
  {
    if s == [] then []
    else if !IsSpace(s[|s| - 1]) then Unfold(s[..|s| - 1]) + [s[|s| - 1]]
    else
      var k := RunStart(s);
      Unfold(s[..k]) + Collapse(s[k..])
  }

  /** The trailing run is all white space. */
  lemma {:induction false} RunStartSpace(s: Bytes)
    ensures AllSpace(s, RunStart(s), |s|)
    decreases |s|
  {
    if s != [] && IsSpace(s[|s| - 1]) {
      RunStartSpace(s[..|s| - 1]);
    }
  }

  /** RunStart is the only start of a trailing run of white space. */
  lemma {:induction false} RunStartOf(s: Bytes, k: nat)
    requires k <= |s| && AllSpace(s, k, |s|) && (k == 0 || !IsSpace(s[k - 1]))
    ensures RunStart(s) == k
    decreases |s|
  {
    if k < |s| {
      RunStartOf(s[..|s| - 1], k);
    }
  }

  /** Where the trailing run holds no CR, Unfold passes it through. */
  lemma UnfoldPlain(t: Bytes)
    requires CR !in t[RunStart(t)..]
    ensures Unfold(t) == Unfold(t[..RunStart(t)]) + t[RunStart(t)..]
  {
    if t != [] && !IsSpace(t[|t| - 1]) {
      assert t[..|t|] == t;
    }
  }

  /** Appending a byte that is not white space appends it to the output. */
  lemma UnfoldSnoc(t: Bytes, c: uint8)
    requires !IsSpace(c)
    ensures Unfold(t + [c]) == Unfold(t) + [c]
  {
    assert (t + [c])[..|t|] == t;
  }

  /** produce: the trimmed text with each folded line break replaced by one space. */
  method Produce(cs: Bytes) returns (out: Bytes)
    ensures out == Unfold(Trim(cs))
  {
    var lo, hi := 0, |cs|;
    while lo < hi && IsSpace(cs[lo])
      invariant lo <= hi == |cs| && AllSpace(cs, 0, lo)
    {
      lo := lo + 1;
    }
    while lo < hi && IsSpace(cs[hi - 1])
      invariant lo <= hi <= |cs| && AllSpace(cs, hi, |cs|)
    {
      hi := hi - 1;
    }
    TrimmedAt(cs, lo, hi);
    out := UnfoldLines(cs[lo..hi]);
  }

  /**
   * The copying loop of produce, over the trimmed view: a CR outside a
   * fold takes back the white space before it (moving the cursor back over
   * it), emits one space and starts a fold; inside a fold, white space is
   * skipped.
   */
  method UnfoldLines(s: Bytes) returns (out: Bytes)
    requires s == [] || !IsSpace(s[|s| - 1])
    ensures out == Unfold(s)
  {
    var inCont := false;
    out := [];
    var cur: nat := 0;
    ghost var rs: nat, crPos: nat, hw: nat := 0, 0, 0;
    while cur < |s|
      invariant LoopState(s, cur, out, inCont, rs, crPos, hw)
      decreases |s| - hw, hw - cur
    {
      if inCont {
        cur, out, inCont, hw := FoldByte(s, cur, out, rs, crPos, hw);
      } else if s[cur] == CR {
        cur, out, rs, crPos, hw := StartFold(s, cur, out, rs, crPos, hw);
        inCont := true;
      } else {
        PlainStep(s, cur, out, rs, crPos, hw);
        out := out + [s[cur]];
        cur := cur + 1;
        hw := cur;
      }
    }
    LoopDone(s, cur, out, inCont, rs, crPos, hw);
  }

  /** One byte inside a fold: white space is skipped, anything else ends the fold and is copied. */
  method FoldByte(s: Bytes, cur: nat, out: Bytes, ghost rs: nat, ghost crPos: nat, ghost hw: nat)
    returns (next: nat, out1: Bytes, inCont: bool, ghost hw1: nat)
    requires cur < |s| && LoopState(s, cur, out, true, rs, crPos, hw)
    ensures LoopState(s, next, out1, inCont, rs, crPos, hw1)
    ensures hw < hw1 || (hw == hw1 && cur < next)
  {
    if IsSpace(s[cur]) {
      FoldContinues(s, cur, out, rs, crPos, hw);
      return cur + 1, out, true, if hw < cur + 1 then cur + 1 else hw;
    }
    FoldEnds(s, cur, out, rs, crPos, hw);
    return cur + 1, out + [s[cur]], false, cur + 1;
  }

  /**
   * A CR outside a fold: the white space copied just before it is taken
   * back, one space is emitted and a fold starts.
   */
  method StartFold(s: Bytes, cur: nat, out: Bytes, ghost rs: nat, ghost crPos: nat, ghost hw: nat)
    returns (next: nat, out1: Bytes, ghost rs1: nat, ghost crPos1: nat, ghost hw1: nat)
    requires cur < |s| && s[cur] == CR && LoopState(s, cur, out, false, rs, crPos, hw)
    ensures LoopState(s, next, out1, true, rs1, crPos1, hw1) && hw < hw1
  {
    ghost var k := RunStart(s[..cur]);
    ghost var base := Unfold(s[..k]);
    TrailingRun(s, cur, out, rs, crPos, hw);
    var back;
    back, out1 := TakeBack(s, k, cur, out, base);
    FoldStarts(s, cur, back, out1);
    out1 := out1 + [SP];
    rs1, crPos1 := back, cur;
    next := back + 1;
    hw1 := cur + 1;
  }

  /** When the loop ends the fold is closed, since the text ends in a byte that is not white space. */
  lemma LoopDone(s: Bytes, cur: nat, out: Bytes, inCont: bool, rs: nat, crPos: nat, hw: nat)
    requires s == [] || !IsSpace(s[|s| - 1])
    requires cur >= |s| && LoopState(s, cur, out, inCont, rs, crPos, hw)
    ensures out == Unfold(s)
  {
    if inCont {
      assert false;
    }
    assert s[..cur] == s;
  }

  /** The invariant of the copying loop; `hw` is the furthest byte scanned so far. */
  ghost predicate LoopState(s: Bytes, cur: nat, out: Bytes, inCont: bool, rs: nat, crPos: nat, hw: nat)
  {
    cur <= hw <= |s|
    && (!inCont ==> cur == hw && NotFolding(s, cur, out))
    && (inCont ==> Folding(s, cur, out, rs, crPos) && (cur == hw || hw == crPos + 1))
  }

  /** Outside a fold: the output is Unfold of the bytes scanned, whose trailing run holds no CR. */
  ghost predicate NotFolding(s: Bytes, cur: nat, out: Bytes)
    requires cur <= |s|
  {
    var t := s[..cur];
    out == Unfold(t) && CR !in t[RunStart(t)..]
  }

  /**
   * Inside a fold: a run of white space starts at rs, holds the CR at
   * crPos, and has reached the output as one space.
   */
  ghost predicate Folding(s: Bytes, cur: nat, out: Bytes, rs: nat, crPos: nat)
  {
    rs < cur <= |s| && rs <= crPos < |s| && s[crPos] == CR
    && AllSpace(s, rs, cur) && AllSpace(s, rs, crPos + 1)
    && (rs == 0 || !IsSpace(s[rs - 1]))
    && out == Unfold(s[..rs]) + [SP]
  }

  /** The bounds the trimming loops stop at are those of Trim. */
  lemma TrimmedAt(cs: Bytes, lo: nat, hi: nat)
    requires lo <= hi <= |cs| && AllSpace(cs, 0, lo) && AllSpace(cs, hi, |cs|)
    requires lo == hi || (!IsSpace(cs[lo]) && !IsSpace(cs[hi - 1]))
    requires lo < hi || lo == |cs| || !IsSpace(cs[lo])
    ensures cs[lo..hi] == Trim(cs)
  {
    TrimStartAt(cs, lo);
    if lo == hi {
      assert AllSpace(cs[lo..], 0, |cs| - lo);
      TrimEndAt(cs[lo..], 0);
    } else {
      TrimEndAt(cs[lo..], hi - lo);
    }
  }

  lemma {:induction false} TrimStartAt(s: Bytes, lo: nat)
    requires lo <= |s| && AllSpace(s, 0, lo) && (lo == |s| || !IsSpace(s[lo]))
    ensures TrimStart(s) == s[lo..]
    decreases lo
  {
    if lo > 0 {
      TrimStartAt(s[1..], lo - 1);
      assert s[1..][lo - 1..] == s[lo..];
    }
  }

  lemma {:induction false} TrimEndAt(s: Bytes, hi: nat)
    requires hi <= |s| && AllSpace(s, hi, |s|) && (hi == 0 || !IsSpace(s[hi - 1]))
    ensures TrimEnd(s) == s[..hi]
    decreases |s|
  {
    if hi < |s| {
      TrimEndAt(s[..|s| - 1], hi);
    } else {
      assert s[..hi] == s;
    }
  }

  /** A byte that is white space but not CR, after a trailing run without CR, is passed through. */
  lemma UnfoldSpace(t: Bytes, c: uint8)
    requires IsSpace(c) && c != CR && CR !in t[RunStart(t)..]
    ensures RunStart(t + [c]) == RunStart(t)
    ensures Unfold(t + [c]) == Unfold(t) + [c]
  {
    var k := RunStart(t);
    var t1 := t + [c];
    RunStartSnocSpace(t, c);
    assert t1[..k] == t[..k];
    assert t1[k..] == t[k..] + [c];
    assert Unfold(t1) == Unfold(t[..k]) + Collapse(t1[k..]);
    assert CR !in t1[k..];
    UnfoldPlain(t);
    assert Unfold(t1) == Unfold(t[..k]) + (t[k..] + [c]);
  }

  /** White space extends the trailing run. */
  lemma RunStartSnocSpace(t: Bytes, c: uint8)
    requires IsSpace(c)
    ensures RunStart(t + [c]) == RunStart(t)
  {
    var k := RunStart(t);
    var t1 := t + [c];
    RunStartSpace(t);
    assert AllSpace(t1, k, |t1|) by {
      assert forall i :: k <= i < |t| ==> t1[i] == t[i];
    }
    assert k == 0 || t1[k - 1] == t[k - 1];
    RunStartOf(t1, k);
  }

  /** One byte other than CR, outside a fold, is copied. */
  lemma PlainStep(s: Bytes, cur: nat, out: Bytes, rs: nat, crPos: nat, hw: nat)
    requires cur < |s| && s[cur] != CR && LoopState(s, cur, out, false, rs, crPos, hw)
    ensures LoopState(s, cur + 1, out + [s[cur]], false, rs, crPos, cur + 1)
  {
    var t, t1 := s[..cur], s[..cur + 1];
    assert t1 == t + [s[cur]];
    if IsSpace(s[cur]) {
      UnfoldSpace(t, s[cur]);
      assert t1[RunStart(t)..] == t[RunStart(t)..] + [s[cur]];
    } else {
      UnfoldSnoc(t, s[cur]);
    }
  }

  /** At a CR outside a fold: the output is Unfold up to the run before it, then the run. */
  lemma TrailingRun(s: Bytes, cur: nat, out: Bytes, rs: nat, crPos: nat, hw: nat)
    requires cur < |s| && LoopState(s, cur, out, false, rs, crPos, hw)
    ensures var k := RunStart(s[..cur]);
      k <= cur && (k == 0 || !IsSpace(s[k - 1])) && AllSpace(s, k, cur) && out == Unfold(s[..k]) + s[k..cur]
  {
    var t := s[..cur];
    var k := RunStart(t);
    RunStartSpace(t);
    UnfoldPlain(t);
    assert t[..k] == s[..k] && t[k..] == s[k..cur];
  }

  /**
   * At a CR outside a fold, the output takes back the white space copied
   * just before it, and the cursor moves back with it.
   */
  method TakeBack(s: Bytes, ghost k: nat, cur0: nat, out0: Bytes, ghost base: Bytes) returns (cur: nat, out: Bytes)
    requires k <= cur0 <= |s| && AllSpace(s, k, cur0) && (k == 0 || !IsSpace(s[k - 1]))
    requires out0 == base + s[k..cur0]
    ensures cur == k && out == base
  {
    cur, out := cur0, out0;
    while cur > 0 && IsSpace(s[cur - 1])
      invariant k <= cur <= cur0 && out == base + s[k..cur]
    {
      assert s[k..cur] == s[k..cur - 1] + [s[cur - 1]];
      cur := cur - 1;
      out := out[..|out| - 1];
    }
    assert s[k..cur] == [];
  }

  /** At a CR outside a fold, with the white space before it taken back: the fold starts. */
  lemma FoldStarts(s: Bytes, cur0: nat, k: nat, out: Bytes)
    requires cur0 < |s| && s[cur0] == CR
    requires k <= cur0 && AllSpace(s, k, cur0) && (k == 0 || !IsSpace(s[k - 1]))
    requires out == Unfold(s[..k])
    ensures LoopState(s, k + 1, out + [SP], true, k, cur0, cur0 + 1)
  {
  }

  /** Inside a fold, one more byte of white space. */
  lemma FoldContinues(s: Bytes, cur: nat, out: Bytes, rs: nat, crPos: nat, hw: nat)
    requires cur < |s| && IsSpace(s[cur]) && LoopState(s, cur, out, true, rs, crPos, hw)
    ensures LoopState(s, cur + 1, out, true, rs, crPos, if hw < cur + 1 then cur + 1 else hw)
  {
  }

  /** Leaving a fold at a byte that is not white space: the fold became one space, and the byte follows. */
  lemma FoldEnds(s: Bytes, cur: nat, out: Bytes, rs: nat, crPos: nat, hw: nat)
    requires cur < |s| && !IsSpace(s[cur]) && LoopState(s, cur, out, true, rs, crPos, hw)
    ensures hw == cur && LoopState(s, cur + 1, out + [s[cur]], false, rs, crPos, cur + 1)
  {
    var t := s[..cur];
    assert crPos < cur;
    assert AllSpace(t, rs, |t|);
    RunStartOf(t, rs);
    assert t[rs..][crPos - rs] == CR;
    assert t[..rs] == s[..rs];
    assert out == Unfold(t);
    UnfoldSnoc(t, s[cur]);
    assert s[..cur + 1] == t + [s[cur]];
  }

  /** No CR survives Unfold: a run holding one became a single space. */
  lemma {:induction false} UnfoldNoCR(s: Bytes)
    ensures CR !in Unfold(s)
    decreases |s|
  {
    if s != [] {
      if !IsSpace(s[|s| - 1]) {
        UnfoldNoCR(s[..|s| - 1]);
      } else {
        UnfoldNoCR(s[..RunStart(s)]);
      }
    }
  }

  /** Without a CR, Unfold changes nothing. */
  lemma {:induction false} UnfoldIdentity(s: Bytes)
    requires CR !in s
    ensures Unfold(s) == s
    decreases |s|
  {
    if s != [] && !IsSpace(s[|s| - 1]) {
      UnfoldIdentity(s[..|s| - 1]);
      assert s[..|s| - 1] + [s[|s| - 1]] == s;
    } else if s != [] {
      var k := RunStart(s);
      assert CR !in s[..k];
      UnfoldIdentity(s[..k]);
      assert CR !in s[k..];
      assert s[..k] + s[k..] == s;
    }
  }

  /** Unfold keeps a first byte that is not white space. */
  lemma {:induction false} UnfoldFirst(s: Bytes)
    requires s != [] && !IsSpace(s[0])
    ensures Unfold(s) != [] && Unfold(s)[0] == s[0]
    decreases |s|
  {
    if |s| > 1 {
      var k := if !IsSpace(s[|s| - 1]) then |s| - 1 else RunStart(s);
      RunStartSpace(s);
      assert k > 0;
      assert s[..k][0] == s[0];
      UnfoldFirst(s[..k]);
    }
  }

  /** A text with no white space at either end is its own Trim. */
  lemma TrimIdentity(s: Bytes)
    requires s == [] || (!IsSpace(s[0]) && !IsSpace(s[|s| - 1]))
    ensures Trim(s) == s
  {
  }

  /**
   * What produce delivers: no CR, no white space at either end, and
   * nothing else is empty unless the input was all white space.
   */
  lemma ProduceClean(cs: Bytes)
    ensures CR !in Unfold(Trim(cs))
    ensures Unfold(Trim(cs)) == [] <==> Trim(cs) == []
    ensures var r := Unfold(Trim(cs)); r == [] || (!IsSpace(r[0]) && !IsSpace(r[|r| - 1]))
  {
    var t := Trim(cs);
    UnfoldNoCR(t);
    if t != [] {
      UnfoldFirst(t);
      UnfoldSnoc(t[..|t| - 1], t[|t| - 1]);
      assert t[..|t| - 1] + [t[|t| - 1]] == t;
    }
  }

  /** A header text already clean passes produce unchanged. */
  lemma ProduceKeepsClean(cs: Bytes)
    requires CR !in cs && (cs == [] || (!IsSpace(cs[0]) && !IsSpace(cs[|cs| - 1])))
    ensures Unfold(Trim(cs)) == cs
  {
    TrimIdentity(cs);
    UnfoldIdentity(cs);
  }

  /** produce twice is produce once. */
  lemma ProduceIdempotent(cs: Bytes)
    ensures Unfold(Trim(Unfold(Trim(cs)))) == Unfold(Trim(cs))
  {
    ProduceClean(cs);
    ProduceKeepsClean(Unfold(Trim(cs)));
  }

  /** lower: every byte through tolower, in place. */
  method Lower(s: Bytes) returns (r: Bytes)
    ensures r == LowerAll(s)
    ensures |r| == |s| && forall i :: 0 <= i < |r| ==> !IsUpper(r[i])
    ensures forall i :: 0 <= i < |r| && !IsUpper(s[i]) ==> r[i] == s[i]
  {
    r := s;
    var i := 0;
    while i < |r|
      invariant i <= |r| == |s|
      invariant forall j :: 0 <= j < i ==> r[j] == ToLower(s[j])
      invariant forall j :: i <= j < |r| ==> r[j] == s[j]
    {
      r := r[i := ToLower(r[i])];
      i := i + 1;
    }
  }

  /** Folding case twice is folding it once. */
  lemma LowerIdempotent(s: Bytes)
    ensures LowerAll(LowerAll(s)) == LowerAll(s)
  {
  }
}

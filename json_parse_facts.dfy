/**
 * Properties of the JSON reader: the shape of what parse builds, the
 * tokens it looks at, and what from_string makes of some short inputs.
 */
module JsonParseFacts {
  import opened ByteString
  import opened JsonValue
  import opened JsonParse

  // ---------------------------------------------------------------------
  // What parse builds

  /** A parsed value has its object members sorted by key and holds no FLOAT. */
  lemma {:induction false} ParseCanonical(toks: seq<Token>, i: nat)
    requires i <= |toks|
    ensures Parse(toks, i).Parsed? ==> Canonical(Parse(toks, i).v) && FloatFree(Parse(toks, i).v)
    decreases |toks| - i, 0
  {
    if i < |toks| {
      match toks[i].kind
      case JSON_ARRAY_START => ArrayFromCanonical(toks, i + 1);
      case JSON_OBJECT_START => DictFromCanonical(toks, i + 1);
      case _ =>
    }
  }

  lemma {:induction false} ArrayFromCanonical(toks: seq<Token>, j: nat)
    requires j <= |toks|
    ensures ArrayFrom(toks, j).Parsed? ==> Canonical(ArrayFrom(toks, j).v) && FloatFree(ArrayFrom(toks, j).v)
    decreases |toks| - j, 2
  {
    if !(j < |toks| && toks[j].kind == JSON_ARRAY_END) {
      ArrayLoopCanonical(toks, j, []);
    }
  }

  lemma {:induction false} ArrayLoopCanonical(toks: seq<Token>, j: nat, acc: seq<Value>)
    requires j <= |toks|
    requires forall x :: 0 <= x < |acc| ==> Canonical(acc[x]) && FloatFree(acc[x])
    ensures ArrayLoop(toks, j, acc).Parsed? ==>
      Canonical(ArrayLoop(toks, j, acc).v) && FloatFree(ArrayLoop(toks, j, acc).v)
    decreases |toks| - j, 1
  {
    if j < |toks| {
      ParseCanonical(toks, j);
      match Parse(toks, j)
      case Parsed(v, k) =>
        if k < |toks| && toks[k].kind == JSON_COMMA {
          ArrayLoopCanonical(toks, k + 1, acc + [v]);
        }
      case _ =>
    }
  }

  lemma {:induction false} DictFromCanonical(toks: seq<Token>, j: nat)
    requires j <= |toks|
    ensures DictFrom(toks, j).Parsed? ==> Canonical(DictFrom(toks, j).v) && FloatFree(DictFrom(toks, j).v)
    decreases |toks| - j, 2
  {
    if !(j < |toks| && toks[j].kind == JSON_OBJECT_END) {
      DictLoopCanonical(toks, j, []);
    }
  }

  /** Inserting a canonical, float-free member keeps a member list so. */
  lemma InsertCanonical(fs: seq<Field>, k: Bytes, v: Value)
    requires Sorted(fs) && forall x :: 0 <= x < |fs| ==> Canonical(fs[x].val) && FloatFree(fs[x].val)
    requires Canonical(v) && FloatFree(v)
    ensures var gs := Insert(fs, k, v);
      Sorted(gs) && forall x :: 0 <= x < |gs| ==> Canonical(gs[x].val) && FloatFree(gs[x].val)
  {
    InsertSorted(fs, k, v);
    InsertMembers(fs, k, v);
    var gs := Insert(fs, k, v);
    forall x | 0 <= x < |gs|
      ensures Canonical(gs[x].val) && FloatFree(gs[x].val)
    {
      assert gs[x] in gs;
    }
  }

  lemma {:induction false} DictLoopCanonical(toks: seq<Token>, j: nat, acc: seq<Field>)
    requires j <= |toks|
    requires Sorted(acc) && forall x :: 0 <= x < |acc| ==> Canonical(acc[x].val) && FloatFree(acc[x].val)
    ensures DictLoop(toks, j, acc).Parsed? ==>
      Canonical(DictLoop(toks, j, acc).v) && FloatFree(DictLoop(toks, j, acc).v)
    decreases |toks| - j, 1
  {
    if j == |toks| {
      ObjectCanonical(acc);
    } else if DictLoop(toks, j, acc).Parsed? {
      var fs, m := DictMemberCanonical(toks, j, acc);
      if toks[m].kind == JSON_COMMA {
        DictLoopCanonical(toks, m + 1, fs);
      } else {
        ObjectCanonical(fs);
      }
    }
  }

  /** One member of the object loop keeps the members sorted, canonical and float-free. */
  lemma DictMemberCanonical(toks: seq<Token>, j: nat, acc: seq<Field>) returns (fs: seq<Field>, m: nat)
    requires j < |toks| && DictLoop(toks, j, acc).Parsed?
    requires Sorted(acc) && forall x :: 0 <= x < |acc| ==> Canonical(acc[x].val) && FloatFree(acc[x].val)
    ensures j < m < |toks| && Sorted(fs) && forall x :: 0 <= x < |fs| ==> Canonical(fs[x].val) && FloatFree(fs[x].val)
    ensures toks[m].kind == JSON_COMMA ==> DictLoop(toks, j, acc) == DictLoop(toks, m + 1, fs)
    ensures toks[m].kind != JSON_COMMA ==> DictLoop(toks, j, acc) == Parsed(Object(fs), m + 1)
    decreases |toks| - j, 0
  {
    var key, k, val;
    key, k, val, m := DictMember(toks, j, acc);
    ParseCanonical(toks, k + 1);
    fs := Insert(acc, key.s, val);
    InsertCanonical(acc, key.s, val);
  }

  lemma ObjectCanonical(fs: seq<Field>)
    requires Sorted(fs) && forall x :: 0 <= x < |fs| ==> Canonical(fs[x].val) && FloatFree(fs[x].val)
    ensures Canonical(Object(fs)) && FloatFree(Object(fs))
  {
  }

  // ---------------------------------------------------------------------
  // parse reads no token past the value it returns

  /** Tokens from `n` on may be anything: the parse is decided by the first n. */
  predicate AgreeUpTo(toks: seq<Token>, toks2: seq<Token>, n: nat)
  {
    n <= |toks| && n <= |toks2| && forall x :: 0 <= x < n ==> toks2[x] == toks[x]
  }

  /**
   * A value that parse returns before the end of the tokens does not
   * depend on the tokens after it: any token list that agrees up to the
   * returned position parses the same way.
   */
  lemma {:induction false} ParseLocal(toks: seq<Token>, toks2: seq<Token>, i: nat)
    requires i <= |toks| && i <= |toks2|
    requires Parse(toks, i).Parsed? && Parse(toks, i).next < |toks|
    requires AgreeUpTo(toks, toks2, Parse(toks, i).next)
    ensures Parse(toks2, i) == Parse(toks, i)
    decreases |toks| - i, 0
  {
    assert toks2[i] == toks[i];
    match toks[i].kind
    case JSON_ARRAY_START => ArrayFromLocal(toks, toks2, i + 1);
    case JSON_OBJECT_START => DictFromLocal(toks, toks2, i + 1);
    case _ =>
  }

  lemma {:induction false} ArrayFromLocal(toks: seq<Token>, toks2: seq<Token>, j: nat)
    requires j <= |toks| && j <= |toks2|
    requires ArrayFrom(toks, j).Parsed? && ArrayFrom(toks, j).next < |toks|
    requires AgreeUpTo(toks, toks2, ArrayFrom(toks, j).next)
    ensures ArrayFrom(toks2, j) == ArrayFrom(toks, j)
    decreases |toks| - j, 2
  {
    if j < |toks| && toks[j].kind == JSON_ARRAY_END {
      assert toks2[j] == toks[j];
    } else {
      ArrayLoopLocal(toks, toks2, j, []);
      if j < |toks2| {
        assert toks2[j] == toks[j];
      }
    }
  }

  lemma {:induction false} ArrayLoopLocal(toks: seq<Token>, toks2: seq<Token>, j: nat, acc: seq<Value>)
    requires j <= |toks| && j <= |toks2|
    requires ArrayLoop(toks, j, acc).Parsed? && ArrayLoop(toks, j, acc).next < |toks|
    requires AgreeUpTo(toks, toks2, ArrayLoop(toks, j, acc).next)
    ensures ArrayLoop(toks2, j, acc) == ArrayLoop(toks, j, acc)
    decreases |toks| - j, 1
  {
    match Parse(toks, j)
    case Parsed(v, k) =>
      ParseLocal(toks, toks2, j);
      assert toks2[k] == toks[k];
      if toks[k].kind == JSON_COMMA {
        ArrayLoopLocal(toks, toks2, k + 1, acc + [v]);
      }
  }

  lemma {:induction false} DictFromLocal(toks: seq<Token>, toks2: seq<Token>, j: nat)
    requires j <= |toks| && j <= |toks2|
    requires DictFrom(toks, j).Parsed? && DictFrom(toks, j).next < |toks|
    requires AgreeUpTo(toks, toks2, DictFrom(toks, j).next)
    ensures DictFrom(toks2, j) == DictFrom(toks, j)
    decreases |toks| - j, 2
  {
    if j < |toks| && toks[j].kind == JSON_OBJECT_END {
      assert toks2[j] == toks[j];
    } else {
      DictLoopLocal(toks, toks2, j, []);
      if j < |toks2| {
        assert toks2[j] == toks[j];
      }
    }
  }

  lemma {:induction false} DictLoopLocal(toks: seq<Token>, toks2: seq<Token>, j: nat, acc: seq<Field>)
    requires j <= |toks| && j <= |toks2|
    requires DictLoop(toks, j, acc).Parsed? && DictLoop(toks, j, acc).next < |toks|
    requires AgreeUpTo(toks, toks2, DictLoop(toks, j, acc).next)
    ensures DictLoop(toks2, j, acc) == DictLoop(toks, j, acc)
    decreases |toks| - j, 1
  {
    var key, k, val, m := DictMember(toks, j, acc);
    ParseLocal(toks, toks2, j);
    ParseLocal(toks, toks2, k + 1);
    if toks[m].kind == JSON_COMMA {
      DictLoopLocal(toks, toks2, m + 1, Insert(acc, key.s, val));
    }
    assert toks2[k] == toks[k] && toks2[m] == toks[m];
    DictStep(toks2, j, acc, key, k, val, m);
  }

  /** The member a successful step of the object loop reads, and where the loop goes on. */
  lemma DictMember(toks: seq<Token>, j: nat, acc: seq<Field>) returns (key: Value, k: nat, val: Value, m: nat)
    requires j < |toks| && DictLoop(toks, j, acc).Parsed?
    ensures j < k && k + 1 < m < |toks| && key.String? && toks[k].kind == JSON_COLON
    ensures Parse(toks, j) == Parsed(key, k) && Parse(toks, k + 1) == Parsed(val, m)
    ensures toks[m].kind == JSON_OBJECT_END ==> DictLoop(toks, j, acc) == Parsed(Object(Insert(acc, key.s, val)), m + 1)
    ensures toks[m].kind != JSON_OBJECT_END ==>
      toks[m].kind == JSON_COMMA && DictLoop(toks, j, acc) == DictLoop(toks, m + 1, Insert(acc, key.s, val))
  {
    match Parse(toks, j)
    case Parsed(key', k') =>
      key, k := key', k';
      match Parse(toks, k + 1)
      case Parsed(val', m') =>
        val, m := val', m';
  }

  /** One member of the object loop, read from the parses of its key and its value. */
  lemma DictStep(toks: seq<Token>, j: nat, acc: seq<Field>, key: Value, k: nat, val: Value, m: nat)
    requires j < k && k + 1 < m < |toks| && key.String? && toks[k].kind == JSON_COLON
    requires Parse(toks, j) == Parsed(key, k) && Parse(toks, k + 1) == Parsed(val, m)
    ensures toks[m].kind == JSON_OBJECT_END ==> DictLoop(toks, j, acc) == Parsed(Object(Insert(acc, key.s, val)), m + 1)
    ensures toks[m].kind == JSON_COMMA ==> DictLoop(toks, j, acc) == DictLoop(toks, m + 1, Insert(acc, key.s, val))
  {
  }

  // ---------------------------------------------------------------------
  // from_string on short inputs

  const LBRACKET := '[' as int
  const RBRACKET := ']' as int
  const COMMA := ',' as int
  const ONE := '1' as int

  /** An empty text is null. */
  lemma EmptyIsNull(mode: EscapeMode)
    ensures FromText([], mode) == Ok(Null)
  {
  }

  /** stoll of a single digit. */
  lemma StollOne()
    ensures Stoll([ONE]) == Ok(1)
  {
    var d: Bytes := [ONE];
    assert SkipSpace(d, 0) == 0 && DigitsEnd(d, 0) == 1;
    assert d[0..1] == d && d[..0] == [];
    assert DigitsValue(d) == DigitsValue([]) * 10 + 1;
  }

  /** Positions on a first line. */
  lemma PosOnFirstLine(data: Bytes, k: nat)
    requires k <= |data| && forall x :: 0 <= x < k ==> data[x] != LF
    ensures PosAt(data, k) == Pos(1, k + 1)
  {
    if k > 0 {
      PosOnFirstLine(data, k - 1);
    }
  }

  /** The tokenizer's view of "[". */
  lemma OpenArrayTokens(mode: EscapeMode)
    ensures Tokenize([LBRACKET], mode) == ([Token(JSON_ARRAY_START, [], Pos(1, 1))], false)
  {
    var data: Bytes := [LBRACKET];
    var t0 := Token(JSON_ARRAY_START, [], Pos(1, 1));
    assert SkipSpace(data, 0) == 0 && Accepted(data[0]);
    assert ScanToken(data, 0, mode) == Scan(t0, 1);
    assert Tokens(data, 1, [t0], mode) == ([t0], false);
    assert [] + [t0] == [t0];
  }

  /** An array cut short before its first element is an empty array. */
  lemma OpenArrayIsEmpty(mode: EscapeMode)
    ensures FromText([LBRACKET], mode) == Ok(Array([]))
  {
    OpenArrayTokens(mode);
    var toks := [Token(JSON_ARRAY_START, [], Pos(1, 1))];
    assert ArrayLoop(toks, 1, []) == Parsed(Array([]), 1);
    assert Parse(toks, 0) == Parsed(Array([]), 1);
  }

  /** The tokenizer's view of "[1,". */
  lemma CutAfterCommaTokens(mode: EscapeMode)
    ensures Tokenize([LBRACKET, ONE, COMMA], mode) ==
      ([Token(JSON_ARRAY_START, [], Pos(1, 1)), Token(JSON_NUMBER, [ONE], Pos(1, 2)), Token(JSON_COMMA, [], Pos(1, 3))], false)
  {
    var data: Bytes := [LBRACKET, ONE, COMMA];
    PosOnFirstLine(data, 2);
    PosOnFirstLine(data, 1);
    var t0 := Token(JSON_ARRAY_START, [], Pos(1, 1));
    var t1 := Token(JSON_NUMBER, [ONE], Pos(1, 2));
    var t2 := Token(JSON_COMMA, [], Pos(1, 3));
    assert SkipSpace(data, 0) == 0 && Accepted(data[0]);
    assert ScanToken(data, 0, mode) == Scan(t0, 1);
    assert DigitsEnd(data, 1) == 2 && data[1..2] == [ONE];
    assert SkipSpace(data, 1) == 1 && Accepted(data[1]);
    assert ScanToken(data, 1, mode) == Scan(t1, 2);
    assert SkipSpace(data, 2) == 2 && Accepted(data[2]);
    assert ScanToken(data, 2, mode) == Scan(t2, 3);
    var toks := [t0, t1, t2];
    assert Tokens(data, 3, toks, mode) == (toks, false);
    assert [t0, t1] + [t2] == toks;
    assert Tokens(data, 2, [t0, t1], mode) == (toks, false);
    assert [t0] + [t1] == [t0, t1];
    assert Tokens(data, 1, [t0], mode) == (toks, false);
    assert [] + [t0] == [t0];
  }

  /** An array cut short after a comma keeps the elements read so far. */
  lemma CutAfterComma(mode: EscapeMode)
    ensures FromText([LBRACKET, ONE, COMMA], mode) == Ok(Array([Integer(1)]))
  {
    CutAfterCommaTokens(mode);
    var toks := [Token(JSON_ARRAY_START, [], Pos(1, 1)), Token(JSON_NUMBER, [ONE], Pos(1, 2)), Token(JSON_COMMA, [], Pos(1, 3))];
    StollOne();
    assert Parse(toks, 1) == Parsed(Integer(1), 2);
    assert ArrayLoop(toks, 3, [Integer(1)]) == Parsed(Array([Integer(1)]), 3);
    assert [] + [Integer(1)] == [Integer(1)];
    assert ArrayLoop(toks, 1, []) == Parsed(Array([Integer(1)]), 3);
    assert Parse(toks, 0) == Parsed(Array([Integer(1)]), 3);
  }

  /** The tokenizer's view of "[1,]". */
  lemma TrailingCommaTokens(mode: EscapeMode)
    ensures Tokenize([LBRACKET, ONE, COMMA, RBRACKET], mode) ==
      ([Token(JSON_ARRAY_START, [], Pos(1, 1)), Token(JSON_NUMBER, [ONE], Pos(1, 2)),
        Token(JSON_COMMA, [], Pos(1, 3)), Token(JSON_ARRAY_END, [], Pos(1, 4))], false)
  {
    var data: Bytes := [LBRACKET, ONE, COMMA, RBRACKET];
    PosOnFirstLine(data, 3);
    PosOnFirstLine(data, 2);
    PosOnFirstLine(data, 1);
    var t0 := Token(JSON_ARRAY_START, [], Pos(1, 1));
    var t1 := Token(JSON_NUMBER, [ONE], Pos(1, 2));
    var t2 := Token(JSON_COMMA, [], Pos(1, 3));
    var t3 := Token(JSON_ARRAY_END, [], Pos(1, 4));
    assert SkipSpace(data, 0) == 0 && Accepted(data[0]);
    assert ScanToken(data, 0, mode) == Scan(t0, 1);
    assert DigitsEnd(data, 1) == 2 && data[1..2] == [ONE];
    assert SkipSpace(data, 1) == 1 && Accepted(data[1]);
    assert ScanToken(data, 1, mode) == Scan(t1, 2);
    assert SkipSpace(data, 2) == 2 && Accepted(data[2]);
    assert ScanToken(data, 2, mode) == Scan(t2, 3);
    assert SkipSpace(data, 3) == 3 && Accepted(data[3]);
    assert ScanToken(data, 3, mode) == Scan(t3, 4);
    var toks := [t0, t1, t2, t3];
    assert Tokens(data, 4, toks, mode) == (toks, false);
    assert [t0, t1, t2] + [t3] == toks;
    assert Tokens(data, 3, [t0, t1, t2], mode) == (toks, false);
    assert [t0, t1] + [t2] == [t0, t1, t2];
    assert Tokens(data, 2, [t0, t1], mode) == (toks, false);
    assert [t0] + [t1] == [t0, t1];
    assert Tokens(data, 1, [t0], mode) == (toks, false);
    assert [] + [t0] == [t0];
  }

  /** A comma before ']' is a parse error, which reads as null. */
  lemma TrailingCommaIsNull(mode: EscapeMode)
    ensures FromText([LBRACKET, ONE, COMMA, RBRACKET], mode) == Ok(Null)
  {
    TrailingCommaTokens(mode);
    var toks := [Token(JSON_ARRAY_START, [], Pos(1, 1)), Token(JSON_NUMBER, [ONE], Pos(1, 2)),
                 Token(JSON_COMMA, [], Pos(1, 3)), Token(JSON_ARRAY_END, [], Pos(1, 4))];
    StollOne();
    assert Parse(toks, 1) == Parsed(Integer(1), 2);
    assert Parse(toks, 3) == Failed;
    assert ArrayLoop(toks, 3, [Integer(1)]) == Failed;
    assert ArrayLoop(toks, 1, []) == Failed;
    assert Parse(toks, 0) == Failed;
  }

  /** The tokenizer's view of "1 2". */
  lemma SecondValueTokens(mode: EscapeMode)
    ensures Tokenize([ONE, ' ' as int, '2' as int], mode) ==
      ([Token(JSON_NUMBER, [ONE], Pos(1, 1)), Token(JSON_NUMBER, ['2' as int], Pos(1, 3))], false)
  {
    var data: Bytes := [ONE, ' ' as int, '2' as int];
    PosOnFirstLine(data, 2);
    var t0 := Token(JSON_NUMBER, [ONE], Pos(1, 1));
    var t1 := Token(JSON_NUMBER, ['2' as int], Pos(1, 3));
    assert DigitsEnd(data, 0) == 1 && data[0..1] == [ONE];
    assert SkipSpace(data, 0) == 0 && Accepted(data[0]);
    assert ScanToken(data, 0, mode) == Scan(t0, 1);
    assert DigitsEnd(data, 2) == 3 && data[2..3] == ['2' as int];
    assert SkipSpace(data, 1) == 2 && Accepted(data[2]);
    assert ScanToken(data, 2, mode) == Scan(t1, 3);
    var toks := [t0, t1];
    assert Tokens(data, 3, toks, mode) == (toks, false);
    assert [t0] + [t1] == toks;
    assert Tokens(data, 1, [t0], mode) == (toks, false);
    assert [] + [t0] == [t0];
  }

  /** Anything after the first value is ignored. */
  lemma SecondValueIgnored(mode: EscapeMode)
    ensures FromText([ONE, ' ' as int, '2' as int], mode) == Ok(Integer(1))
  {
    SecondValueTokens(mode);
    var toks := [Token(JSON_NUMBER, [ONE], Pos(1, 1)), Token(JSON_NUMBER, ['2' as int], Pos(1, 3))];
    StollOne();
    assert Parse(toks, 0) == Parsed(Integer(1), 1);
  }

  /** A misspelt keyword is an error token, which reads as null. */
  lemma BadKeywordIsNull(mode: EscapeMode)
    ensures FromText(['t' as int, 'r' as int, 'u' as int], mode) == Ok(Null)
  {
    var data: Bytes := ['t' as int, 'r' as int, 'u' as int];
    var t0 := ErrorAt(data, 3);
    assert KeyScan(data, 3, TRUE_WORD, 3, JSON_TRUE) == Scan(t0, 3);
    assert KeyScan(data, 2, TRUE_WORD, 2, JSON_TRUE) == Scan(t0, 3);
    assert KeyScan(data, 1, TRUE_WORD, 1, JSON_TRUE) == Scan(t0, 3);
    assert KeyScan(data, 0, TRUE_WORD, 0, JSON_TRUE) == Scan(t0, 3);
    assert SkipSpace(data, 0) == 0 && Accepted(data[0]);
    assert ScanToken(data, 0, mode) == Scan(t0, 3);
    assert Tokens(data, 3, [t0], mode) == ([t0], false);
    assert [] + [t0] == [t0];
    assert Tokens(data, 0, [], mode) == ([t0], false);
    assert Parse([t0], 0) == Failed;
  }

  /** A byte that starts no token is a tokenizer error, which reads as null. */
  lemma StrayByteIsNull(mode: EscapeMode)
    ensures FromText(['@' as int], mode) == Ok(Null)
  {
  }

  /** A lone minus sign reaches stoll, which throws invalid_argument. */
  lemma LoneMinusThrows(mode: EscapeMode)
    ensures FromText(['-' as int], mode) == Throws(InvalidArgument)
  {
    var data: Bytes := ['-' as int];
    var t0 := Token(JSON_NUMBER, data, PosAt(data, 0));
    assert DigitsEnd(data, 1) == 1 && data[0..1] == data;
    assert SkipSpace(data, 0) == 0 && Accepted(data[0]);
    assert ScanToken(data, 0, mode) == Scan(t0, 1);
    assert Tokens(data, 1, [t0], mode) == ([t0], false);
    assert [] + [t0] == [t0];
    assert Tokens(data, 0, [], mode) == ([t0], false);
    assert SkipSpace(data, 0) == 0 && DigitsEnd(data, 1) == 1;
    assert Stoll(data) == Throws(InvalidArgument);
  }

  /** The tokenizer's view of "{1}". */
  lemma NumberKeyTokens(mode: EscapeMode)
    ensures Tokenize(['{' as int, ONE, '}' as int], mode) ==
      ([Token(JSON_OBJECT_START, [], Pos(1, 1)), Token(JSON_NUMBER, [ONE], Pos(1, 2)), Token(JSON_OBJECT_END, [], Pos(1, 3))], false)
  {
    var data: Bytes := ['{' as int, ONE, '}' as int];
    PosOnFirstLine(data, 2);
    PosOnFirstLine(data, 1);
    var t0 := Token(JSON_OBJECT_START, [], Pos(1, 1));
    var t1 := Token(JSON_NUMBER, [ONE], Pos(1, 2));
    var t2 := Token(JSON_OBJECT_END, [], Pos(1, 3));
    assert SkipSpace(data, 0) == 0 && Accepted(data[0]);
    assert ScanToken(data, 0, mode) == Scan(t0, 1);
    assert DigitsEnd(data, 1) == 2 && data[1..2] == [ONE];
    assert SkipSpace(data, 1) == 1 && Accepted(data[1]);
    assert ScanToken(data, 1, mode) == Scan(t1, 2);
    assert SkipSpace(data, 2) == 2 && Accepted(data[2]);
    assert ScanToken(data, 2, mode) == Scan(t2, 3);
    var toks := [t0, t1, t2];
    assert Tokens(data, 3, toks, mode) == (toks, false);
    assert [t0, t1] + [t2] == toks;
    assert Tokens(data, 2, [t0, t1], mode) == (toks, false);
    assert [t0] + [t1] == [t0, t1];
    assert Tokens(data, 1, [t0], mode) == (toks, false);
    assert [] + [t0] == [t0];
  }

  /** A member key that is not a string is a parse error, which reads as null. */
  lemma NumberKeyIsNull(mode: EscapeMode)
    ensures FromText(['{' as int, ONE, '}' as int], mode) == Ok(Null)
  {
    NumberKeyTokens(mode);
    var toks := [Token(JSON_OBJECT_START, [], Pos(1, 1)), Token(JSON_NUMBER, [ONE], Pos(1, 2)), Token(JSON_OBJECT_END, [], Pos(1, 3))];
    StollOne();
    assert Parse(toks, 1) == Parsed(Integer(1), 2);
    assert DictLoop(toks, 1, []) == Failed;
    assert Parse(toks, 0) == Failed;
  }
}

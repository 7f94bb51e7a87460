/**
 * Byte strings and the C-locale character classes (isspace, isdigit,
 * isalpha, isalnum, isxdigit, tolower) that the JSON, URI and HTTP code
 * relies on. Every `char` of the C++ sources is read here as the unsigned
 * byte `(uint8_t)c`.
 */
module ByteString {

  type uint8 = x: int | 0 <= x < 0x100
  type uint16 = x: int | 0 <= x < 0x1_0000
  type Bytes = seq<uint8>

  datatype Option<T> = None | Some(value: T)

  const LF := 0x0A
  const QUOTE := 0x22
  const BACKSLASH := 0x5C

  /** The bytes of a character literal (its characters are all below 256). */
  function Str(s: string): Bytes
  {
    seq(|s|, i requires 0 <= i < |s| => (s[i] as int) % 0x100)
  }

  /** Character classes of the C locale, on byte values. */
  predicate IsDigit(c: int) { 0x30 <= c <= 0x39 }
  predicate IsUpper(c: int) { 0x41 <= c <= 0x5A }
  predicate IsLower(c: int) { 0x61 <= c <= 0x7A }
  predicate IsAlpha(c: int) { IsUpper(c) || IsLower(c) }
  predicate IsAlnum(c: int) { IsAlpha(c) || IsDigit(c) }
  predicate IsXDigit(c: int) { IsDigit(c) || 0x61 <= c <= 0x66 || 0x41 <= c <= 0x46 }

  /** isspace: space, \t, \n, \v, \f and \r. */
  predicate IsSpace(c: int) { c == 0x20 || c == 0x09 || c == 0x0A || c == 0x0B || c == 0x0C || c == 0x0D }

  function ToLower(c: uint8): uint8 { if IsUpper(c) then c + 32 else c }

  function LowerAll(s: Bytes): (r: Bytes)
    ensures |r| == |s| && forall i :: 0 <= i < |s| ==> r[i] == ToLower(s[i])
  {
    seq(|s|, i requires 0 <= i < |s| => ToLower(s[i]))
  }

  /** Value of one hexadecimal digit, either case. */
  function HexValue(c: uint8): (v: nat)
    requires IsXDigit(c)
    ensures v < 16
  {
    if IsDigit(c) then c - 0x30
    else if 0x61 <= c <= 0x66 then c - 0x61 + 10
    else c - 0x41 + 10
  }

  /** Index of the first occurrence of `c` at or after `from`, or |s| when there is none. */
  function IndexOfFrom(s: Bytes, c: uint8, from: nat): (k: nat)
    requires from <= |s|
    ensures from <= k <= |s|
    ensures k < |s| ==> s[k] == c
    ensures forall j :: from <= j < k ==> s[j] != c
    decreases |s| - from
  {
    if from == |s| || s[from] == c then from else IndexOfFrom(s, c, from + 1)
  }

  /** Index of the last occurrence of `c` in `s`, if any. */
  function LastIndexOf(s: Bytes, c: uint8): (r: Option<nat>)
    ensures r.Some? ==> r.value < |s| && s[r.value] == c
    ensures forall j :: (if r.Some? then r.value + 1 else 0) <= j < |s| ==> s[j] != c
    decreases |s|
  {
    if s == [] then None
    else if s[|s| - 1] == c then Some(|s| - 1)
    else LastIndexOf(s[..|s| - 1], c)
  }

  /** `c` does not occur in `s`. */
  predicate Avoids(s: Bytes, c: uint8)
  {
    forall j :: 0 <= j < |s| ==> s[j] != c
  }

  /** The first `c` at or after `from` is at `k` when none comes before it. */
  lemma {:induction false} IndexOfAt(s: Bytes, c: uint8, from: nat, k: nat)
    requires from <= k <= |s|
    requires forall j :: from <= j < k ==> s[j] != c
    requires k < |s| ==> s[k] == c
    ensures IndexOfFrom(s, c, from) == k
    decreases k - from
  {
    if from < k {
      IndexOfAt(s, c, from + 1, k);
    }
  }

  /** The last `c` is at `k` when none comes after it. */
  lemma LastIndexOfAt(s: Bytes, c: uint8, k: nat)
    requires k < |s| && s[k] == c
    requires forall j :: k < j < |s| ==> s[j] != c
    ensures LastIndexOf(s, c) == Some(k)
  {
  }

  /** A text without `c` has no last `c`. */
  lemma LastIndexOfNone(s: Bytes, c: uint8)
    requires Avoids(s, c)
    ensures LastIndexOf(s, c) == None
  {
  }
}

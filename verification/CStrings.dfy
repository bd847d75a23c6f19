/** Null-terminated strings and the libc calls made on them. */
module CStrings {

  /** The bytes before the first NUL: what `strlen`, `append` and a `std::string` built from `b` see. */
  function CStr(b: seq<char>): (s: string)
    ensures |s| <= |b| && s == b[..|s|]
    ensures |s| < |b| ==> b[|s|] == '\0'
    ensures '\0' !in s
  {
    if b == [] || b[0] == '\0' then [] else [b[0]] + CStr(b[1..])
  }

  lemma CStrUnique(b: seq<char>, n: nat)
    requires n <= |b| && '\0' !in b[..n]
    requires n < |b| ==> b[n] == '\0'
    ensures CStr(b) == b[..n]
  {
  }

  /** `pattern` occurs in `text` at position `i`. */
  predicate MatchesAt(text: string, pattern: string, i: nat) {
    i + |pattern| <= |text| && text[i..i + |pattern|] == pattern
  }

  predicate Contains(text: string, pattern: string) {
    exists i: nat | i <= |text| :: MatchesAt(text, pattern, i)
  }

  /** First occurrence at or after `from`; the result is |text| + 1 when there is none. */
  function FindFrom(text: string, pattern: string, from: nat): (i: nat)
    requires from <= |text| + 1
    ensures from <= i <= |text| + 1
    ensures i <= |text| ==> MatchesAt(text, pattern, i)
    ensures forall k: nat | from <= k < i :: !MatchesAt(text, pattern, k)
    decreases |text| + 1 - from
  {
    if from == |text| + 1 || MatchesAt(text, pattern, from) then from else FindFrom(text, pattern, from + 1)
  }

  /** `strstr`: offset of the first occurrence, or None for the null pointer. */
  function StrStr(text: string, pattern: string): (r: Option<nat>)
    ensures r.Some? <==> Contains(text, pattern)
    ensures r.Some? ==> MatchesAt(text, pattern, r.value)
    ensures r.Some? ==> forall k: nat | k < r.value :: !MatchesAt(text, pattern, k)
  {
    var i := FindFrom(text, pattern, 0);
    if i <= |text| then Some(i) else None
  }

  datatype Option<+T> = None | Some(value: T)
}

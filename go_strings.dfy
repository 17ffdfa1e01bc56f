/**
 * The two functions of Go's `strings` package that the decoder uses to pick
 * the field name out of an unknown-field error text.
 */
module GoStrings {

  /** `strings.HasPrefix(s, prefix)`: `s` begins with `prefix`. */
  predicate HasPrefix(s: string, prefix: string)
  {
    |prefix| <= |s| && s[..|prefix|] == prefix
  }

  /** `strings.TrimPrefix(s, prefix)`: `s` without a leading `prefix`; `s` itself when it has none. */
  function TrimPrefix(s: string, prefix: string): (r: string)
    ensures |r| <= |s|
    ensures HasPrefix(s, prefix) ==> prefix + r == s
    ensures !HasPrefix(s, prefix) ==> r == s
  {
    if HasPrefix(s, prefix) then s[|prefix|..] else s
  }

  /** `HasPrefix` means exactly that `s` is `prefix` followed by something. */
  lemma HasPrefixIffConcat(s: string, prefix: string)
    ensures HasPrefix(s, prefix) <==> prefix <= s
  {
  }

  /** Trimming a prefix just put in front recovers the rest verbatim. */
  lemma TrimPrefixOfConcat(prefix: string, rest: string)
    ensures HasPrefix(prefix + rest, prefix)
    ensures TrimPrefix(prefix + rest, prefix) == rest
  {
    assert (prefix + rest)[..|prefix|] == prefix;
    assert (prefix + rest)[|prefix|..] == rest;
  }
}

/** Go strings as the gateway uses them: immutable byte strings.
    A byte is carried as a `char` below 256, so that the byte strings the
    source writes as literals ("/_show/", "<table>") are literals here too. */
module GoText {

  type Byte = c: char | c as int < 256
  type GoString = seq<Byte>

  /** A value, or the error return of a Go call that failed. */
  datatype Option<T> = None | Some(value: T)

  /** strings.HasPrefix / bytes.HasPrefix */
  predicate HasPrefix(s: GoString, prefix: GoString) {
    |prefix| <= |s| && s[..|prefix|] == prefix
  }

  /** strings.TrimPrefix: `s` without `prefix` when it starts with it, otherwise `s`. */
  function TrimPrefix(s: GoString, prefix: GoString): (r: GoString)
    ensures HasPrefix(s, prefix) ==> prefix + r == s
    ensures !HasPrefix(s, prefix) ==> r == s
  {
    if HasPrefix(s, prefix) then s[|prefix|..] else s
  }

  function Min(a: int, b: int): int { if a <= b then a else b }

  /** truncateString: the whole string when it has at most `n` bytes,
      otherwise its first `n` bytes (a byte prefix, with no regard for
      UTF-8 character boundaries). */
  function Truncate(s: GoString, n: nat): (r: GoString)
    ensures |r| == Min(|s|, n) && r == s[..|r|]
    ensures r == s <==> |s| <= n
  {
    if |s| <= n then s else s[..n]
  }

  /** Truncating twice to the same length is truncating once. */
  lemma TruncateIdempotent(s: GoString, n: nat)
    ensures Truncate(Truncate(s, n), n) == Truncate(s, n)
  {
  }

  lemma AppendAssoc(a: GoString, b: GoString, c: GoString)
    ensures (a + b) + c == a + (b + c)
  {
  }

  /** `c` does not occur in `s`. */
  predicate Lacks(s: GoString, c: Byte) { forall i :: 0 <= i < |s| ==> s[i] != c }
}

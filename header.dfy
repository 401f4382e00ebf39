/** HTTP header maps as net/http keeps them: a map from canonical names to
    value lists. Add, Set, Get and Del canonicalise the name they are given
    (textproto.CanonicalMIMEHeaderKey), and every map net/http hands a
    handler (request headers, backend response headers) is keyed by
    canonical names, which the type `Header` makes a standing invariant. */
module Headers {
  import opened GoText

  /** A byte allowed in a header field name (a "tchar" of RFC 7230). */
  predicate TokenByte(c: Byte)
  {
    ('a' <= c <= 'z') || ('A' <= c <= 'Z') || ('0' <= c <= '9') ||
    c == '!' || c == '#' || c == '$' || c == '%' || c == '&' || c == '\'' || c == '*' ||
    c == '+' || c == '-' || c == '.' || c == '^' || c == '_' || c == '`' || c == '|' || c == '~'
  }

  predicate AllToken(s: GoString) { forall i :: 0 <= i < |s| ==> TokenByte(s[i]) }

  function Upper(c: Byte): Byte { if 'a' <= c <= 'z' then (c as int - 32) as char else c }
  function Lower(c: Byte): Byte { if 'A' <= c <= 'Z' then (c as int + 32) as char else c }

  /** Upper-case the first letter and every letter after '-', lower-case the rest. */
  function CaseWords(s: GoString, upper: bool): (r: GoString)
    ensures |r| == |s|
  {
    if s == [] then []
    else [if upper then Upper(s[0]) else Lower(s[0])] + CaseWords(s[1..], s[0] == '-')
  }

  /** textproto.CanonicalMIMEHeaderKey: a name with a byte that is not a
      token byte is left alone; otherwise its words are capitalised
      ("content-type" and "CONTENT-TYPE" both give "Content-Type"). */
  function Canonical(name: GoString): GoString
  {
    if AllToken(name) then CaseWords(name, true) else name
  }

  predicate IsCanonical(name: GoString) { Canonical(name) == name }

  /** Canonicalising changes letter case only, so names of different
      lengths stay different. */
  lemma CanonicalLength(name: GoString)
    ensures |Canonical(name)| == |name|
  {
  }

  lemma {:induction false} CaseWordsIdempotent(s: GoString, upper: bool)
    requires AllToken(s)
    ensures AllToken(CaseWords(s, upper))
    ensures CaseWords(CaseWords(s, upper), upper) == CaseWords(s, upper)
  {
    if s != [] {
      var r := CaseWords(s, upper);
      CaseWordsIdempotent(s[1..], s[0] == '-');
      assert r[0] == '-' <==> s[0] == '-';
      assert r[1..] == CaseWords(s[1..], s[0] == '-');
    }
  }

  /** Canonicalising twice is canonicalising once, so every Canonical name is canonical. */
  lemma CanonicalIsCanonical(name: GoString)
    ensures IsCanonical(Canonical(name))
  {
    if AllToken(name) {
      CaseWordsIdempotent(name, true);
    }
  }

  /** net/http's Header: every name in it is in canonical form. */
  type Header = h: map<GoString, seq<GoString>> | forall k {:trigger IsCanonical(k)} :: k in h ==> IsCanonical(k)

  /** The value list stored under a canonical name (empty when absent). */
  function Values(h: Header, key: GoString): seq<GoString>
  {
    if key in h then h[key] else []
  }

  /** Header.Add: appends `value` to the values of the canonical form of `key`. */
  function Add(h: Header, key: GoString, value: GoString): (r: Header)
    ensures Values(r, Canonical(key)) == Values(h, Canonical(key)) + [value]
    ensures forall k :: k != Canonical(key) ==> Values(r, k) == Values(h, k)
    ensures r.Keys == h.Keys + {Canonical(key)}
  {
    CanonicalIsCanonical(key);
    var ck := Canonical(key);
    h[ck := Values(h, ck) + [value]]
  }

  /** Header.Set: the canonical form of `key` now has the single value `value`. */
  function Set(h: Header, key: GoString, value: GoString): (r: Header)
    ensures Values(r, Canonical(key)) == [value]
    ensures forall k :: k != Canonical(key) ==> Values(r, k) == Values(h, k)
    ensures r.Keys == h.Keys + {Canonical(key)}
  {
    CanonicalIsCanonical(key);
    h[Canonical(key) := [value]]
  }

  /** Header.Del */
  function Del(h: Header, key: GoString): (r: Header)
    ensures Canonical(key) !in r
    ensures forall k :: k != Canonical(key) ==> Values(r, k) == Values(h, k)
    ensures r.Keys == h.Keys - {Canonical(key)}
  {
    h - {Canonical(key)}
  }

  /** Header.Get: the first value of the canonical form of `key`, or "" when there is none. */
  function Get(h: Header, key: GoString): (r: GoString)
    ensures Values(h, Canonical(key)) != [] ==> r == Values(h, Canonical(key))[0]
    ensures Values(h, Canonical(key)) == [] ==> r == ""
  {
    var vs := Values(h, Canonical(key));
    if vs == [] then "" else vs[0]
  }

  /** The header `dst` becomes when every value of `src` is added to it:
      each name keeps its own values and gains those of `src` after them;
      a name of `src` with no values adds nothing. */
  function Merged(dst: Header, src: Header): (r: Header)
  {
    map k | k in dst.Keys + src.Keys && (k in dst || src[k] != []) :: Values(dst, k) + Values(src, k)
  }

  /** Copying into an empty header reproduces the source header, value list
      by value list (names that carry no value aside). */
  lemma MergedIntoEmpty(src: Header)
    ensures forall k :: Values(Merged(map[], src), k) == Values(src, k)
    ensures (forall k :: k in src ==> src[k] != []) ==> Merged(map[], src) == src
  {
    var r := Merged(map[], src);
    forall k
      ensures Values(r, k) == Values(src, k)
    {
      if k in src {
        assert Values(map[], k) == [];
      }
    }
  }

  /** Two headers with the same names and the same value lists are equal. */
  lemma HeaderExt(a: Header, b: Header)
    requires forall k :: (k in a <==> k in b) && Values(a, k) == Values(b, k)
    ensures a == b
  {
    assert forall k :: k in a ==> a[k] == Values(a, k) && b[k] == Values(b, k);
  }

  /** Adding under a name that is already canonical adds under that very name. */
  lemma AddCanonical(h: Header, key: GoString, value: GoString)
    requires IsCanonical(key)
    ensures Values(Add(h, key, value), key) == Values(h, key) + [value]
    ensures forall k :: k != key ==> Values(Add(h, key, value), k) == Values(h, k)
    ensures Add(h, key, value).Keys == h.Keys + {key}
  {
  }

  /** The inner loop of the copy: every value of one canonical name, in order. */
  method AddAll(h: Header, key: GoString, values: seq<GoString>) returns (out: Header)
    requires IsCanonical(key)
    ensures Values(out, key) == Values(h, key) + values
    ensures forall k :: k != key ==> Values(out, k) == Values(h, k)
    ensures forall k :: k in out <==> k in h || (k == key && values != [])
  {
    out := h;
    var j := 0;
    while j < |values|
      invariant 0 <= j <= |values|
      invariant Values(out, key) == Values(h, key) + values[..j]
      invariant forall k :: k != key ==> Values(out, k) == Values(h, k)
      invariant out.Keys == h.Keys + (if j > 0 then {key} else {})
    {
      assert values[..j + 1] == values[..j] + [values[j]];
      AddCanonical(out, key, values[j]);
      out := Add(out, key, values[j]);
      j := j + 1;
    }
    assert values[..j] == values;
  }

  lemma MergedAt(dst: Header, src: Header, k: GoString)
    ensures k in Merged(dst, src) <==> k in dst || Values(src, k) != []
    ensures Values(Merged(dst, src), k) == Values(dst, k) + Values(src, k)
  {
  }

  /** A header with the names and value lists of the merge is the merge. */
  lemma IsMerged(dst: Header, src: Header, out: Header)
    requires forall k :: Values(out, k) == Values(dst, k) + Values(src, k)
    requires forall k :: k in out <==> k in dst || (k in src && src[k] != [])
    ensures out == Merged(dst, src)
  {
    forall k
      ensures (k in out <==> k in Merged(dst, src)) && Values(out, k) == Values(Merged(dst, src), k)
    {
      MergedAt(dst, src, k);
    }
    HeaderExt(out, Merged(dst, src));
  }

  /** `out` is `dst` with every name of `src` outside `todo` copied in. */
  ghost predicate CopiedExcept(dst: Header, src: Header, out: Header, todo: set<GoString>)
  {
    && (forall k :: Values(out, k) == Values(dst, k) + (if k in src && k !in todo then src[k] else []))
    && (forall k :: k in out <==> k in dst || (k in src && k !in todo && src[k] != []))
  }

  /** Copying the values of one more name of `src`. */
  lemma CopyStep(dst: Header, src: Header, out: Header, todo: set<GoString>, key: GoString, next: Header)
    requires CopiedExcept(dst, src, out, todo) && key in todo && key in src
    requires Values(next, key) == Values(out, key) + src[key]
    requires forall k :: k != key ==> Values(next, k) == Values(out, k)
    requires forall k :: k in next <==> k in out || (k == key && src[key] != [])
    ensures CopiedExcept(dst, src, next, todo - {key})
  {
    var rest := todo - {key};
    forall k
      ensures Values(next, k) == Values(dst, k) + (if k in src && k !in rest then src[k] else [])
    {
      if k == key {
        assert Values(out, k) == Values(dst, k);
      } else {
        assert Values(next, k) == Values(out, k);
        assert (k in src && k !in rest) == (k in src && k !in todo);
      }
    }
    forall k
      ensures k in next <==> k in dst || (k in src && k !in rest && src[k] != [])
    {
      if k != key {
        assert (k in src && k !in rest) == (k in src && k !in todo);
      }
    }
  }

  /** The nested `for key, values := range src { for _, value := range values
      { dst.Add(key, value) } }` loop of the gateway. Map iteration order
      is unspecified in Go; here each step picks any key not yet copied,
      and the result is the same for every order. */
  method CopyHeader(dst: Header, src: Header) returns (out: Header)
    ensures out == Merged(dst, src)
  {
    out := dst;
    var todo := src.Keys;
    while todo != {}
      invariant todo <= src.Keys
      invariant CopiedExcept(dst, src, out, todo)
      decreases todo
    {
      var key :| key in todo;
      var next := AddAll(out, key, src[key]);
      CopyStep(dst, src, out, todo, key, next);
      out, todo := next, todo - {key};
    }
    IsMerged(dst, src, out);
  }
}

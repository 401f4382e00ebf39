/** html.EscapeString, which every page uses on stored and decoded text,
    with the inverse that recovers the text from what the page shows. */
module Html {
  import opened GoText

  function EscapeByte(c: Byte): (r: GoString)
    ensures |r| >= 1
  {
    if c == '&' then "&amp;"
    else if c == '\'' then "&#39;"
    else if c == '<' then "&lt;"
    else if c == '>' then "&gt;"
    else if c == '"' then "&#34;"
    else [c]
  }

  /** html.EscapeString: the five characters < > & ' " become character references. */
  function Escape(s: GoString): GoString
  {
    if s == [] then [] else EscapeByte(s[0]) + Escape(s[1..])
  }

  /** Reads back the five references Escape writes; every other byte stands for itself. */
  function Unescape(s: GoString): GoString
    decreases |s|
  {
    if s == [] then []
    else if s[0] != '&' then [s[0]] + Unescape(s[1..])
    else if HasPrefix(s, "&amp;") then ['&'] + Unescape(s[5..])
    else if HasPrefix(s, "&#39;") then ['\''] + Unescape(s[5..])
    else if HasPrefix(s, "&lt;") then ['<'] + Unescape(s[4..])
    else if HasPrefix(s, "&gt;") then ['>'] + Unescape(s[4..])
    else if HasPrefix(s, "&#34;") then ['"'] + Unescape(s[5..])
    else ['&'] + Unescape(s[1..])
  }

  lemma UnescapeRef(r: GoString, c: Byte, rest: GoString)
    requires r == EscapeByte(c) && |r| > 1
    ensures Unescape(r + rest) == [c] + Unescape(rest)
  {
    var e := r + rest;
    assert e[..|r|] == r && e[|r|..] == rest;
    assert e[0] == '&';
    if c == '&' {
    } else if c == '\'' {
      assert !HasPrefix(e, "&amp;") by { assert e[1] != "&amp;"[1]; }
    } else if c == '<' {
      assert !HasPrefix(e, "&amp;") by { assert e[1] != "&amp;"[1]; }
      assert !HasPrefix(e, "&#39;") by { assert e[1] != "&#39;"[1]; }
    } else if c == '>' {
      assert !HasPrefix(e, "&amp;") by { assert e[1] != "&amp;"[1]; }
      assert !HasPrefix(e, "&#39;") by { assert e[1] != "&#39;"[1]; }
      assert !HasPrefix(e, "&lt;") by { assert e[1] != "&lt;"[1]; }
    } else {
      assert !HasPrefix(e, "&amp;") by { assert e[1] != "&amp;"[1]; }
      assert !HasPrefix(e, "&#39;") by { assert e[3] != "&#39;"[3]; }
      assert !HasPrefix(e, "&lt;") by { assert e[1] != "&lt;"[1]; }
      assert !HasPrefix(e, "&gt;") by { assert e[1] != "&gt;"[1]; }
    }
  }

  lemma EscapeByteUnescapes(c: Byte, rest: GoString)
    ensures Unescape(EscapeByte(c) + rest) == [c] + Unescape(rest)
  {
    var r := EscapeByte(c);
    if |r| > 1 {
      UnescapeRef(r, c, rest);
    } else {
      var e := r + rest;
      assert e[0] == c && e[1..] == rest;
    }
  }

  /** Markup-significant bytes (the characters Escape replaces, except &). */
  predicate NoMarkup(s: GoString)
  {
    forall i :: 0 <= i < |s| ==> s[i] != '<' && s[i] != '>' && s[i] != '"' && s[i] != '\''
  }

  /** Escaping loses nothing: the displayed text reads back as the original. */
  lemma {:induction false} UnescapeEscape(s: GoString)
    ensures Unescape(Escape(s)) == s
  {
    if s != [] {
      EscapeByteUnescapes(s[0], Escape(s[1..]));
      UnescapeEscape(s[1..]);
      assert [s[0]] + s[1..] == s;
    }
  }

  /** Escaped text carries no markup: no < > ' " survives. */
  lemma {:induction false} EscapeHasNoMarkup(s: GoString)
    ensures NoMarkup(Escape(s))
  {
    if s != [] {
      EscapeHasNoMarkup(s[1..]);
      var h, t := EscapeByte(s[0]), Escape(s[1..]);
      assert NoMarkup(h);
      assert forall i :: 0 <= i < |h + t| ==> (h + t)[i] == if i < |h| then h[i] else t[i - |h|];
    }
  }
}

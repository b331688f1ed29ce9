/** `escapeHtml`: the escaping applied to titles and descriptions before they are
    placed in the page, and the decoding that undoes it. */
module Html {

  /** The five characters `escapeHtml` replaces. */
  predicate IsSpecial(c: char)
  {
    c == '&' || c == '<' || c == '>' || c == '"' || c == '\''
  }

  /** The replacement of one character: its entity if special, itself otherwise. */
  function Entity(c: char): string
  {
    if c == '&' then "&amp;"
    else if c == '<' then "&lt;"
    else if c == '>' then "&gt;"
    else if c == '"' then "&quot;"
    else if c == '\'' then "&#039;"
    else [c]
  }

  /** `escapeHtml`: every special character replaced by its entity. */
  function EscapeHtml(s: string): (r: string)
    ensures |r| >= |s|
    ensures forall i :: 0 <= i < |r| ==> r[i] != '<' && r[i] != '>' && r[i] != '"' && r[i] != '\''
    ensures (forall i :: 0 <= i < |s| ==> !IsSpecial(s[i])) ==> r == s
  {
    if s == [] then []
    else
      var rest := EscapeHtml(s[1..]);
      var e := Entity(s[0]);
      assert forall i :: 0 <= i < |e| ==> e[i] != '<' && e[i] != '>' && e[i] != '"' && e[i] != '\'';
      assert s == [s[0]] + s[1..];
      e + rest
  }

  predicate HasPrefix(s: string, p: string)
  {
    |p| <= |s| && s[..|p|] == p
  }

  /** Decoding of the five entities `escapeHtml` produces; other text is copied. */
  function Unescape(r: string): string
    decreases |r|
  {
    if r == [] then []
    else if HasPrefix(r, "&amp;") then "&" + Unescape(r[5..])
    else if HasPrefix(r, "&lt;") then "<" + Unescape(r[4..])
    else if HasPrefix(r, "&gt;") then ">" + Unescape(r[4..])
    else if HasPrefix(r, "&quot;") then "\"" + Unescape(r[6..])
    else if HasPrefix(r, "&#039;") then "'" + Unescape(r[6..])
    else [r[0]] + Unescape(r[1..])
  }

  /** Decoding an entity (or a plain character) in front yields the character. */
  lemma UnescapeEntity(c: char, rest: string)
    ensures Unescape(Entity(c) + rest) == [c] + Unescape(rest)
  {
    if c == '&' {
      UnescapeAmp(rest);
    } else if c == '<' {
      UnescapeLt(rest);
    } else if c == '>' {
      UnescapeGt(rest);
    } else if c == '"' {
      UnescapeQuot(rest);
    } else if c == '\'' {
      UnescapeApos(rest);
    } else {
      UnescapePlain(c, rest);
    }
  }

  lemma UnescapeAmp(rest: string)
    ensures Unescape("&amp;" + rest) == "&" + Unescape(rest)
  {
    var r := "&amp;" + rest;
    assert r[..5] == "&amp;" && r[5..] == rest;
  }

  /** A character outside the map is copied. */
  lemma UnescapePlain(c: char, rest: string)
    requires !IsSpecial(c)
    ensures Unescape([c] + rest) == [c] + Unescape(rest)
  {
    var r := [c] + rest;
    assert r[0] == c && r[1..] == rest;
    assert !HasPrefix(r, "&amp;") && !HasPrefix(r, "&lt;") && !HasPrefix(r, "&gt;");
    assert !HasPrefix(r, "&quot;") && !HasPrefix(r, "&#039;");
  }

  lemma UnescapeLt(rest: string)
    ensures Unescape("&lt;" + rest) == "<" + Unescape(rest)
  {
    var r := "&lt;" + rest;
    assert r[1] == 'l' && !HasPrefix(r, "&amp;");
    assert r[..4] == "&lt;" && r[4..] == rest;
  }

  lemma UnescapeGt(rest: string)
    ensures Unescape("&gt;" + rest) == ">" + Unescape(rest)
  {
    var r := "&gt;" + rest;
    assert r[1] == 'g' && !HasPrefix(r, "&amp;") && !HasPrefix(r, "&lt;");
    assert r[..4] == "&gt;" && r[4..] == rest;
  }

  lemma UnescapeQuot(rest: string)
    ensures Unescape("&quot;" + rest) == "\"" + Unescape(rest)
  {
    var r := "&quot;" + rest;
    assert r[1] == 'q' && !HasPrefix(r, "&amp;") && !HasPrefix(r, "&lt;") && !HasPrefix(r, "&gt;");
    assert r[..6] == "&quot;" && r[6..] == rest;
  }

  lemma UnescapeApos(rest: string)
    ensures Unescape("&#039;" + rest) == "'" + Unescape(rest)
  {
    var r := "&#039;" + rest;
    assert r[1] == '#' && !HasPrefix(r, "&amp;") && !HasPrefix(r, "&lt;") && !HasPrefix(r, "&gt;");
    assert !HasPrefix(r, "&quot;");
    assert r[..6] == "&#039;" && r[6..] == rest;
  }

  /** Escaping loses nothing: decoding the escaped text gives the original back. */
  lemma {:induction false} UnescapeEscape(s: string)
    ensures Unescape(EscapeHtml(s)) == s
  {
    if s != [] {
      UnescapeEscape(s[1..]);
      UnescapeEntity(s[0], EscapeHtml(s[1..]));
      assert s == [s[0]] + s[1..];
    }
  }

  /** Escaping works character by character: the escape of a concatenation is the
      concatenation of the escapes, so every character is replaced independently. */
  lemma {:induction false} EscapeConcat(a: string, b: string)
    ensures EscapeHtml(a + b) == EscapeHtml(a) + EscapeHtml(b)
  {
    if a != [] {
      assert (a + b)[1..] == a[1..] + b;
      assert (a + b)[0] == a[0];
      EscapeConcat(a[1..], b);
    } else {
      assert a + b == b;
    }
  }
}

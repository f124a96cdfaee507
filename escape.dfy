/** escapeHtml: every `&`, `<`, `>`, `"` and `'` of a string is replaced by
    the HTML character reference for it (`&amp;`, `&lt;`, `&gt;`, `&quot;`,
    `&#39;`); every other character is kept. */
module Escape {

  /** The characters escapeHtml rewrites. */
  predicate IsReserved(c: char)
  {
    c == '&' || c == '<' || c == '>' || c == '"' || c == '\''
  }

  /** The characters that delimit tags and attribute values in markup. */
  predicate IsDelimiter(c: char)
  {
    c == '<' || c == '>' || c == '"' || c == '\''
  }

  predicate NoDelimiters(s: string)
  {
    forall k :: 0 <= k < |s| ==> !IsDelimiter(s[k])
  }

  /** The replacement text for one character. */
  function EscapeChar(c: char): (r: string)
    ensures NoDelimiters(r)
    ensures r == [c] <==> !IsReserved(c)
    ensures IsReserved(c) ==> |r| >= 4 && r[0] == '&' && r[|r| - 1] == ';'
  {
    match c
    case '&' => "&amp;"
    case '<' => "&lt;"
    case '>' => "&gt;"
    case '"' => "&quot;"
    case '\'' => "&#39;"
    case _ => [c]
  }

  /** escapeHtml, one character at a time, left to right (the global regular
      expression replace of the source matches single characters, so no two
      matches overlap). The result holds no tag or attribute delimiter. */
  function EscapeHtml(s: string): (r: string)
    ensures NoDelimiters(r)
    ensures |r| >= |s|
    decreases |s|
  {
    if s == [] then [] else EscapeChar(s[0]) + EscapeHtml(s[1..])
  }

  /** Escaping distributes over concatenation. */
  lemma {:induction false} EscapeAppend(a: string, b: string)
    ensures EscapeHtml(a + b) == EscapeHtml(a) + EscapeHtml(b)
    decreases |a|
  {
    if a != [] {
      assert (a + b)[1..] == a[1..] + b;
      EscapeAppend(a[1..], b);
    } else {
      assert a + b == b;
    }
  }

  /** A string without reserved characters is left as it is. */
  lemma {:induction false} EscapePlain(s: string)
    requires forall k :: 0 <= k < |s| ==> !IsReserved(s[k])
    ensures EscapeHtml(s) == s
    decreases |s|
  {
    if s != [] {
      EscapePlain(s[1..]);
      assert [s[0]] + s[1..] == s;
    }
  }

  /** The empty string is the only string that escapes to the empty string. */
  lemma EscapeEmpty(s: string)
    ensures EscapeHtml(s) == [] <==> s == []
  {
  }

  predicate HasPrefix(s: string, p: string)
  {
    |p| <= |s| && s[..|p|] == p
  }

  /** Decodes the five references escapeHtml writes; any other `&` stays. */
  function Unescape(s: string): string
    decreases |s|
  {
    if s == [] then []
    else if s[0] != '&' then [s[0]] + Unescape(s[1..])
    else if HasPrefix(s, "&amp;") then "&" + Unescape(s[5..])
    else if HasPrefix(s, "&lt;") then "<" + Unescape(s[4..])
    else if HasPrefix(s, "&gt;") then ">" + Unescape(s[4..])
    else if HasPrefix(s, "&quot;") then "\"" + Unescape(s[6..])
    else if HasPrefix(s, "&#39;") then "'" + Unescape(s[5..])
    else "&" + Unescape(s[1..])
  }

  lemma UnescapeCharStep(c: char, rest: string)
    ensures Unescape(EscapeChar(c) + rest) == [c] + Unescape(rest)
  {
    match c
    case '&' => UnescapeAmp(rest);
    case '<' => UnescapeLt(rest);
    case '>' => UnescapeGt(rest);
    case '"' => UnescapeQuot(rest);
    case '\'' => UnescapeApos(rest);
    case _ => assert ([c] + rest)[1..] == rest;
  }

  /** The reference `r` in front of `rest`: where its pieces are. */
  lemma RefThen(r: string, rest: string)
    requires |r| >= 2
    ensures (r + rest)[..|r|] == r && (r + rest)[|r|..] == rest
    ensures (r + rest)[0] == r[0] && (r + rest)[1] == r[1]
  {
  }

  /** A string that differs from `p` at position k does not start with `p`. */
  lemma NotPrefix(s: string, p: string, k: nat)
    requires k < |p| && k < |s| && s[k] != p[k]
    ensures !HasPrefix(s, p)
  {
    if |p| <= |s| {
      assert s[..|p|][k] == s[k];
    }
  }

  lemma UnescapeAmp(rest: string)
    ensures Unescape("&amp;" + rest) == "&" + Unescape(rest)
  {
    RefThen("&amp;", rest);
  }

  lemma UnescapeLt(rest: string)
    ensures Unescape("&lt;" + rest) == "<" + Unescape(rest)
  {
    RefThen("&lt;", rest);
    NotPrefix("&lt;" + rest, "&amp;", 1);
  }

  lemma UnescapeGt(rest: string)
    ensures Unescape("&gt;" + rest) == ">" + Unescape(rest)
  {
    RefThen("&gt;", rest);
    NotPrefix("&gt;" + rest, "&amp;", 1);
    NotPrefix("&gt;" + rest, "&lt;", 1);
  }

  lemma UnescapeQuot(rest: string)
    ensures Unescape("&quot;" + rest) == "\"" + Unescape(rest)
  {
    RefThen("&quot;", rest);
    NotPrefix("&quot;" + rest, "&amp;", 1);
    NotPrefix("&quot;" + rest, "&lt;", 1);
    NotPrefix("&quot;" + rest, "&gt;", 1);
  }

  lemma UnescapeApos(rest: string)
    ensures Unescape("&#39;" + rest) == "'" + Unescape(rest)
  {
    RefThen("&#39;", rest);
    NotPrefix("&#39;" + rest, "&amp;", 1);
    NotPrefix("&#39;" + rest, "&lt;", 1);
    NotPrefix("&#39;" + rest, "&gt;", 1);
    NotPrefix("&#39;" + rest, "&quot;", 1);
  }

  /** Escaping loses nothing: decoding the escaped text gives the text back. */
  lemma {:induction false} UnescapeEscape(s: string)
    ensures Unescape(EscapeHtml(s)) == s
    decreases |s|
  {
    if s != [] {
      UnescapeCharStep(s[0], EscapeHtml(s[1..]));
      UnescapeEscape(s[1..]);
      assert [s[0]] + s[1..] == s;
    }
  }

  /** Escaping is injective: different texts never escape to the same markup. */
  lemma EscapeInjective(a: string, b: string)
    requires EscapeHtml(a) == EscapeHtml(b)
    ensures a == b
  {
    UnescapeEscape(a);
    UnescapeEscape(b);
  }
}

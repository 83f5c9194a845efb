/**
 * HTML escaping of the agent's display text, as Python's `html.escape(s)` does it with
 * its default `quote=True`: `&`, `<`, `>`, `"` and `'` become character references.
 * The library replaces `&` first, so no reference it inserts is escaped again; that is
 * the same as mapping every character on its own, which is how it is written here.
 */
module Html {
  import opened Ascii

  /** Characters that may not appear unescaped in the rendered text. */
  predicate IsMarkup(c: char) {
    c == '<' || c == '>' || c == '"' || c == '\''
  }

  function EscapeChar(c: char): string {
    if c == '&' then "&amp;"
    else if c == '<' then "&lt;"
    else if c == '>' then "&gt;"
    else if c == '"' then "&quot;"
    else if c == '\'' then "&#x27;"
    else [c]
  }

  /** `html.escape(s)`: the result holds no markup character and is never shorter. */
  function Escape(s: string): (r: string)
    ensures forall i :: 0 <= i < |r| ==> !IsMarkup(r[i])
    ensures |r| >= |s|
  {
    if s == [] then [] else EscapeChar(s[0]) + Escape(s[1..])
  }

  /** Decodes the five references that `Escape` produces, leaving everything else alone. */
  function Unescape(t: string): string
    decreases |t|
  {
    if t == [] then []
    else if t[0] == '&' && StartsWith(t, "&amp;") then "&" + Unescape(t[5..])
    else if t[0] == '&' && StartsWith(t, "&lt;") then "<" + Unescape(t[4..])
    else if t[0] == '&' && StartsWith(t, "&gt;") then ">" + Unescape(t[4..])
    else if t[0] == '&' && StartsWith(t, "&quot;") then "\"" + Unescape(t[6..])
    else if t[0] == '&' && StartsWith(t, "&#x27;") then "'" + Unescape(t[6..])
    else [t[0]] + Unescape(t[1..])
  }

  /** Escaping loses nothing: decoding the escaped text gives the original back. */
  lemma {:induction false} EscapeRoundTrip(s: string)
    ensures Unescape(Escape(s)) == s
  {
    if s != [] {
      EscapeRoundTrip(s[1..]);
      UnescapeStep(s[0], Escape(s[1..]));
      assert s == [s[0]] + s[1..];
    }
  }

  /** Decoding reads back one escaped character and then carries on with the rest. */
  lemma UnescapeStep(c: char, u: string)
    ensures Unescape(EscapeChar(c) + u) == [c] + Unescape(u)
  {
    var e := EscapeChar(c);
    var t := e + u;
    assert t[..|e|] == e && t[|e|..] == u;
    if c == '&' {
      assert StartsWith(t, "&amp;");
    } else if c == '<' {
      assert t[1] == 'l' && !StartsWith(t, "&amp;") && StartsWith(t, "&lt;");
    } else if c == '>' {
      assert t[1] == 'g' && !StartsWith(t, "&amp;") && !StartsWith(t, "&lt;") && StartsWith(t, "&gt;");
    } else if c == '"' {
      assert t[1] == 'q' && !StartsWith(t, "&amp;") && !StartsWith(t, "&lt;") && !StartsWith(t, "&gt;");
      assert StartsWith(t, "&quot;");
    } else if c == '\'' {
      assert t[1] == '#' && !StartsWith(t, "&amp;") && !StartsWith(t, "&lt;") && !StartsWith(t, "&gt;");
      assert !StartsWith(t, "&quot;") && StartsWith(t, "&#x27;");
    } else {
      assert t[0] == c;
    }
  }

  /** Text without markup characters or `&` is left as it is. */
  lemma {:induction false} EscapePlain(s: string)
    requires forall i :: 0 <= i < |s| ==> !IsMarkup(s[i]) && s[i] != '&'
    ensures Escape(s) == s
  {
    if s != [] {
      EscapePlain(s[1..]);
      assert s == [s[0]] + s[1..];
    }
  }
}

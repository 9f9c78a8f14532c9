/**
 * `sanitize`, which the server applies to every inbound chat text and the client to every text it
 * shows as its own: each of `& < > " ' /` becomes its HTML entity, every other character is kept.
 * The server and the client carry identical copies; it is defined once here.
 */
module Sanitizer {

  /** The characters the regular expression `/[&<>"'/]/` matches. */
  predicate IsSpecial(c: char) {
    c == '&' || c == '<' || c == '>' || c == '"' || c == '\'' || c == '/'
  }

  /** The characters that could open or close markup or an attribute: the special ones but `&`. */
  predicate IsMarkup(c: char) {
    c == '<' || c == '>' || c == '"' || c == '\'' || c == '/'
  }

  /** The replacement for one character. */
  function Escape(c: char): (e: string)
    ensures !IsSpecial(c) ==> e == [c]
    ensures IsSpecial(c) ==> |e| > 1 && e[0] == '&'
    ensures forall i | 0 <= i < |e| :: !IsMarkup(e[i])
  {
    match c
    case '&' => "&amp;"
    case '<' => "&lt;"
    case '>' => "&gt;"
    case '"' => "&quot;"
    case '\'' => "&#x27;"
    case '/' => "&#x2F;"
    case _ => [c]
  }

  /**
   * `string.replace(/[&<>"'/]/ig, match => map[match])`: the result is never shorter than the
   * input and holds none of `< > " ' /`, so it cannot open a tag or leave an attribute.
   */
  function Sanitize(s: string): (r: string)
    ensures |r| >= |s|
    ensures forall i | 0 <= i < |r| :: !IsMarkup(r[i])
  {
    if s == "" then ""
    else
      var e, rest := Escape(s[0]), Sanitize(s[1..]);
      assert forall i | |e| <= i < |e + rest| :: (e + rest)[i] == rest[i - |e|];
      e + rest
  }

  /** Decoding the six entities back, as an HTML parser would; every other character is kept. */
  function Unescape(s: string): string
    decreases |s|
  {
    if s == "" then ""
    else if "&amp;" <= s then "&" + Unescape(s[5..])
    else if "&lt;" <= s then "<" + Unescape(s[4..])
    else if "&gt;" <= s then ">" + Unescape(s[4..])
    else if "&quot;" <= s then "\"" + Unescape(s[6..])
    else if "&#x27;" <= s then "'" + Unescape(s[6..])
    else if "&#x2F;" <= s then "/" + Unescape(s[6..])
    else [s[0]] + Unescape(s[1..])
  }

  /** Sanitizing works character by character, so it distributes over concatenation. */
  lemma {:induction false} SanitizeAppend(a: string, b: string)
    ensures Sanitize(a + b) == Sanitize(a) + Sanitize(b)
  {
    if a == "" {
      assert a + b == b;
    } else {
      assert (a + b)[0] == a[0] && (a + b)[1..] == a[1..] + b;
      SanitizeAppend(a[1..], b);
    }
  }

  lemma NotPrefix(p: string, s: string, i: nat)
    requires i < |p| && i < |s| && p[i] != s[i]
    ensures !(p <= s)
  {
    if |p| <= |s| {
      assert s[..|p|][i] == s[i];
      assert p != s[..|p|];
    }
  }

  lemma EscapeUnescape(c: char, rest: string)
    ensures Unescape(Escape(c) + rest) == [c] + Unescape(rest)
  {
    var s := Escape(c) + rest;
    if c == '&' {
      assert "&amp;" <= s && s[5..] == rest;
    } else if c == '<' {
      NotPrefix("&amp;", s, 1);
      assert "&lt;" <= s && s[4..] == rest;
    } else if c == '>' {
      NotPrefix("&amp;", s, 1); NotPrefix("&lt;", s, 1);
      assert "&gt;" <= s && s[4..] == rest;
    } else if c == '"' {
      NotPrefix("&amp;", s, 1); NotPrefix("&lt;", s, 1); NotPrefix("&gt;", s, 1);
      assert "&quot;" <= s && s[6..] == rest;
    } else if c == '\'' {
      NotPrefix("&amp;", s, 1); NotPrefix("&lt;", s, 1); NotPrefix("&gt;", s, 1); NotPrefix("&quot;", s, 1);
      assert "&#x27;" <= s && s[6..] == rest;
    } else if c == '/' {
      NotPrefix("&amp;", s, 1); NotPrefix("&lt;", s, 1); NotPrefix("&gt;", s, 1); NotPrefix("&quot;", s, 1);
      NotPrefix("&#x27;", s, 4);
      assert "&#x2F;" <= s && s[6..] == rest;
    } else {
      NotPrefix("&amp;", s, 0); NotPrefix("&lt;", s, 0); NotPrefix("&gt;", s, 0); NotPrefix("&quot;", s, 0);
      NotPrefix("&#x27;", s, 0); NotPrefix("&#x2F;", s, 0);
      assert s[1..] == rest;
    }
  }

  /** Nothing is lost: decoding the entities gives back the original text. */
  lemma {:induction false} SanitizeRoundTrip(s: string)
    ensures Unescape(Sanitize(s)) == s
  {
    if s != "" {
      EscapeUnescape(s[0], Sanitize(s[1..]));
      SanitizeRoundTrip(s[1..]);
      assert [s[0]] + s[1..] == s;
    }
  }

  /** Text is left exactly as it is if and only if it holds none of the six special characters. */
  lemma {:induction false} SanitizeUnchangedIff(s: string)
    ensures Sanitize(s) == s <==> forall i | 0 <= i < |s| :: !IsSpecial(s[i])
    ensures |Sanitize(s)| >= |s|
    ensures (exists i | 0 <= i < |s| :: IsSpecial(s[i])) ==> |Sanitize(s)| > |s|
  {
    if s != "" {
      SanitizeUnchangedIff(s[1..]);
      var e, rest := Escape(s[0]), Sanitize(s[1..]);
      assert Sanitize(s) == e + rest;
      if forall i | 0 <= i < |s| :: !IsSpecial(s[i]) {
        assert forall i | 0 <= i < |s[1..]| :: !IsSpecial(s[1..][i]) by {
          forall i | 0 <= i < |s[1..]| ensures !IsSpecial(s[1..][i]) { assert s[1..][i] == s[i + 1]; }
        }
        assert [s[0]] + s[1..] == s;
      } else if IsSpecial(s[0]) {
        assert |Sanitize(s)| > |s|;
      } else {
        var i :| 0 <= i < |s| && IsSpecial(s[i]);
        assert IsSpecial(s[1..][i - 1]);
      }
    }
  }
}

/** The few JavaScript string and object semantics the chat code leans on. */
module JsText {
  import opened Types

  /** `s.split(sep)` for a non-empty separator: a left-to-right scan that cuts at every non-overlapping occurrence. */
  function Split(s: string, sep: string): (parts: seq<string>)
    requires |sep| > 0
    ensures |parts| >= 1
  {
    SplitFrom(s, sep, "")
  }

  /** The scan behind `Split`: `cur` is the piece collected since the last cut. */
  function SplitFrom(s: string, sep: string, cur: string): (parts: seq<string>)
    requires |sep| > 0
    ensures |parts| >= 1
    decreases |s|
  {
    if |s| == 0 then [cur]
    else if sep <= s then [cur] + SplitFrom(s[|sep|..], sep, "")
    else SplitFrom(s[1..], sep, cur + [s[0]])
  }

  /** `parts.join(sep)`. */
  function Join(parts: seq<string>, sep: string): string {
    if |parts| == 0 then ""
    else if |parts| == 1 then parts[0]
    else parts[0] + sep + Join(parts[1..], sep)
  }

  lemma {:induction false} SplitFromJoin(s: string, sep: string, cur: string)
    requires |sep| > 0
    ensures Join(SplitFrom(s, sep, cur), sep) == cur + s
    decreases |s|
  {
    if |s| == 0 {
    } else if sep <= s {
      var rest := SplitFrom(s[|sep|..], sep, "");
      SplitFromJoin(s[|sep|..], sep, "");
      assert ([cur] + rest)[1..] == rest;
      assert s == sep + s[|sep|..];
    } else {
      SplitFromJoin(s[1..], sep, cur + [s[0]]);
      assert cur + [s[0]] + s[1..] == cur + s;
    }
  }

  /** Splitting and joining again with the same separator gives back the original string. */
  lemma SplitJoin(s: string, sep: string)
    requires |sep| > 0
    ensures Join(Split(s, sep), sep) == s
  {
    SplitFromJoin(s, sep, "");
  }

  /** No character of `s` can start the separator. */
  predicate Avoids(s: string, sep: string)
    requires |sep| > 0
  {
    forall i | 0 <= i < |s| :: s[i] != sep[0]
  }

  lemma {:induction false} SplitFromPlain(a: string, sep: string, cur: string)
    requires |sep| > 0 && Avoids(a, sep)
    ensures SplitFrom(a, sep, cur) == [cur + a]
    decreases |a|
  {
    if |a| == 0 {
      assert cur + a == cur;
    } else {
      assert a[0] != sep[0];
      assert !(sep <= a);
      SplitFromPlain(a[1..], sep, cur + [a[0]]);
      assert cur + [a[0]] + a[1..] == cur + a;
    }
  }

  lemma {:induction false} SplitFromCut(a: string, sep: string, b: string, cur: string)
    requires |sep| > 0 && Avoids(a, sep)
    ensures SplitFrom(a + sep + b, sep, cur) == [cur + a] + SplitFrom(b, sep, "")
    decreases |a|
  {
    var s := a + sep + b;
    if |a| == 0 {
      assert cur + a == cur;
      assert s == sep + b;
      assert sep <= s;
      assert s[|sep|..] == b;
    } else {
      assert s[0] == a[0] != sep[0];
      assert !(sep <= s);
      assert s[1..] == a[1..] + sep + b;
      SplitFromCut(a[1..], sep, b, cur + [a[0]]);
      assert cur + [a[0]] + a[1..] == cur + a;
    }
  }

  /** A string without the separator is one piece. */
  lemma SplitPlain(a: string, sep: string)
    requires |sep| > 0 && Avoids(a, sep)
    ensures Split(a, sep) == [a]
  {
    SplitFromPlain(a, sep, "");
    assert "" + a == a;
  }

  /** Cutting at the first separator: the piece before it comes first, then the pieces of the rest. */
  lemma SplitCut(a: string, sep: string, b: string)
    requires |sep| > 0 && Avoids(a, sep)
    ensures Split(a + sep + b, sep) == [a] + Split(b, sep)
  {
    SplitFromCut(a, sep, b, "");
    assert "" + a == a;
  }

  lemma {:induction false} SplitFromPieces(s: string, sep: string, cur: string)
    requires |sep| == 1 && Avoids(cur, sep)
    ensures forall i | 0 <= i < |SplitFrom(s, sep, cur)| :: Avoids(SplitFrom(s, sep, cur)[i], sep)
    ensures |SplitFrom(s, sep, cur)| == 1 <==> Avoids(s, sep)
    decreases |s|
  {
    if |s| == 0 {
    } else if sep <= s {
      assert s[0] == sep[0];
      SplitFromPieces(s[1..], sep, "");
      assert s[|sep|..] == s[1..];
    } else {
      assert s[0] != sep[0];
      assert Avoids(cur + [s[0]], sep) by {
        forall i | 0 <= i < |cur + [s[0]]| ensures (cur + [s[0]])[i] != sep[0] {
          if i < |cur| { assert (cur + [s[0]])[i] == cur[i]; }
        }
      }
      SplitFromPieces(s[1..], sep, cur + [s[0]]);
      assert Avoids(s, sep) <==> Avoids(s[1..], sep) by {
        if Avoids(s[1..], sep) {
          forall i | 0 <= i < |s| ensures s[i] != sep[0] {
            if i > 0 { assert s[i] == s[1..][i - 1]; }
          }
        }
      }
    }
  }

  /** With a one-character separator no piece contains it, and there is a single piece exactly when `s` has none. */
  lemma SplitPieces(s: string, sep: string)
    requires |sep| == 1
    ensures forall i | 0 <= i < |Split(s, sep)| :: Avoids(Split(s, sep)[i], sep)
    ensures |Split(s, sep)| == 1 <==> Avoids(s, sep)
  {
    SplitFromPieces(s, sep, "");
  }

  /** `arr[i]`: `None` (undefined) past the end. */
  function Nth(arr: seq<string>, i: nat): (r: Option<string>)
    ensures r.Some? <==> i < |arr|
    ensures r.Some? ==> r.value == arr[i]
  {
    if i < |arr| then Some(arr[i]) else None
  }

  /** The property name JavaScript uses for a key: `undefined` becomes the string "undefined". */
  function PropertyKey(v: Option<string>): string {
    if v.Some? then v.value else "undefined"
  }

  /** The names every plain object inherits from `Object.prototype`; `key in object` finds them too. */
  const InheritedNames: set<string> := {
    "constructor", "hasOwnProperty", "isPrototypeOf", "propertyIsEnumerable", "toLocaleString", "toString",
    "valueOf", "__proto__", "__defineGetter__", "__defineSetter__", "__lookupGetter__", "__lookupSetter__"
  }

  /** `key in object` for a plain object whose own keys are `keys`. */
  predicate InPlainObject(key: string, keys: set<string>) {
    key in keys || key in InheritedNames
  }

  /** A string-valued property is falsy when it is undefined, null or empty. */
  predicate Falsy(s: Option<string>) {
    s.None? || s.value == ""
  }

  /** The characters `String.prototype.trim` removes: white space and line terminators. */
  predicate IsSpace(c: char) {
    || c == '\t' || c == '\n' || c == '\U{000B}' || c == '\U{000C}' || c == '\r' || c == ' '
    || c == '\U{00A0}' || c == '\U{1680}' || ('\U{2000}' <= c <= '\U{200A}')
    || c == '\U{2028}' || c == '\U{2029}' || c == '\U{202F}' || c == '\U{205F}'
    || c == '\U{3000}' || c == '\U{FEFF}'
  }

  /** A text that is white space only. */
  predicate IsBlank(s: string) {
    forall i | 0 <= i < |s| :: IsSpace(s[i])
  }

  function TrimStart(s: string): string {
    if |s| > 0 && IsSpace(s[0]) then TrimStart(s[1..]) else s
  }

  function TrimEnd(s: string): string {
    if |s| > 0 && IsSpace(s[|s| - 1]) then TrimEnd(s[..|s| - 1]) else s
  }

  /** `s.trim()`. */
  function Trim(s: string): string {
    TrimEnd(TrimStart(s))
  }

  lemma {:induction false} TrimStartBlank(s: string)
    ensures IsBlank(TrimStart(s)) <==> IsBlank(s)
    ensures TrimStart(s) == "" <==> IsBlank(s)
  {
    if |s| > 0 && IsSpace(s[0]) {
      TrimStartBlank(s[1..]);
      assert forall i | 1 <= i < |s| :: s[i] == s[1..][i - 1];
    }
  }

  lemma {:induction false} TrimEndBlank(s: string)
    ensures TrimEnd(s) == "" <==> IsBlank(s)
  {
    if |s| > 0 && IsSpace(s[|s| - 1]) {
      TrimEndBlank(s[..|s| - 1]);
      assert forall i | 0 <= i < |s| - 1 :: s[i] == s[..|s| - 1][i];
    }
  }

  /** `s.trim()` is empty exactly when every character of `s` is white space. */
  lemma TrimEmptyIff(s: string)
    ensures Trim(s) == "" <==> IsBlank(s)
  {
    TrimStartBlank(s);
    TrimEndBlank(TrimStart(s));
  }
}

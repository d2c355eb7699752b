/** `sanitizeHtml`: five global replacements in a row, and the entity decoder that undoes them. */
module Html {

  /** `input.replace(/c/g, rep)` for one character. */
  function ReplaceAll(s: string, c: char, rep: string): string {
    if s == "" then "" else (if s[0] == c then rep else [s[0]]) + ReplaceAll(s[1..], c, rep)
  }

  function SanitizeHtml(input: string): string {
    var s1 := ReplaceAll(input, '&', "&amp;");
    var s2 := ReplaceAll(s1, '<', "&lt;");
    var s3 := ReplaceAll(s2, '>', "&gt;");
    var s4 := ReplaceAll(s3, '"', "&quot;");
    ReplaceAll(s4, '\'', "&#x27;")
  }

  /** What one character becomes. */
  function Escape(c: char): string {
    if c == '&' then "&amp;"
    else if c == '<' then "&lt;"
    else if c == '>' then "&gt;"
    else if c == '"' then "&quot;"
    else if c == '\'' then "&#x27;"
    else [c]
  }

  function EscapeEach(s: string): string {
    if s == "" then "" else Escape(s[0]) + EscapeEach(s[1..])
  }

  predicate Special(c: char) { c in "&<>\"'" }

  lemma ReplaceAllCons(x: char, s: string, c: char, rep: string)
    ensures ReplaceAll([x] + s, c, rep) == (if x == c then rep else [x]) + ReplaceAll(s, c, rep)
  {
    assert ([x] + s)[1..] == s;
  }

  lemma Regroup(a: string, b: string, c: string)
    ensures (a + b) + c == a + (b + c)
  {
  }

  lemma {:induction false} ReplaceAllAppend(a: string, b: string, c: char, rep: string)
    ensures ReplaceAll(a + b, c, rep) == ReplaceAll(a, c, rep) + ReplaceAll(b, c, rep)
  {
    if a == "" {
      assert a + b == b;
    } else {
      var x, rest := a[0], a[1..];
      ReplaceAllAppend(rest, b, c, rep);
      var head := if x == c then rep else [x];
      assert a == [x] + rest && a + b == [x] + (rest + b);
      ReplaceAllCons(x, rest + b, c, rep);
      ReplaceAllCons(x, rest, c, rep);
      Regroup(head, ReplaceAll(rest, c, rep), ReplaceAll(b, c, rep));
    }
  }

  lemma {:induction false} ReplaceAllAbsent(s: string, c: char, rep: string)
    requires c !in s
    ensures ReplaceAll(s, c, rep) == s
  {
    if s != "" {
      ReplaceAllAbsent(s[1..], c, rep);
    }
  }

  lemma {:induction false} SanitizeAppend(a: string, b: string)
    ensures SanitizeHtml(a + b) == SanitizeHtml(a) + SanitizeHtml(b)
  {
    var a1, b1 := ReplaceAll(a, '&', "&amp;"), ReplaceAll(b, '&', "&amp;");
    var a2, b2 := ReplaceAll(a1, '<', "&lt;"), ReplaceAll(b1, '<', "&lt;");
    var a3, b3 := ReplaceAll(a2, '>', "&gt;"), ReplaceAll(b2, '>', "&gt;");
    ReplaceAllAppend(a, b, '&', "&amp;");
    ReplaceAllAppend(a1, b1, '<', "&lt;");
    ReplaceAllAppend(a2, b2, '>', "&gt;");
    ReplaceAllAppend(a3, b3, '"', "&quot;");
    ReplaceAllAppend(ReplaceAll(a3, '"', "&quot;"), ReplaceAll(b3, '"', "&quot;"), '\'', "&#x27;");
  }

  lemma ReplaceOne(c: char, d: char, rep: string)
    ensures ReplaceAll([c], d, rep) == if c == d then rep else [c]
  {
    assert [c][1..] == "";
    assert rep + "" == rep && [c] + "" == [c];
  }

  /** What an entity is made of: none of the characters replaced after the ampersand. */
  lemma {:induction false} EntityAbsent(c: char, d: char, rep: string)
    requires Special(c) && d in "<>\"'"
    ensures ReplaceAll(Escape(c), d, rep) == Escape(c)
  {
    ReplaceAllAbsent(Escape(c), d, rep);
  }

  /** One link of the chain, on what has become of character `c` so far. */
  lemma {:induction false} Link(c: char, done: bool, d: char)
    requires d in "<>\"'" && (done ==> Special(c))
    ensures ReplaceAll(if done then Escape(c) else [c], d, Escape(d)) == if done || c == d then Escape(c) else [c]
  {
    if done {
      EntityAbsent(c, d, Escape(d));
    } else {
      ReplaceOne(c, d, Escape(d));
    }
  }

  /** On one character the chain does what the map says: no later replacement sees an earlier one's output. */
  lemma {:induction false} SanitizeOne(c: char)
    ensures SanitizeHtml([c]) == Escape(c)
  {
    ReplaceOne(c, '&', Escape('&'));
    Link(c, c == '&', '<');
    Link(c, c in "&<", '>');
    Link(c, c in "&<>", '"');
    Link(c, c in "&<>\"", '\'');
  }

  /** The chain of five replacements is one pass of the per-character map. */
  lemma {:induction false} SanitizeIsEscapeEach(s: string)
    ensures SanitizeHtml(s) == EscapeEach(s)
  {
    if s != "" {
      assert s == [s[0]] + s[1..];
      SanitizeAppend([s[0]], s[1..]);
      SanitizeOne(s[0]);
      SanitizeIsEscapeEach(s[1..]);
    }
  }

  /** No raw angle bracket or quote survives. */
  lemma {:induction false} NothingRaw(s: string)
    ensures forall c | c in SanitizeHtml(s) :: c != '<' && c != '>' && c != '"' && c != '\''
  {
    SanitizeIsEscapeEach(s);
    EscapedChars(s);
  }

  predicate Raw(s: string) { '<' in s || '>' in s || '"' in s || '\'' in s }

  lemma EscapeNotRaw(c: char)
    ensures !Raw(Escape(c))
  {
  }

  lemma {:induction false} EscapedChars(s: string)
    ensures !Raw(EscapeEach(s))
  {
    if s != "" {
      EscapeNotRaw(s[0]);
      EscapedChars(s[1..]);
    }
  }

  // ---------- decoding ----------

  /** Reads the five entities back, left to right; any other text stays as it is. */
  function Decode(s: string): string {
    if s == "" then ""
    else if "&amp;" <= s then "&" + Decode(s[5..])
    else if "&lt;" <= s then "<" + Decode(s[4..])
    else if "&gt;" <= s then ">" + Decode(s[4..])
    else if "&quot;" <= s then "\"" + Decode(s[6..])
    else if "&#x27;" <= s then "'" + Decode(s[6..])
    else [s[0]] + Decode(s[1..])
  }

  lemma {:induction false} DecodeEscape(c: char, rest: string)
    ensures Decode(Escape(c) + rest) == [c] + Decode(rest)
  {
    var s := Escape(c) + rest;
    assert s[|Escape(c)|..] == rest;
    if c == '&' {
      assert "&amp;" <= s;
    } else if c == '<' {
      assert s[1] == 'l';
    } else if c == '>' {
      assert s[1] == 'g';
    } else if c == '"' {
      assert s[1] == 'q';
    } else if c == '\'' {
      assert s[1] == '#';
    } else {
      assert s[0] == c;
    }
  }

  /** Decoding undoes sanitizing, for every string; so no two strings are sanitized alike. */
  lemma {:induction false} DecodeUndoesSanitize(s: string)
    ensures Decode(SanitizeHtml(s)) == s
  {
    SanitizeIsEscapeEach(s);
    if s != "" {
      DecodeEscape(s[0], EscapeEach(s[1..]));
      SanitizeIsEscapeEach(s[1..]);
      DecodeUndoesSanitize(s[1..]);
    }
  }

  /** Sanitizing twice is sanitizing once exactly for the strings with nothing to escape. */
  lemma {:induction false} StableExactly(s: string)
    ensures SanitizeHtml(SanitizeHtml(s)) == SanitizeHtml(s) <==> forall c | c in s :: !Special(c)
  {
    if SanitizeHtml(SanitizeHtml(s)) == SanitizeHtml(s) {
      DecodeUndoesSanitize(SanitizeHtml(s));
      DecodeUndoesSanitize(s);
      assert SanitizeHtml(s) == s;
      NothingRaw(s);
      if '&' in s {
        GrowsWithAmpersand(s);
      }
    } else if forall c | c in s :: !Special(c) {
      PlainUnchanged(s);
    }
  }

  lemma {:induction false} PlainUnchanged(s: string)
    requires forall c | c in s :: !Special(c)
    ensures SanitizeHtml(s) == s
  {
    if s != "" {
      PlainUnchanged(s[1..]);
      SanitizeIsEscapeEach(s);
      SanitizeIsEscapeEach(s[1..]);
      assert s[0] in s;
    }
  }

  lemma {:induction false} GrowsWithAmpersand(s: string)
    ensures |SanitizeHtml(s)| >= |s|
    ensures '&' in s ==> |SanitizeHtml(s)| > |s|
  {
    if s != "" {
      GrowsWithAmpersand(s[1..]);
      SanitizeIsEscapeEach(s);
      SanitizeIsEscapeEach(s[1..]);
    }
  }
}

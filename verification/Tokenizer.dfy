/** The brain engine's tokenizer, on ASCII input. */
module Tokenizer {
  import opened Text

  const STOP_WORDS: set<string> := {
    "the", "a", "an", "is", "are", "was", "were", "be", "been", "being",
    "have", "has", "had", "do", "does", "did", "will", "would", "could",
    "should", "may", "might", "shall", "can", "need", "dare", "ought",
    "used", "to", "of", "in", "for", "on", "with", "at", "by", "from",
    "der", "die", "das", "ein", "eine", "und", "oder", "aber", "ist",
    "sind", "war", "hat", "haben", "wird", "werden", "kann", "muss",
    "soll", "darf", "mit", "von", "zu", "auf", "f\U{fc}r"
  }

  /** The characters of `[\s,.!?;:]`. */
  predicate Separator(c: char) { IsSpace(c) || c in ",.!?;:" }

  predicate IsToken(t: string) { |t| > 1 && t !in STOP_WORDS }

  function Select(fields: seq<string>): seq<string> {
    if fields == [] then [] else (if IsToken(fields[0]) then [fields[0]] else []) + Select(fields[1..])
  }

  function Normalize(input: string): string { Trim(ToLower(input)) }

  function Tokens(input: string): seq<string> { Select(SplitBy(Normalize(input), Separator)) }

  function Join(ts: seq<string>): string {
    if ts == [] then "" else if |ts| == 1 then ts[0] else ts[0] + " " + Join(ts[1..])
  }

  /** A field as it can come out of a lower-case text: lower case, with no separator in it. */
  predicate Plain(t: string) { forall c | c in t :: !Separator(c) && Lower(c) == c }

  lemma {:induction false} SplitPlain(s: string)
    requires forall c | c in s :: Lower(c) == c
    ensures forall t | t in SplitBy(s, Separator) :: Plain(t)
    decreases |s|
  {
    var n := FieldLength(s, Separator);
    assert forall c | c in s[..n] :: c in s;
    if n < |s| {
      var pre := LeadingSplits(s[n..], Separator);
      assert forall c | c in s[n..] :: c in s;
      assert forall c | c in DropLeading(s[n..], Separator) :: c in s[n..];
      SplitPlain(DropLeading(s[n..], Separator));
    } else {
      assert s[..n] == s;
    }
  }

  lemma {:induction false} SelectFrom(fields: seq<string>)
    ensures forall t | t in Select(fields) :: t in fields && IsToken(t)
  {
    if fields != [] {
      SelectFrom(fields[1..]);
    }
  }

  lemma {:induction false} NormalizedIsLower(input: string)
    ensures forall c | c in Normalize(input) :: Lower(c) == c
  {
    var lower := ToLower(input);
    assert forall c | c in lower :: Lower(c) == c;
    var pre, post := StripSplits(lower, IsSpace);
    assert forall c | c in Normalize(input) :: c in lower;
  }

  /** Every token is longer than one character, is no stop word, and has no separator or capital. */
  lemma {:induction false} TokenShape(input: string)
    ensures forall t | t in Tokens(input) :: IsToken(t) && Plain(t)
  {
    NormalizedIsLower(input);
    SplitPlain(Normalize(input));
    SelectFrom(SplitBy(Normalize(input), Separator));
  }

  lemma {:induction false} SelectAll(ts: seq<string>)
    requires forall t | t in ts :: IsToken(t)
    ensures Select(ts) == ts
  {
    if ts != [] {
      assert ts[0] in ts;
      SelectAll(ts[1..]);
    }
  }

  lemma {:induction false} FieldOf(t: string, rest: string)
    requires Plain(t) && (rest != "" ==> Separator(rest[0]))
    ensures FieldLength(t + rest, Separator) == |t|
  {
    var s := t + rest;
    forall i | 0 <= i < |t| ensures !Separator(s[i]) {
      assert s[i] == t[i] && t[i] in t;
    }
    assert rest != "" ==> s[|t|] == rest[0];
  }

  /** Splitting takes a plain word off the front. */
  lemma {:induction false} SplitOne(t: string, rest: string)
    requires Plain(t) && t != "" && rest != "" && !Separator(rest[0])
    ensures SplitBy(t + (" " + rest), Separator) == [t] + SplitBy(rest, Separator)
  {
    var gap := " " + rest;
    FieldOf(t, gap);
    assert (t + gap)[|t|..] == gap && (t + gap)[..|t|] == t;
    assert gap[1..] == rest;
    assert DropLeading(gap, Separator) == DropLeading(rest, Separator) == rest;
  }

  lemma SplitWord(t: string)
    requires Plain(t)
    ensures SplitBy(t, Separator) == [t]
  {
    FieldOf(t, "");
    assert t + "" == t;
  }

  lemma JoinMore(t: string, rest: seq<string>)
    requires rest != []
    ensures Join([t] + rest) == t + (" " + Join(rest))
  {
    assert ([t] + rest)[1..] == rest;
    assert (t + " ") + Join(rest) == t + (" " + Join(rest));
  }

  /** Splitting undoes joining, for plain non-empty words. */
  lemma {:induction false} SplitJoin(ts: seq<string>)
    requires ts != [] && forall t | t in ts :: Plain(t) && t != ""
    ensures SplitBy(Join(ts), Separator) == ts
  {
    var t, rest := ts[0], ts[1..];
    assert ts == [t] + rest && t in ts;
    if rest == [] {
      SplitWord(t);
    } else {
      JoinStartsPlain(rest);
      JoinMore(t, rest);
      SplitOne(t, Join(rest));
      SplitJoin(rest);
    }
  }

  lemma {:induction false} JoinStartsPlain(ts: seq<string>)
    requires ts != [] && forall t | t in ts :: Plain(t) && t != ""
    ensures var s := Join(ts); s != "" && !Separator(s[0]) && !Separator(s[|s| - 1])
    ensures forall c | c in Join(ts) :: Lower(c) == c
  {
    var t := ts[0];
    assert t in ts && t[0] in t && t[|t| - 1] in t;
    if |ts| > 1 {
      JoinStartsPlain(ts[1..]);
      assert Join(ts) == t + " " + Join(ts[1..]);
    }
  }

  /** Tokenizing the tokens, joined by spaces, gives the same tokens back. */
  lemma {:induction false} RoundTrip(input: string)
    ensures Tokens(Join(Tokens(input))) == Tokens(input)
  {
    var ts := Tokens(input);
    TokenShape(input);
    if ts == [] {
      assert ToLower("") == "" && Normalize("") == "";
      assert SplitBy("", Separator) == [""];
      assert Select([""]) == [];
    } else {
      var s := Join(ts);
      JoinStartsPlain(ts);
      assert forall i | 0 <= i < |s| :: s[i] in s;
      assert ToLower(s) == s;
      StripNothing(s, IsSpace);
      SplitJoin(ts);
      SelectAll(ts);
    }
  }

  // ---------- which words can be tokens ----------

  /** A plain word that is no stop word is its own only token. */
  lemma {:induction false} PlainWordIsToken(w: string)
    requires IsToken(w) && Plain(w)
    ensures Tokens(w) == [w]
  {
    assert Join([w]) == w;
    JoinStartsPlain([w]);
    assert forall i | 0 <= i < |w| :: w[i] in w;
    assert ToLower(w) == w;
    StripNothing(w, IsSpace);
    SplitJoin([w]);
    SelectAll([w]);
  }

  /** A word is a token of some input exactly when it is longer than one character, no stop word, and plain. */
  lemma {:induction false} HeardExactly(w: string)
    ensures (exists input :: w in Tokens(input)) <==> |w| > 1 && w !in STOP_WORDS && Plain(w)
  {
    if input :| w in Tokens(input) {
      TokenShape(input);
    }
    if IsToken(w) && Plain(w) {
      PlainWordIsToken(w);
      assert w in Tokens(w);
    }
  }

  /** Normalizing is done once; so a stored text has the tokens of the text it came from. */
  lemma {:induction false} NormalizeTwice(input: string)
    ensures Normalize(Normalize(input)) == Normalize(input) && Tokens(Normalize(input)) == Tokens(input)
  {
    var t := Normalize(input);
    NormalizedIsLower(input);
    assert forall i | 0 <= i < |t| :: t[i] in t;
    assert ToLower(t) == t;
    var pre, post := StripSplits(ToLower(input), IsSpace);
    StripNothing(t, IsSpace);
  }

  // ---------- splitting loses nothing but separators ----------

  function Flatten(fields: seq<string>): string {
    if fields == [] then "" else fields[0] + Flatten(fields[1..])
  }

  predicate Wordly(c: char) { !Separator(c) }

  lemma {:induction false} FilterAfterRun(s: string)
    ensures Filter(DropLeading(s, Separator), Wordly) == Filter(s, Wordly)
  {
    if s != "" && Separator(s[0]) {
      FilterAfterRun(s[1..]);
      assert "" + Filter(s[1..], Wordly) == Filter(s[1..], Wordly);
    }
  }

  /** The fields, put together, are the text without its separators: every word is in exactly one field. */
  lemma {:induction false} SplitKeepsWords(s: string)
    ensures Flatten(SplitBy(s, Separator)) == Filter(s, Wordly)
    decreases |s|
  {
    var n := FieldLength(s, Separator);
    FilterAll(s[..n], Wordly);
    assert s == s[..n] + s[n..];
    FilterAppend(s[..n], s[n..], Wordly);
    if n < |s| {
      var rest := DropLeading(s[n..], Separator);
      FilterAfterRun(s[n..]);
      SplitKeepsWords(rest);
      FlattenCons(s[..n], SplitBy(rest, Separator));
    } else {
      FlattenCons(s, []);
      assert s[..n] == s && s + "" == s;
    }
  }

  lemma FlattenCons(f: string, fields: seq<string>)
    ensures Flatten([f] + fields) == f + Flatten(fields)
  {
    assert ([f] + fields)[1..] == fields;
  }

  // ---------- tokens, word by word ----------

  /** The tokens of a text that is in lower case already. */
  function Heard(s: string): seq<string> { Select(SplitBy(s, Separator)) }

  function IfToken(t: string): seq<string> { if IsToken(t) then [t] else [] }

  lemma SelectCons(t: string, fields: seq<string>)
    ensures Select([t] + fields) == IfToken(t) + Select(fields)
  {
    assert ([t] + fields)[1..] == fields;
  }

  /** A separator in front makes no difference. */
  lemma {:induction false} HeardAfterSeparator(c: char, s: string)
    requires Separator(c)
    ensures Heard([c] + s) == Heard(s)
  {
    var all := [c] + s;
    var rest := DropLeading(s, Separator);
    assert all[1..] == s && FieldLength(all, Separator) == 0 && all[..0] == "" && all[0..] == all;
    assert SplitBy(all, Separator) == [""] + SplitBy(rest, Separator);
    SelectCons("", SplitBy(rest, Separator));
    assert [] + Heard(rest) == Heard(rest);
    if s != "" && Separator(s[0]) {
      assert FieldLength(s, Separator) == 0 && s[..0] == "" && s[0..] == s;
      SelectCons("", SplitBy(rest, Separator));
    }
  }

  lemma HeardNothing()
    ensures Heard("") == []
  {
    SelectCons("", []);
    assert [""] + [] == [""] && SplitBy("", Separator) == [""];
  }

  /** The first field is heard first. */
  lemma {:induction false} HeardField(s: string, n: nat)
    requires n == FieldLength(s, Separator) > 0
    ensures Heard(s) == IfToken(s[..n]) + Heard(s[n..])
  {
    if n == |s| {
      assert s[..n] == s && s[n..] == "";
      HeardNothing();
      SelectCons(s, []);
      assert [s] + [] == [s] && SplitBy(s, Separator) == [s] && Select([]) == [];
    } else {
      var rest := DropLeading(s[n..], Separator);
      SelectCons(s[..n], SplitBy(rest, Separator));
      HeardDropped(s[n..]);
    }
  }

  lemma {:induction false} HeardDropped(s: string)
    ensures Heard(DropLeading(s, Separator)) == Heard(s)
  {
    if s != "" && Separator(s[0]) {
      HeardDropped(s[1..]);
      HeardAfterSeparator(s[0], s[1..]);
      assert [s[0]] + s[1..] == s;
    }
  }

  /** What is on either side of a separator is heard on its own. */
  lemma {:induction false} HeardApart(a: string, c: char, b: string)
    requires Separator(c)
    ensures Heard(a + [c] + b) == Heard(a) + Heard(b)
    decreases |a|
  {
    var all := a + [c] + b;
    if a == "" {
      assert all == [c] + b && [] + Heard(b) == Heard(b);
      HeardAfterSeparator(c, b);
      HeardNothing();
    } else if Separator(a[0]) {
      var more := a[1..] + [c] + b;
      assert all == [a[0]] + more && a == [a[0]] + a[1..];
      HeardAfterSeparator(a[0], more);
      HeardAfterSeparator(a[0], a[1..]);
      HeardApart(a[1..], c, b);
    } else {
      var n := FieldLength(a, Separator);
      HeardApart(a[n..], c, b);
      HeardApartField(a, c, b, n);
    }
  }

  lemma {:induction false} HeardApartField(a: string, c: char, b: string, n: nat)
    requires Separator(c) && n == FieldLength(a, Separator) > 0
    requires Heard(a[n..] + [c] + b) == Heard(a[n..]) + Heard(b)
    ensures Heard(a + [c] + b) == Heard(a) + Heard(b)
  {
    FieldEnds(a, [c] + b);
    TakenApart(a, c, b, n);
    HeardField(a + [c] + b, n);
    HeardField(a, n);
    Together(IfToken(a[..n]), Heard(a[n..]), Heard(b));
  }

  lemma TakenApart(a: string, c: char, b: string, n: nat)
    requires n <= |a|
    ensures var all := a + [c] + b;
            all == a + ([c] + b) && all[..n] == a[..n] && all[n..] == a[n..] + [c] + b
  {
  }

  lemma Together(a: seq<string>, b: seq<string>, c: seq<string>)
    ensures a + (b + c) == (a + b) + c
  {
  }

  lemma {:induction false} FieldEnds(a: string, rest: string)
    requires rest != "" && Separator(rest[0])
    ensures FieldLength(a + rest, Separator) == FieldLength(a, Separator)
  {
    var s, n := a + rest, FieldLength(a, Separator);
    assert forall i | 0 <= i < n :: s[i] == a[i];
    assert n < |a| ==> s[n] == a[n];
    assert n == |a| ==> s[n] == rest[0];
  }

  lemma {:induction false} HeardBeforeSeparator(s: string, c: char)
    requires Separator(c)
    ensures Heard(s + [c]) == Heard(s)
  {
    HeardApart(s, c, "");
    HeardNothing();
    assert s + [c] + "" == s + [c];
    assert Heard(s) + [] == Heard(s);
  }

  /** White space at the ends makes no difference. */
  lemma {:induction false} HeardTrimmed(s: string)
    ensures Heard(Trim(s)) == Heard(s)
  {
    HeardLeading(s);
    HeardTrailing(DropLeading(s, IsSpace));
  }

  lemma {:induction false} HeardLeading(s: string)
    ensures Heard(DropLeading(s, IsSpace)) == Heard(s)
  {
    if s != "" && IsSpace(s[0]) {
      HeardLeading(s[1..]);
      HeardAfterSeparator(s[0], s[1..]);
      assert [s[0]] + s[1..] == s;
    }
  }

  lemma {:induction false} HeardTrailing(s: string)
    ensures Heard(DropTrailing(s, IsSpace)) == Heard(s)
  {
    var post := TrailingSplits(s, IsSpace);
    HeardBeforeSeparators(DropTrailing(s, IsSpace), post);
  }

  lemma {:induction false} HeardBeforeSeparators(s: string, post: string)
    requires forall c | c in post :: Separator(c)
    ensures Heard(s + post) == Heard(s)
  {
    if post == "" {
      assert s + post == s;
    } else {
      var init, c := post[..|post| - 1], post[|post| - 1];
      assert post == init + [c] && s + post == (s + init) + [c];
      HeardBeforeSeparators(s, init);
      HeardBeforeSeparator(s + init, c);
    }
  }

  lemma {:induction false} TokensAreHeard(input: string)
    ensures Tokens(input) == Heard(ToLower(input))
  {
    HeardTrimmed(ToLower(input));
  }

  lemma LowerApart(a: string, c: char, b: string)
    requires Separator(c)
    ensures ToLower(a + [c] + b) == ToLower(a) + [c] + ToLower(b)
  {
  }

  lemma {:induction false} LowerHeardApart(a: string, c: char, b: string)
    requires Separator(c)
    ensures Heard(ToLower(a + [c] + b)) == Heard(ToLower(a)) + Heard(ToLower(b))
  {
    LowerApart(a, c, b);
    HeardApart(ToLower(a), c, ToLower(b));
  }

  /** Tokenizing goes word by word: the tokens of two texts with a separator between are those of each. */
  lemma {:induction false} TokensApart(a: string, c: char, b: string)
    requires Separator(c)
    ensures Tokens(a + [c] + b) == Tokens(a) + Tokens(b)
  {
    TokensAreHeard(a);
    TokensAreHeard(b);
    TokensAreHeard(a + [c] + b);
    LowerHeardApart(a, c, b);
  }

  /** One word is its own only token, in lower case, unless it is short or a stop word. */
  lemma {:induction false} OneWordExactly(w: string)
    requires forall c | c in w :: !Separator(c)
    ensures var t := ToLower(w); Tokens(w) == if |t| > 1 && t !in STOP_WORDS then [t] else []
  {
    var t := ToLower(w);
    assert forall i | 0 <= i < |t| :: w[i] in w && !Separator(t[i]);
    HeardTrimmed(t);
    FieldEndsNot(t);
    SelectCons(t, []);
    assert [t] + [] == [t];
  }

  lemma {:induction false} FieldEndsNot(t: string)
    requires forall i | 0 <= i < |t| :: !Separator(t[i])
    ensures SplitBy(t, Separator) == [t]
  {
    assert FieldLength(t, Separator) == |t|;
  }

  /** Normalizing puts a text in lower case and takes the white space off its ends, and no more. */
  lemma {:induction false} NormalizeExactly(input: string) returns (pre: string, post: string)
    ensures var t := Normalize(input);
            && ToLower(input) == pre + t + post && (forall c | c in pre + post :: IsSpace(c))
            && (t != "" ==> !IsSpace(t[0]) && !IsSpace(t[|t| - 1]))
  {
    pre, post := StripSplits(ToLower(input), IsSpace);
  }
}

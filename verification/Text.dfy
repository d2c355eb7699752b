/** String operations of the language runtime, on ASCII text. */
module Text {

  /** The ASCII characters that `\s` matches and `trim` removes. */
  predicate IsSpace(c: char) { 9 <= c as int <= 13 || c == ' ' }

  predicate IsLetterOrDigit(c: char) { 'a' <= c <= 'z' || 'A' <= c <= 'Z' || '0' <= c <= '9' }

  function Lower(c: char): char {
    if 'A' <= c <= 'Z' then (c as int + 32) as char else c
  }

  function ToLower(s: string): (r: string)
    ensures |r| == |s| && forall i | 0 <= i < |s| :: r[i] == Lower(s[i])
  {
    seq(|s|, i requires 0 <= i < |s| => Lower(s[i]))
  }

  function DropLeading(s: string, p: char -> bool): (r: string)
    ensures |r| <= |s|
    ensures s != "" && p(s[0]) ==> |r| < |s|
  {
    if s != "" && p(s[0]) then DropLeading(s[1..], p) else s
  }

  function DropTrailing(s: string, p: char -> bool): string {
    if s != "" && p(s[|s| - 1]) then DropTrailing(s[..|s| - 1], p) else s
  }

  function Strip(s: string, p: char -> bool): string {
    DropTrailing(DropLeading(s, p), p)
  }

  function Trim(s: string): string { Strip(s, IsSpace) }

  /** Stripping removes exactly the longest runs at both ends. */
  lemma {:induction false} StripSplits(s: string, p: char -> bool) returns (pre: string, post: string)
    ensures s == pre + Strip(s, p) + post
    ensures (forall c | c in pre :: p(c)) && (forall c | c in post :: p(c))
    ensures var r := Strip(s, p); r != "" ==> !p(r[0]) && !p(r[|r| - 1])
  {
    var mid := DropLeading(s, p);
    pre := LeadingSplits(s, p);
    post := TrailingSplits(mid, p);
  }

  lemma {:induction false} LeadingSplits(s: string, p: char -> bool) returns (pre: string)
    ensures s == pre + DropLeading(s, p) && (forall c | c in pre :: p(c))
    ensures var r := DropLeading(s, p); r != "" ==> !p(r[0])
  {
    if s != "" && p(s[0]) {
      pre := LeadingSplits(s[1..], p);
      pre := [s[0]] + pre;
    } else {
      pre := "";
    }
  }

  lemma {:induction false} TrailingSplits(s: string, p: char -> bool) returns (post: string)
    ensures s == DropTrailing(s, p) + post && (forall c | c in post :: p(c))
    ensures var r := DropTrailing(s, p); r != "" ==> !p(r[|r| - 1])
    ensures DropTrailing(s, p) <= s
  {
    if s != "" && p(s[|s| - 1]) {
      var init, c := s[..|s| - 1], s[|s| - 1];
      assert s == init + [c];
      post := TrailingSplits(init, p);
      assert DropTrailing(s, p) == DropTrailing(init, p);
      post := post + [c];
    } else {
      post := "";
    }
  }

  /** The length of the field at the front: up to the first separator, or all of it. */
  function FieldLength(s: string, p: char -> bool): (n: nat)
    ensures n <= |s| && (forall i | 0 <= i < n :: !p(s[i])) && (n < |s| ==> p(s[n]))
  {
    if s == "" || p(s[0]) then 0 else 1 + FieldLength(s[1..], p)
  }

  /** Splitting at maximal runs of separators; a run at either end leaves an empty field there. */
  function SplitBy(s: string, p: char -> bool): (fields: seq<string>)
    ensures fields != []
    decreases |s|
  {
    var n := FieldLength(s, p);
    if n == |s| then [s] else [s[..n]] + SplitBy(DropLeading(s[n..], p), p)
  }

  /** `replace(/[p]+/g, '-')`: each maximal run of such characters becomes one hyphen. */
  function HyphenateRuns(s: string, p: char -> bool): string
    decreases |s|
  {
    if s == "" then ""
    else if p(s[0]) then "-" + HyphenateRuns(DropLeading(s, p), p)
    else [s[0]] + HyphenateRuns(s[1..], p)
  }

  /** One pass, remembering only whether a run is under way: its first character becomes a hyphen, the others go. */
  function Marked(s: string, p: char -> bool, inRun: bool): string {
    if s == "" then ""
    else if p(s[0]) then (if inRun then "" else "-") + Marked(s[1..], p, true)
    else [s[0]] + Marked(s[1..], p, false)
  }

  lemma {:induction false} MarkedRun(s: string, p: char -> bool)
    ensures Marked(s, p, true) == Marked(DropLeading(s, p), p, false)
  {
    if s != "" && p(s[0]) {
      MarkedRun(s[1..], p);
      assert "" + Marked(s[1..], p, true) == Marked(s[1..], p, true);
    }
  }

  /** Replacing runs is that one pass. */
  lemma {:induction false} RunsAreMarked(s: string, p: char -> bool)
    ensures HyphenateRuns(s, p) == Marked(s, p, false)
    decreases |s|
  {
    if s != "" {
      if p(s[0]) {
        RunsAreMarked(DropLeading(s, p), p);
        MarkedRun(s[1..], p);
      } else {
        RunsAreMarked(s[1..], p);
      }
    }
  }

  lemma StripNothing(s: string, p: char -> bool)
    requires s != "" ==> !p(s[0]) && !p(s[|s| - 1])
    ensures Strip(s, p) == s
  {
  }

  function Filter(s: string, p: char -> bool): string {
    if s == "" then "" else (if p(s[0]) then [s[0]] else "") + Filter(s[1..], p)
  }

  lemma {:induction false} FilterAppend(a: string, b: string, p: char -> bool)
    ensures Filter(a + b, p) == Filter(a, p) + Filter(b, p)
  {
    if a == "" {
      assert a + b == b;
    } else {
      var head := if p(a[0]) then [a[0]] else "";
      FilterAppend(a[1..], b, p);
      assert (a + b)[1..] == a[1..] + b;
      assert head + (Filter(a[1..], p) + Filter(b, p)) == (head + Filter(a[1..], p)) + Filter(b, p);
    }
  }

  lemma {:induction false} FilterNone(s: string, p: char -> bool)
    requires forall c | c in s :: !p(c)
    ensures Filter(s, p) == ""
  {
    if s != "" {
      assert s[0] in s;
      FilterNone(s[1..], p);
    }
  }

  lemma {:induction false} FilterAll(s: string, p: char -> bool)
    requires forall c | c in s :: p(c)
    ensures Filter(s, p) == s
  {
    if s != "" {
      assert s[0] in s;
      FilterAll(s[1..], p);
    }
  }
}

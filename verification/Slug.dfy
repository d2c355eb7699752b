/** `slugify` on ASCII text. */
module Slug {
  import opened Text

  /** The characters `[^\w\s-]` does not match. */
  predicate Kept(c: char) { IsLetterOrDigit(c) || c == '_' || IsSpace(c) || c == '-' }

  predicate Gap(c: char) { IsSpace(c) || c == '_' }

  predicate Dash(c: char) { c == '-' }

  function Slugify(text: string): string {
    Trim(Strip(HyphenateRuns(Filter(ToLower(text), Kept), Gap), Dash))
  }

  predicate SlugChar(c: char) { 'a' <= c <= 'z' || '0' <= c <= '9' || c == '-' }

  /** Lower-case letters, digits and hyphens, with no hyphen at either end. */
  predicate SlugForm(s: string) {
    && (forall c | c in s :: SlugChar(c))
    && (s != "" ==> s[0] != '-' && s[|s| - 1] != '-')
  }

  lemma {:induction false} FilterChars(s: string, p: char -> bool)
    ensures forall c | c in Filter(s, p) :: p(c) && c in s
  {
    if s != "" {
      FilterChars(s[1..], p);
    }
  }

  lemma {:induction false} HyphenatedChars(s: string)
    requires forall c | c in s :: Kept(c) && Lower(c) == c
    ensures forall c | c in HyphenateRuns(s, Gap) :: SlugChar(c)
    decreases |s|
  {
    if s != "" {
      assert s[0] in s;
      if Gap(s[0]) {
        var pre := LeadingSplits(s, Gap);
        HyphenatedChars(DropLeading(s, Gap));
      } else {
        HyphenatedChars(s[1..]);
      }
    }
  }

  /** Every slug has the slug form. */
  lemma {:induction false} SlugifyForm(text: string)
    ensures SlugForm(Slugify(text))
  {
    var kept := Filter(ToLower(text), Kept);
    FilterChars(ToLower(text), Kept);
    HyphenatedChars(kept);
    var h := HyphenateRuns(kept, Gap);
    var pre, post := StripSplits(h, Dash);
    var stripped := Strip(h, Dash);
    assert forall c | c in stripped :: c in h;
    assert stripped != "" ==> stripped[0] in stripped && stripped[|stripped| - 1] in stripped;
    StripNothing(stripped, IsSpace);
  }

  lemma {:induction false} HyphenateNothing(s: string)
    requires forall c | c in s :: !Gap(c)
    ensures HyphenateRuns(s, Gap) == s
  {
    if s != "" {
      assert s[0] in s;
      HyphenateNothing(s[1..]);
    }
  }

  /** `slugify` leaves unchanged exactly the strings in slug form; so it is idempotent. */
  lemma {:induction false} FixedExactly(s: string)
    ensures Slugify(s) == s <==> SlugForm(s)
    ensures Slugify(Slugify(s)) == Slugify(s)
  {
    SlugifyForm(s);
    if SlugForm(s) {
      FormUnchanged(s);
    }
    FormUnchanged(Slugify(s));
  }

  lemma {:induction false} FormUnchanged(s: string)
    requires SlugForm(s)
    ensures Slugify(s) == s
  {
    forall i | 0 <= i < |s| ensures Lower(s[i]) == s[i] {
      assert s[i] in s;
    }
    assert ToLower(s) == s;
    FilterAll(s, Kept);
    HyphenateNothing(s);
    StripNothing(s, Dash);
    if s != "" {
      assert s[0] in s && s[|s| - 1] in s;
    }
    StripNothing(s, IsSpace);
  }

  // ---------- no letter or digit is lost ----------

  lemma {:induction false} FilterTwice(s: string)
    ensures Filter(Filter(s, Kept), IsLetterOrDigit) == Filter(s, IsLetterOrDigit)
  {
    if s != "" {
      FilterTwice(s[1..]);
      FilterAppend(if Kept(s[0]) then [s[0]] else "", Filter(s[1..], Kept), IsLetterOrDigit);
    }
  }

  lemma {:induction false} StripKeeps(s: string, q: char -> bool)
    requires forall c | q(c) :: !IsLetterOrDigit(c)
    ensures Filter(Strip(s, q), IsLetterOrDigit) == Filter(s, IsLetterOrDigit)
  {
    var pre, post := StripSplits(s, q);
    FilterAppend(pre + Strip(s, q), post, IsLetterOrDigit);
    FilterAppend(pre, Strip(s, q), IsLetterOrDigit);
    FilterNone(pre, IsLetterOrDigit);
    FilterNone(post, IsLetterOrDigit);
  }

  lemma {:induction false} HyphenateKeeps(s: string)
    ensures Filter(HyphenateRuns(s, Gap), IsLetterOrDigit) == Filter(s, IsLetterOrDigit)
    decreases |s|
  {
    if s != "" {
      if Gap(s[0]) {
        var pre := LeadingSplits(s, Gap);
        var rest := DropLeading(s, Gap);
        HyphenateKeeps(rest);
        FilterAppend(pre, rest, IsLetterOrDigit);
        FilterNone(pre, IsLetterOrDigit);
        FilterAppend("-", HyphenateRuns(rest, Gap), IsLetterOrDigit);
        FilterNone("-", IsLetterOrDigit);
      } else {
        HyphenateKeeps(s[1..]);
        FilterAppend([s[0]], HyphenateRuns(s[1..], Gap), IsLetterOrDigit);
      }
    }
  }

  /** The letters and digits of a slug are those of the text in lower case, all of them, in order. */
  lemma {:induction false} LettersSurvive(text: string)
    ensures Filter(Slugify(text), IsLetterOrDigit) == Filter(ToLower(text), IsLetterOrDigit)
  {
    var kept := Filter(ToLower(text), Kept);
    FilterTwice(ToLower(text));
    HyphenateKeeps(kept);
    StripKeeps(HyphenateRuns(kept, Gap), Dash);
    StripKeeps(Strip(HyphenateRuns(kept, Gap), Dash), IsSpace);
  }

  // ---------- three replacements are one pass ----------

  /**
   The slug before its ends are stripped, character by character: letters, digits and hyphens stay, in lower case; the
   first of a run of blanks and underscores becomes a hyphen; the others, and all other characters, go, and these do not
   interrupt a run.
   */
  function OnePass(text: string, inRun: bool): string {
    if text == "" then "" else
      var c := Lower(text[0]);
      if IsSpace(c) || c == '_' then (if inRun then "" else "-") + OnePass(text[1..], true)
      else if IsLetterOrDigit(c) || c == '-' then [c] + OnePass(text[1..], false)
      else OnePass(text[1..], inRun)
  }

  lemma {:induction false} OnePassIs(text: string, inRun: bool)
    ensures Marked(Filter(ToLower(text), Kept), Gap, inRun) == OnePass(text, inRun)
  {
    if text != "" {
      var low, c, rest := ToLower(text), Lower(text[0]), Filter(ToLower(text[1..]), Kept);
      assert low[1..] == ToLower(text[1..]) && low[0] == c;
      OnePassIs(text[1..], true);
      OnePassIs(text[1..], false);
      assert "" + rest == rest && Filter(low, Kept) == (if Kept(c) then [c] else "") + rest;
      assert Kept(c) ==> ([c] + rest)[1..] == rest;
    }
  }

  /** A slug is what that one pass makes of the text, without the hyphens at its ends. */
  lemma {:induction false} SlugifyExactly(text: string)
    ensures Slugify(text) == Strip(OnePass(text, false), Dash)
  {
    var kept := Filter(ToLower(text), Kept);
    RunsAreMarked(kept, Gap);
    OnePassIs(text, false);
    SlugifyForm(text);
    FilterChars(ToLower(text), Kept);
    HyphenatedChars(kept);
    var h := HyphenateRuns(kept, Gap);
    var pre, post := StripSplits(h, Dash);
    var stripped := Strip(h, Dash);
    assert forall c | c in stripped :: c in h;
    assert stripped != "" ==> stripped[0] in stripped && stripped[|stripped| - 1] in stripped;
    StripNothing(stripped, IsSpace);
  }
}

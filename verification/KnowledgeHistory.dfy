/**
 The chat service's knowledge told by the calls so far, and nothing else: which lessons it still has, what counts as a
 match, and so what it answers.
 */
module KnowledgeHistory {
  import opened Prelude
  import opened Text
  import opened BrainService

  // ---------- what is known ----------

  /** The lessons that a call teaches, in order. */
  function Lessons(op: Op): seq<Lesson> {
    match op
    case Train(lesson) => [lesson]
    case TrainBatch(lessons) => lessons
    case _ => []
  }

  /** How many lessons the first `n` calls have taught. */
  function Taught(ops: seq<Op>, n: nat): nat
    requires n <= |ops|
  {
    if n == 0 then 0 else Taught(ops, n - 1) + |Lessons(ops[n - 1])|
  }

  /** A serial run: states, and the calls between them. */
  ghost predicate IsRun(states: seq<State>, ops: seq<Op>) {
    && |states| == |ops| + 1
    && forall n | 0 <= n < |ops| :: Timed(states[n], ops[n]) && states[n + 1] == Step(states[n], ops[n]).0
  }

  /** Call `m` taught the lesson under this id; ids are given in order, from `first`. */
  predicate TaughtAs(ops: seq<Op>, m: nat, first: Id, id: Id, lesson: Lesson)
    requires m < |ops|
  {
    var i := id - first - Taught(ops, m);
    0 <= i < |Lessons(ops[m])| && Lessons(ops[m])[i] == lesson
  }

  ghost predicate KnownSince(ops: seq<Op>, m: nat, n: nat, first: Id, id: Id, lesson: Lesson)
    requires n <= |ops|
  {
    m < n && TaughtAs(ops, m, first, id, lesson) && forall k | m < k < n :: ops[k] != Remove(id)
  }

  /** The lesson was taught under this id and has not been removed since. */
  ghost predicate Known(ops: seq<Op>, n: nat, first: Id, id: Id, lesson: Lesson)
    requires n <= |ops|
  {
    exists m :: KnownSince(ops, m, n, first, id, lesson)
  }

  /** An entry says what its lesson said, trusted as much as that asked, or 0.8 if it did not ask or asked 0. */
  predicate SaysLesson(entry: Entry, lesson: Lesson) {
    && entry.pattern == lesson.pattern && entry.response == lesson.response && entry.category == lesson.category
    && entry.confidence == (if lesson.confidence in {None, Some(0.0)} then 0.8 else lesson.confidence.value)
  }

  predicate SaysSame(a: Entry, b: Entry) {
    a.pattern == b.pattern && a.response == b.response && a.category == b.category && a.confidence == b.confidence
  }

  lemma {:induction false} BatchTeaches(st: State, lessons: seq<Lesson>, id: Id)
    requires forall x | x in st.table :: x < st.next
    ensures var st', i := TrainedAll(st, lessons), id - st.next;
            && st'.next == st.next + |lessons|
            && (forall x | x in st'.table :: x < st'.next)
            && (id in st'.table <==> id in st.table || 0 <= i < |lessons|)
            && (id in st'.table ==> if 0 <= i < |lessons| then SaysLesson(st'.table[id], lessons[i])
                                    else st'.table[id] == st.table[id])
  {
    if lessons != [] {
      BatchTeaches(st, lessons[..|lessons| - 1], id);
    }
  }

  lemma {:induction false} SearchSays(st: State, scores: seq<real>, times: seq<Time>, n: nat, id: Id)
    requires n <= |st.knowledge| == |scores| && |times| >= |scores|
    ensures var st' := Searched(st, scores, times, n);
            && st'.next == st.next && st'.table.Keys == st.table.Keys
            && (id in st.table ==> SaysSame(st'.table[id], st.table[id]))
  {
    if n > 0 {
      SearchSays(st, scores, times, n - 1, id);
      var before := Searched(st, scores, times, n - 1);
      assert UsedAt(before, n - 1, times[n - 1]).table.Keys == before.table.Keys;
    }
  }

  /** What one call does to one row of the table. */
  lemma {:induction false} StepTable(st: State, op: Op, id: Id)
    requires Timed(st, op) && forall x | x in st.table :: x < st.next
    ensures var st', i := Step(st, op).0, id - st.next;
            && st'.next == st.next + |Lessons(op)|
            && (forall x | x in st'.table :: x < st'.next)
            && (id in st'.table <==> (id in st.table && op != Remove(id)) || 0 <= i < |Lessons(op)|)
            && (id in st'.table ==> if 0 <= i < |Lessons(op)| then SaysLesson(st'.table[id], Lessons(op)[i])
                                    else id in st.table && SaysSame(st'.table[id], st.table[id]))
  {
    match op
    case Train(_) =>
    case TrainBatch(lessons) => BatchTeaches(st, lessons, id);
    case Remove(_) =>
    case Ask(input, times) =>
      SearchSays(st, ScoresOf(st.knowledge, ToLower(input)), times, |st.knowledge|, id);
  }

  lemma {:induction false} KnownNext(ops: seq<Op>, n: nat, next: nat, first: Id, id: Id, lesson: Lesson)
    requires n + 1 == next <= |ops|
    ensures Known(ops, next, first, id, lesson) <==>
            TaughtAs(ops, n, first, id, lesson) || (Known(ops, n, first, id, lesson) && ops[n] != Remove(id))
  {
    if Known(ops, next, first, id, lesson) {
      var m: nat :| KnownSince(ops, m, next, first, id, lesson);
      assert m < n ==> KnownSince(ops, m, n, first, id, lesson);
    }
    if TaughtAs(ops, n, first, id, lesson) {
      assert KnownSince(ops, n, next, first, id, lesson);
    }
    if Known(ops, n, first, id, lesson) && ops[n] != Remove(id) {
      var m: nat :| KnownSince(ops, m, n, first, id, lesson);
      assert KnownSince(ops, m, next, first, id, lesson);
    }
  }

  /** The row of an id given out during the run. */
  ghost predicate RowTold(states: seq<State>, ops: seq<Op>, n: nat, id: Id)
    requires IsRun(states, ops) && n <= |ops|
  {
    var st, first := states[n], states[0].next;
    && st.next == first + Taught(ops, n)
    && (forall x | x in st.table :: x < st.next)
    && (id in st.table ==> exists lesson :: Known(ops, n, first, id, lesson))
    && (forall lesson | Known(ops, n, first, id, lesson) :: id in st.table && SaysLesson(st.table[id], lesson))
  }

  lemma {:induction false} RowNext(states: seq<State>, ops: seq<Op>, n: nat, next: nat, id: Id)
    requires IsRun(states, ops) && n + 1 == next <= |ops| && id >= states[0].next && RowTold(states, ops, n, id)
    ensures RowTold(states, ops, next, id)
  {
    var st, first, i := states[n], states[0].next, id - states[n].next;
    StepTable(st, ops[n], id);
    if id in states[next].table {
      if 0 <= i < |Lessons(ops[n])| {
        assert TaughtAs(ops, n, first, id, Lessons(ops[n])[i]);
        KnownNext(ops, n, next, first, id, Lessons(ops[n])[i]);
      } else {
        var lesson :| Known(ops, n, first, id, lesson);
        KnownNext(ops, n, next, first, id, lesson);
      }
    }
    forall lesson | Known(ops, next, first, id, lesson)
      ensures id in states[next].table && SaysLesson(states[next].table[id], lesson)
    {
      KnownNext(ops, n, next, first, id, lesson);
    }
  }

  /**
   In every state of a run, the ids given out in it are exactly those of the lessons that have not been removed since,
   and each entry says what its lesson said.
   */
  lemma {:induction false} KnowledgeExactly(states: seq<State>, ops: seq<Op>, n: nat, id: Id)
    requires IsRun(states, ops) && n <= |ops| && id >= states[0].next
    requires forall x | x in states[0].table :: x < states[0].next
    ensures RowTold(states, ops, n, id)
  {
    if n > 0 {
      KnowledgeExactly(states, ops, n - 1, id);
      RowNext(states, ops, n - 1, n, id);
    }
  }

  // ---------- what counts as a match ----------

  /** The text holds the part, with something before it and something after. */
  ghost predicate Contains(text: string, part: string) { exists a, b :: text == a + part + b }

  lemma {:induction false} IncludesExactly(text: string, part: string)
    ensures Includes(text, part) <==> Contains(text, part)
  {
    if Includes(text, part) {
      var i :| 0 <= i <= |text| && PartAt(text, part, i);
      assert text == text[..i] + part + text[i + |part|..];
    }
    if Contains(text, part) {
      var a, b :| text == a + part + b;
      assert text[|a|..|a| + |part|] == part;
      assert PartAt(text, part, |a|);
    }
  }

  /** Some word of the message holds the pattern's word, or is held by it. */
  ghost predicate Shared(word: string, words: seq<string>) {
    exists w :: w in words && (Contains(w, word) || Contains(word, w))
  }

  lemma {:induction false} MatchedExactly(word: string, words: seq<string>)
    ensures Matched(word, words) <==> Shared(word, words)
  {
    if Matched(word, words) {
      var j :| 0 <= j < |words| && Related(word, words[j]);
      IncludesExactly(words[j], word);
      IncludesExactly(word, words[j]);
      assert words[j] in words;
    }
    if Shared(word, words) {
      var w :| w in words && (Contains(w, word) || Contains(word, w));
      var j :| 0 <= j < |words| && words[j] == w;
      IncludesExactly(w, word);
      IncludesExactly(word, w);
      assert Related(word, words[j]);
    }
  }

  /** The places of the pattern's words that the message shares. */
  ghost function SharedPlaces(patternWords: seq<string>, words: seq<string>): set<nat> {
    set p: nat | p < |patternWords| && Shared(patternWords[p], words)
  }

  lemma {:induction false} CountExactly(patternWords: seq<string>, words: seq<string>)
    ensures MatchCount(patternWords, words) == |SharedPlaces(patternWords, words)|
  {
    var all := SharedPlaces(patternWords, words);
    if patternWords == [] {
      assert all == {};
    } else {
      var k := |patternWords| - 1;
      var before := SharedPlaces(patternWords[..k], words);
      CountExactly(patternWords[..k], words);
      MatchedExactly(patternWords[k], words);
      assert all == before + if Shared(patternWords[k], words) then {k} else {};
    }
  }

  predicate SameProduct(a: real, b: real, c: real, d: real) { a * b == c * d }

  lemma {:induction false} RateTimes(matches: nat, words: nat, confidence: real)
    requires words > 0
    ensures SameProduct(Rate(matches, words, confidence), words as real, matches as real, confidence)
  {
    var q := matches as real / words as real;
    assert q * words as real == matches as real;
    assert q * confidence * words as real == q * words as real * confidence;
  }

  /**
   The score of an entry is its confidence times the share of the pattern's words that the message has: words which hold
   a word of the message or are held by one.
   */
  lemma {:induction false} ScoreExactly(entry: Entry, message: string)
    ensures var words := Words(ToLower(entry.pattern));
            SameProduct(Score(entry, message), |words| as real,
                        |SharedPlaces(words, Words(message))| as real, entry.confidence)
  {
    var words := Words(ToLower(entry.pattern));
    CountExactly(words, Words(message));
    RateTimes(MatchCount(words, Words(message)), |words|, entry.confidence);
  }

  // ---------- a lesson is the answer ----------

  /**
   Once taught, a lesson trusted above one half is the answer to every message that has all its words, as long as
   nothing known before scores as high.
   */
  lemma {:induction false} LessonAnswers(st: State, lesson: Lesson, message: string)
    requires !Holds(st.knowledge, st.next) && Says(ToLower(message), lesson.pattern)
    requires var trust := if lesson.confidence in {None, Some(0.0)} then 0.8 else lesson.confidence.value;
             trust > 0.5 && forall i | 0 <= i < |st.knowledge| :: Score(st.knowledge[i].entry, ToLower(message)) < trust
    ensures Answer(Trained(st, lesson), message) == lesson.response
  {
    var st', k := Trained(st, lesson), |st.knowledge|;
    NewAtTheEnd(st.knowledge, st.next, Learned(lesson));
    var scores := ScoresOf(st'.knowledge, ToLower(message));
    assert st'.knowledge[k].entry == Learned(lesson);
    ScoreBounds(Learned(lesson), ToLower(message));
    forall j | 0 <= j < k ensures scores[j] < scores[k] {
      assert st'.knowledge[j] == st.knowledge[j];
    }
    ChatExactly(st', message, seq(k + 1, _ => 0), k);
  }

  // ---------- the canned replies ----------

  /** Without a match, a message that asks for help is told what the assistant can do, */
  lemma HelpComesFirst(message: string)
    requires Includes(message, "hilfe") || Includes(message, "help")
    ensures Canned(message) == HELP_TEXT
  {
  }

  /** one about the system that all is well, */
  lemma StatusComesNext(message: string)
    requires !Includes(message, "hilfe") && !Includes(message, "help")
    requires Includes(message, "status") || Includes(message, "system")
    ensures Canned(message) == STATUS_TEXT
  {
  }

  /** and one with a greeting is greeted. */
  lemma GreetingComesLast(message: string)
    requires !Includes(message, "hilfe") && !Includes(message, "help")
    requires !Includes(message, "status") && !Includes(message, "system")
    ensures Canned(message) ==
            if Includes(message, "hallo") || Includes(message, "hi") || Includes(message, "hey")
            then "Hallo! Wie kann ich dir helfen?" else FALLBACK
  {
  }
}

/** From what is told to the engine to what it answers: memories, rated and trained answers, counters and rules. */
module BrainAnswers {
  import opened Prelude
  import opened Ranking
  import opened Similarity
  import opened Tokenizer
  import opened Brain
  import opened BrainRecall

  // ---------- a memorized value is the answer ----------

  /** How much an input has in common with a text, as a share of the words of both. */
  function Alike(input: string, text: string): real { CalculateSimilarity(Tokens(input), Tokens(text)) }

  /**
   The memories searched are up to fifty of the category that the context names, or of all when none is given, and no
   memory left out weighs more.
   */
  lemma {:induction false} RecalledAreTop(ms: seq<Memory>, context: Option<string>, i: nat)
    requires i < |ms|
    ensures Row(i, ms[i]) in Recalled(ms, context) ==> context in {None, Some(""), Some(ms[i].category)}
    ensures var rows := Recalled(ms, context);
            context in {None, Some(""), Some(ms[i].category)} ==>
              Row(i, ms[i]) in rows || (|rows| == 50 && forall r | r in rows :: r.row.weight >= ms[i].weight)
  {
    RecalledAreRows(ms, context);
    if InCategory(ms[i], context) {
      InCategoryIsTop(ms, context, i);
    }
  }

  lemma {:induction false} InCategoryIsTop(ms: seq<Memory>, context: Option<string>, i: nat)
    requires i < |ms| && InCategory(ms[i], context)
    ensures var rows := Recalled(ms, context);
            Row(i, ms[i]) in rows || (|rows| == 50 && forall r | r in rows :: r.row.weight >= ms[i].weight)
  {
    var all, x := MemoriesIn(Rows(ms), context), Row(i, ms[i]);
    RowsAreRows(ms);
    CategoryRows(Rows(ms), context);
    assert IsRow(ms, x) && x in all;
    TakenOrBeaten(all, 50, Weight, x);
    assert forall r | r in Recalled(ms, context) :: Weight(r) == r.row.weight;
  }

  /** No pattern is known well enough for the input, and none of the candidates resembles it enough. */
  ghost predicate Unfamiliar(db: Db, input: string, context: Option<string>) {
    && (forall i | 0 <= i < |db.patterns| && db.patterns[i].hash == Normalize(input) ::
          db.patterns[i].confidence <= 0.7)
    && (forall r | r in Candidates(db.patterns, context) :: Alike(input, r.row.input) <= 0.5)
  }

  /** Of the memories under other keys, none fits the input. */
  ghost predicate OnlyKeyFits(ms: seq<Memory>, category: string, key: string, input: string) {
    forall m | m in ms && !(m.category == category && m.key == key) :: Alike(input, m.key) <= 0.4
  }

  ghost predicate KeyRecalled(ms: seq<Memory>, context: Option<string>, category: string, key: string) {
    exists r :: r in Recalled(ms, context) && r.row.category == category && r.row.key == key
  }

  lemma {:induction false} UnfamiliarAnswer(db: Db, input: string, context: Option<string>)
    requires Unfamiliar(db, input, context)
    ensures Answered(db, input, context).1.source !in {PatternMatch, FuzzyMatch}
  {
    ExactExactly(db, input, context);
    FuzzyExactly(db, input, context);
    forall r | r in Candidates(db.patterns, context) ensures Scorer(Tokens(input))(r) <= 0.5 {
      assert Alike(input, r.row.input) == Scorer(Tokens(input))(r);
    }
  }

  /** What memorizing leaves of the other keys. */
  lemma {:induction false} MemorizedOthers(db: Db, category: string, key: string, value: string, weight: real,
      m: Memory)
    requires m in Memorized(db, category, key, value, weight).memories && !(m.category == category && m.key == key)
    ensures m in db.memories
  {
  }

  /** How the memories after memorizing fit the input: the key with its new value, and no other. */
  lemma {:induction false} MemorizedRow(db: Db, category: string, key: string, value: string, weight: real,
      input: string, m: Memory)
    requires OneMemoryPerKey(db.memories) && OnlyKeyFits(db.memories, category, key, input)
    requires m in Memorized(db, category, key, value, weight).memories
    ensures if m.category == category && m.key == key then m.value == value && m.weight == weight
            else Alike(input, m.key) <= 0.4
  {
    MemorizedUntilForgotten(db, category, key, value, weight);
    if !(m.category == category && m.key == key) {
      MemorizedOthers(db, category, key, value, weight, m);
    }
  }

  lemma ScorerIsAlike(input: string, r: Row<Memory>)
    ensures MemoryScorer(Tokens(input))(r) == Alike(input, r.row.key)
  {
  }

  /** When exactly the rows of one key fit, the answer is from one of them, if one is searched. */
  lemma {:induction false} OneKeyAnswers(db: Db, category: string, key: string, input: string, context: Option<string>)
    requires Unfamiliar(db, input, context)
    requires Alike(input, key) > 0.4 && OnlyKeyFits(db.memories, category, key, input)
    ensures var answer := Answered(db, input, context).1;
            && (answer.source == FromMemory <==> KeyRecalled(db.memories, context, category, key))
            && (answer.source == FromMemory ==>
                  exists r :: r in Recalled(db.memories, context) && r.row.category == category && r.row.key == key
                              && Recites(input, r, answer))
            && (answer.source != FromMemory ==> answer.source in {RuleBased, Fallback})
  {
    var rows, score := Recalled(db.memories, context), MemoryScorer(Tokens(input));
    UnfamiliarAnswer(db, input, context);
    MemoryExactly(db, input, context);
    RecalledAreRows(db.memories, context);
    forall r | r in rows ensures score(r) > 0.4 <==> r.row.category == category && r.row.key == key {
      ScorerIsAlike(input, r);
      assert r.row in db.memories;
    }
    if Answered(db, input, context).1.source == FromMemory {
      var r :| FirstAbove(rows, score, r) && Recites(input, r, Answered(db, input, context).1);
      assert r in rows && score(r) > 0.4;
    }
  }

  /**
   With no pattern for the input, and no memory under another key fitting it, a fitting key that is memorized answers
   with its new value, as confident as its weight times how well it fits, exactly when it is among those searched.
   */
  lemma {:induction false} MemorizedAnswersExactly(db: Db, category: string, key: string, value: string, weight: real,
      input: string, context: Option<string>)
    requires OneMemoryPerKey(db.memories) && Unfamiliar(db, input, context)
    requires Alike(input, key) > 0.4 && OnlyKeyFits(db.memories, category, key, input)
    ensures var after := Memorized(db, category, key, value, weight);
            var answer := Answered(after, input, context).1;
            if KeyRecalled(after.memories, context, category, key)
            then answer.output == value && answer.source == FromMemory
                 && IsProduct(answer.confidence, Alike(input, key), weight)
            else answer.source in {RuleBased, Fallback}
  {
    var after := Memorized(db, category, key, value, weight);
    MemorizedOnlyKey(db, category, key, value, weight, input);
    UnfamiliarStill(db, after, input, context);
    OneKeyAnswers(after, category, key, input, context);
    if Answered(after, input, context).1.source == FromMemory {
      var r :| r in Recalled(after.memories, context) && r.row.category == category && r.row.key == key
               && Recites(input, r, Answered(after, input, context).1);
      RecalledAreRows(after.memories, context);
      MemorizedRow(db, category, key, value, weight, input, r.row);
    }
  }

  lemma {:induction false} MemorizedOnlyKey(db: Db, category: string, key: string, value: string, weight: real,
      input: string)
    requires OneMemoryPerKey(db.memories) && OnlyKeyFits(db.memories, category, key, input)
    ensures OnlyKeyFits(Memorized(db, category, key, value, weight).memories, category, key, input)
  {
    forall m | m in Memorized(db, category, key, value, weight).memories && !(m.category == category && m.key == key)
      ensures Alike(input, m.key) <= 0.4
    {
      MemorizedRow(db, category, key, value, weight, input, m);
    }
  }

  lemma UnfamiliarStill(db: Db, db': Db, input: string, context: Option<string>)
    requires Unfamiliar(db, input, context) && db'.patterns == db.patterns
    ensures Unfamiliar(db', input, context)
  {
  }

  /** In particular while there are no more than fifty memories, asked in its category or in none. */
  lemma {:induction false} MemorizedIsAnswered(db: Db, category: string, key: string, value: string, weight: real,
      input: string, context: Option<string>)
    requires OneMemoryPerKey(db.memories) && Unfamiliar(db, input, context)
    requires Alike(input, key) > 0.4 && OnlyKeyFits(db.memories, category, key, input)
    requires |db.memories| < 50 && context in {None, Some(""), Some(category)}
    ensures var answer := Answered(Memorized(db, category, key, value, weight), input, context).1;
            && answer.output == value && answer.source == FromMemory
            && IsProduct(answer.confidence, Alike(input, key), weight)
  {
    var ms := Memorized(db, category, key, value, weight).memories;
    MemorizedAnswersExactly(db, category, key, value, weight, input, context);
    MemorizedUntilForgotten(db, category, key, value, weight);
    var i :| 0 <= i < |ms| && ms[i].category == category && ms[i].key == key;
    InFewRecalled(ms, context, i);
    assert Row(i, ms[i]) in Recalled(ms, context);
  }

  lemma {:induction false} InFewRecalled(ms: seq<Memory>, context: Option<string>, i: nat)
    requires i < |ms| <= 50 && context in {None, Some(""), Some(ms[i].category)}
    ensures Row(i, ms[i]) in Recalled(ms, context)
  {
    var all, x := MemoriesIn(Rows(ms), context), Row(i, ms[i]);
    RowsAreRows(ms);
    CategoryRows(Rows(ms), context);
    MemoriesInFew(Rows(ms), context);
    assert IsRow(ms, x) && x in all;
    RankedHas(all, Weight);
    assert Recalled(ms, context) == Ranked(all, Weight);
  }

  lemma {:induction false} MemoriesInFew(rows: seq<Row<Memory>>, context: Option<string>)
    ensures |MemoriesIn(rows, context)| <= |rows|
  {
    if rows != [] {
      MemoriesInFew(rows[..|rows| - 1], context);
    }
  }

  // ---------- a rated answer is taught ----------

  /** Some pattern of the text, in the context, gives this output. */
  ghost predicate Teaches(ps: seq<Pattern>, text: string, context: Option<string>, output: string) {
    exists i :: 0 <= i < |ps| && ps[i].hash == text && ps[i].context == context && ps[i].output == output
  }

  lemma {:induction false} LearnedTeaches(db: Db, input: string, output: string, context: Option<string>,
      confidence: real)
    ensures Teaches(Learned(db, input, output, context, confidence).patterns, Normalize(input), OrNull(context), output)
  {
    var found, after := FirstWithKey(db.patterns, Normalize(input), OrNull(context)),
      Learned(db, input, output, context, confidence).patterns;
    var i := if found.Some? then found.value else |db.patterns|;
    assert after[i].hash == Normalize(input) && after[i].context == OrNull(context) && after[i].output == output;
  }

  /** Answering a question notes it: who asked what, in which context, and what the answer was. */
  lemma {:induction false} ProcessedIsNoted(db: Db, input: string, context: Option<string>, user: Option<string>)
    ensures var (after, answer) := Processed(db, input, context, user);
            after.interactions ==
            db.interactions + [Interaction(OrNull(user), input, answer.output, OrNull(context), None)]
  {
    AnsweringCounts(db, input, context);
  }

  /** A rating marks the interaction, and a good one teaches its answer. */
  lemma {:induction false} RatingTeaches(db: Db, id: nat, rating: int)
    requires id < |db.interactions|
    ensures var seen, after := db.interactions[id], Rated(db, id, rating);
            && after.interactions == db.interactions[id := seen.(rating := Some(rating))]
            && (rating >= 4 ==> Teaches(after.patterns, Normalize(seen.input), OrNull(seen.context), seen.output))
  {
    var seen := db.interactions[id];
    var marked := db.(interactions := db.interactions[id := seen.(rating := Some(rating))]);
    LearnedTeaches(marked, seen.input, seen.output, seen.context, 0.9);
  }

  /**
   An answer that is rated marks its interaction; and with 4 or more the answer given becomes that of the text in the
   context it was asked in.
   */
  lemma {:induction false} RatedTeachesTheAnswer(db: Db, input: string, context: Option<string>, user: Option<string>,
      rating: int)
    ensures var (asked, answer) := Processed(db, input, context, user);
            var after := Rated(asked, |db.interactions|, rating);
            && after.interactions == db.interactions +
                 [Interaction(OrNull(user), input, answer.output, OrNull(context), Some(rating))]
            && (rating >= 4 ==> Teaches(after.patterns, Normalize(input), OrNull(context), answer.output))
  {
    var (asked, answer) := Processed(db, input, context, user);
    ProcessedIsNoted(db, input, context, user);
    RatingLast(asked, db.interactions, Interaction(OrNull(user), input, answer.output, OrNull(context), None), rating);
  }

  lemma {:induction false} RatingLast(db: Db, log: seq<Interaction>, seen: Interaction, rating: int)
    requires db.interactions == log + [seen]
    ensures var after := Rated(db, |log|, rating);
            && after.interactions == log + [seen.(rating := Some(rating))]
            && (rating >= 4 ==> Teaches(after.patterns, Normalize(seen.input), OrNull(seen.context), seen.output))
  {
    assert db.interactions[|log|] == seen;
    RatingTeaches(db, |log|, rating);
    assert (log + [seen])[|log| := seen.(rating := Some(rating))] == log + [seen.(rating := Some(rating))];
  }

  // ---------- what training teaches ----------

  /** Training row `i` is validated, of the category when one is given, and is the last such of its text. */
  ghost predicate LastOfText(ds: seq<Training>, category: Option<string>, n: nat, i: nat)
    requires n <= |ds|
  {
    && i < n && ds[i].validated && (category in {None, Some("")} || category == Some(ds[i].category))
    && forall j | i < j < n && ds[j].validated && (category in {None, Some("")} || category == Some(ds[j].category)) ::
         Normalize(ds[j].input) != Normalize(ds[i].input) || ds[j].category != ds[i].category
  }

  lemma {:induction false} LearnedKeepsTaught(db: Db, input: string, output: string, context: Option<string>,
      confidence: real, text: string, ctx: Option<string>, taught: string)
    requires OnePerKey(db.patterns) && Teaches(db.patterns, text, ctx, taught)
    requires Normalize(input) != text || OrNull(context) != ctx
    ensures Teaches(Learned(db, input, output, context, confidence).patterns, text, ctx, taught)
  {
    var i :| 0 <= i < |db.patterns| && db.patterns[i].hash == text && db.patterns[i].context == ctx
             && db.patterns[i].output == taught;
    var after := Learned(db, input, output, context, confidence).patterns;
    assert after[i] == db.patterns[i];
  }

  /** After training, each text taught in a category gives the output of its last validated row. */
  lemma {:induction false} TrainedTeaches(db: Db, category: Option<string>, n: nat, i: nat)
    requires OnePerKey(db.patterns) && n <= |db.training| && LastOfText(db.training, category, n, i)
    ensures var d := db.training[i];
            var context := if d.category == "" then None else Some(d.category);
            Teaches(Trained(db, category, n).patterns, Normalize(d.input), context, d.output)
  {
    var before, d, last := Trained(db, category, n - 1), db.training[i], db.training[n - 1];
    TrainedKeeps(db, category, n - 1);
    if i == n - 1 {
      LearnedTeaches(before, d.input, d.output, Some(d.category), d.weight);
    } else {
      TrainedTeaches(db, category, n - 1, i);
      if Selected(last, category) {
        LearnedKeepsTaught(before, last.input, last.output, Some(last.category), last.weight,
            Normalize(d.input), OrNull(Some(d.category)), d.output);
      }
    }
  }

  // ---------- what the counters count ----------

  /** The question is answered from memory `k`. */
  ghost predicate RememberedFrom(db: Db, input: string, context: Option<string>, k: nat) {
    && Exact(db.patterns, Normalize(input)).None? && Closest(db, Tokens(input), context).None?
    && Fitting(db, Tokens(input), context).Some? && Fitting(db, Tokens(input), context).value.id == k
  }

  /** How many of these questions are answered from pattern `k`, and how many from memory `k`, as things stand. */
  ghost function PatternAnswers(db: Db, ops: seq<Op>, k: nat): nat
    requires OnlyAsks(ops)
  {
    if ops == [] then 0 else
      var q := ops[|ops| - 1];
      PatternAnswers(db, ops[..|ops| - 1], k) + if AnsweredFrom(db, q.input, q.context, k) then 1 else 0
  }

  ghost function MemoryAnswers(db: Db, ops: seq<Op>, k: nat): nat
    requires OnlyAsks(ops)
  {
    if ops == [] then 0 else
      var q := ops[|ops| - 1];
      MemoryAnswers(db, ops[..|ops| - 1], k) + if RememberedFrom(db, q.input, q.context, k) then 1 else 0
  }

  lemma {:induction false} SameLookups(a: Db, b: Db, input: string, context: Option<string>)
    requires SameKnowledge(a, b)
    ensures Mapped(Exact(a.patterns, Normalize(input)), Uncount) == Mapped(Exact(b.patterns, Normalize(input)), Uncount)
    ensures Mapped(Closest(a, Tokens(input), context), Uncount) == Mapped(Closest(b, Tokens(input), context), Uncount)
    ensures Mapped(Fitting(a, Tokens(input), context), Unseen) == Mapped(Fitting(b, Tokens(input), context), Unseen)
  {
    ExactUncounted(a.patterns, Normalize(input));
    ExactUncounted(b.patterns, Normalize(input));
    ClosestUncounted(a, Tokens(input), context);
    ClosestUncounted(b, Tokens(input), context);
    FittingUnread(a, Tokens(input), context);
    FittingUnread(b, Tokens(input), context);
    SameForgotten(a, b, input, context);
  }

  lemma SameForgotten(a: Db, b: Db, input: string, context: Option<string>)
    requires SameKnowledge(a, b)
    ensures Closest(Forgotten(a), Tokens(input), context) == Closest(Forgotten(b), Tokens(input), context)
    ensures Fitting(Forgotten(a), Tokens(input), context) == Fitting(Forgotten(b), Tokens(input), context)
  {
  }

  lemma SameSources(a: Db, b: Db, input: string, context: Option<string>, k: nat)
    requires SameKnowledge(a, b)
    ensures AnsweredFrom(a, input, context, k) == AnsweredFrom(b, input, context, k)
    ensures RememberedFrom(a, input, context, k) == RememberedFrom(b, input, context, k)
  {
    SameLookups(a, b, input, context);
  }

  lemma {:induction false} AnswerCounts(db: Db, input: string, context: Option<string>, user: Option<string>)
    ensures var after := Processed(db, input, context, user).0;
            && |after.patterns| == |db.patterns| && |after.memories| == |db.memories|
            && (forall k | 0 <= k < |db.patterns| ::
                  after.patterns[k].usage
                  == db.patterns[k].usage + if AnsweredFrom(db, input, context, k) then 1 else 0)
            && (forall k | 0 <= k < |db.memories| ::
                  after.memories[k].accesses
                  == db.memories[k].accesses + if RememberedFrom(db, input, context, k) then 1 else 0)
  {
    ExactIsRow(db.patterns, Normalize(input));
  }

  /**
   Over any run of questions, the usage count of each pattern grows by the number answered from it, and the access count
   of each memory by the number answered from that.
   */
  lemma {:induction false} CountersCountAnswers(db: Db, ops: seq<Op>)
    requires OnlyAsks(ops)
    ensures var after := Run(db, ops);
            && |after.patterns| == |db.patterns| && |after.memories| == |db.memories|
            && (forall k | 0 <= k < |db.patterns| ::
                  after.patterns[k].usage == db.patterns[k].usage + PatternAnswers(db, ops, k))
            && (forall k | 0 <= k < |db.memories| ::
                  after.memories[k].accesses == db.memories[k].accesses + MemoryAnswers(db, ops, k))
  {
    if ops != [] {
      var before, q := ops[..|ops| - 1], ops[|ops| - 1];
      CountersCountAnswers(db, before);
      AskingCounts(db, before);
      AnswerCounts(Run(db, before), q.input, q.context, q.user);
      forall k: nat
        ensures AnsweredFrom(Run(db, before), q.input, q.context, k) == AnsweredFrom(db, q.input, q.context, k)
        ensures RememberedFrom(Run(db, before), q.input, q.context, k) == RememberedFrom(db, q.input, q.context, k)
      {
        SameSources(Run(db, before), db, q.input, q.context, k);
      }
    }
  }

  // ---------- the rules ----------

  predicate ByRule(answer: Response) { answer.source in {RuleBased, Fallback} }

  lemma AnsweredByRule(db: Db, input: string, context: Option<string>)
    ensures var answer := Answered(db, input, context).1;
            ByRule(answer) ==> answer == GenerateResponse(Tokens(input), context)
  {
    ExactIsRow(db.patterns, Normalize(input));
  }

  /** Of what is known from no pattern and no memory, an input with a greeting is greeted, whatever else it says. */
  lemma {:induction false} GreetingComesFirst(db: Db, input: string, context: Option<string>)
    requires ByRule(Answered(db, input, context).1) && Mentions(Tokens(input), GREETINGS)
    ensures Answered(db, input, context).1
            == Response("Hallo! Wie kann ich dir helfen? / Hello! How can I help you?", 0.9, RuleBased)
  {
    AnsweredByRule(db, input, context);
  }

  /** Next come farewells, */
  lemma {:induction false} FarewellComesNext(db: Db, input: string, context: Option<string>)
    requires ByRule(Answered(db, input, context).1)
    requires Mentions(Tokens(input), FAREWELLS) && !Mentions(Tokens(input), GREETINGS)
    ensures Answered(db, input, context).1 == Response("Auf Wiedersehen! / Goodbye!", 0.9, RuleBased)
  {
    AnsweredByRule(db, input, context);
  }

  /** then thanks, */
  lemma {:induction false} ThanksComeThird(db: Db, input: string, context: Option<string>)
    requires ByRule(Answered(db, input, context).1) && Mentions(Tokens(input), THANKS)
    requires !Mentions(Tokens(input), FAREWELLS) && !Mentions(Tokens(input), GREETINGS)
    ensures Answered(db, input, context).1 == Response("Gerne! / You're welcome!", 0.9, RuleBased)
  {
    AnsweredByRule(db, input, context);
  }

  lemma RuledByWords(tokens: seq<string>, context: Option<string>)
    ensures var answer := GenerateResponse(tokens, context);
            && (answer.source == RuleBased <==>
                  Mentions(tokens, GREETINGS) || Mentions(tokens, FAREWELLS) || Mentions(tokens, THANKS)
                  || Mentions(tokens, HELP))
            && (answer.source != RuleBased ==> answer.source == Fallback && answer.confidence == 0.3)
  {
  }

  /** then calls for help; and only an input with none of these words gets the request for feedback. */
  lemma {:induction false} FallbackComesLast(db: Db, input: string, context: Option<string>)
    requires ByRule(Answered(db, input, context).1)
    ensures var answer, tokens := Answered(db, input, context).1, Tokens(input);
            && (answer.source == RuleBased <==>
                  Mentions(tokens, GREETINGS) || Mentions(tokens, FAREWELLS) || Mentions(tokens, THANKS)
                  || Mentions(tokens, HELP))
            && (answer.source != RuleBased ==> answer.source == Fallback && answer.confidence == 0.3)
  {
    AnsweredByRule(db, input, context);
    RuledByWords(Tokens(input), context);
  }
}

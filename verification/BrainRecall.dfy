/** What the learning engine keeps true over every run, and what its answers mean. */
module BrainRecall {
  import opened Prelude
  import opened Ranking
  import opened Similarity
  import opened Tokenizer
  import opened Brain

  datatype Op =
    | Process(input: string, context: Option<string>, user: Option<string>)
    | Learn(input: string, output: string, context: Option<string>, confidence: real)
    | Memorize(category: string, key: string, value: string, weight: real)
    | Forget(category: string, key: string)
    | Feedback(id: nat, rating: int)
    | Train(selection: Option<string>)

  function Step(db: Db, op: Op): Db {
    match op
    case Process(input, context, user) => Processed(db, input, context, user).0
    case Learn(input, output, context, confidence) => Learned(db, input, output, context, confidence)
    case Memorize(category, key, value, weight) => Memorized(db, category, key, value, weight)
    case Forget(category, key) => db.(memories := WithoutMemory(db.memories, category, key))
    case Feedback(id, rating) => Rated(db, id, rating)
    case Train(selection) => Trained(db, selection, |db.training|)
  }

  function Run(db: Db, ops: seq<Op>): Db {
    if ops == [] then db else Step(Run(db, ops[..|ops| - 1]), ops[|ops| - 1])
  }

  // ---------- one pattern for a text in a context, one memory for a key ----------

  ghost predicate OnePerKey(ps: seq<Pattern>) {
    && (forall i | 0 <= i < |ps| :: ps[i].hash == ps[i].input)
    && (forall i, j | 0 <= i < j < |ps| :: !HasKey(ps[j], ps[i].hash, ps[i].context))
  }

  ghost predicate OneMemoryPerKey(ms: seq<Memory>) {
    forall i, j | 0 <= i < j < |ms| :: ms[i].category != ms[j].category || ms[i].key != ms[j].key
  }

  /** The rows of `ps` are still there, under the same text and context; only their contents may differ. */
  ghost predicate KeysLast(ps: seq<Pattern>, ps': seq<Pattern>) {
    |ps| <= |ps'| && forall i | 0 <= i < |ps| ::
      ps'[i].hash == ps[i].hash && ps'[i].input == ps[i].input && ps'[i].context == ps[i].context
  }

  lemma SameRowsKeepKeys(ps: seq<Pattern>, ps': seq<Pattern>)
    requires OnePerKey(ps) && KeysLast(ps, ps') && |ps'| == |ps|
    ensures OnePerKey(ps')
  {
  }

  lemma {:induction false} LearnedKeeps(db: Db, input: string, output: string, context: Option<string>,
      confidence: real)
    requires OnePerKey(db.patterns)
    ensures var db' := Learned(db, input, output, context, confidence);
            OnePerKey(db'.patterns) && KeysLast(db.patterns, db'.patterns) && db'.memories == db.memories
  {
    var db' := Learned(db, input, output, context, confidence);
    if FirstWithKey(db.patterns, Normalize(input), OrNull(context)).Some? {
      SameRowsKeepKeys(db.patterns, db'.patterns);
    } else {
      assert forall i | 0 <= i < |db.patterns| :: !HasKey(db.patterns[i], Normalize(input), OrNull(context));
    }
  }

  lemma {:induction false} DoubtedKeeps(db: Db, input: string)
    requires OnePerKey(db.patterns)
    ensures var db' := Doubted(db, input);
            OnePerKey(db'.patterns) && KeysLast(db.patterns, db'.patterns) && db'.memories == db.memories
  {
    SameRowsKeepKeys(db.patterns, Doubted(db, input).patterns);
  }

  lemma KeysLastTwice(a: seq<Pattern>, b: seq<Pattern>, c: seq<Pattern>)
    requires KeysLast(a, b) && KeysLast(b, c)
    ensures KeysLast(a, c)
  {
  }

  lemma {:induction false} RatedKeeps(db: Db, id: nat, rating: int)
    requires OnePerKey(db.patterns)
    ensures var db' := Rated(db, id, rating);
            OnePerKey(db'.patterns) && KeysLast(db.patterns, db'.patterns) && db'.memories == db.memories
  {
    if id < |db.interactions| {
      var seen := db.interactions[id];
      var marked := db.(interactions := db.interactions[id := seen.(rating := Some(rating))]);
      LearnedKeeps(marked, seen.input, seen.output, seen.context, 0.9);
      DoubtedKeeps(marked, seen.input);
    }
  }

  lemma {:induction false} TrainedKeeps(db: Db, category: Option<string>, n: nat)
    requires OnePerKey(db.patterns) && n <= |db.training|
    ensures var db' := Trained(db, category, n);
            OnePerKey(db'.patterns) && KeysLast(db.patterns, db'.patterns) && db'.memories == db.memories
  {
    if n > 0 {
      TrainedKeeps(db, category, n - 1);
      var before, d := Trained(db, category, n - 1), db.training[n - 1];
      if Selected(d, category) {
        LearnedKeeps(before, d.input, d.output, Some(d.category), d.weight);
        KeysLastTwice(db.patterns, before.patterns, Trained(db, category, n).patterns);
      }
    }
  }

  lemma {:induction false} ChooseCounts(db: Db, exact: Option<Row<Pattern>>, closest: Option<Row<Pattern>>,
      fitting: Option<Row<Memory>>, tokens: seq<string>, context: Option<string>)
    requires exact.Some? ==> IsRow(db.patterns, exact.value)
    requires closest.Some? ==> IsRow(db.patterns, closest.value)
    requires fitting.Some? ==> IsRow(db.memories, fitting.value)
    ensures SameKnowledge(db, Choose(db, exact, closest, fitting, tokens, context).0)
  {
    var db' := Choose(db, exact, closest, fitting, tokens, context).0;
    assert forall i | 0 <= i < |db.patterns| :: Uncounted(db'.patterns)[i] == Uncounted(db.patterns)[i];
    assert forall i | 0 <= i < |db.memories| :: Unread(db'.memories)[i] == Unread(db.memories)[i];
  }

  /** The same patterns and memories, but for their counters. */
  ghost predicate SameKnowledge(db: Db, db': Db) {
    Uncounted(db'.patterns) == Uncounted(db.patterns) && Unread(db'.memories) == Unread(db.memories)
  }

  /** Answering changes counters only. */
  lemma {:induction false} AnsweringCounts(db: Db, input: string, context: Option<string>)
    ensures SameKnowledge(db, Answered(db, input, context).0)
    ensures Answered(db, input, context).0.interactions == db.interactions
  {
    ExactIsRow(db.patterns, Normalize(input));
    ChooseCounts(db, Exact(db.patterns, Normalize(input)), Closest(db, Tokens(input), context),
                 Fitting(db, Tokens(input), context), Tokens(input), context);
  }

  function Uncounted(ps: seq<Pattern>): seq<Pattern> {
    seq(|ps|, i requires 0 <= i < |ps| => ps[i].(usage := 0))
  }

  function Unread(ms: seq<Memory>): seq<Memory> {
    seq(|ms|, i requires 0 <= i < |ms| => ms[i].(accesses := 0))
  }

  lemma {:induction false} UncountedKeys(ps: seq<Pattern>, ps': seq<Pattern>)
    requires Uncounted(ps) == Uncounted(ps')
    ensures KeysLast(ps, ps') && |ps'| == |ps|
  {
    assert |ps| == |Uncounted(ps)| == |ps'|;
    forall i | 0 <= i < |ps|
      ensures ps'[i].hash == ps[i].hash && ps'[i].input == ps[i].input && ps'[i].context == ps[i].context
    {
      assert Uncounted(ps)[i] == Uncounted(ps')[i];
    }
  }

  lemma {:induction false} UnreadKeys(ms: seq<Memory>, ms': seq<Memory>)
    requires Unread(ms) == Unread(ms') && OneMemoryPerKey(ms)
    ensures OneMemoryPerKey(ms')
  {
    assert |ms| == |Unread(ms)| == |ms'|;
    forall i | 0 <= i < |ms| ensures ms'[i].category == ms[i].category && ms'[i].key == ms[i].key {
      assert Unread(ms)[i] == Unread(ms')[i];
    }
  }

  lemma {:induction false} AppendKey(ms: seq<Memory>, m: Memory)
    requires OneMemoryPerKey(ms) && forall x | x in ms :: x.category != m.category || x.key != m.key
    ensures OneMemoryPerKey(ms + [m])
  {
    assert forall i | 0 <= i < |ms| :: ms[i] in ms;
  }

  lemma {:induction false} WithoutKeepsKeys(ms: seq<Memory>, category: string, key: string)
    requires OneMemoryPerKey(ms)
    ensures OneMemoryPerKey(WithoutMemory(ms, category, key))
  {
    if ms != [] {
      var init, m := ms[..|ms| - 1], ms[|ms| - 1];
      WithoutKeepsKeys(init, category, key);
      AppendKey(WithoutMemory(init, category, key), m);
    }
  }

  /** Every call keeps one pattern per text and context and one memory per key, and never removes a pattern. */
  lemma {:induction false} StepKeeps(db: Db, op: Op)
    requires OnePerKey(db.patterns) && OneMemoryPerKey(db.memories)
    ensures var db' := Step(db, op);
            OnePerKey(db'.patterns) && OneMemoryPerKey(db'.memories) && KeysLast(db.patterns, db'.patterns)
  {
    match op
    case Process(input, context, user) =>
      AnsweringCounts(db, input, context);
      var db' := Answered(db, input, context).0;
      UncountedKeys(db.patterns, db'.patterns);
      SameRowsKeepKeys(db.patterns, db'.patterns);
      UnreadKeys(db.memories, db'.memories);
    case Learn(input, output, context, confidence) => LearnedKeeps(db, input, output, context, confidence);
    case Memorize(_, _, _, _) =>
    case Forget(category, key) => WithoutKeepsKeys(db.memories, category, key);
    case Feedback(id, rating) => RatedKeeps(db, id, rating);
    case Train(selection) => TrainedKeeps(db, selection, |db.training|);
  }

  /** Over every run from empty tables there is one pattern per text and context, and one memory per key. */
  lemma {:induction false} OneEachOverRuns(training: seq<Training>, ops: seq<Op>)
    ensures var db := Run(Db([], [], [], training), ops); OnePerKey(db.patterns) && OneMemoryPerKey(db.memories)
  {
    if ops != [] {
      OneEachOverRuns(training, ops[..|ops| - 1]);
      StepKeeps(Run(Db([], [], [], training), ops[..|ops| - 1]), ops[|ops| - 1]);
    }
  }

  // ---------- asking changes no answer ----------

  function Apply<T, U>(s: seq<T>, f: T -> U): (r: seq<U>)
    ensures |r| == |s| && forall i | 0 <= i < |s| :: r[i] == f(s[i])
  {
    seq(|s|, i requires 0 <= i < |s| => f(s[i]))
  }

  /**
   Sorting by a key that a change of the elements leaves alone, then changing them, is the same as the other
   way round.
   */
  lemma {:induction false} PlaceApply<T>(s: seq<T>, x: T, key: T -> real, f: T -> T)
    requires forall y | y in s :: key(f(y)) == key(y)
    requires key(f(x)) == key(x)
    ensures Place(Apply(s, f), f(x), key) == Apply(Place(s, x, key), f)
  {
    if s == [] {
    } else if key(s[0]) >= key(x) {
      assert s[0] in s;
      PlaceApply(s[1..], x, key, f);
      assert Apply(s, f)[1..] == Apply(s[1..], f);
    } else {
      assert s[0] in s;
    }
  }

  lemma {:induction false} RankedFrom<T>(s: seq<T>, key: T -> real, y: T)
    requires y in Ranked(s, key)
    ensures y in s
  {
    RankedHas(s, key);
  }

  lemma {:induction false} RankedApply<T>(s: seq<T>, key: T -> real, f: T -> T)
    requires forall y | y in s :: key(f(y)) == key(y)
    ensures Ranked(Apply(s, f), key) == Apply(Ranked(s, key), f)
  {
    if s != [] {
      var init, x := s[..|s| - 1], s[|s| - 1];
      assert s == init + [x];
      RankedApply(init, key, f);
      var ranked := Ranked(init, key);
      RankedHas(init, key);
      assert forall y | y in ranked :: key(f(y)) == key(y) by {
        forall y | y in ranked ensures key(f(y)) == key(y) {
          RankedFrom(init, key, y);
          assert s == init + [x] && y in init + [x];
        }
      }
      PlaceApply(ranked, x, key, f);
      assert Apply(s, f)[..|s| - 1] == Apply(init, f);
    }
  }

  function Uncount(r: Row<Pattern>): Row<Pattern> { r.(row := r.row.(usage := 0)) }

  function Unseen(r: Row<Memory>): Row<Memory> { r.(row := r.row.(accesses := 0)) }

  lemma {:induction false} HashApply(rows: seq<Row<Pattern>>, hash: string)
    ensures RowsWithHash(Apply(rows, Uncount), hash) == Apply(RowsWithHash(rows, hash), Uncount)
  {
    if rows != [] {
      HashApply(rows[..|rows| - 1], hash);
      assert Apply(rows, Uncount)[..|rows| - 1] == Apply(rows[..|rows| - 1], Uncount);
    }
  }

  lemma {:induction false} ContextApply(rows: seq<Row<Pattern>>, context: Option<string>)
    ensures RowsInContext(Apply(rows, Uncount), context) == Apply(RowsInContext(rows, context), Uncount)
  {
    if rows != [] {
      ContextApply(rows[..|rows| - 1], context);
      assert Apply(rows, Uncount)[..|rows| - 1] == Apply(rows[..|rows| - 1], Uncount);
    }
  }

  lemma {:induction false} CategoryApply(rows: seq<Row<Memory>>, context: Option<string>)
    ensures MemoriesIn(Apply(rows, Unseen), context) == Apply(MemoriesIn(rows, context), Unseen)
  {
    if rows != [] {
      CategoryApply(rows[..|rows| - 1], context);
      assert Apply(rows, Unseen)[..|rows| - 1] == Apply(rows[..|rows| - 1], Unseen);
    }
  }

  lemma {:induction false} ExactUncounted(ps: seq<Pattern>, hash: string)
    ensures Exact(Uncounted(ps), hash) == Mapped(Exact(ps, hash), Uncount)
  {
    assert Rows(Uncounted(ps)) == Apply(Rows(ps), Uncount);
    HashApply(Rows(ps), hash);
    RankedApply(RowsWithHash(Rows(ps), hash), Confidence, Uncount);
  }

  lemma {:induction false} CandidatesUncounted(ps: seq<Pattern>, context: Option<string>)
    ensures Candidates(Uncounted(ps), context) == Apply(Candidates(ps, context), Uncount)
  {
    assert Rows(Uncounted(ps)) == Apply(Rows(ps), Uncount);
    ContextApply(Rows(ps), context);
    RankedApply(RowsInContext(Rows(ps), context), Confidence, Uncount);
  }

  lemma {:induction false} RecalledUnread(ms: seq<Memory>, context: Option<string>)
    ensures Recalled(Unread(ms), context) == Apply(Recalled(ms, context), Unseen)
  {
    assert Rows(Unread(ms)) == Apply(Rows(ms), Unseen);
    CategoryApply(Rows(ms), context);
    RankedApply(MemoriesIn(Rows(ms), context), Weight, Unseen);
  }

  lemma {:induction false} ScoresApply<T>(rows: seq<T>, score: T -> real, f: T -> T)
    requires forall r | r in rows :: score(f(r)) == score(r)
    ensures Scores(Apply(rows, f), score) == Scores(rows, score)
  {
    forall i | 0 <= i < |rows| ensures Scores(Apply(rows, f), score)[i] == Scores(rows, score)[i] {
      assert rows[i] in rows;
    }
  }

  lemma {:induction false} MostAlikeApply<T>(rows: seq<T>, score: T -> real, f: T -> T)
    requires forall r | r in rows :: score(f(r)) == score(r)
    ensures MostAlike(Apply(rows, f), score) == Mapped(MostAlike(rows, score), f)
    ensures FirstPassing(Apply(rows, f), score) == Mapped(FirstPassing(rows, score), f)
  {
    ScoresApply(rows, score, f);
  }

  lemma ScorerIgnores(tokens: seq<string>, rows: seq<Row<Pattern>>)
    ensures forall r | r in rows :: Scorer(tokens)(Uncount(r)) == Scorer(tokens)(r)
  {
  }

  lemma MemoryScorerIgnores(tokens: seq<string>, rows: seq<Row<Memory>>)
    ensures forall r | r in rows :: MemoryScorer(tokens)(Unseen(r)) == MemoryScorer(tokens)(r)
  {
  }

  function Forgotten(db: Db): Db { db.(patterns := Uncounted(db.patterns), memories := Unread(db.memories)) }

  function Mapped<T>(x: Option<T>, f: T -> T): Option<T> { if x.None? then None else Some(f(x.value)) }

  lemma {:induction false} ClosestUncounted(db: Db, tokens: seq<string>, context: Option<string>)
    ensures Closest(Forgotten(db), tokens, context) == Mapped(Closest(db, tokens, context), Uncount)
  {
    CandidatesUncounted(db.patterns, context);
    ScorerIgnores(tokens, Candidates(db.patterns, context));
    MostAlikeApply(Candidates(db.patterns, context), Scorer(tokens), Uncount);
  }

  lemma {:induction false} FittingUnread(db: Db, tokens: seq<string>, context: Option<string>)
    ensures Fitting(Forgotten(db), tokens, context) == Mapped(Fitting(db, tokens, context), Unseen)
  {
    RecalledUnread(db.memories, context);
    MemoryScorerIgnores(tokens, Recalled(db.memories, context));
    MostAlikeApply(Recalled(db.memories, context), MemoryScorer(tokens), Unseen);
  }

  lemma UncountResembles(tokens: seq<string>, r: Row<Pattern>)
    ensures Resemblance(tokens, Uncount(r)) == Resemblance(tokens, r)
  {
  }

  lemma UnseenRecollects(tokens: seq<string>, r: Row<Memory>)
    ensures Recollection(tokens, Unseen(r)) == Recollection(tokens, r)
  {
  }

  lemma {:induction false} ChooseIgnoresCounters(db: Db, exact: Option<Row<Pattern>>, closest: Option<Row<Pattern>>,
      fitting: Option<Row<Memory>>, tokens: seq<string>, context: Option<string>)
    requires exact.Some? ==> IsRow(db.patterns, exact.value)
    requires closest.Some? ==> IsRow(db.patterns, closest.value)
    requires fitting.Some? ==> IsRow(db.memories, fitting.value)
    ensures Choose(Forgotten(db), Mapped(exact, Uncount), Mapped(closest, Uncount), Mapped(fitting, Unseen),
                   tokens, context).1
            == Choose(db, exact, closest, fitting, tokens, context).1
  {
    if closest.Some? { UncountResembles(tokens, closest.value); }
    if fitting.Some? { UnseenRecollects(tokens, fitting.value); }
  }

  /** The answer does not depend on the counters. */
  lemma {:induction false} AnswerIgnoresCounters(db: Db, input: string, context: Option<string>)
    ensures Answered(Forgotten(db), input, context).1 == Answered(db, input, context).1
  {
    ExactIsRow(db.patterns, Normalize(input));
    ExactUncounted(db.patterns, Normalize(input));
    ClosestUncounted(db, Tokens(input), context);
    FittingUnread(db, Tokens(input), context);
    ChooseIgnoresCounters(db, Exact(db.patterns, Normalize(input)), Closest(db, Tokens(input), context),
                          Fitting(db, Tokens(input), context), Tokens(input), context);
  }

  ghost predicate OnlyAsks(ops: seq<Op>) { forall k | 0 <= k < |ops| :: ops[k].Process? }

  /** However much is asked, every question keeps the answer it had: only teaching changes answers. */
  lemma {:induction false} AskingChangesNoAnswer(db: Db, ops: seq<Op>, input: string, context: Option<string>)
    requires OnlyAsks(ops)
    ensures Answered(Run(db, ops), input, context).1 == Answered(db, input, context).1
  {
    AskingCounts(db, ops);
    SameKnowledgeSameAnswer(db, Run(db, ops), input, context);
  }

  lemma {:induction false} AskingCounts(db: Db, ops: seq<Op>)
    requires OnlyAsks(ops)
    ensures SameKnowledge(db, Run(db, ops)) && |Run(db, ops).interactions| == |db.interactions| + |ops|
  {
    if ops != [] {
      var before, op := Run(db, ops[..|ops| - 1]), ops[|ops| - 1];
      AskingCounts(db, ops[..|ops| - 1]);
      AnsweringCounts(before, op.input, op.context);
    }
  }

  lemma {:induction false} SameKnowledgeSameAnswer(a: Db, b: Db, input: string, context: Option<string>)
    requires SameKnowledge(a, b)
    ensures Answered(a, input, context).1 == Answered(b, input, context).1
  {
    AnswerIgnoresCounters(a, input, context);
    AnswerIgnoresCounters(b, input, context);
    LogAndTrainingUnread(Forgotten(a), Forgotten(b), input, context);
  }

  lemma {:induction false} LogAndTrainingUnread(a: Db, b: Db, input: string, context: Option<string>)
    requires a.patterns == b.patterns && a.memories == b.memories
    ensures Answered(a, input, context).1 == Answered(b, input, context).1
  {
  }

  // ---------- what the answers mean ----------

  ghost predicate Knows(ps: seq<Pattern>, hash: string, i: nat) {
    i < |ps| && ps[i].hash == hash && ps[i].confidence > 0.7
  }

  /** Which of the four answers it is. */
  lemma {:induction false} ChooseSource(db: Db, exact: Option<Row<Pattern>>, closest: Option<Row<Pattern>>,
                                        fitting: Option<Row<Memory>>, tokens: seq<string>, context: Option<string>)
    requires exact.Some? ==> IsRow(db.patterns, exact.value)
    requires closest.Some? ==> IsRow(db.patterns, closest.value)
    requires fitting.Some? ==> IsRow(db.memories, fitting.value)
    ensures var answer := Choose(db, exact, closest, fitting, tokens, context).1;
            && (answer.source == PatternMatch <==> exact.Some?)
            && (answer.source == FuzzyMatch <==> exact.None? && closest.Some?)
            && (answer.source == FromMemory <==> exact.None? && closest.None? && fitting.Some?)
            && (answer.source == FuzzyMatch ==> answer == Resemblance(tokens, closest.value))
            && (answer.source == FromMemory ==> answer == Recollection(tokens, fitting.value))
  {
  }

  lemma {:induction false} AnswerSource(db: Db, input: string, context: Option<string>)
    ensures var answer, tokens := Answered(db, input, context).1, Tokens(input);
            var exact := Exact(db.patterns, Normalize(input));
            var closest, fitting := Closest(db, tokens, context), Fitting(db, tokens, context);
            && (answer.source == PatternMatch <==> exact.Some?)
            && (answer.source == FuzzyMatch <==> exact.None? && closest.Some?)
            && (answer.source == FromMemory <==> exact.None? && closest.None? && fitting.Some?)
            && (answer.source == PatternMatch ==> answer == Recall(exact.value))
            && (answer.source == FuzzyMatch ==> answer == Resemblance(tokens, closest.value))
            && (answer.source == FromMemory ==> answer == Recollection(tokens, fitting.value))
  {
    ExactIsRow(db.patterns, Normalize(input));
    ChooseSource(db, Exact(db.patterns, Normalize(input)), Closest(db, Tokens(input), context),
                 Fitting(db, Tokens(input), context), Tokens(input), context);
  }

  /**
   A text is answered by pattern match exactly when some pattern of that text, in any context, is confident
   enough.
   */
  lemma {:induction false} ExactExactly(db: Db, input: string, context: Option<string>)
    ensures var ps, text, answer := db.patterns, Normalize(input), Answered(db, input, context).1;
            && (answer.source == PatternMatch <==> exists i :: Knows(ps, text, i))
            && (answer.source == PatternMatch ==> exists i :: Knows(ps, text, i) && AnswersWith(ps, i, answer))
  {
    var ps, hash := db.patterns, Normalize(input);
    ExactIsRow(ps, hash);
    AnswerSource(db, input, context);
    KnowsMeansExact(ps, hash);
  }

  lemma {:induction false} KnowsMeansExact(ps: seq<Pattern>, hash: string)
    ensures Exact(ps, hash).Some? <==> exists i :: Knows(ps, hash, i)
    ensures Exact(ps, hash).Some? ==>
              var r := Exact(ps, hash).value;
              Knows(ps, hash, r.id) && AnswersWith(ps, r.id, Recall(r))
  {
    ExactIsRow(ps, hash);
    if Exact(ps, hash).Some? {
      assert Knows(ps, hash, Exact(ps, hash).value.id);
    }
  }

  /** The answer is row `i`, the first of the most confident patterns of its text. */
  ghost predicate AnswersWith(ps: seq<Pattern>, i: nat, r: Response) {
    && i < |ps| && r == Response(ps[i].output, ps[i].confidence, PatternMatch)
    && (forall j | 0 <= j < |ps| && ps[j].hash == ps[i].hash :: ps[j].confidence <= ps[i].confidence)
    && (forall j | 0 <= j < i && ps[j].hash == ps[i].hash :: ps[j].confidence < ps[i].confidence)
  }

  /** The first of the rows with the greatest score. */
  ghost predicate MostSimilar<T(!new)>(rows: seq<T>, score: T -> real, r: T) {
    exists k ::
      && 0 <= k < |rows| && rows[k] == r
      && (forall j | 0 <= j < |rows| :: score(rows[j]) <= score(r))
      && (forall j | 0 <= j < k :: score(rows[j]) < score(r))
  }

  lemma {:induction false} MostAlikeIs<T(!new)>(rows: seq<T>, score: T -> real)
    ensures var r := MostAlike(rows, score);
            if r.None? then forall r' | r' in rows :: score(r') <= 0.5
            else r.value in rows && score(r.value) > 0.5 && MostSimilar(rows, score, r.value)
  {
    var scores := Scores(rows, score);
    var best := Best(scores);
    assert forall j | 0 <= j < |rows| :: scores[j] == score(rows[j]);
    if best.Some? {
      var r := rows[best.value];
      forall j | 0 <= j < |rows| ensures score(rows[j]) <= score(r) && (j < best.value ==> score(rows[j]) < score(r)) {
        assert scores[j] == score(rows[j]);
      }
    } else {
      forall r | r in rows ensures score(r) <= 0.5 {
        var j :| 0 <= j < |rows| && rows[j] == r;
        assert scores[j] == score(r);
      }
    }
  }

  /**
   With no exact hit, the answer is fuzzy exactly when some candidate resembles the input by more than one half;
   it is then the answer of the first that resembles it most.
   */
  lemma {:induction false} FuzzyExactly(db: Db, input: string, context: Option<string>)
    ensures var rows, score := Candidates(db.patterns, context), Scorer(Tokens(input));
            var answer := Answered(db, input, context).1;
            && (answer.source == FuzzyMatch <==>
                  answer.source != PatternMatch && exists r :: r in rows && score(r) > 0.5)
            && (answer.source == FuzzyMatch ==> exists r :: MostSimilar(rows, score, r) && Echoes(input, r, answer))
  {
    AnswerSource(db, input, context);
    ClosestExactly(db, Tokens(input), context);
    if Answered(db, input, context).1.source == FuzzyMatch {
      ResemblanceEchoes(input, Closest(db, Tokens(input), context).value);
    }
  }

  predicate IsProduct(x: real, a: real, b: real) { x == a * b }

  /** The answer is the output of the pattern, as confident as the pattern times how similar it is. */
  predicate Echoes(input: string, r: Row<Pattern>, answer: Response) {
    && answer.output == r.row.output && answer.source == FuzzyMatch
    && IsProduct(answer.confidence, CalculateSimilarity(Tokens(input), Tokens(r.row.input)), r.row.confidence)
  }

  lemma ResemblanceWeighs(tokens: seq<string>, r: Row<Pattern>, similarity: real)
    requires Score(tokens, r) == similarity
    ensures IsProduct(Resemblance(tokens, r).confidence, similarity, r.row.confidence)
  {
  }

  lemma ResemblanceEchoes(input: string, r: Row<Pattern>)
    ensures Echoes(input, r, Resemblance(Tokens(input), r))
  {
    ResemblanceWeighs(Tokens(input), r, CalculateSimilarity(Tokens(input), Tokens(r.row.input)));
  }

  /** The answer is the value of the memory, as confident as its weight times how similar its key is. */
  predicate Recites(input: string, r: Row<Memory>, answer: Response) {
    && answer.output == r.row.value && answer.source == FromMemory
    && IsProduct(answer.confidence, CalculateSimilarity(Tokens(input), Tokens(r.row.key)), r.row.weight)
  }

  lemma RecollectionWeighs(tokens: seq<string>, r: Row<Memory>, similarity: real)
    requires MemoryScore(tokens, r) == similarity
    ensures IsProduct(Recollection(tokens, r).confidence, similarity, r.row.weight)
  {
  }

  lemma RecollectionRecites(input: string, r: Row<Memory>)
    ensures Recites(input, r, Recollection(Tokens(input), r))
  {
    RecollectionWeighs(Tokens(input), r, CalculateSimilarity(Tokens(input), Tokens(r.row.key)));
  }

  lemma {:induction false} ClosestExactly(db: Db, tokens: seq<string>, context: Option<string>)
    ensures var rows, score, r := Candidates(db.patterns, context), Scorer(tokens), Closest(db, tokens, context);
            && (r.Some? <==> exists r' :: r' in rows && score(r') > 0.5)
            && (r.Some? ==> MostSimilar(rows, score, r.value))
  {
    MostAlikeIs(Candidates(db.patterns, context), Scorer(tokens));
  }

  ghost predicate FirstAbove<T>(rows: seq<T>, score: T -> real, r: T) {
    exists k :: 0 <= k < |rows| && rows[k] == r && score(r) > 0.4 && forall j | 0 <= j < k :: score(rows[j]) <= 0.4
  }

  lemma {:induction false} FirstPassingIs<T(!new)>(rows: seq<T>, score: T -> real)
    ensures var r := FirstPassing(rows, score);
            if r.None? then forall r' | r' in rows :: score(r') <= 0.4 else FirstAbove(rows, score, r.value)
  {
    var scores := Scores(rows, score);
    var fit := FirstFit(scores);
    if fit.None? {
      forall r | r in rows ensures score(r) <= 0.4 {
        var j :| 0 <= j < |rows| && rows[j] == r;
        assert scores[j] == score(r);
      }
    } else {
      assert forall j | 0 <= j < fit.value :: scores[j] == score(rows[j]);
    }
  }

  /**
   With neither, the answer comes from a memory exactly when one of the recalled passes; it is the first that
   does.
   */
  lemma {:induction false} MemoryExactly(db: Db, input: string, context: Option<string>)
    ensures var rows, score := Recalled(db.memories, context), MemoryScorer(Tokens(input));
            var answer := Answered(db, input, context).1;
            && (answer.source == FromMemory <==>
                  answer.source !in {PatternMatch, FuzzyMatch} && exists r :: r in rows && score(r) > 0.4)
            && (answer.source == FromMemory ==> exists r :: FirstAbove(rows, score, r) && Recites(input, r, answer))
  {
    AnswerSource(db, input, context);
    FittingExactly(db, Tokens(input), context);
    if Answered(db, input, context).1.source == FromMemory {
      RecollectionRecites(input, Fitting(db, Tokens(input), context).value);
    }
  }

  lemma {:induction false} FittingExactly(db: Db, tokens: seq<string>, context: Option<string>)
    ensures var rows, score, r := Recalled(db.memories, context), MemoryScorer(tokens), Fitting(db, tokens, context);
            && (r.Some? <==> exists r' :: r' in rows && score(r') > 0.4)
            && (r.Some? ==> FirstAbove(rows, score, r.value))
  {
    FirstPassingIs(Recalled(db.memories, context), MemoryScorer(tokens));
  }

  /**
   The candidates are up to one hundred patterns of the context, or of all contexts when none is given, and no pattern
   left out is more confident.
   */
  lemma {:induction false} CandidatesAreTop(ps: seq<Pattern>, context: Option<string>, i: nat)
    requires i < |ps|
    ensures Row(i, ps[i]) in Candidates(ps, context) ==> context in {None, Some("")} || ps[i].context == context
    ensures var rows := Candidates(ps, context);
            context in {None, Some("")} || ps[i].context == context ==>
              Row(i, ps[i]) in rows || (|rows| == 100 && forall r | r in rows :: r.row.confidence >= ps[i].confidence)
  {
    CandidatesAreRows(ps, context);
    if InContext(ps[i], context) {
      InContextIsTop(ps, context, i);
    }
  }

  lemma {:induction false} InContextIsTop(ps: seq<Pattern>, context: Option<string>, i: nat)
    requires i < |ps| && InContext(ps[i], context)
    ensures var rows := Candidates(ps, context);
            Row(i, ps[i]) in rows || (|rows| == 100 && forall r | r in rows :: r.row.confidence >= ps[i].confidence)
  {
    var all, x := RowsInContext(Rows(ps), context), Row(i, ps[i]);
    RowsAreRows(ps);
    ContextRows(Rows(ps), context);
    assert IsRow(ps, x) && x in all;
    TakenOrBeaten(all, 100, Confidence, x);
    assert forall r | r in Candidates(ps, context) :: Confidence(r) == r.row.confidence;
  }

  // ---------- teaching ----------

  /** The same text taught again and again in one context, the answers in order. */
  function Lessons(db: Db, input: string, outputs: seq<string>, context: Option<string>, confidence: real): Db {
    if outputs == [] then db else
      var n := |outputs| - 1;
      Learned(Lessons(db, input, outputs[..n], context, confidence), input, outputs[n], context, confidence)
  }

  /**
   A text never taught before ends with one pattern: the last answer, five hundredths more confident for each
   repetition.
   */
  lemma {:induction false} LessonsAccumulate(db: Db, input: string, outputs: seq<string>, context: Option<string>,
      confidence: real)
    requires outputs != [] && forall i | 0 <= i < |db.patterns| :: db.patterns[i].hash != Normalize(input)
    ensures var n := |outputs|;
            Lessons(db, input, outputs, context, confidence).patterns ==
            db.patterns + [Pattern(Normalize(input), Normalize(input), outputs[n - 1], OrNull(context),
                                   confidence + (n - 1) as real * 0.05, n - 1, 0)]
  {
    var n := |outputs|;
    var before := Lessons(db, input, outputs[..n - 1], context, confidence);
    var found := FirstWithKey(before.patterns, Normalize(input), OrNull(context));
    if n == 1 {
      assert before == db;
    } else {
      LessonsAccumulate(db, input, outputs[..n - 1], context, confidence);
      assert before.patterns[..|db.patterns|] == db.patterns;
      assert HasKey(before.patterns[|db.patterns|], Normalize(input), OrNull(context));
      assert found == Some(|db.patterns|);
    }
  }

  /**
   A new text, once taught, is answered from its pattern exactly when the lessons have brought the confidence
   above 0.7.
   */
  lemma {:induction false} TaughtIsRecalledExactly(db: Db, input: string, outputs: seq<string>,
      context: Option<string>, confidence: real, asked: string, elsewhere: Option<string>)
    requires outputs != [] && forall i | 0 <= i < |db.patterns| :: db.patterns[i].hash != Normalize(input)
    requires Normalize(asked) == Normalize(input)
    ensures var n, answer := |outputs|, Answered(Lessons(db, input, outputs, context, confidence), asked, elsewhere).1;
            && (answer.source == PatternMatch <==> confidence + (n - 1) as real * 0.05 > 0.7)
            && (answer.source == PatternMatch ==> answer.output == outputs[n - 1])
  {
    var after := Lessons(db, input, outputs, context, confidence);
    LessonsAccumulate(db, input, outputs, context, confidence);
    ExactExactly(after, asked, elsewhere);
    var k := |db.patterns|;
    assert forall i | 0 <= i < |after.patterns| && after.patterns[i].hash == Normalize(input) :: i == k;
    assert Knows(after.patterns, Normalize(asked), k) <==> confidence + (|outputs| - 1) as real * 0.05 > 0.7;
  }

  // ---------- rating ----------

  /** What a rating changes in the confidence of pattern `i`. */
  function Change(db: Db, id: nat, rating: int, i: nat): real
    requires id < |db.interactions|
  {
    var hash, context := Normalize(db.interactions[id].input), OrNull(db.interactions[id].context);
    if rating >= 4 && FirstWithKey(db.patterns, hash, context) == Some(i) then 0.05
    else if rating <= 2 && FirstWithHash(db.patterns, hash) == Some(i) then -0.1
    else 0.0
  }

  /** A good rating of a text that has no pattern in the context of the interaction adds one. */
  predicate TeachesAnew(db: Db, id: nat, rating: int)
    requires id < |db.interactions|
  {
    rating >= 4 && FirstWithKey(db.patterns, Normalize(db.interactions[id].input),
        OrNull(db.interactions[id].context)).None?
  }

  /** Rows after a rating: the same texts, confidences moved by `Change`, and possibly one new row at 0.9. */
  lemma {:induction false} RatedRows(db: Db, id: nat, rating: int)
    requires id < |db.interactions|
    ensures var ps, after, seen := db.patterns, Rated(db, id, rating).patterns, db.interactions[id];
            && |after| == |ps| + (if TeachesAnew(db, id, rating) then 1 else 0)
            && (forall i | 0 <= i < |ps| ::
                  && after[i].hash == ps[i].hash && after[i].confidence == ps[i].confidence + Change(db, id, rating, i)
                  && after[i].output == if Change(db, id, rating, i) > 0.0 then seen.output else ps[i].output)
            && (TeachesAnew(db, id, rating) ==>
                  && after[|ps|].hash == Normalize(seen.input) && after[|ps|].output == seen.output
                  && after[|ps|].confidence == 0.9)
  {
  }

  /** The text is known well enough after the rating by one of the patterns it had. */
  ghost predicate StillKnown(db: Db, id: nat, rating: int, i: nat)
    requires id < |db.interactions|
  {
    && i < |db.patterns| && db.patterns[i].hash == Normalize(db.interactions[id].input)
    && db.patterns[i].confidence + Change(db, id, rating, i) > 0.7
  }

  /**
   After a rating, a text is answered by pattern match exactly when the rating added a pattern for it, or when some
   pattern of the text, in any context, is above 0.7 after five hundredths more for the one a good rating teaches
   again, or a tenth less for the first of the text after a poor one.
   */
  lemma {:induction false} RatingTips(db: Db, id: nat, rating: int, asked: string, elsewhere: Option<string>)
    requires id < |db.interactions| && Normalize(asked) == Normalize(db.interactions[id].input)
    ensures Answered(Rated(db, id, rating), asked, elsewhere).1.source == PatternMatch
            <==> TeachesAnew(db, id, rating) || exists i :: StillKnown(db, id, rating, i)
  {
    var hash, after := Normalize(asked), Rated(db, id, rating);
    RatedRows(db, id, rating);
    ExactExactly(after, asked, elsewhere);
    assert TeachesAnew(db, id, rating) ==> Knows(after.patterns, hash, |db.patterns|);
    forall i: nat | i < |db.patterns| ensures Knows(after.patterns, hash, i) <==> StillKnown(db, id, rating, i) {
    }
  }

  lemma {:induction false} ScoreOneExactly(tokens: seq<string>, r: Row<Pattern>)
    ensures Score(tokens, r) <= 1.0
    ensures tokens != [] ==> (Score(tokens, r) == 1.0 <==> SetOf(tokens) == SetOf(Tokens(r.row.input)))
  {
    var others := Tokens(r.row.input);
    if tokens != [] && others != [] {
      SimilarityIsMetric(tokens, others, others);
    } else if tokens != [] {
      assert tokens[0] in SetOf(tokens);
    }
  }

  /** The rows before place `j` have other token sets. */
  ghost predicate FirstWithTokens(rows: seq<Row<Pattern>>, tokens: seq<string>, j: int) {
    0 <= j < |rows| && forall i | 0 <= i < j :: SetOf(Tokens(rows[i].row.input)) != SetOf(tokens)
  }

  lemma {:induction false} BestIsOne(scores: seq<real>, j: nat)
    requires j < |scores| && scores[j] == 1.0 && forall i | 0 <= i < |scores| :: scores[i] <= 1.0
    ensures Best(scores).Some? && 0 <= Best(scores).value <= j && scores[Best(scores).value] == 1.0
    ensures forall i | 0 <= i < Best(scores).value :: scores[i] != 1.0
  {
    assert IsBest(scores, Best(scores));
    var b := Best(scores).value;
    assert scores[j] <= scores[b];
  }

  /** The most alike of rows scored up to one, if row `j` scores one, is the first to do so. */
  lemma {:induction false} MostAlikeIsOne<T>(rows: seq<T>, score: T -> real, j: nat) returns (b: nat)
    requires j < |rows| && score(rows[j]) == 1.0 && forall i | 0 <= i < |rows| :: score(rows[i]) <= 1.0
    ensures b <= j && MostAlike(rows, score) == Some(rows[b]) && score(rows[b]) == 1.0
    ensures forall i | 0 <= i < b :: score(rows[i]) != 1.0
  {
    var scores := Scores(rows, score);
    BestIsOne(scores, j);
    b := Best(scores).value;
    forall i | 0 <= i < b ensures score(rows[i]) != 1.0 {
      assert scores[i] != 1.0;
    }
  }

  lemma {:induction false} MostAlikeAt(rows: seq<Row<Pattern>>, tokens: seq<string>, j: nat)
    requires tokens != [] && j < |rows| && Score(tokens, rows[j]) == 1.0
    ensures FirstWithTokens(rows, tokens, j) ==> MostAlike(rows, Scorer(tokens)) == Some(rows[j])
    ensures MostAlike(rows, Scorer(tokens)).Some? && Score(tokens, MostAlike(rows, Scorer(tokens)).value) == 1.0
    ensures exists b :: FirstWithTokens(rows, tokens, b) && MostAlike(rows, Scorer(tokens)) == Some(rows[b])
  {
    forall i | 0 <= i < |rows|
      ensures Scorer(tokens)(rows[i]) <= 1.0
      ensures Scorer(tokens)(rows[i]) == 1.0 <==> SetOf(Tokens(rows[i].row.input)) == SetOf(tokens)
    {
      ScoreOneExactly(tokens, rows[i]);
    }
    var b := MostAlikeIsOne(rows, Scorer(tokens), j);
    assert FirstWithTokens(rows, tokens, b);
  }

  /** The candidate of pattern `k` comes before any other with the same token set. */
  ghost predicate LeadsItsTokens(db: Db, tokens: seq<string>, context: Option<string>, k: nat) {
    var rows := Candidates(db.patterns, context);
    exists j :: FirstWithTokens(rows, tokens, j) && rows[j].id == k
  }

  /**
   A text with no exact hit is answered by resemblance from its own pattern `k` exactly when it has tokens and, among
   the candidates of the context, `k` comes before any other pattern with the same token set.
   */
  lemma {:induction false} ResembledExactly(db: Db, input: string, context: Option<string>, k: nat)
    requires OnePerKey(db.patterns) && k < |db.patterns| && db.patterns[k].hash == Normalize(input)
    ensures Closest(db, Tokens(input), context) == Some(Row(k, db.patterns[k]))
            <==> Tokens(input) != [] && LeadsItsTokens(db, Tokens(input), context, k)
  {
    var rows, tokens, own := Candidates(db.patterns, context), Tokens(input), Row(k, db.patterns[k]);
    CandidatesAreRows(db.patterns, context);
    NormalizeTwice(input);
    assert Tokens(own.row.input) == tokens;
    ScoreOneExactly(tokens, own);
    ClosestExactly(db, tokens, context);
    if Closest(db, tokens, context) == Some(own) {
      assert Scorer(tokens)(own) == Score(tokens, own) > 0.5;
      var j: nat :| j < |rows| && rows[j] == own;
      MostAlikeAt(rows, tokens, j);
      var b :| FirstWithTokens(rows, tokens, b) && MostAlike(rows, Scorer(tokens)) == Some(rows[b]);
      assert rows[b].id == k;
    }
    if tokens != [] && LeadsItsTokens(db, tokens, context, k) {
      var j :| FirstWithTokens(rows, tokens, j) && rows[j].id == k;
      assert rows[j] in rows && IsRow(db.patterns, rows[j]);
      MostAlikeAt(rows, tokens, j);
    }
  }

  /** The pattern that answers a text asked in a context: by match if it is confident enough, else by resemblance. */
  ghost predicate AnsweredFrom(db: Db, input: string, context: Option<string>, k: nat) {
    var exact, closest := Exact(db.patterns, Normalize(input)), Closest(db, Tokens(input), context);
    if exact.Some? then exact.value.id == k else closest.Some? && closest.value.id == k
  }

  /** Which text its first pattern answers. */
  lemma {:induction false} AnsweredFromExactly(db: Db, input: string, context: Option<string>, k: nat)
    requires OnePerKey(db.patterns) && FirstWithHash(db.patterns, Normalize(input)) == Some(k)
    ensures var ps := db.patterns;
            AnsweredFrom(db, input, context, k)
            <==> if exists j :: Knows(ps, Normalize(input), j)
                 then forall j | 0 <= j < |ps| && ps[j].hash == Normalize(input) :: ps[j].confidence <= ps[k].confidence
                 else Tokens(input) != [] && LeadsItsTokens(db, Tokens(input), context, k)
  {
    ExactIsRow(db.patterns, Normalize(input));
    KnowsMeansExact(db.patterns, Normalize(input));
    if Exact(db.patterns, Normalize(input)).None? {
      ResembledExactly(db, input, context, k);
    }
  }

  lemma PoorRatingLowers(db: Db, id: nat, rating: int, k: nat)
    requires id < |db.interactions| && rating <= 2
    requires FirstWithHash(db.patterns, Normalize(db.interactions[id].input)) == Some(k)
    ensures var p := db.patterns[k];
            Rated(db, id, rating).patterns ==
            db.patterns[k := p.(confidence := p.confidence - 0.1, feedback := p.feedback - 1)]
  {
  }

  /**
   A poor rating of a text lowers the first pattern of the text, whatever its context, by a tenth, and no other. Asked
   in any context, the text is answered from that one exactly when no pattern of the text is more confident, if one is
   confident enough for an exact match; and otherwise exactly when the text has tokens and that pattern comes before
   any other candidate with the same token set.
   */
  lemma {:induction false} PoorRatingHits(db: Db, id: nat, rating: int, context: Option<string>, k: nat)
    requires id < |db.interactions| && rating <= 2 && OnePerKey(db.patterns)
    requires FirstWithHash(db.patterns, Normalize(db.interactions[id].input)) == Some(k)
    ensures var p := db.patterns[k];
            Rated(db, id, rating).patterns ==
            db.patterns[k := p.(confidence := p.confidence - 0.1, feedback := p.feedback - 1)]
    ensures var ps, input := db.patterns, db.interactions[id].input;
            AnsweredFrom(db, input, context, k)
            <==> if exists j :: Knows(ps, Normalize(input), j)
                 then forall j | 0 <= j < |ps| && ps[j].hash == Normalize(input) :: ps[j].confidence <= ps[k].confidence
                 else Tokens(input) != [] && LeadsItsTokens(db, Tokens(input), context, k)
  {
    PoorRatingLowers(db, id, rating, k);
    AnsweredFromExactly(db, db.interactions[id].input, context, k);
  }

  // ---------- memories ----------

  lemma {:induction false} WithoutAppend(ms: seq<Memory>, m: Memory, category: string, key: string)
    ensures WithoutMemory(ms + [m], category, key) ==
            WithoutMemory(ms, category, key) + if m.category == category && m.key == key then [] else [m]
  {
    assert (ms + [m])[..|ms|] == ms;
  }

  lemma {:induction false} WithoutUpdate(ms: seq<Memory>, k: nat, m: Memory)
    requires k < |ms| && m.category == ms[k].category && m.key == ms[k].key
    ensures WithoutMemory(ms[k := m], m.category, m.key) == WithoutMemory(ms, m.category, m.key)
  {
    var n := |ms| - 1;
    assert ms == ms[..n] + [ms[n]];
    WithoutAppend(ms[..n], ms[n], m.category, m.key);
    if k < n {
      WithoutUpdate(ms[..n], k, m);
      assert ms[k := m] == ms[..n][k := m] + [ms[n]];
      WithoutAppend(ms[..n][k := m], ms[n], m.category, m.key);
    } else {
      assert ms[k := m] == ms[..n] + [m];
      WithoutAppend(ms[..n], m, m.category, m.key);
    }
  }

  /**
   After memorizing, the key holds that value with that weight, in the only row of the key; and forgetting the key
   takes the table to where forgetting it before would have.
   */
  lemma {:induction false} MemorizedUntilForgotten(db: Db, category: string, key: string, value: string, weight: real)
    requires OneMemoryPerKey(db.memories)
    ensures var ms := Memorized(db, category, key, value, weight).memories;
            && OneMemoryPerKey(ms) && (exists m :: m in ms && m.category == category && m.key == key)
            && (forall m | m in ms && m.category == category && m.key == key :: m.value == value && m.weight == weight)
            && WithoutMemory(ms, category, key) == WithoutMemory(db.memories, category, key)
  {
    var found := FirstMemory(db.memories, category, key);
    var ms := Memorized(db, category, key, value, weight).memories;
    if found.Some? {
      WithoutUpdate(db.memories, found.value, ms[found.value]);
      assert ms[found.value] in ms;
    } else {
      WithoutAppend(db.memories, Memory(category, key, value, weight, 0), category, key);
      assert ms[|db.memories|] in ms;
    }
  }

  // ---------- the rules ----------

  /** A word with a space in it is a token of no input. */
  lemma {:induction false} SpacedIsNeverHeard(w: string, input: string)
    requires ' ' in w
    ensures w !in Tokens(input)
  {
    HeardExactly(w);
    assert !Plain(w);
  }

  /** One of the listed farewells has a space in it, so no input can ever trigger it. */
  lemma {:induction false} PhraseNeverHeard(input: string)
    ensures "auf wiedersehen" !in Tokens(input)
  {
    assert "auf wiedersehen"[3] == ' ';
    SpacedIsNeverHeard("auf wiedersehen", input);
  }
}

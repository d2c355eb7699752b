/** The learning engine: patterns learned from text, memories, and the four ways an input is answered. */
module Brain {
  import opened Prelude
  import opened Ranking
  import opened Similarity
  import opened Tokenizer

  /** `hash` stands for the digest of the normalized text, taken to be collision-free: the text itself. */
  datatype Pattern = Pattern(hash: string, input: string, output: string, context: Option<string>,
                             confidence: real, usage: int, feedback: int)

  datatype Memory = Memory(category: string, key: string, value: string, weight: real, accesses: nat)

  datatype Interaction = Interaction(user: Option<string>, input: string, output: string, context: Option<string>,
                                     rating: Option<int>)

  datatype Training = Training(category: string, input: string, output: string, weight: real, validated: bool)

  /** The tables, in table order. A pattern or interaction is identified by its position: neither is ever deleted. */
  datatype Db = Db(patterns: seq<Pattern>, memories: seq<Memory>, interactions: seq<Interaction>,
                   training: seq<Training>)

  datatype Source = PatternMatch | FuzzyMatch | FromMemory | RuleBased | Fallback

  datatype Response = Response(output: string, confidence: real, source: Source)

  datatype Row<T> = Row(id: nat, row: T)

  /** `context || null`. */
  function OrNull(context: Option<string>): Option<string> {
    if context == Some("") then None else context
  }

  function Rows<T>(table: seq<T>): seq<Row<T>> {
    seq(|table|, i requires 0 <= i < |table| => Row(i, table[i]))
  }

  // ---------- lookups ----------

  predicate HasKey(p: Pattern, hash: string, context: Option<string>) { p.hash == hash && p.context == context }

  function FirstWithKey(ps: seq<Pattern>, hash: string, context: Option<string>): (r: Option<nat>)
    ensures r.None? ==> forall i | 0 <= i < |ps| :: !HasKey(ps[i], hash, context)
    ensures r.Some? ==> r.value < |ps| && HasKey(ps[r.value], hash, context)
    ensures r.Some? ==> forall i | 0 <= i < r.value :: !HasKey(ps[i], hash, context)
  {
    if ps == [] then None else
      var n := |ps| - 1;
      var r := FirstWithKey(ps[..n], hash, context);
      if r.None? && HasKey(ps[n], hash, context) then Some(n) else r
  }

  function FirstWithHash(ps: seq<Pattern>, hash: string): (r: Option<nat>)
    ensures r.None? ==> forall i | 0 <= i < |ps| :: ps[i].hash != hash
    ensures r.Some? ==> r.value < |ps| && ps[r.value].hash == hash
    ensures r.Some? ==> forall i | 0 <= i < r.value :: ps[i].hash != hash
  {
    if ps == [] then None else
      var n := |ps| - 1;
      var r := FirstWithHash(ps[..n], hash);
      if r.None? && ps[n].hash == hash then Some(n) else r
  }

  function FirstMemory(ms: seq<Memory>, category: string, key: string): (r: Option<nat>)
    ensures r.None? ==> forall i | 0 <= i < |ms| :: !(ms[i].category == category && ms[i].key == key)
    ensures r.Some? ==> r.value < |ms| && ms[r.value].category == category && ms[r.value].key == key
  {
    if ms == [] then None else
      var n := |ms| - 1;
      var r := FirstMemory(ms[..n], category, key);
      if r.None? && ms[n].category == category && ms[n].key == key then Some(n) else r
  }

  function RowsWithHash(rows: seq<Row<Pattern>>, hash: string): seq<Row<Pattern>> {
    if rows == [] then [] else
      RowsWithHash(rows[..|rows| - 1], hash) + if rows[|rows| - 1].row.hash == hash then [rows[|rows| - 1]] else []
  }

  predicate InContext(p: Pattern, context: Option<string>) { OrNull(context).None? || p.context == context }

  function RowsInContext(rows: seq<Row<Pattern>>, context: Option<string>): seq<Row<Pattern>> {
    if rows == [] then [] else
      var rest, r := RowsInContext(rows[..|rows| - 1], context), rows[|rows| - 1];
      if InContext(r.row, context) then rest + [r] else rest
  }

  predicate InCategory(m: Memory, context: Option<string>) { OrNull(context).None? || context == Some(m.category) }

  function MemoriesIn(rows: seq<Row<Memory>>, context: Option<string>): seq<Row<Memory>> {
    if rows == [] then [] else
      var rest, r := MemoriesIn(rows[..|rows| - 1], context), rows[|rows| - 1];
      if InCategory(r.row, context) then rest + [r] else rest
  }

  function Confidence(r: Row<Pattern>): real { r.row.confidence }

  function Weight(r: Row<Memory>): real { r.row.weight }

  function Exact(ps: seq<Pattern>, hash: string): Option<Row<Pattern>> {
    var ranked := Ranked(RowsWithHash(Rows(ps), hash), Confidence);
    if ranked != [] && ranked[0].row.confidence > 0.7 then Some(ranked[0]) else None
  }

  function Candidates(ps: seq<Pattern>, context: Option<string>): seq<Row<Pattern>> {
    Take(Ranked(RowsInContext(Rows(ps), context), Confidence), 100)
  }

  function Recalled(ms: seq<Memory>, context: Option<string>): seq<Row<Memory>> {
    Take(Ranked(MemoriesIn(Rows(ms), context), Weight), 50)
  }

  // ---------- the two searches ----------

  function Score(tokens: seq<string>, r: Row<Pattern>): real {
    CalculateSimilarity(tokens, Tokens(r.row.input))
  }

  function MemoryScore(tokens: seq<string>, r: Row<Memory>): real {
    CalculateSimilarity(tokens, Tokens(r.row.key))
  }

  function Scorer(tokens: seq<string>): Row<Pattern> -> real { r => Score(tokens, r) }

  function MemoryScorer(tokens: seq<string>): Row<Memory> -> real { r => MemoryScore(tokens, r) }

  function Scores<T>(rows: seq<T>, score: T -> real): (s: seq<real>)
    ensures |s| == |rows|
  {
    seq(|rows|, i requires 0 <= i < |rows| => score(rows[i]))
  }

  /** The first of the greatest scores, if it is above one half. */
  ghost predicate IsBest(scores: seq<real>, best: Option<nat>) {
    match best
    case None => forall j | 0 <= j < |scores| :: scores[j] <= 0.5
    case Some(k) =>
      && k < |scores| && scores[k] > 0.5
      && (forall j | 0 <= j < |scores| :: scores[j] <= scores[k])
      && (forall j | 0 <= j < k :: scores[j] < scores[k])
  }

  function Best(scores: seq<real>): (best: Option<nat>)
    ensures IsBest(scores, best)
  {
    if scores == [] then None else
      var n := |scores| - 1;
      var init := Best(scores[..n]);
      if scores[n] > 0.5 && (init.None? || scores[n] > scores[init.value]) then Some(n) else init
  }

  lemma BestExtends(scores: seq<real>, i: nat)
    requires i < |scores|
    ensures Best(scores[..i + 1]) ==
            if scores[i] > 0.5 && (Best(scores[..i]).None? || scores[i] > scores[Best(scores[..i]).value]) then Some(i)
            else Best(scores[..i])
  {
    assert scores[..i + 1][..i] == scores[..i];
  }

  /** The best-match loop. */
  method FindBest<T>(rows: seq<T>, score: T -> real) returns (best: Option<nat>)
    ensures best == Best(Scores(rows, score)) && IsBest(Scores(rows, score), best)
  {
    ghost var scores := Scores(rows, score);
    best := None;
    var greatest := 0.0;
    for i := 0 to |rows|
      invariant best == Best(scores[..i])
      invariant best.Some? ==> greatest == scores[best.value]
    {
      var similarity := score(rows[i]);
      BestExtends(scores, i);
      if similarity > 0.5 && (best.None? || similarity > greatest) {
        best, greatest := Some(i), similarity;
      }
    }
    assert scores[..|rows|] == scores;
  }

  /** The first score that passes the threshold of the memories. */
  ghost predicate IsFirstFit(scores: seq<real>, fit: Option<nat>) {
    match fit
    case None => forall j | 0 <= j < |scores| :: scores[j] <= 0.4
    case Some(k) => k < |scores| && scores[k] > 0.4 && forall j | 0 <= j < k :: scores[j] <= 0.4
  }

  function FirstFit(scores: seq<real>): (fit: Option<nat>)
    ensures IsFirstFit(scores, fit)
  {
    if scores == [] then None else
      var n := |scores| - 1;
      var init := FirstFit(scores[..n]);
      if init.None? && scores[n] > 0.4 then Some(n) else init
  }

  lemma FirstFitIsUnique(scores: seq<real>, a: Option<nat>, b: Option<nat>)
    requires IsFirstFit(scores, a) && IsFirstFit(scores, b)
    ensures a == b
  {
  }

  /** The first-fit loop. */
  method FindFit<T>(rows: seq<T>, score: T -> real) returns (fit: Option<nat>)
    ensures fit == FirstFit(Scores(rows, score)) && IsFirstFit(Scores(rows, score), fit)
  {
    ghost var scores := Scores(rows, score);
    fit := None;
    var i := 0;
    while i < |rows| && fit.None?
      invariant i <= |rows|
      invariant fit.None? ==> forall j | 0 <= j < i :: scores[j] <= 0.4
      invariant fit.Some? ==> IsFirstFit(scores, fit)
    {
      if score(rows[i]) > 0.4 { fit := Some(i); }
      i := i + 1;
    }
    FirstFitIsUnique(scores, fit, FirstFit(scores));
  }

  function MostAlike<T>(rows: seq<T>, score: T -> real): (r: Option<T>)
    ensures r.Some? ==> r.value in rows
  {
    var best := Best(Scores(rows, score));
    if best.None? then None else Some(rows[best.value])
  }

  function FirstPassing<T>(rows: seq<T>, score: T -> real): (r: Option<T>)
    ensures r.Some? ==> r.value in rows
  {
    var fit := FirstFit(Scores(rows, score));
    if fit.None? then None else Some(rows[fit.value])
  }

  // ---------- rules ----------

  const GREETINGS: set<string> := {"hello", "hi", "hey", "hallo", "moin", "servus", "gr\U{fc}\U{df}e"}
  const FAREWELLS: set<string> := {"bye", "goodbye", "tsch\U{fc}ss", "ciao", "auf wiedersehen"}
  const THANKS: set<string> := {"thanks", "thank", "danke", "thx"}
  const HELP: set<string> := {"help", "hilfe", "support", "assist"}

  predicate Mentions(tokens: seq<string>, words: set<string>) { exists t :: t in tokens && t in words }

  function GenerateResponse(tokens: seq<string>, context: Option<string>): Response {
    if Mentions(tokens, GREETINGS) then
      Response("Hallo! Wie kann ich dir helfen? / Hello! How can I help you?", 0.9, RuleBased)
    else if Mentions(tokens, FAREWELLS) then
      Response("Auf Wiedersehen! / Goodbye!", 0.9, RuleBased)
    else if Mentions(tokens, THANKS) then
      Response("Gerne! / You're welcome!", 0.9, RuleBased)
    else if Mentions(tokens, HELP) then
      Response("Ich bin das UplyTech AI Brain. Ich lerne aus Interaktionen und kann bei verschiedenen Themen helfen. "
               + "Was m\U{f6}chtest du wissen?", 0.8, RuleBased)
    else
      Response("Ich habe deine Nachricht verstanden, aber ich lerne noch dazu. Kontext: "
               + (if OrNull(context).Some? then context.value else "allgemein")
               + ". Bitte hilf mir, indem du Feedback gibst!", 0.3, Fallback)
  }

  // ---------- what each call does to the tables ----------

  function Accessed(db: Db, id: nat): Db
    requires id < |db.patterns|
  {
    db.(patterns := db.patterns[id := db.patterns[id].(usage := db.patterns[id].usage + 1)])
  }

  function Recorded(db: Db, input: string, output: string, context: Option<string>, user: Option<string>): Db {
    db.(interactions := db.interactions + [Interaction(OrNull(user), input, output, OrNull(context), None)])
  }

  /** The first recalled memory that fits the input. */
  function Fitting(db: Db, tokens: seq<string>, context: Option<string>): (r: Option<Row<Memory>>)
    ensures r.Some? ==> IsRow(db.memories, r.value)
  {
    RecalledAreRows(db.memories, context);
    FirstPassing(Recalled(db.memories, context), MemoryScorer(tokens))
  }

  function Refreshed(db: Db, r: Row<Memory>): Db
    requires IsRow(db.memories, r)
  {
    db.(memories := db.memories[r.id := r.row.(accesses := r.row.accesses + 1)])
  }

  function Weighted(similarity: real, weight: real): real { similarity * weight }

  function Recollection(tokens: seq<string>, r: Row<Memory>): Response {
    Response(r.row.value, Weighted(MemoryScore(tokens, r), r.row.weight), FromMemory)
  }

  function Recall(r: Row<Pattern>): Response { Response(r.row.output, r.row.confidence, PatternMatch) }

  function Resemblance(tokens: seq<string>, r: Row<Pattern>): Response {
    Response(r.row.output, Weighted(Score(tokens, r), r.row.confidence), FuzzyMatch)
  }

  /** The candidate that resembles the input best. */
  function Closest(db: Db, tokens: seq<string>, context: Option<string>): (r: Option<Row<Pattern>>)
    ensures r.Some? ==> IsRow(db.patterns, r.value)
  {
    CandidatesAreRows(db.patterns, context);
    MostAlike(Candidates(db.patterns, context), Scorer(tokens))
  }

  /** Which of the four answers is given, and what giving it does to the tables. */
  function Choose(db: Db, exact: Option<Row<Pattern>>, closest: Option<Row<Pattern>>, fitting: Option<Row<Memory>>,
                  tokens: seq<string>, context: Option<string>): (Db, Response)
    requires exact.Some? ==> IsRow(db.patterns, exact.value)
    requires closest.Some? ==> IsRow(db.patterns, closest.value)
    requires fitting.Some? ==> IsRow(db.memories, fitting.value)
  {
    if exact.Some? then (Accessed(db, exact.value.id), Recall(exact.value))
    else if closest.Some? then (Accessed(db, closest.value.id), Resemblance(tokens, closest.value))
    else if fitting.Some? then (Refreshed(db, fitting.value), Recollection(tokens, fitting.value))
    else (db, GenerateResponse(tokens, context))
  }

  /** The answer to an input, and the tables after finding it. */
  function Answered(db: Db, input: string, context: Option<string>): (Db, Response) {
    ExactIsRow(db.patterns, Normalize(input));
    Choose(db, Exact(db.patterns, Normalize(input)), Closest(db, Tokens(input), context),
           Fitting(db, Tokens(input), context), Tokens(input), context)
  }

  function Processed(db: Db, input: string, context: Option<string>, user: Option<string>): (Db, Response) {
    var r := Answered(db, input, context);
    (Recorded(r.0, input, r.1.output, context, user), r.1)
  }

  function Learned(db: Db, input: string, output: string, context: Option<string>, confidence: real): Db {
    var hash := Normalize(input);
    var found := FirstWithKey(db.patterns, hash, OrNull(context));
    if found.Some? then
      var p := db.patterns[found.value];
      var again := p.(output := output, confidence := p.confidence + 0.05, usage := p.usage + 1);
      db.(patterns := db.patterns[found.value := again])
    else
      db.(patterns := db.patterns + [Pattern(hash, Normalize(input), output, OrNull(context), confidence, 0, 0)])
  }

  function Memorized(db: Db, category: string, key: string, value: string, weight: real): Db {
    var found := FirstMemory(db.memories, category, key);
    if found.Some? then
      db.(memories := db.memories[found.value := db.memories[found.value].(value := value, weight := weight)])
    else
      db.(memories := db.memories + [Memory(category, key, value, weight, 0)])
  }

  function WithoutMemory(ms: seq<Memory>, category: string, key: string): (r: seq<Memory>)
    ensures forall m :: m in r <==> m in ms && !(m.category == category && m.key == key)
  {
    if ms == [] then [] else
      var rest, m := WithoutMemory(ms[..|ms| - 1], category, key), ms[|ms| - 1];
      assert ms == ms[..|ms| - 1] + [m];
      if m.category == category && m.key == key then rest else rest + [m]
  }

  function Doubted(db: Db, input: string): Db {
    var found := FirstWithHash(db.patterns, Normalize(input));
    if found.None? then db else
      var p := db.patterns[found.value];
      db.(patterns := db.patterns[found.value := p.(confidence := p.confidence - 0.1, feedback := p.feedback - 1)])
  }

  function Rated(db: Db, id: nat, rating: int): Db {
    if id >= |db.interactions| then db else
      var seen := db.interactions[id];
      var marked := db.(interactions := db.interactions[id := seen.(rating := Some(rating))]);
      var taught := if rating >= 4 then Learned(marked, seen.input, seen.output, seen.context, 0.9) else marked;
      if rating <= 2 then Doubted(taught, seen.input) else taught
  }

  predicate Selected(d: Training, category: Option<string>) {
    d.validated && (OrNull(category).None? || category == Some(d.category))
  }

  /** Learns the first `n` rows of the training table that are selected. */
  function Trained(db: Db, category: Option<string>, n: nat): Db
    requires n <= |db.training|
    ensures Trained(db, category, n).training == db.training
  {
    if n == 0 then db else
      var before, d := Trained(db, category, n - 1), db.training[n - 1];
      if Selected(d, category) then Learned(before, d.input, d.output, Some(d.category), d.weight) else before
  }

  /** How many of the first `n` rows of the training table are selected. */
  function CountSelected(ds: seq<Training>, category: Option<string>, n: nat): nat
    requires n <= |ds|
  {
    if n == 0 then 0 else CountSelected(ds, category, n - 1) + if Selected(ds[n - 1], category) then 1 else 0
  }

  // ---------- rows found are rows of the table ----------

  lemma {:induction false} HashRows(rows: seq<Row<Pattern>>, hash: string)
    ensures forall r :: r in RowsWithHash(rows, hash) <==> r in rows && r.row.hash == hash
  {
    if rows != [] {
      HashRows(rows[..|rows| - 1], hash);
      assert rows == rows[..|rows| - 1] + [rows[|rows| - 1]];
    }
  }

  lemma {:induction false} ContextRows(rows: seq<Row<Pattern>>, context: Option<string>)
    ensures forall r :: r in RowsInContext(rows, context) <==> r in rows && InContext(r.row, context)
  {
    if rows != [] {
      ContextRows(rows[..|rows| - 1], context);
      assert rows == rows[..|rows| - 1] + [rows[|rows| - 1]];
    }
  }

  lemma {:induction false} CategoryRows(rows: seq<Row<Memory>>, context: Option<string>)
    ensures forall r :: r in MemoriesIn(rows, context) <==> r in rows && InCategory(r.row, context)
  {
    if rows != [] {
      CategoryRows(rows[..|rows| - 1], context);
      assert rows == rows[..|rows| - 1] + [rows[|rows| - 1]];
    }
  }

  lemma {:induction false} RankedHas<T>(s: seq<T>, key: T -> real)
    ensures forall x :: x in Ranked(s, key) <==> x in s
    ensures |Ranked(s, key)| == |s|
  {
    RankedIsStableSort(s, key);
    var r := Ranked(s, key);
    assert |r| == |multiset(r)| == |multiset(s)| == |s|;
    forall x ensures x in r <==> x in s {
      assert x in multiset(r) <==> x in multiset(s);
    }
  }

  predicate IsRow<T(==)>(table: seq<T>, r: Row<T>) { r.id < |table| && r.row == table[r.id] }

  lemma RowsAreRows<T>(table: seq<T>)
    ensures forall r :: r in Rows(table) <==> IsRow(table, r)
  {
    forall r | IsRow(table, r) ensures r in Rows(table) {
      assert Rows(table)[r.id] == r;
    }
  }

  /** The first of the most confident rows with the hash. */
  ghost predicate IsTop(ps: seq<Pattern>, hash: string, r: Row<Pattern>) {
    && IsRow(ps, r) && r.row.hash == hash
    && (forall i | 0 <= i < |ps| && ps[i].hash == hash :: ps[i].confidence <= r.row.confidence)
    && (forall i | 0 <= i < r.id && ps[i].hash == hash :: ps[i].confidence < r.row.confidence)
  }

  ghost predicate Ascending(rows: seq<Row<Pattern>>, bound: nat) {
    && (forall a | 0 <= a < |rows| :: rows[a].id < bound)
    && (forall a, b | 0 <= a < b < |rows| :: rows[a].id < rows[b].id)
  }

  lemma {:induction false} HashRowsAscend(rows: seq<Row<Pattern>>, hash: string)
    requires forall i | 0 <= i < |rows| :: rows[i].id == i
    ensures Ascending(RowsWithHash(rows, hash), |rows|)
  {
    if rows != [] {
      var n := |rows| - 1;
      HashRowsAscend(rows[..n], hash);
      assert Ascending(RowsWithHash(rows[..n], hash), n);
    }
  }

  lemma {:induction false} FoundRow(ps: seq<Pattern>, hash: string, i: nat) returns (j: nat)
    requires i < |ps| && ps[i].hash == hash
    ensures var found := RowsWithHash(Rows(ps), hash); j < |found| && found[j] == Row(i, ps[i])
  {
    RowsAreRows(ps);
    HashRows(Rows(ps), hash);
    assert IsRow(ps, Row(i, ps[i]));
    j :| 0 <= j < |RowsWithHash(Rows(ps), hash)| && RowsWithHash(Rows(ps), hash)[j] == Row(i, ps[i]);
  }

  /** An exact hit is the first of the most confident rows with the hash, and above the bar. */
  lemma {:induction false} ExactIsRow(ps: seq<Pattern>, hash: string)
    ensures Exact(ps, hash).Some? ==> IsTop(ps, hash, Exact(ps, hash).value)
    ensures Exact(ps, hash).Some? ==> Exact(ps, hash).value.row.confidence > 0.7
    ensures Exact(ps, hash).None? ==> forall i | 0 <= i < |ps| && ps[i].hash == hash :: ps[i].confidence <= 0.7
  {
    var found := RowsWithHash(Rows(ps), hash);
    if found == [] {
      forall i | 0 <= i < |ps| ensures ps[i].hash != hash {
        if ps[i].hash == hash {
          var j := FoundRow(ps, hash, i);
        }
      }
    } else {
      var head := RankedHead(found, Confidence);
      RowsAreRows(ps);
      HashRows(Rows(ps), hash);
      assert found[head] in found;
      forall i | 0 <= i < |ps| && ps[i].hash == hash
        ensures ps[i].confidence <= found[head].row.confidence
        ensures i < found[head].id ==> ps[i].confidence < found[head].row.confidence
      {
        HeadBeats(ps, hash, head, i);
      }
    }
  }

  /** The first of the most confident among the rows found beats every row of the table with the hash. */
  lemma {:induction false} HeadBeats(ps: seq<Pattern>, hash: string, head: nat, i: nat)
    requires var found := RowsWithHash(Rows(ps), hash);
             && head < |found|
             && (forall j | 0 <= j < |found| :: Confidence(found[j]) <= Confidence(found[head]))
             && (forall j | 0 <= j < head :: Confidence(found[j]) < Confidence(found[head]))
    requires i < |ps| && ps[i].hash == hash
    ensures var top := RowsWithHash(Rows(ps), hash)[head];
            && ps[i].confidence <= top.row.confidence
            && (i < top.id ==> ps[i].confidence < top.row.confidence)
  {
    var found := RowsWithHash(Rows(ps), hash);
    var j := FoundRow(ps, hash, i);
    HashRowsAscend(Rows(ps), hash);
    assert Confidence(found[j]) == ps[i].confidence;
  }

  lemma {:induction false} CandidatesAreRows(ps: seq<Pattern>, context: Option<string>)
    ensures forall r | r in Candidates(ps, context) :: IsRow(ps, r) && InContext(r.row, context)
  {
    RowsAreRows(ps);
    ContextRows(Rows(ps), context);
    var rows := RowsInContext(Rows(ps), context);
    RankedHas(rows, Confidence);
    assert forall r | r in Candidates(ps, context) :: r in Ranked(rows, Confidence);
  }

  lemma {:induction false} RecalledAreRows(ms: seq<Memory>, context: Option<string>)
    ensures forall r | r in Recalled(ms, context) :: IsRow(ms, r) && InCategory(r.row, context)
  {
    RowsAreRows(ms);
    CategoryRows(Rows(ms), context);
    var rows := MemoriesIn(Rows(ms), context);
    RankedHas(rows, Weight);
    assert forall r | r in Recalled(ms, context) :: r in Ranked(rows, Weight);
  }
}

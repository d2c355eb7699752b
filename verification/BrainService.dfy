/** The chat service's knowledge: an in-memory cache beside its table, and the search that answers a message. */
module BrainService {
  import opened Prelude
  import opened Text

  type Id = nat
  type Time = int

  datatype Entry = Entry(pattern: string, response: string, category: string, confidence: real,
                         usage: int, lastUsed: Option<Time>)

  datatype Item = Item(id: Id, entry: Entry)

  datatype Lesson = Lesson(pattern: string, response: string, category: string, confidence: Option<real>)

  /** The cache in its iteration order, which is insertion order; the table by id; fresh ids are counted up. */
  datatype State = State(knowledge: seq<Item>, table: map<Id, Entry>, next: Id)

  // ---------- the cache as a map that remembers insertion order ----------

  predicate Holds(items: seq<Item>, id: Id) { exists i :: 0 <= i < |items| && items[i].id == id }

  function Set(items: seq<Item>, id: Id, entry: Entry): seq<Item> {
    if items == [] then [Item(id, entry)]
    else if items[0].id == id then [Item(id, entry)] + items[1..]
    else [items[0]] + Set(items[1..], id, entry)
  }

  function Delete(items: seq<Item>, id: Id): seq<Item> {
    if items == [] then []
    else if items[0].id == id then items[1..]
    else [items[0]] + Delete(items[1..], id)
  }

  ghost predicate Distinct(items: seq<Item>) {
    forall i, j | 0 <= i < j < |items| :: items[i].id != items[j].id
  }

  /** The cache and the table hold the same entries under the same ids. */
  ghost predicate Agree(items: seq<Item>, table: map<Id, Entry>) {
    && Distinct(items)
    && (forall i | 0 <= i < |items| :: items[i].id in table && table[items[i].id] == items[i].entry)
    && (forall id | id in table :: Holds(items, id))
  }

  // ---------- scoring ----------

  predicate PartAt(s: string, part: string, i: nat) { i + |part| <= |s| && s[i..i + |part|] == part }

  /** `s.includes(part)`. */
  predicate Includes(s: string, part: string) { exists i | 0 <= i <= |s| :: PartAt(s, part, i) }

  function Words(s: string): (ws: seq<string>)
    ensures ws != []
  {
    SplitBy(s, IsSpace)
  }

  predicate Related(pw: string, iw: string) { Includes(iw, pw) || Includes(pw, iw) }

  predicate Matched(pw: string, inputWords: seq<string>) {
    exists j :: 0 <= j < |inputWords| && Related(pw, inputWords[j])
  }

  function MatchCount(patternWords: seq<string>, inputWords: seq<string>): (n: nat)
    ensures n <= |patternWords|
  {
    if patternWords == [] then 0 else
      var k := |patternWords| - 1;
      MatchCount(patternWords[..k], inputWords) + if Matched(patternWords[k], inputWords) then 1 else 0
  }

  function Rate(matches: nat, words: nat, confidence: real): real
    requires words > 0
  {
    (matches as real / words as real) * confidence
  }

  function Score(entry: Entry, inputLower: string): real {
    var patternWords := Words(ToLower(entry.pattern));
    Rate(MatchCount(patternWords, Words(inputLower)), |patternWords|, entry.confidence)
  }

  function ScoresOf(items: seq<Item>, inputLower: string): (s: seq<real>)
    ensures |s| == |items|
  {
    seq(|items|, i requires 0 <= i < |items| => Score(items[i].entry, inputLower))
  }

  // ---------- the search over a list of scores ----------

  /** `bestScore` after the loop has seen these scores. */
  function BestScore(scores: seq<real>): real
    decreases |scores|, 0
  {
    if scores == [] then 0.0 else
      var n := |scores| - 1;
      if Improves(scores, n) then scores[n] else BestScore(scores[..n])
  }

  /** The test of the loop at score `n`. */
  predicate Improves(scores: seq<real>, n: nat)
    requires n < |scores|
    decreases n, 1
  {
    scores[n] > BestScore(scores[..n]) && scores[n] > 0.3
  }

  function BestIndex(scores: seq<real>): (k: Option<nat>)
    ensures k.Some? ==> k.value < |scores|
  {
    if scores == [] then None else
      var n := |scores| - 1;
      if Improves(scores, n) then Some(n) else BestIndex(scores[..n])
  }

  /** Above 0.3, and strictly above everything before it. */
  ghost predicate Record(scores: seq<real>, n: nat)
    requires n < |scores|
  {
    scores[n] > 0.3 && forall j | 0 <= j < n :: scores[j] < scores[n]
  }

  /** The best score so far is the largest score above 0.3, or zero. */
  lemma {:induction false} BestScoreIs(scores: seq<real>)
    ensures var best := BestScore(scores);
            && (forall j | 0 <= j < |scores| :: scores[j] <= 0.3 || scores[j] <= best)
            && (best == 0.0 || (best > 0.3 && best in scores))
    ensures match BestIndex(scores)
            case None => BestScore(scores) == 0.0
            case Some(k) => scores[k] == BestScore(scores) && forall j | 0 <= j < k :: scores[j] < scores[k]
  {
    if scores != [] {
      var n := |scores| - 1;
      BestScoreIs(scores[..n]);
      assert scores == scores[..n] + [scores[n]];
    }
  }

  /** The loop's test, against the best score so far, holds exactly at the records. */
  lemma {:induction false} ImprovesExactlyAtRecords(scores: seq<real>, n: nat)
    requires n < |scores|
    ensures Improves(scores, n) <==> Record(scores, n)
  {
    var before := scores[..n];
    BestScoreIs(before);
    if Record(scores, n) && BestScore(before) != 0.0 {
      var j :| 0 <= j < n && before[j] == BestScore(before);
      assert scores[j] == before[j];
    }
    if Improves(scores, n) {
      forall j | 0 <= j < n ensures scores[j] < scores[n] {
        assert before[j] == scores[j];
      }
    }
  }

  /** The first entry attaining the maximum, when some score is above one half. */
  ghost predicate FirstMaximum(scores: seq<real>, k: nat) {
    && k < |scores| && scores[k] > 0.5
    && (forall j | 0 <= j < |scores| :: scores[j] <= scores[k])
    && (forall j | 0 <= j < k :: scores[j] < scores[k])
  }

  /** The search returns a match exactly when some score is above one half, and then the first of the greatest. */
  lemma {:induction false} SearchExactly(scores: seq<real>)
    ensures BestScore(scores) > 0.5 <==> exists j :: 0 <= j < |scores| && scores[j] > 0.5
    ensures BestScore(scores) > 0.5 ==> BestIndex(scores).Some? && FirstMaximum(scores, BestIndex(scores).value)
  {
    BestScoreIs(scores);
  }

  // ---------- the operations ----------

  datatype Op =
    | Train(lesson: Lesson)
    | TrainBatch(lessons: seq<Lesson>)
    | Remove(id: Id)
    | Ask(input: string, times: seq<Time>)

  /** `data.confidence || 0.8`. */
  function Trust(confidence: Option<real>): real {
    if confidence.Some? && confidence.value != 0.0 then confidence.value else 0.8
  }

  function Learned(lesson: Lesson): Entry {
    Entry(lesson.pattern, lesson.response, lesson.category, Trust(lesson.confidence), 0, None)
  }

  function Trained(st: State, lesson: Lesson): State {
    State(Set(st.knowledge, st.next, Learned(lesson)), st.table[st.next := Learned(lesson)], st.next + 1)
  }

  function TrainedAll(st: State, lessons: seq<Lesson>): State {
    if lessons == [] then st else Trained(TrainedAll(st, lessons[..|lessons| - 1]), lessons[|lessons| - 1])
  }

  function Bumped(entry: Entry, now: Time): Entry { entry.(usage := entry.usage + 1, lastUsed := Some(now)) }

  /** The write of the two counters; a row that is gone is left gone. */
  function Written(table: map<Id, Entry>, id: Id, entry: Entry): map<Id, Entry> {
    if id in table then table[id := table[id].(usage := entry.usage, lastUsed := entry.lastUsed)] else table
  }

  function UsedAt(st: State, k: nat, now: Time): State
    requires k < |st.knowledge|
  {
    var item := st.knowledge[k];
    var entry := Bumped(item.entry, now);
    st.(knowledge := st.knowledge[k := Item(item.id, entry)], table := Written(st.table, item.id, entry))
  }

  /** The tables after the search loop has passed the first `n` entries, reading the clock at each. */
  function Searched(st: State, scores: seq<real>, times: seq<Time>, n: nat): (r: State)
    requires n <= |st.knowledge| == |scores| && |times| >= |scores|
    ensures |r.knowledge| == |st.knowledge|
  {
    if n == 0 then st else
      var before := Searched(st, scores, times, n - 1);
      if !Improves(scores, n - 1) then before else
        UsedAt(before, n - 1, times[n - 1])
  }

  const HELP_TEXT :=
    "Ich bin UplyBrain, der integrierte Assistent von UplyTech. Ich kann dir bei Fragen zu unseren Produkten, "
    + "Services und der Plattform helfen. Was m\U{f6}chtest du wissen?"
  const STATUS_TEXT := "Alle Systeme laufen normal. Die API ist voll funktionsf\U{e4}hig mit allen Modulen aktiv."
  const GREETING := "Hallo! Wie kann ich dir helfen?"
  const FALLBACK :=
    "Ich habe deine Nachricht verstanden. Leider habe ich dazu noch nicht genug gelernt. Mein Wissensschatz wird "
    + "stetig erweitert. Kann ich dir bei etwas anderem helfen?"

  function Canned(inputLower: string): string {
    if Includes(inputLower, "hilfe") || Includes(inputLower, "help") then HELP_TEXT
    else if Includes(inputLower, "status") || Includes(inputLower, "system") then STATUS_TEXT
    else if Includes(inputLower, "hallo") || Includes(inputLower, "hi") || Includes(inputLower, "hey") then GREETING
    else FALLBACK
  }

  function Reply(items: seq<Item>, scores: seq<real>, inputLower: string): string
    requires |scores| == |items|
  {
    if BestIndex(scores).Some? && BestScore(scores) > 0.5 then items[BestIndex(scores).value].entry.response
    else Canned(inputLower)
  }

  function Answer(st: State, input: string): string {
    Reply(st.knowledge, ScoresOf(st.knowledge, ToLower(input)), ToLower(input))
  }

  predicate Timed(st: State, op: Op) { op.Ask? ==> |op.times| >= |st.knowledge| }

  function Step(st: State, op: Op): (State, bool)
    requires Timed(st, op)
  {
    match op
    case Train(lesson) => (Trained(st, lesson), true)
    case TrainBatch(lessons) => (TrainedAll(st, lessons), true)
    case Remove(id) => (State(Delete(st.knowledge, id), st.table - {id}, st.next), id in st.table)
    case Ask(input, times) => (Searched(st, ScoresOf(st.knowledge, ToLower(input)), times, |st.knowledge|), true)
  }

  // ---------- the class ----------

  class BrainService {
    var knowledge: seq<Item>
    var table: map<Id, Entry>
    var next: Id

    ghost function Now(): State
      reads this
    {
      State(knowledge, table, next)
    }

    /** A service over an existing table, with nothing loaded yet. */
    constructor (table: map<Id, Entry>, next: Id)
      ensures Now() == State([], table, next)
    {
      knowledge, this.table, this.next := [], table, next;
    }

    /** `rows` is the order in which the table is read; `None` when reading it fails, which is swallowed. */
    method LoadKnowledge(rows: Option<seq<Id>>)
      requires knowledge == []
      requires rows.Some? ==> forall i, j | 0 <= i < j < |rows.value| :: rows.value[i] != rows.value[j]
      requires rows.Some? ==> forall id :: id in rows.value <==> id in table
      modifies this`knowledge
      ensures rows.None? ==> knowledge == []
      ensures rows.Some? ==> |knowledge| == |rows.value|
      ensures rows.Some? ==>
                forall i | 0 <= i < |rows.value| :: knowledge[i] == Item(rows.value[i], table[rows.value[i]])
      ensures Agree(knowledge, table) <==> rows.Some? || table == map[]
    {
      if rows.None? {
        assert !exists id :: Holds(knowledge, id);
        return;
      }
      var ids := rows.value;
      for k := 0 to |ids|
        invariant |knowledge| == k
        invariant forall i | 0 <= i < k :: ids[i] in table && knowledge[i] == Item(ids[i], table[ids[i]])
      {
        assert ids[k] in ids;
        NewAtTheEnd(knowledge, ids[k], table[ids[k]]);
        knowledge := Set(knowledge, ids[k], table[ids[k]]);
      }
      forall id | id in table ensures Holds(knowledge, id) {
        var i :| 0 <= i < |ids| && ids[i] == id;
        assert knowledge[i].id == id;
      }
    }

    method Train(lesson: Lesson) returns (id: Id)
      modifies this
      ensures Now() == Trained(old(Now()), lesson) && id == old(next)
    {
      id := next;
      next := next + 1;
      var entry := Entry(lesson.pattern, lesson.response, lesson.category, Trust(lesson.confidence), 0, None);
      table := table[id := entry];
      knowledge := Set(knowledge, id, entry);
    }

    method TrainBatch(lessons: seq<Lesson>) returns (trained: nat)
      modifies this
      ensures Now() == TrainedAll(old(Now()), lessons) && trained == |lessons|
    {
      trained := 0;
      for i := 0 to |lessons|
        invariant Now() == TrainedAll(old(Now()), lessons[..i]) && trained == i
      {
        assert lessons[..i + 1][..i] == lessons[..i];
        var _ := Train(lessons[i]);
        trained := trained + 1;
      }
      assert lessons[..|lessons|] == lessons;
    }

    method DeleteKnowledge(id: Id) returns (ok: bool)
      modifies this
      ensures (Now(), ok) == Step(old(Now()), Remove(id))
    {
      knowledge := Delete(knowledge, id);
      if id !in table {
        assert table - {id} == table;
        return false;
      }
      table := table - {id};
      return true;
    }

    /** Counts one use of the entry, in the cache and then in the table. */
    method RecordUse(k: nat, now: Time)
      requires k < |knowledge|
      modifies this`knowledge, this`table
      ensures Now() == UsedAt(old(Now()), k, now)
    {
      var item := knowledge[k];
      var entry := item.entry.(usage := item.entry.usage + 1, lastUsed := Some(now));
      knowledge := knowledge[k := Item(item.id, entry)];
      if item.id in table {
        table := table[item.id := table[item.id].(usage := entry.usage, lastUsed := entry.lastUsed)];
      }
    }

    /** Where the search loop stands after `i` entries. */
    ghost predicate At(before: State, scores: seq<real>, times: seq<Time>, i: nat, bestMatch: Option<string>,
        bestScore: real)
      reads this
    {
      && i <= |before.knowledge| == |scores| == |knowledge| && |times| >= |scores|
      && Now() == Searched(before, scores, times, i)
      && (forall j | i <= j < |knowledge| :: knowledge[j] == before.knowledge[j])
      && bestScore == BestScore(scores[..i])
      && bestMatch ==
         var k := BestIndex(scores[..i]); if k.None? then None else Some(before.knowledge[k.value].entry.response)
    }

    /** The body of the search loop, once entry `i` has been scored. */
    method Consider(i: nat, score: real, now: Time, bestMatch: Option<string>, bestScore: real,
                    ghost before: State, ghost scores: seq<real>, ghost times: seq<Time>)
      returns (found: Option<string>, best: real)
      requires At(before, scores, times, i, bestMatch, bestScore) && i < |knowledge|
      requires score == scores[i] && now == times[i]
      modifies this
      ensures At(before, scores, times, i + 1, found, best)
    {
      found, best := bestMatch, bestScore;
      SearchExtends(scores, i);
      if score > bestScore && score > 0.3 {
        best, found := score, Some(knowledge[i].entry.response);
        RecordUse(i, now);
      }
    }

    /** The whole body of the search loop: scores entry `i` and considers it. */
    method ConsiderEntry(i: nat, inputLower: string, now: Time, bestMatch: Option<string>, bestScore: real,
                         ghost before: State, ghost times: seq<Time>)
      returns (found: Option<string>, best: real)
      requires At(before, ScoresOf(before.knowledge, inputLower), times, i, bestMatch, bestScore)
      requires i < |knowledge| && now == times[i]
      modifies this
      ensures At(before, ScoresOf(before.knowledge, inputLower), times, i + 1, found, best)
    {
      assert knowledge[i] == before.knowledge[i];
      ScoreAt(before.knowledge, inputLower, i);
      var score := ScoreEntry(knowledge[i].entry, inputLower);
      found, best := Consider(i, score, now, bestMatch, bestScore, before,
                              ScoresOf(before.knowledge, inputLower), times);
    }

    method Search(inputLower: string, times: seq<Time>) returns (bestMatch: Option<string>, bestScore: real)
      requires |times| >= |knowledge|
      modifies this
      ensures At(old(Now()), ScoresOf(old(knowledge), inputLower), times, |old(knowledge)|, bestMatch, bestScore)
    {
      ghost var before := Now();
      bestMatch, bestScore := None, 0.0;
      var i := 0;
      while i < |knowledge|
        invariant At(before, ScoresOf(before.knowledge, inputLower), times, i, bestMatch, bestScore)
      {
        bestMatch, bestScore := ConsiderEntry(i, inputLower, times[i], bestMatch, bestScore, before, times);
        i := i + 1;
      }
    }

    method GenerateResponse(input: string, times: seq<Time>) returns (response: string)
      requires |times| >= |knowledge|
      modifies this
      ensures (Now(), true) == Step(old(Now()), Ask(input, times)) && response == Answer(old(Now()), input)
    {
      var inputLower := ToLower(input);
      ghost var scores := ScoresOf(knowledge, inputLower);
      var bestMatch, bestScore := Search(inputLower, times);
      assert scores[..|scores|] == scores;
      if bestMatch.Some? && bestScore > 0.5 { return bestMatch.value; }
      return Canned(inputLower);
    }
  }

  /** The two nested loops over the words of a pattern and of the message. */
  method ScoreEntry(entry: Entry, inputLower: string) returns (score: real)
    ensures score == Score(entry, inputLower)
  {
    var patternWords := Words(ToLower(entry.pattern));
    var inputWords := Words(inputLower);
    var matchCount := 0;
    for p := 0 to |patternWords|
      invariant matchCount == MatchCount(patternWords[..p], inputWords)
    {
      assert patternWords[..p + 1][..p] == patternWords[..p];
      var j := 0;
      while j < |inputWords| && !Related(patternWords[p], inputWords[j])
        invariant j <= |inputWords| && forall m | 0 <= m < j :: !Related(patternWords[p], inputWords[m])
      {
        j := j + 1;
      }
      if j < |inputWords| { matchCount := matchCount + 1; }
    }
    assert patternWords[..|patternWords|] == patternWords;
    score := Rate(matchCount, |patternWords|, entry.confidence);
  }

  lemma ScoreAt(items: seq<Item>, inputLower: string, i: nat)
    requires i < |items|
    ensures ScoresOf(items, inputLower)[i] == Score(items[i].entry, inputLower)
  {
  }

  lemma SearchExtends(scores: seq<real>, i: nat)
    requires i < |scores|
    ensures Improves(scores, i) <==> scores[i] > BestScore(scores[..i]) && scores[i] > 0.3
    ensures BestScore(scores[..i + 1]) == if Improves(scores, i) then scores[i] else BestScore(scores[..i])
    ensures BestIndex(scores[..i + 1]) == if Improves(scores, i) then Some(i) else BestIndex(scores[..i])
  {
    assert scores[..i + 1][..i] == scores[..i];
  }

  // ---------- agreement of cache and table ----------

  lemma {:induction false} NewAtTheEnd(items: seq<Item>, id: Id, entry: Entry)
    requires !Holds(items, id)
    ensures Set(items, id, entry) == items + [Item(id, entry)]
  {
    if items != [] {
      assert items[0].id != id;
      assert forall i | 0 <= i < |items[1..]| :: items[1..][i] == items[i + 1];
      NewAtTheEnd(items[1..], id, entry);
    }
  }

  lemma {:induction false} DeleteIs(items: seq<Item>, id: Id) returns (k: nat)
    ensures k <= |items|
    ensures k < |items| ==> items[k].id == id && Delete(items, id) == items[..k] + items[k + 1..]
    ensures k == |items| ==> !Holds(items, id) && Delete(items, id) == items
  {
    if items == [] {
      k := 0;
    } else if items[0].id == id {
      k := 0;
    } else {
      k := DeleteIs(items[1..], id);
      k := k + 1;
      if k < |items| {
        assert items[..k] + items[k + 1..] == [items[0]] + (items[1..][..k - 1] + items[1..][k..]);
      } else {
        assert forall i | 1 <= i < |items| :: items[1..][i - 1] == items[i];
      }
    }
  }

  ghost predicate InStep(st: State) {
    Agree(st.knowledge, st.table) && forall id | id in st.table :: id < st.next
  }

  lemma {:induction false} TrainKeeps(st: State, lesson: Lesson)
    requires InStep(st)
    ensures InStep(Trained(st, lesson))
  {
    assert !Holds(st.knowledge, st.next);
    NewAtTheEnd(st.knowledge, st.next, Learned(lesson));
    var items := Trained(st, lesson).knowledge;
    forall id | id in Trained(st, lesson).table ensures Holds(items, id) {
      if id == st.next {
        assert items[|items| - 1].id == id;
      } else {
        var i :| 0 <= i < |st.knowledge| && st.knowledge[i].id == id;
        assert items[i].id == id;
      }
    }
  }

  lemma {:induction false} TrainAllKeeps(st: State, lessons: seq<Lesson>)
    requires InStep(st)
    ensures InStep(TrainedAll(st, lessons))
  {
    if lessons != [] {
      TrainAllKeeps(st, lessons[..|lessons| - 1]);
      TrainKeeps(TrainedAll(st, lessons[..|lessons| - 1]), lessons[|lessons| - 1]);
    }
  }

  /** The items without the one at place `k`, seen place by place. */
  lemma DropAt(items: seq<Item>, k: nat)
    requires k < |items|
    ensures var r := items[..k] + items[k + 1..];
            |r| == |items| - 1 && forall i | 0 <= i < |r| :: r[i] == items[if i < k then i else i + 1]
  {
  }

  lemma {:induction false} DeletedItems(items: seq<Item>, id: Id)
    requires Distinct(items)
    ensures var r := Delete(items, id); Distinct(r) && forall i | 0 <= i < |r| :: r[i] in items && r[i].id != id
  {
    var k := DeleteIs(items, id);
    if k < |items| {
      DropAt(items, k);
    } else {
      assert forall i | 0 <= i < |items| :: items[i].id != id;
    }
  }

  lemma {:induction false} DeletedHolds(items: seq<Item>, id: Id, other: Id)
    requires other != id && Holds(items, other)
    ensures Holds(Delete(items, id), other)
  {
    var k := DeleteIs(items, id);
    if k < |items| {
      DropAt(items, k);
      var i :| 0 <= i < |items| && items[i].id == other;
      assert Delete(items, id)[if i < k then i else i - 1].id == other;
    }
  }

  lemma {:induction false} RemoveKeeps(st: State, id: Id)
    requires InStep(st)
    ensures InStep(Step(st, Remove(id)).0)
  {
    DeletedItems(st.knowledge, id);
    var items := Delete(st.knowledge, id);
    forall other | other in st.table - {id} ensures Holds(items, other) {
      DeletedHolds(st.knowledge, id, other);
    }
    forall i | 0 <= i < |items| ensures items[i].id in st.table - {id} && st.table[items[i].id] == items[i].entry {
      assert items[i] in st.knowledge;
    }
  }

  lemma {:induction false} BumpKeeps(st: State, k: nat, now: Time)
    requires InStep(st) && k < |st.knowledge|
    ensures InStep(UsedAt(st, k, now))
  {
    var items := UsedAt(st, k, now).knowledge;
    assert forall i | 0 <= i < |items| :: items[i].id == st.knowledge[i].id;
    forall id | id in st.table ensures Holds(items, id) {
      var i :| 0 <= i < |st.knowledge| && st.knowledge[i].id == id;
      assert items[i].id == id;
    }
  }

  lemma {:induction false} SearchKeeps(st: State, scores: seq<real>, times: seq<Time>, n: nat)
    requires InStep(st) && n <= |st.knowledge| == |scores| && |times| >= |scores|
    ensures InStep(Searched(st, scores, times, n))
  {
    if n > 0 {
      SearchKeeps(st, scores, times, n - 1);
      BumpKeeps(Searched(st, scores, times, n - 1), n - 1, times[n - 1]);
    }
  }

  ghost predicate AllTimed(st: State, ops: seq<Op>)
    decreases |ops|
  {
    ops == [] || (Timed(st, ops[0]) && AllTimed(Step(st, ops[0]).0, ops[1..]))
  }

  ghost function Run(st: State, ops: seq<Op>): State
    requires AllTimed(st, ops)
    decreases |ops|
  {
    if ops == [] then st else Run(Step(st, ops[0]).0, ops[1..])
  }

  /** Once cache and table agree, they agree after every run of training, deleting and chatting. */
  lemma {:induction false} RunsAgree(st: State, ops: seq<Op>)
    requires InStep(st) && AllTimed(st, ops)
    ensures Agree(Run(st, ops).knowledge, Run(st, ops).table)
    decreases |ops|
  {
    if ops != [] {
      match ops[0] {
        case Train(lesson) => TrainKeeps(st, lesson);
        case TrainBatch(lessons) => TrainAllKeeps(st, lessons);
        case Remove(id) => RemoveKeeps(st, id);
        case Ask(input, times) => SearchKeeps(st, ScoresOf(st.knowledge, ToLower(input)), times, |st.knowledge|);
      }
      RunsAgree(Step(st, ops[0]).0, ops[1..]);
    }
  }

  // ---------- what a chat does ----------

  lemma {:induction false} SearchedEntries(st: State, scores: seq<real>, times: seq<Time>, n: nat, i: nat)
    requires n <= |st.knowledge| == |scores| && |times| >= |scores| && i < |scores|
    ensures Searched(st, scores, times, n).knowledge[i] ==
            if i < n && Record(scores, i) then Item(st.knowledge[i].id, Bumped(st.knowledge[i].entry, times[i]))
            else st.knowledge[i]
  {
    if n > 0 {
      SearchedEntries(st, scores, times, n - 1, i);
      ImprovesExactlyAtRecords(scores, n - 1);
    }
  }

  /**
   A message is answered with the response of the first entry attaining the greatest score, exactly when some score
   is above one half; and the usage count rises, by one, for exactly the left-to-right strict records above 0.3.
   */
  lemma {:induction false} ChatExactly(st: State, input: string, times: seq<Time>, i: nat)
    requires |times| >= |st.knowledge| && i < |st.knowledge|
    ensures var scores, after := ScoresOf(st.knowledge, ToLower(input)), Step(st, Ask(input, times)).0.knowledge;
            var entry := st.knowledge[i].entry;
            after[i].entry ==
            if Record(scores, i) then entry.(usage := entry.usage + 1, lastUsed := Some(times[i])) else entry
    ensures FirstMaximum(ScoresOf(st.knowledge, ToLower(input)), i) ==>
              Answer(st, input) == st.knowledge[i].entry.response
    ensures (forall j | 0 <= j < |st.knowledge| :: ScoresOf(st.knowledge, ToLower(input))[j] <= 0.5) ==>
              Answer(st, input) == Canned(ToLower(input))
  {
    var scores := ScoresOf(st.knowledge, ToLower(input));
    SearchedEntries(st, scores, times, |scores|, i);
    SearchExactly(scores);
    if FirstMaximum(scores, i) {
      OneFirstMaximum(scores, i, BestIndex(scores).value);
    }
  }

  lemma OneFirstMaximum(scores: seq<real>, i: nat, k: nat)
    requires FirstMaximum(scores, i) && FirstMaximum(scores, k)
    ensures i == k
  {
  }

  // ---------- a message that says the pattern ----------

  ghost predicate Says(inputLower: string, pattern: string) {
    forall w | w in Words(ToLower(pattern)) :: w in Words(inputLower)
  }

  lemma {:induction false} AllMatched(patternWords: seq<string>, inputWords: seq<string>)
    requires forall w | w in patternWords :: w in inputWords
    ensures MatchCount(patternWords, inputWords) == |patternWords|
  {
    if patternWords != [] {
      var k := |patternWords| - 1;
      var w := patternWords[k];
      AllMatched(patternWords[..k], inputWords);
      assert w in patternWords && w in inputWords;
      var j :| 0 <= j < |inputWords| && inputWords[j] == w;
      assert PartAt(w, w, 0);
      assert Related(w, inputWords[j]);
    }
  }

  lemma {:induction false} FractionBounds(m: real, n: real)
    requires 0.0 <= m <= n && n > 0.0
    ensures 0.0 <= m / n <= 1.0 && (m == n ==> m / n == 1.0)
  {
    var q := m / n;
    assert q * n == m;
    assert q > 1.0 ==> (q - 1.0) * n > 0.0;
    assert q < 0.0 ==> q * n < 0.0;
  }

  /** Between zero and the confidence, whichever side of zero that is. */
  lemma {:induction false} RateBounds(matches: nat, words: nat, confidence: real)
    requires words > 0 && matches <= words
    ensures confidence >= 0.0 ==> 0.0 <= Rate(matches, words, confidence) <= confidence
    ensures confidence <= 0.0 ==> confidence <= Rate(matches, words, confidence) <= 0.0
    ensures matches == words ==> Rate(matches, words, confidence) == confidence
  {
    FractionBounds(matches as real, words as real);
    var q := matches as real / words as real;
    assert q * confidence + (1.0 - q) * confidence == confidence;
  }

  /**
   No score passes the confidence of its entry, on either side of zero, and a message with all the words of the
   pattern reaches it.
   */
  lemma {:induction false} ScoreBounds(entry: Entry, inputLower: string)
    ensures entry.confidence >= 0.0 ==> 0.0 <= Score(entry, inputLower) <= entry.confidence
    ensures entry.confidence <= 0.0 ==> entry.confidence <= Score(entry, inputLower) <= 0.0
    ensures Says(inputLower, entry.pattern) ==> Score(entry, inputLower) == entry.confidence
  {
    var words := Words(ToLower(entry.pattern));
    RateBounds(MatchCount(words, Words(inputLower)), |words|, entry.confidence);
    if Says(inputLower, entry.pattern) {
      AllMatched(words, Words(inputLower));
    }
  }

  ghost predicate AnsweredBy(st: State, input: string, k: nat) {
    && k < |st.knowledge| && FirstMaximum(ScoresOf(st.knowledge, ToLower(input)), k)
    && Answer(st, input) == st.knowledge[k].entry.response
  }

  /**
   A message with all the words of some pattern trusted above one half is answered from the knowledge, by an
   entry scoring no less.
   */
  lemma {:induction false} TaughtIsAnswered(st: State, i: nat, input: string)
    requires i < |st.knowledge| && st.knowledge[i].entry.confidence > 0.5
    requires Says(ToLower(input), st.knowledge[i].entry.pattern)
    ensures exists k: nat :: AnsweredBy(st, input, k)
                             && Score(st.knowledge[k].entry, ToLower(input)) >= st.knowledge[i].entry.confidence
  {
    var scores := ScoresOf(st.knowledge, ToLower(input));
    ScoreBounds(st.knowledge[i].entry, ToLower(input));
    assert scores[i] == st.knowledge[i].entry.confidence;
    SearchExactly(scores);
    var k := BestIndex(scores).value;
    assert AnsweredBy(st, input, k) && scores[k] >= scores[i];
  }
}

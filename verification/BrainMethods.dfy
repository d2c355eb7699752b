/** The learning engine as it runs: each method against the function that specifies it. */
module BrainMethods {
  import opened Prelude
  import opened Brain
  import opened Tokenizer

  class BrainEngine {
    var patterns: seq<Pattern>
    var memories: seq<Memory>
    var interactions: seq<Interaction>
    var training: seq<Training>

    ghost function Now(): Db
      reads this
    {
      Db(patterns, memories, interactions, training)
    }

    constructor (training: seq<Training>)
      ensures Now() == Db([], [], [], training)
    {
      patterns, memories, interactions, this.training := [], [], [], training;
    }

    method RecordAccess(id: nat)
      requires id < |patterns|
      modifies this`patterns
      ensures Now() == Accessed(old(Now()), id)
    {
      patterns := patterns[id := patterns[id].(usage := patterns[id].usage + 1)];
    }

    method RecordInteraction(input: string, output: string, context: Option<string>, user: Option<string>)
      modifies this`interactions
      ensures Now() == Recorded(old(Now()), input, output, context, user)
    {
      interactions := interactions + [Interaction(OrNull(user), input, output, OrNull(context), None)];
    }

    method FindFitting(tokens: seq<string>, context: Option<string>) returns (r: Option<Row<Memory>>)
      ensures r == Fitting(Now(), tokens, context)
    {
      var rows := Recalled(memories, context);
      var fit := FindFit(rows, MemoryScorer(tokens));
      if fit.None? { return None; }
      return Some(rows[fit.value]);
    }

    method Refresh(m: Row<Memory>)
      requires IsRow(memories, m)
      modifies this`memories
      ensures Now() == Refreshed(old(Now()), m)
    {
      memories := memories[m.id := m.row.(accesses := m.row.accesses + 1)];
    }

    method SearchMemories(tokens: seq<string>, context: Option<string>) returns (r: Option<Response>)
      modifies this`memories
      ensures var fitting := Fitting(old(Now()), tokens, context);
              if fitting.None? then r == None && Now() == old(Now())
              else r == Some(Recollection(tokens, fitting.value)) && Now() == Refreshed(old(Now()), fitting.value)
      ensures r.Some? ==> exists m :: m in old(memories) && r.value.output == m.value
    {
      var fitting := FindFitting(tokens, context);
      if fitting.None? { return None; }
      Refresh(fitting.value);
      return Some(Recollection(tokens, fitting.value));
    }

    method FindClosest(tokens: seq<string>, context: Option<string>) returns (r: Option<Row<Pattern>>)
      ensures r == Closest(Now(), tokens, context)
    {
      var rows := Candidates(patterns, context);
      var best := FindBest(rows, Scorer(tokens));
      if best.None? { return None; }
      return Some(rows[best.value]);
    }

    method ProcessInput(input: string, context: Option<string>, user: Option<string>) returns (response: Response)
      modifies this
      ensures (Now(), response) == Processed(old(Now()), input, context, user)
    {
      var tokens, hash := Tokens(input), Normalize(input);
      var exact := Exact(patterns, hash);
      if exact.Some? {
        ExactIsRow(patterns, hash);
        RecordAccess(exact.value.id);
        response := Recall(exact.value);
        RecordInteraction(input, response.output, context, user);
        return;
      }
      var closest := FindClosest(tokens, context);
      if closest.Some? {
        RecordAccess(closest.value.id);
        response := Resemblance(tokens, closest.value);
        RecordInteraction(input, response.output, context, user);
        return;
      }
      var remembered := SearchMemories(tokens, context);
      response := if remembered.Some? then remembered.value else GenerateResponse(tokens, context);
      RecordInteraction(input, response.output, context, user);
    }

    method Learn(input: string, output: string, context: Option<string>, confidence: real := 0.8)
      modifies this`patterns
      ensures Now() == Learned(old(Now()), input, output, context, confidence)
    {
      var hash := Normalize(input);
      var found := FirstWithKey(patterns, hash, OrNull(context));
      if found.Some? {
        var p := patterns[found.value];
        p := p.(output := output, confidence := p.confidence + 0.05, usage := p.usage + 1);
        patterns := patterns[found.value := p];
      } else {
        patterns := patterns + [Pattern(hash, Normalize(input), output, OrNull(context), confidence, 0, 0)];
      }
    }

    method Memorize(category: string, key: string, value: string, weight: real := 1.0)
      modifies this`memories
      ensures Now() == Memorized(old(Now()), category, key, value, weight)
    {
      var found := FirstMemory(memories, category, key);
      if found.Some? {
        memories := memories[found.value := memories[found.value].(value := value, weight := weight)];
      } else {
        memories := memories + [Memory(category, key, value, weight, 0)];
      }
    }

    method Forget(category: string, key: string)
      modifies this`memories
      ensures Now() == old(Now()).(memories := WithoutMemory(old(memories), category, key))
    {
      memories := WithoutMemory(memories, category, key);
    }

    method Feedback(id: nat, rating: int)
      modifies this`patterns, this`interactions
      ensures Now() == Rated(old(Now()), id, rating)
    {
      if id >= |interactions| { return; }
      var seen := interactions[id];
      interactions := interactions[id := seen.(rating := Some(rating))];
      if rating >= 4 {
        Learn(seen.input, seen.output, seen.context, 0.9);
      }
      if rating <= 2 {
        var found := FirstWithHash(patterns, Normalize(seen.input));
        if found.Some? {
          var p := patterns[found.value];
          patterns := patterns[found.value := p.(confidence := p.confidence - 0.1, feedback := p.feedback - 1)];
        }
      }
    }

    method Train(category: Option<string>) returns (processed: nat)
      modifies this`patterns
      ensures Now() == Trained(old(Now()), category, |old(training)|)
      ensures processed == CountSelected(training, category, |training|)
    {
      processed := 0;
      for i := 0 to |training|
        invariant Now() == Trained(old(Now()), category, i)
        invariant processed == CountSelected(training, category, i)
      {
        var d := training[i];
        if Selected(d, category) {
          Learn(d.input, d.output, Some(d.category), d.weight);
          processed := processed + 1;
        }
      }
    }
  }
}

/**
 Tournaments told by the calls so far and which of them were accepted, and nothing else: phase, roster, draw and results
 of each, and so the outcome of every further call.
 */
module TournamentHistory {
  import opened Prelude
  import opened Tournaments

  ghost predicate Within(states: seq<State>, ops: seq<Op>, n: nat) { IsRun(states, ops) && n <= |ops| }

  ghost predicate Accepted(states: seq<State>, ops: seq<Op>, n: nat)
    requires IsRun(states, ops) && n < |ops|
  {
    Step(states[n], ops[n]).1
  }

  /** How many tournaments have been created; they are numbered in order. */
  ghost function Created(states: seq<State>, ops: seq<Op>, n: nat): nat
    requires Within(states, ops, n)
  {
    if n == 0 then 0 else
      Created(states, ops, n - 1) + if Accepted(states, ops, n - 1) && ops[n - 1].Create? then 1 else 0
  }

  /** Call `n` created tournament `id`. */
  ghost predicate Creates(states: seq<State>, ops: seq<Op>, n: nat, id: Id)
    requires IsRun(states, ops) && n < |ops|
  {
    Accepted(states, ops, n) && ops[n].Create? && Created(states, ops, n) == id
  }

  /** Call `n` was accepted, on tournament `id`. */
  ghost predicate Acts(states: seq<State>, ops: seq<Op>, n: nat, id: Id)
    requires IsRun(states, ops) && n < |ops|
  {
    Accepted(states, ops, n) && !ops[n].Create? && ops[n].id == id
  }

  /** Ended once its organizer has ended it; before that, running once started; before that, open. */
  ghost function Phase(states: seq<State>, ops: seq<Op>, n: nat, id: Id): Status
    requires Within(states, ops, n)
  {
    if n == 0 then REGISTRATION
    else if Acts(states, ops, n - 1, id) && ops[n - 1].End? then COMPLETED
    else if Acts(states, ops, n - 1, id) && ops[n - 1].Start? then IN_PROGRESS
    else Phase(states, ops, n - 1, id)
  }

  /** The user has registered, and not unregistered since. */
  ghost predicate In(states: seq<State>, ops: seq<Op>, n: nat, id: Id, u: User)
    requires Within(states, ops, n)
  {
    if n == 0 then false
    else if Acts(states, ops, n - 1, id) && ops[n - 1] == Register(id, u) then true
    else if Acts(states, ops, n - 1, id) && ops[n - 1] == Unregister(id, u) then false
    else In(states, ops, n - 1, id, u)
  }

  /** How many are in: one more for each registration, one fewer for each unregistering of somebody who was in. */
  ghost function Entrants(states: seq<State>, ops: seq<Op>, n: nat, id: Id): int
    requires Within(states, ops, n)
  {
    if n == 0 then 0 else
      var before := Entrants(states, ops, n - 1, id);
      if Acts(states, ops, n - 1, id) && ops[n - 1].Register? then before + 1
      else if Acts(states, ops, n - 1, id) && ops[n - 1].Unregister? && In(states, ops, n - 1, id, ops[n - 1].user)
      then before - 1
      else before
  }

  /** The matches of the draw: half as many as there were entrants at the start, rounded up. */
  ghost function Matches(states: seq<State>, ops: seq<Op>, n: nat, id: Id): int
    requires Within(states, ops, n)
  {
    if n == 0 then 0
    else if Acts(states, ops, n - 1, id) && ops[n - 1].Start? then (Entrants(states, ops, n - 1, id) + 1) / 2
    else Matches(states, ops, n - 1, id)
  }

  /** The winner and the score last reported for a match. */
  ghost function Result(states: seq<State>, ops: seq<Op>, n: nat, id: Id, i: nat): Option<(User, string)>
    requires Within(states, ops, n)
  {
    if n == 0 then None
    else if Acts(states, ops, n - 1, id) && ops[n - 1].Report? && ops[n - 1].index == i then
      Some((ops[n - 1].winner, ops[n - 1].score))
    else Result(states, ops, n - 1, id, i)
  }

  /** What the table has of one tournament. */
  ghost predicate RowTold(states: seq<State>, ops: seq<Op>, n: nat, id: Id, t: Tournament)
    requires Within(states, ops, n)
  {
    && t.state == Phase(states, ops, n, id)
    && (forall u :: Enrolled(t.participants, u) <==> In(states, ops, n, id, u))
    && |t.participants| == Entrants(states, ops, n, id) && |t.matches| == Matches(states, ops, n, id)
    && (forall i: nat :: ResultTold(t.matches, i, Result(states, ops, n, id, i)))
  }

  predicate ResultTold(ms: seq<Match>, i: nat, result: Option<(User, string)>) {
    if i < |ms| then MatchTold(ms[i], result) else result == None
  }

  predicate MatchTold(m: Match, result: Option<(User, string)>) {
    if result.None? then m.winner == None && m.score == None && m.status != PLAYED
    else m.winner == Some(result.value.0) && m.score == Some(result.value.1) && m.status == PLAYED
  }

  /** Nothing has happened to a tournament that is not there yet. */
  ghost predicate Unheard(states: seq<State>, ops: seq<Op>, n: nat, id: Id)
    requires Within(states, ops, n)
  {
    && Phase(states, ops, n, id) == REGISTRATION && (forall u :: !In(states, ops, n, id, u))
    && Entrants(states, ops, n, id) == 0 && Matches(states, ops, n, id) == 0
    && forall i: nat :: Result(states, ops, n, id, i) == None
  }

  ghost predicate Told(states: seq<State>, ops: seq<Op>, n: nat, id: Id)
    requires Within(states, ops, n)
  {
    var st := states[n];
    && st.next == Created(states, ops, n)
    && (id in st.tournaments <==> id < Created(states, ops, n))
    && if id in st.tournaments then RowTold(states, ops, n, id, st.tournaments[id]) else Unheard(states, ops, n, id)
  }

  lemma {:induction false} WithoutCount(ps: seq<Participant>, u: User)
    requires Distinct(ps)
    ensures |Without(ps, u)| == |ps| - if Enrolled(ps, u) then 1 else 0
    ensures forall v :: Enrolled(Without(ps, u), v) <==> v != u && Enrolled(ps, v)
  {
    if ps != [] {
      var init, p := ps[..|ps| - 1], ps[|ps| - 1];
      WithoutCount(init, u);
      EnrolledSnoc(init, p);
      EnrolledSnoc(Without(init, u), p);
      assert ps == init + [p];
      forall i | 0 <= i < |init| ensures init[i].user != p.user {
        assert init[i] == ps[i];
      }
    }
  }

  lemma EnrolledSnoc(ps: seq<Participant>, p: Participant)
    ensures forall v :: Enrolled(ps + [p], v) <==> Enrolled(ps, v) || v == p.user
  {
    forall v ensures Enrolled(ps + [p], v) <==> Enrolled(ps, v) || v == p.user {
      var all := ps + [p];
      if Enrolled(ps, v) {
        var i :| 0 <= i < |ps| && ps[i].user == v;
        assert all[i] == ps[i];
      }
      assert all[|ps|] == p;
    }
  }

  /** What an accepted call does to its tournament. */
  lemma {:induction false} OnOneTells(t: Tournament, op: Op)
    requires Sound(t) && !op.Create? && OnOne(t, op).Some?
    requires op.Start? ==> multiset(op.shuffled) == multiset(t.participants)
    ensures var t' := OnOne(t, op).value;
            && t'.state == (if op.End? then COMPLETED else if op.Start? then IN_PROGRESS else t.state)
            && (forall u :: Enrolled(t'.participants, u) <==>
                  (op.Register? && u == op.user)
                  || (Enrolled(t.participants, u) && !(op.Unregister? && u == op.user)))
            && |t'.participants| == |t.participants| + (if op.Register? then 1
                 else if op.Unregister? && Enrolled(t.participants, op.user) then -1 else 0)
            && |t'.matches| == (if op.Start? then (|t.participants| + 1) / 2 else |t.matches|)
  {
    match op
    case Register(_, u) => EnrolledSnoc(t.participants, Participant(u, |t.participants| + 1));
    case Unregister(_, u) => WithoutCount(t.participants, u);
    case Start(_, _, shuffled) => assert |shuffled| == |multiset(shuffled)| == |multiset(t.participants)|;
    case Report(_, _, _, _) =>
    case End(_, _) =>
  }

  /** What it does to the matches. */
  lemma {:induction false} OnOneMatches(t: Tournament, op: Op, i: nat)
    requires Sound(t) && !op.Create? && OnOne(t, op).Some? && i < |OnOne(t, op).value.matches|
    ensures var m := OnOne(t, op).value.matches[i];
            && (op.Start? ==> MatchTold(m, None))
            && (op.Report? && op.index == i ==> MatchTold(m, Some((op.winner, op.score))))
            && (!op.Start? && !(op.Report? && op.index == i) ==> i < |t.matches| && m == t.matches[i])
  {
    if op.Start? {
      assert t.matches == [] && t.matches + Bracket(op.shuffled) == Bracket(op.shuffled);
    }
  }

  lemma {:induction false} ActResults(states: seq<State>, ops: seq<Op>, n: nat, next: nat, id: Id)
    requires IsRun(states, ops) && n + 1 == next <= |ops| && Told(states, ops, n, id) && Acts(states, ops, n, id)
    ensures var ms := OnOne(states[n].tournaments[id], ops[n]).value.matches;
            forall i: nat :: ResultTold(ms, i, Result(states, ops, next, id, i))
  {
    var t, op := states[n].tournaments[id], ops[n];
    var ms := OnOne(t, op).value.matches;
    RunsStaySound(states, ops, n);
    OnOneTells(t, op);
    forall i: nat ensures ResultTold(ms, i, Result(states, ops, next, id, i)) {
      assert ResultTold(t.matches, i, Result(states, ops, n, id, i));
      if i < |ms| {
        OnOneMatches(t, op, i);
      }
    }
  }

  /** How the history of a tournament moves with an accepted call on it. */
  lemma {:induction false} ActHistory(states: seq<State>, ops: seq<Op>, n: nat, next: nat, id: Id)
    requires IsRun(states, ops) && n + 1 == next <= |ops| && Acts(states, ops, n, id)
    ensures var op := ops[n];
            && Phase(states, ops, next, id) ==
               (if op.End? then COMPLETED else if op.Start? then IN_PROGRESS else Phase(states, ops, n, id))
            && (forall u :: In(states, ops, next, id, u) <==>
                  (op.Register? && u == op.user)
                  || (In(states, ops, n, id, u) && !(op.Unregister? && u == op.user)))
            && Entrants(states, ops, next, id) == Entrants(states, ops, n, id)
               + (if op.Register? then 1
                  else if op.Unregister? && In(states, ops, n, id, op.user) then -1 else 0)
            && Matches(states, ops, next, id) ==
               (if op.Start? then (Entrants(states, ops, n, id) + 1) / 2 else Matches(states, ops, n, id))
  {
  }

  /** A row that the past tells of, and what an accepted call makes of it. */
  lemma {:induction false} ActRow(states: seq<State>, ops: seq<Op>, n: nat, next: nat, id: Id, t: Tournament)
    requires IsRun(states, ops) && n + 1 == next <= |ops| && Acts(states, ops, n, id)
    requires RowTold(states, ops, n, id, t) && Sound(t) && OnOne(t, ops[n]).Some?
    requires ops[n].Start? ==> multiset(ops[n].shuffled) == multiset(t.participants)
    requires forall i: nat :: ResultTold(OnOne(t, ops[n]).value.matches, i, Result(states, ops, next, id, i))
    ensures RowTold(states, ops, next, id, OnOne(t, ops[n]).value)
  {
    OnOneTells(t, ops[n]);
    ActHistory(states, ops, n, next, id);
    assert ops[n].Unregister? ==>
        (Enrolled(t.participants, ops[n].user) <==> In(states, ops, n, id, ops[n].user));
  }

  lemma {:induction false} ActTells(states: seq<State>, ops: seq<Op>, n: nat, next: nat, id: Id)
    requires IsRun(states, ops) && n + 1 == next <= |ops| && Told(states, ops, n, id) && Acts(states, ops, n, id)
    ensures Told(states, ops, next, id)
  {
    RunsStaySound(states, ops, n);
    ActResults(states, ops, n, next, id);
    ActRow(states, ops, n, next, id, states[n].tournaments[id]);
  }

  lemma {:induction false} CreationTells(states: seq<State>, ops: seq<Op>, n: nat, id: Id)
    requires IsRun(states, ops) && n < |ops| && Told(states, ops, n, id) && Creates(states, ops, n, id)
    ensures Told(states, ops, n + 1, id)
  {
    var next := n + 1;
    var t := states[next].tournaments[id];
    assert t.participants == [] && t.matches == [] && t.state == REGISTRATION;
    assert Unheard(states, ops, n, id);
    forall u ensures !In(states, ops, next, id, u) {
    }
    forall i: nat ensures ResultTold(t.matches, i, Result(states, ops, next, id, i)) {
      assert Result(states, ops, n, id, i) == None;
    }
  }

  /** A call that neither creates the tournament nor acts on it. */
  lemma {:induction false} NothingTells(states: seq<State>, ops: seq<Op>, n: nat, id: Id)
    requires IsRun(states, ops) && n < |ops| && Told(states, ops, n, id)
    requires !Creates(states, ops, n, id) && !Acts(states, ops, n, id)
    ensures Told(states, ops, n + 1, id)
  {
    var st, st', next := states[n], states[n + 1], n + 1;
    assert id in st'.tournaments <==> id in st.tournaments;
    if id in st.tournaments {
      var t := st.tournaments[id];
      assert st'.tournaments[id] == t;
      forall i: nat ensures ResultTold(t.matches, i, Result(states, ops, next, id, i)) {
        assert ResultTold(t.matches, i, Result(states, ops, n, id, i));
      }
    } else {
      assert Unheard(states, ops, n, id);
      forall u ensures !In(states, ops, next, id, u) {
      }
      forall i: nat ensures Result(states, ops, next, id, i) == None {
      }
    }
  }

  /**
   In every reachable state: a tournament is there exactly when it was created, in the phase its organizer's calls have
   brought it to, with exactly those users in it who registered and have not unregistered since, as many matches as its
   draw had, and in each match exactly the winner and the score that were last reported.
   */
  lemma {:induction false} TablesExactly(states: seq<State>, ops: seq<Op>, n: nat, id: Id)
    requires Within(states, ops, n)
    ensures Told(states, ops, n, id)
  {
    if n > 0 {
      TablesExactly(states, ops, n - 1, id);
      if Creates(states, ops, n - 1, id) {
        CreationTells(states, ops, n - 1, id);
      } else if Acts(states, ops, n - 1, id) {
        ActTells(states, ops, n - 1, n, id);
      } else {
        NothingTells(states, ops, n - 1, id);
      }
    }
  }

  // ---------- what was set when it was created ----------

  ghost predicate CreatedBy(states: seq<State>, ops: seq<Op>, m: nat, n: nat, id: Id)
    requires Within(states, ops, n)
  {
    m < n && Creates(states, ops, m, id)
  }

  lemma {:induction false} CreatedInOrder(states: seq<State>, ops: seq<Op>, m: nat, n: nat, id: Id)
    requires Within(states, ops, n) && CreatedBy(states, ops, m, n, id)
    ensures id < Created(states, ops, n)
  {
    if m < n - 1 {
      CreatedInOrder(states, ops, m, n - 1, id);
    }
  }

  /** The organizer, the maximum and the slug of a tournament are those of the one call that created it. */
  lemma {:induction false} SettingsExactly(states: seq<State>, ops: seq<Op>, n: nat, id: Id) returns (m: nat)
    requires Within(states, ops, n) && id in states[n].tournaments
    ensures CreatedBy(states, ops, m, n, id)
    ensures forall k: nat | CreatedBy(states, ops, k, n, id) :: k == m
    ensures var t := states[n].tournaments[id];
            && t.organizer == ops[m].organizer && t.maxParticipants == ops[m].maxParticipants
            && t.slug == SlugOf(ops[m].name, ops[m].now)
  {
    TablesExactly(states, ops, n, id);
    TablesExactly(states, ops, n - 1, id);
    if Creates(states, ops, n - 1, id) {
      m := n - 1;
    } else {
      m := SettingsExactly(states, ops, n - 1, id);
      StepKeepsSettings(states[n - 1], ops[n - 1], id);
    }
    forall k: nat | CreatedBy(states, ops, k, n, id) ensures k == m {
      if k < m {
        CreatedInOrder(states, ops, k, m, id);
      } else if m < k {
        CreatedInOrder(states, ops, m, k, id);
      }
    }
  }

  lemma StepKeepsSettings(st: State, op: Op, id: Id)
    requires id in st.tournaments && !(op.Create? && st.next == id)
    ensures id in Step(st, op).0.tournaments
    ensures var t, t' := st.tournaments[id], Step(st, op).0.tournaments[id];
            t'.organizer == t.organizer && t'.maxParticipants == t.maxParticipants && t'.slug == t.slug
  {
  }

  // ---------- the outcome of every call ----------

  /** Whether call `n` is accepted, by its kind and the calls before it. */
  ghost predicate Due(states: seq<State>, ops: seq<Op>, n: nat)
    requires IsRun(states, ops) && n < |ops|
  {
    match ops[n]
    case Create(_, name, _, now) =>
      !exists m: nat, id :: CreatedBy(states, ops, m, n, id) && SlugOf(ops[m].name, ops[m].now) == SlugOf(name, now)
    case Register(id, u) =>
      && Phase(states, ops, n, id) == REGISTRATION && !In(states, ops, n, id, u)
      && exists m: nat :: CreatedBy(states, ops, m, n, id) && Entrants(states, ops, n, id) < ops[m].maxParticipants
    case Unregister(id, _) =>
      Phase(states, ops, n, id) == REGISTRATION && exists m: nat :: CreatedBy(states, ops, m, n, id)
    case Start(id, u, _) =>
      && Phase(states, ops, n, id) == REGISTRATION && Entrants(states, ops, n, id) >= 2
      && exists m: nat :: CreatedBy(states, ops, m, n, id) && ops[m].organizer == u
    case Report(id, index, _, _) => index < Matches(states, ops, n, id)
    case End(id, u) => exists m: nat :: CreatedBy(states, ops, m, n, id) && ops[m].organizer == u
  }

  /** The creations before call `n`, and whether one of tournament `id` is among them. */
  lemma {:induction false} ThereExactly(states: seq<State>, ops: seq<Op>, n: nat, id: Id)
    requires Within(states, ops, n)
    ensures id in states[n].tournaments <==> exists m: nat :: CreatedBy(states, ops, m, n, id)
  {
    TablesExactly(states, ops, n, id);
    if id in states[n].tournaments {
      var m := SettingsExactly(states, ops, n, id);
    }
    if m: nat :| CreatedBy(states, ops, m, n, id) {
      CreatedInOrder(states, ops, m, n, id);
    }
  }

  lemma {:induction false} SlugTakenExactly(states: seq<State>, ops: seq<Op>, n: nat, slug: Slug)
    requires Within(states, ops, n)
    ensures SlugTaken(states[n].tournaments, slug)
            <==> exists m: nat, id :: CreatedBy(states, ops, m, n, id) && SlugOf(ops[m].name, ops[m].now) == slug
  {
    var ts := states[n].tournaments;
    if SlugTaken(ts, slug) {
      var id :| id in ts && ts[id].slug == slug;
      var m := SettingsExactly(states, ops, n, id);
    }
    if m: nat, id :| CreatedBy(states, ops, m, n, id) && SlugOf(ops[m].name, ops[m].now) == slug {
      ThereExactly(states, ops, n, id);
      var k := SettingsExactly(states, ops, n, id);
      assert k == m;
    }
  }

  lemma {:induction false} OnOneExactly(states: seq<State>, ops: seq<Op>, n: nat)
    requires IsRun(states, ops) && n < |ops| && !ops[n].Create? && ops[n].id in states[n].tournaments
    ensures Accepted(states, ops, n) <==> Due(states, ops, n)
  {
    TablesExactly(states, ops, n, ops[n].id);
    ThereExactly(states, ops, n, ops[n].id);
    var m := SettingsExactly(states, ops, n, ops[n].id);
  }

  /**
   Over any run, the calls before decide every call: a tournament is created exactly under a new slug, registered for
   while it is open, not full and without the user, left while it is open, started by its organizer while it is open
   with two or more in it, reported on where there is a match, and ended by its organizer at any time.
   */
  lemma {:induction false} OutcomesExactly(states: seq<State>, ops: seq<Op>, n: nat)
    requires IsRun(states, ops) && n < |ops|
    ensures Accepted(states, ops, n) <==> Due(states, ops, n)
  {
    if ops[n].Create? {
      SlugTakenExactly(states, ops, n, SlugOf(ops[n].name, ops[n].now));
    } else if ops[n].id in states[n].tournaments {
      OnOneExactly(states, ops, n);
    } else {
      TablesExactly(states, ops, n, ops[n].id);
      ThereExactly(states, ops, n, ops[n].id);
    }
  }
}

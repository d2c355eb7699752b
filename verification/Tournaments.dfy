/** Tournaments: registration up to a maximum, the first-round draw, and what no later call changes about it. */
module Tournaments {
  import opened Prelude
  import opened Text

  type User = string
  type Id = nat

  datatype Status = REGISTRATION | IN_PROGRESS | COMPLETED
  datatype MatchStatus = PENDING | BYE | PLAYED

  datatype Participant = Participant(user: User, seed: nat)

  datatype Match = Match(round: nat, number: nat, player1: User, player2: Option<User>,
                         status: MatchStatus, winner: Option<User>, score: Option<string>)

  /** A tournament with its participant rows and match rows, both in the order of their creation. */
  datatype Tournament = Tournament(slug: Slug, organizer: User, maxParticipants: int, state: Status,
                                   participants: seq<Participant>, matches: seq<Match>)

  /** The unique column made of the name and, after the last hyphen, the clock reading in milliseconds. */
  datatype Slug = Slug(text: string, at: int)

  datatype State = State(tournaments: map<Id, Tournament>, next: Id)

  datatype Op =
    | Create(organizer: User, name: string, maxParticipants: int, now: int)
    | Register(id: Id, user: User)
    | Unregister(id: Id, user: User)
    | Start(id: Id, user: User, shuffled: seq<Participant>)
    | Report(id: Id, index: nat, winner: User, score: string)
    | End(id: Id, user: User)

  const NOTHING := State(map[], 0)

  function SlugOf(name: string, now: int): Slug { Slug(HyphenateRuns(ToLower(name), IsSpace), now) }

  predicate SlugTaken(tournaments: map<Id, Tournament>, slug: Slug) {
    exists id :: id in tournaments && tournaments[id].slug == slug
  }

  predicate Enrolled(ps: seq<Participant>, u: User) { exists i :: 0 <= i < |ps| && ps[i].user == u }

  function Without(ps: seq<Participant>, u: User): seq<Participant> {
    if ps == [] then [] else
      var rest, p := Without(ps[..|ps| - 1], u), ps[|ps| - 1];
      if p.user == u then rest else rest + [p]
  }

  /** The k-th match of the draw: two neighbours, or the last one alone with a bye. */
  function Pairing(ps: seq<Participant>, k: nat): Match
    requires 2 * k < |ps|
  {
    if 2 * k + 1 < |ps| then Match(1, k + 1, ps[2 * k].user, Some(ps[2 * k + 1].user), PENDING, None, None)
    else Match(1, k + 1, ps[2 * k].user, None, BYE, None, None)
  }

  function Bracket(ps: seq<Participant>): seq<Match> {
    seq((|ps| + 1) / 2, k requires 0 <= k < (|ps| + 1) / 2 => Pairing(ps, k))
  }

  /** One call on one tournament, or `None` when it is rejected. */
  function OnOne(t: Tournament, op: Op): Option<Tournament>
    requires !op.Create?
  {
    match op
    case Register(_, u) =>
      if t.state != REGISTRATION || |t.participants| >= t.maxParticipants || Enrolled(t.participants, u) then None
      else Some(t.(participants := t.participants + [Participant(u, |t.participants| + 1)]))
    case Unregister(_, u) =>
      if t.state != REGISTRATION then None
      else Some(t.(participants := Without(t.participants, u)))
    case Start(_, u, shuffled) =>
      if t.organizer != u || t.state != REGISTRATION || |t.participants| < 2 then None
      else Some(t.(matches := t.matches + Bracket(shuffled), state := IN_PROGRESS))
    case Report(_, index, winner, score) =>
      if index >= |t.matches| then None
      else
        var m := t.matches[index].(status := PLAYED, winner := Some(winner), score := Some(score));
        Some(t.(matches := t.matches[index := m]))
    case End(_, u) =>
      if t.organizer != u then None else Some(t.(state := COMPLETED))
  }

  function Step(st: State, op: Op): (State, bool) {
    if op.Create? then
      var t := Tournament(SlugOf(op.name, op.now), op.organizer, op.maxParticipants, REGISTRATION, [], []);
      if SlugTaken(st.tournaments, t.slug) then (st, false)
      else (State(st.tournaments[st.next := t], st.next + 1), true)
    else if op.id !in st.tournaments then (st, false)
    else
      var t := OnOne(st.tournaments[op.id], op);
      if t.None? then (st, false) else (st.(tournaments := st.tournaments[op.id := t.value]), true)
  }

  /** The order a start draws is some permutation of the participants. */
  ghost predicate Shuffles(st: State, op: Op) {
    op.Start? && op.id in st.tournaments ==> multiset(op.shuffled) == multiset(st.tournaments[op.id].participants)
  }

  /** The pairing loop of `startTournament`. */
  method PairUp(shuffled: seq<Participant>) returns (matches: seq<Match>)
    ensures matches == Bracket(shuffled)
  {
    matches := [];
    var i := 0;
    while i < |shuffled|
      invariant i % 2 == 0 && i / 2 == |matches|
      invariant i <= |shuffled| + 1
      invariant forall k | 0 <= k < |matches| :: matches[k] == Pairing(shuffled, k)
    {
      var hasSecond := i + 1 < |shuffled|;
      matches := matches + [Match(1, i / 2 + 1, shuffled[i].user,
                                  if hasSecond then Some(shuffled[i + 1].user) else None,
                                  if hasSecond then PENDING else BYE, None, None)];
      i := i + 2;
    }
  }

  class TournamentsService {
    var tournaments: map<Id, Tournament>
    var next: Id

    ghost function Now(): State
      reads this
    {
      State(tournaments, next)
    }

    constructor ()
      ensures Now() == NOTHING
    {
      tournaments, next := map[], 0;
    }

    method Create(organizer: User, name: string, maxParticipants: int, now: int) returns (id: Option<Id>)
      modifies this
      ensures (Now(), id.Some?) == Step(old(Now()), Op.Create(organizer, name, maxParticipants, now))
      ensures id.Some? ==> id.value == old(next)
    {
      var slug := SlugOf(name, now);
      if SlugTaken(tournaments, slug) { return None; }
      id := Some(next);
      tournaments := tournaments[next := Tournament(slug, organizer, maxParticipants, REGISTRATION, [], [])];
      next := next + 1;
    }

    method Register(id: Id, u: User) returns (ok: bool)
      modifies this
      ensures (Now(), ok) == Step(old(Now()), Op.Register(id, u))
    {
      if id !in tournaments { return false; }
      var t := tournaments[id];
      if t.state != REGISTRATION { return false; }
      var count := |t.participants|;
      if count >= t.maxParticipants { return false; }
      if Enrolled(t.participants, u) { return false; }
      tournaments := tournaments[id := t.(participants := t.participants + [Participant(u, count + 1)])];
      return true;
    }

    method Unregister(id: Id, u: User) returns (ok: bool)
      modifies this
      ensures (Now(), ok) == Step(old(Now()), Op.Unregister(id, u))
    {
      if id !in tournaments { return false; }
      var t := tournaments[id];
      if t.state != REGISTRATION { return false; }
      tournaments := tournaments[id := t.(participants := Without(t.participants, u))];
      return true;
    }

    method StartTournament(id: Id, u: User, shuffled: seq<Participant>) returns (ok: bool)
      requires Shuffles(Now(), Op.Start(id, u, shuffled))
      modifies this
      ensures (Now(), ok) == Step(old(Now()), Op.Start(id, u, shuffled))
    {
      if id !in tournaments { return false; }
      var t := tournaments[id];
      if t.organizer != u { return false; }
      if t.state != REGISTRATION { return false; }
      if |t.participants| < 2 { return false; }
      var matches := PairUp(shuffled);
      tournaments := tournaments[id := t.(matches := t.matches + matches)];
      tournaments := tournaments[id := tournaments[id].(state := IN_PROGRESS)];
      assert tournaments == old(tournaments)[id := tournaments[id]];
      return true;
    }

    method ReportMatchResult(id: Id, index: nat, winner: User, score: string) returns (ok: bool)
      modifies this
      ensures (Now(), ok) == Step(old(Now()), Op.Report(id, index, winner, score))
    {
      if id !in tournaments || index >= |tournaments[id].matches| { return false; }
      var t := tournaments[id];
      var m := t.matches[index].(winner := Some(winner), score := Some(score), status := PLAYED);
      tournaments := tournaments[id := t.(matches := t.matches[index := m])];
      return true;
    }

    method EndTournament(id: Id, u: User) returns (ok: bool)
      modifies this
      ensures (Now(), ok) == Step(old(Now()), Op.End(id, u))
    {
      if id !in tournaments { return false; }
      var t := tournaments[id];
      if t.organizer != u { return false; }
      tournaments := tournaments[id := t.(state := COMPLETED)];
      return true;
    }
  }

  // ---------- the draw ----------

  function UsersOf(ps: seq<Participant>): seq<User> {
    seq(|ps|, i requires 0 <= i < |ps| => ps[i].user)
  }

  /** Everyone who sits in some match, match by match. */
  function Players(ms: seq<Match>): seq<User> {
    if ms == [] then [] else
      var m := ms[|ms| - 1];
      Players(ms[..|ms| - 1]) + [m.player1] + if m.player2.Some? then [m.player2.value] else []
  }

  lemma PlayersSnoc(ms: seq<Match>, m: Match)
    ensures Players(ms + [m]) == Players(ms) + [m.player1] + if m.player2.Some? then [m.player2.value] else []
  {
    assert (ms + [m])[..|ms|] == ms;
  }

  lemma TakeMore<T>(s: seq<T>, k: nat)
    requires k < |s|
    ensures s[..k] + [s[k]] == s[..k + 1]
  {
  }

  /** The k-th match seats the next one or two of the list. */
  lemma PairingSeats(ps: seq<Participant>, k: nat)
    requires 2 * k < |ps|
    ensures var m, users := Pairing(ps, k), UsersOf(ps);
            users[..2 * k] + [m.player1] + (if m.player2.Some? then [m.player2.value] else [])
            == users[..Min(2 * k + 2, |ps|)]
  {
    var users := UsersOf(ps);
    TakeMore(users, 2 * k);
    if 2 * k + 1 < |ps| {
      TakeMore(users, 2 * k + 1);
    }
  }

  /** Read match by match, the draw is the shuffled list: everyone sits in exactly one seat. */
  lemma {:induction false} DrawSeatsTheList(ps: seq<Participant>, n: nat)
    requires n <= |Bracket(ps)|
    ensures Players(Bracket(ps)[..n]) == UsersOf(ps)[..Min(2 * n, |ps|)]
  {
    if n > 0 {
      DrawSeatsTheList(ps, n - 1);
      TakeMore(Bracket(ps), n - 1);
      PlayersSnoc(Bracket(ps)[..n - 1], Pairing(ps, n - 1));
      PairingSeats(ps, n - 1);
    }
  }

  ghost predicate Distinct(ps: seq<Participant>) {
    forall i, j | 0 <= i < j < |ps| :: ps[i].user != ps[j].user
  }

  lemma {:induction false} UsersOfSnoc(ps: seq<Participant>, p: Participant)
    ensures multiset(UsersOf(ps + [p])) == multiset(UsersOf(ps)) + multiset{p.user}
  {
    assert UsersOf(ps + [p]) == UsersOf(ps) + [p.user];
  }

  /** The rows less one row `p`. */
  lemma {:induction false} LessOne(qs: seq<Participant>, p: Participant) returns (rest: seq<Participant>)
    requires p in qs
    ensures multiset(qs) == multiset(rest) + multiset{p}
    ensures multiset(UsersOf(qs)) == multiset(UsersOf(rest)) + multiset{p.user}
  {
    var init, q := qs[..|qs| - 1], qs[|qs| - 1];
    assert qs == init + [q];
    UsersOfSnoc(init, q);
    if q == p {
      rest := init;
    } else {
      var part := LessOne(init, p);
      UsersOfSnoc(part, q);
      rest := part + [q];
    }
  }

  /** Reordering the rows reorders the users. */
  lemma {:induction false} UsersOfMultiset(ps: seq<Participant>, qs: seq<Participant>)
    requires multiset(ps) == multiset(qs)
    ensures multiset(UsersOf(ps)) == multiset(UsersOf(qs))
  {
    if ps == [] {
      assert |multiset(qs)| == 0;
    } else {
      var init, p := ps[..|ps| - 1], ps[|ps| - 1];
      assert ps == init + [p];
      assert p in multiset(qs);
      var rest := LessOne(qs, p);
      assert multiset(init) == multiset(ps) - multiset{p} == multiset(rest);
      UsersOfMultiset(init, rest);
      UsersOfSnoc(init, p);
    }
  }

  /** Seats, numbers and byes of a first round for these participants, whatever was reported since. */
  ghost predicate Drawn(ps: seq<Participant>, ms: seq<Match>) {
    && multiset(Players(ms)) == multiset(UsersOf(ps))
    && |ms| == (|ps| + 1) / 2
    && forall k | 0 <= k < |ms| ::
         ms[k].round == 1 && ms[k].number == k + 1 && (ms[k].player2.None? <==> 2 * k + 1 == |ps|)
  }

  lemma {:induction false} DrawSeats(ps: seq<Participant>, shuffled: seq<Participant>)
    requires multiset(shuffled) == multiset(ps)
    ensures multiset(Players(Bracket(shuffled))) == multiset(UsersOf(ps)) && |shuffled| == |ps|
  {
    var ms := Bracket(shuffled);
    assert |shuffled| == |multiset(shuffled)| == |multiset(ps)| == |ps|;
    UsersOfMultiset(shuffled, ps);
    DrawSeatsTheList(shuffled, |ms|);
    assert ms[..|ms|] == ms && UsersOf(shuffled)[..|shuffled|] == UsersOf(shuffled);
  }

  /**
   For every shuffle, the draw seats each participant once, and gives one bye, the last, exactly for an odd
   number.
   */
  lemma {:induction false} DrawIsPartition(ps: seq<Participant>, shuffled: seq<Participant>)
    requires multiset(shuffled) == multiset(ps)
    ensures Drawn(ps, Bracket(shuffled))
    ensures forall k | 0 <= k < |Bracket(shuffled)| :: Bracket(shuffled)[k].status == BYE <==> 2 * k + 1 == |ps|
  {
    DrawSeats(ps, shuffled);
    var ms := Bracket(shuffled);
    forall k | 0 <= k < |ms|
      ensures ms[k].round == 1 && ms[k].number == k + 1
      ensures ms[k].player2.None? <==> 2 * k + 1 == |ps|
      ensures ms[k].status == BYE <==> 2 * k + 1 == |ps|
    {
      assert ms[k] == Pairing(shuffled, k);
    }
  }

  /** Once each: a drawn round holds every participant once and nobody else. */
  lemma {:induction false} EachOnce(ps: seq<Participant>, ms: seq<Match>, u: User)
    requires Distinct(ps) && Drawn(ps, ms)
    ensures multiset(Players(ms))[u] == if Enrolled(ps, u) then 1 else 0
  {
    CountDistinct(ps, u);
  }

  lemma {:induction false} CountDistinct(ps: seq<Participant>, u: User)
    requires Distinct(ps)
    ensures multiset(UsersOf(ps))[u] == if Enrolled(ps, u) then 1 else 0
  {
    if ps != [] {
      var init, p := ps[..|ps| - 1], ps[|ps| - 1];
      CountDistinct(init, u);
      assert UsersOf(ps) == UsersOf(init) + [p.user];
      if p.user == u {
        assert !Enrolled(init, u);
        assert ps[|ps| - 1].user == u;
      } else {
        assert Enrolled(init, u) ==> Enrolled(ps, u) by {
          assert forall i | 0 <= i < |init| :: init[i] == ps[i];
        }
        assert Enrolled(ps, u) ==> Enrolled(init, u) by {
          assert forall i | 0 <= i < |ps| && ps[i].user == u :: i < |init| && init[i] == ps[i];
        }
      }
    }
  }

  // ---------- every run ----------

  /** What is true of a tournament at every moment of its life. */
  ghost predicate Sound(t: Tournament) {
    && Distinct(t.participants) && |t.participants| <= Max(0, t.maxParticipants)
    && (t.state == REGISTRATION ==> t.matches == [])
    && (t.state == IN_PROGRESS ==> |t.participants| >= 2 && Drawn(t.participants, t.matches))
    && (t.state == COMPLETED ==> t.matches == [] || Drawn(t.participants, t.matches))
  }

  ghost predicate SameLineup(a: seq<Match>, b: seq<Match>) {
    |a| == |b| && forall k | 0 <= k < |a| ::
      && a[k].round == b[k].round && a[k].number == b[k].number
      && a[k].player1 == b[k].player1 && a[k].player2 == b[k].player2
  }

  /**
   `t'` is a later moment of `t`: what registration closed stays closed, with the same participants and the
   same draw.
   */
  ghost predicate Later(t: Tournament, t': Tournament) {
    && t'.slug == t.slug && t'.organizer == t.organizer && t'.maxParticipants == t.maxParticipants
    && (t.state != REGISTRATION ==>
          t'.state != REGISTRATION && t'.participants == t.participants && SameLineup(t.matches, t'.matches))
    && (t.state == COMPLETED ==> t'.state == COMPLETED)
  }

  lemma {:induction false} LineupKeepsPlayers(a: seq<Match>, b: seq<Match>)
    requires SameLineup(a, b)
    ensures Players(a) == Players(b)
  {
    if a != [] {
      LineupKeepsPlayers(a[..|a| - 1], b[..|b| - 1]);
      assert a[|a| - 1].player1 == b[|b| - 1].player1;
    }
  }

  lemma {:induction false} LineupKeepsDrawn(ps: seq<Participant>, a: seq<Match>, b: seq<Match>)
    requires Drawn(ps, a) && SameLineup(a, b)
    ensures Drawn(ps, b)
  {
    LineupKeepsPlayers(a, b);
    forall k | 0 <= k < |b|
      ensures b[k].round == 1 && b[k].number == k + 1 && (b[k].player2.None? <==> 2 * k + 1 == |ps|)
    {
      assert a[k].round == 1;
    }
  }

  lemma {:induction false} WithoutKeeps(ps: seq<Participant>, u: User)
    requires Distinct(ps)
    ensures var r := Without(ps, u); Distinct(r) && |r| <= |ps| && !Enrolled(r, u)
    ensures forall p :: p in Without(ps, u) <==> p in ps && p.user != u
  {
    if ps != [] {
      var init, p := ps[..|ps| - 1], ps[|ps| - 1];
      WithoutKeeps(init, u);
      assert ps == init + [p];
      var rest := Without(init, u);
      if p.user != u {
        DistinctSnoc(init, rest, p);
      }
    }
  }

  lemma DistinctSnoc(init: seq<Participant>, rest: seq<Participant>, p: Participant)
    requires Distinct(init + [p]) && Distinct(rest) && forall q | q in rest :: q in init
    ensures Distinct(rest + [p])
  {
    forall i | 0 <= i < |rest| ensures rest[i].user != p.user {
      assert rest[i] in init;
      var j :| 0 <= j < |init| && init[j] == rest[i];
      assert (init + [p])[j] == init[j] && (init + [p])[|init|] == p;
    }
  }

  lemma {:induction false} RegisterKeepsSound(t: Tournament, id: Id, u: User)
    requires Sound(t) && OnOne(t, Register(id, u)).Some?
    ensures var t' := OnOne(t, Register(id, u)).value; Sound(t') && Later(t, t')
  {
    assert forall i | 0 <= i < |t.participants| :: t.participants[i].user != u;
  }

  lemma {:induction false} UnregisterKeepsSound(t: Tournament, id: Id, u: User)
    requires Sound(t) && OnOne(t, Unregister(id, u)).Some?
    ensures var t' := OnOne(t, Unregister(id, u)).value; Sound(t') && Later(t, t')
  {
    WithoutKeeps(t.participants, u);
  }

  lemma EndKeepsSound(t: Tournament, id: Id, u: User)
    requires Sound(t) && OnOne(t, End(id, u)).Some?
    ensures var t' := OnOne(t, End(id, u)).value; Sound(t') && Later(t, t')
  {
  }

  lemma {:induction false} StartKeepsSound(t: Tournament, id: Id, u: User, shuffled: seq<Participant>)
    requires Sound(t) && OnOne(t, Start(id, u, shuffled)).Some? && multiset(shuffled) == multiset(t.participants)
    ensures var t' := OnOne(t, Start(id, u, shuffled)).value; Sound(t') && Later(t, t')
  {
    DrawIsPartition(t.participants, shuffled);
    assert t.matches + Bracket(shuffled) == Bracket(shuffled);
  }

  lemma {:induction false} ReportKeepsSound(t: Tournament, id: Id, index: nat, winner: User, score: string)
    requires Sound(t) && OnOne(t, Report(id, index, winner, score)).Some?
    ensures var t' := OnOne(t, Report(id, index, winner, score)).value; Sound(t') && Later(t, t')
  {
    var t' := OnOne(t, Report(id, index, winner, score)).value;
    assert SameLineup(t.matches, t'.matches);
    if t.matches != [] {
      LineupKeepsDrawn(t.participants, t.matches, t'.matches);
    }
  }

  lemma {:induction false} OneKeepsSound(t: Tournament, op: Op)
    requires !op.Create? && Sound(t) && OnOne(t, op).Some?
    requires op.Start? ==> multiset(op.shuffled) == multiset(t.participants)
    ensures Sound(OnOne(t, op).value) && Later(t, OnOne(t, op).value)
  {
    match op
    case Register(id, u) => RegisterKeepsSound(t, id, u);
    case Unregister(id, u) => UnregisterKeepsSound(t, id, u);
    case Start(id, u, shuffled) => StartKeepsSound(t, id, u, shuffled);
    case Report(id, index, winner, score) => ReportKeepsSound(t, id, index, winner, score);
    case End(id, u) => EndKeepsSound(t, id, u);
  }

  ghost predicate AllSound(st: State) {
    forall id | id in st.tournaments :: id < st.next && Sound(st.tournaments[id])
  }

  ghost predicate AllLater(st: State, st': State) {
    forall id | id in st.tournaments :: id in st'.tournaments && Later(st.tournaments[id], st'.tournaments[id])
  }

  lemma {:induction false} StepOnOne(st: State, op: Op, id: Id)
    requires AllSound(st) && Shuffles(st, op) && id in st.tournaments
    ensures id in Step(st, op).0.tournaments && Later(st.tournaments[id], Step(st, op).0.tournaments[id])
    ensures Sound(Step(st, op).0.tournaments[id])
  {
    assert Sound(st.tournaments[id]);
    if !op.Create? && op.id == id && OnOne(st.tournaments[id], op).Some? {
      OneKeepsSound(st.tournaments[id], op);
    } else {
      assert Step(st, op).0.tournaments[id] == st.tournaments[id];
    }
  }

  lemma {:induction false} StepKeepsSound(st: State, op: Op)
    requires AllSound(st) && Shuffles(st, op)
    ensures var st' := Step(st, op).0; AllSound(st') && AllLater(st, st')
  {
    var st' := Step(st, op).0;
    forall id | id in st'.tournaments ensures id < st'.next && Sound(st'.tournaments[id]) {
      if id in st.tournaments {
        StepOnOne(st, op, id);
      } else {
        assert id == st.next && st'.tournaments[id].participants == [];
      }
    }
    forall id | id in st.tournaments
      ensures id in st'.tournaments && Later(st.tournaments[id], st'.tournaments[id])
    {
      StepOnOne(st, op, id);
    }
  }

  /** No two tournaments share a slug. */
  ghost predicate SlugsUnique(st: State) {
    forall i, j | i in st.tournaments && j in st.tournaments && i != j ::
      st.tournaments[i].slug != st.tournaments[j].slug
  }

  lemma {:induction false} StepKeepsSlugs(st: State, op: Op)
    requires AllSound(st) && SlugsUnique(st) && Shuffles(st, op)
    ensures SlugsUnique(Step(st, op).0)
  {
    StepKeepsSound(st, op);
    var st' := Step(st, op).0;
    forall i, j | i in st'.tournaments && j in st'.tournaments && i != j
      ensures st'.tournaments[i].slug != st'.tournaments[j].slug
    {
      if i in st.tournaments && j in st.tournaments {
        assert Later(st.tournaments[i], st'.tournaments[i]) && Later(st.tournaments[j], st'.tournaments[j]);
      }
    }
  }

  /** A serial run: states, and the calls between them. */
  ghost predicate IsRun(states: seq<State>, ops: seq<Op>) {
    && |states| == |ops| + 1 && states[0] == NOTHING
    && forall n | 0 <= n < |ops| :: Shuffles(states[n], ops[n]) && states[n + 1] == Step(states[n], ops[n]).0
  }

  lemma {:induction false} RunsStaySound(states: seq<State>, ops: seq<Op>, n: nat)
    requires IsRun(states, ops) && n < |states|
    ensures AllSound(states[n]) && SlugsUnique(states[n])
  {
    if n > 0 {
      RunsStaySound(states, ops, n - 1);
      StepKeepsSound(states[n - 1], ops[n - 1]);
      StepKeepsSlugs(states[n - 1], ops[n - 1]);
    }
  }

  /**
   In every run, from the moment a tournament has left registration: its participants, numbering no more than
   the maximum, and its first-round line-up stay what they are, and the line-up seats every participant once.
   */
  lemma {:induction false} BracketStands(states: seq<State>, ops: seq<Op>, m: nat, n: nat, id: Id)
    requires IsRun(states, ops) && m <= n < |states| && id in states[m].tournaments
    ensures id in states[n].tournaments
    ensures Later(states[m].tournaments[id], states[n].tournaments[id]) && Sound(states[n].tournaments[id])
  {
    if m == n {
      RunsStaySound(states, ops, n);
    } else {
      BracketStands(states, ops, m, n - 1, id);
      RunLater(states, ops, n - 1, states[m].tournaments[id], id);
    }
  }

  lemma RunLater(states: seq<State>, ops: seq<Op>, n: nat, t: Tournament, id: Id)
    requires IsRun(states, ops) && n < |ops| && id in states[n].tournaments && Later(t, states[n].tournaments[id])
    ensures id in states[n + 1].tournaments
    ensures Later(t, states[n + 1].tournaments[id]) && Sound(states[n + 1].tournaments[id])
  {
    RunsStaySound(states, ops, n);
    LaterStep(t, states[n], ops[n], id);
  }

  lemma {:induction false} LaterStep(t: Tournament, st: State, op: Op, id: Id)
    requires AllSound(st) && Shuffles(st, op) && id in st.tournaments && Later(t, st.tournaments[id])
    ensures id in Step(st, op).0.tournaments && Later(t, Step(st, op).0.tournaments[id])
    ensures Sound(Step(st, op).0.tournaments[id])
  {
    StepOnOne(st, op, id);
    LaterTwice(t, st.tournaments[id], Step(st, op).0.tournaments[id]);
  }

  lemma LaterTwice(t: Tournament, t': Tournament, t'': Tournament)
    requires Later(t, t') && Later(t', t'')
    ensures Later(t, t'')
  {
  }

  // ---------- seeds ----------

  ghost predicate Seeded(ps: seq<Participant>) {
    forall i | 0 <= i < |ps| :: ps[i].seed == i + 1
  }

  /** Some participant other than the last to come. */
  predicate Earlier(ps: seq<Participant>, u: User) { exists i :: 0 <= i < |ps| - 1 && ps[i].user == u }

  /** Of distinct participants, removing one leaves all that came before in place and moves up all that came after. */
  lemma {:induction false} WithoutAt(ps: seq<Participant>, u: User, i: nat)
    requires Distinct(ps) && i < |ps| && ps[i].user == u
    ensures Without(ps, u) == ps[..i] + ps[i + 1..]
  {
    var n := |ps| - 1;
    if i == n {
      WithoutNobody(ps[..n], u);
    } else {
      WithoutAt(ps[..n], u, i);
      assert ps[i].user != ps[n].user;
      assert ps[..i] + ps[i + 1..] == (ps[..n][..i] + ps[..n][i + 1..]) + [ps[n]];
    }
  }

  lemma {:induction false} WithoutNobody(ps: seq<Participant>, u: User)
    requires !Enrolled(ps, u)
    ensures Without(ps, u) == ps
  {
    if ps != [] {
      var n := |ps| - 1;
      assert ps[n].user != u;
      assert forall i | 0 <= i < n :: ps[..n][i] == ps[i];
      WithoutNobody(ps[..n], u);
      assert ps == ps[..n] + [ps[n]];
    }
  }

  /** Unregistering keeps the seeds 1 to n exactly when it names nobody but the last to come. */
  lemma {:induction false} SeedsKeptExactly(ps: seq<Participant>, u: User)
    requires Distinct(ps) && Seeded(ps)
    ensures Seeded(Without(ps, u)) <==> !Earlier(ps, u)
  {
    if Enrolled(ps, u) {
      var i: nat :| 0 <= i < |ps| && ps[i].user == u;
      WithoutAt(ps, u, i);
      if i < |ps| - 1 {
        assert Without(ps, u)[i] == ps[i + 1];
      }
    } else {
      WithoutNobody(ps, u);
    }
  }

  /** The call is an accepted unregistering of an earlier participant. */
  predicate Gaps(st: State, op: Op, id: Id) {
    && op.Unregister? && op.id == id && id in st.tournaments
    && st.tournaments[id].state == REGISTRATION && Earlier(st.tournaments[id].participants, op.user)
  }

  lemma {:induction false} OneSeeds(t: Tournament, op: Op)
    requires !op.Create? && Distinct(t.participants) && Seeded(t.participants) && OnOne(t, op).Some?
    ensures Seeded(OnOne(t, op).value.participants) <==> !(op.Unregister? && Earlier(t.participants, op.user))
  {
    var ps := t.participants;
    if op.Unregister? {
      SeedsKeptExactly(ps, op.user);
    } else if op.Register? {
      assert OnOne(t, op).value.participants == ps + [Participant(op.user, |ps| + 1)];
    } else {
      assert OnOne(t, op).value.participants == ps;
    }
  }

  lemma {:induction false} StepSeeds(st: State, op: Op, id: Id)
    requires AllSound(st) && id in st.tournaments && Seeded(st.tournaments[id].participants)
    ensures id in Step(st, op).0.tournaments
    ensures Seeded(Step(st, op).0.tournaments[id].participants) <==> !Gaps(st, op, id)
  {
    var t := st.tournaments[id];
    assert Sound(t);
    if !op.Create? && op.id == id && OnOne(t, op).Some? {
      OneSeeds(t, op);
    } else {
      assert Step(st, op).0.tournaments[id] == t;
    }
  }

  ghost predicate SeededAt(st: State, id: Id) { id in st.tournaments ==> Seeded(st.tournaments[id].participants) }

  lemma {:induction false} NoGapsSeeded(states: seq<State>, ops: seq<Op>, id: Id, n: nat)
    requires IsRun(states, ops) && n < |states| && forall m | 0 <= m < |ops| :: !Gaps(states[m], ops[m], id)
    ensures SeededAt(states[n], id)
  {
    if n > 0 {
      NoGapsSeeded(states, ops, id, n - 1);
      RunsStaySound(states, ops, n - 1);
      assert states[n] == Step(states[n - 1], ops[n - 1]).0 && !Gaps(states[n - 1], ops[n - 1], id);
      if id in states[n - 1].tournaments {
        StepSeeds(states[n - 1], ops[n - 1], id);
      }
    }
  }

  /**
   Over any run, a tournament's participants are at every moment seeded 1 to n in the order they came, if and only if
   no accepted unregistering from it names anyone but the last to come.
   */
  lemma {:induction false} SeedsExactly(states: seq<State>, ops: seq<Op>, id: Id)
    requires IsRun(states, ops)
    ensures (forall n | 0 <= n < |states| :: SeededAt(states[n], id))
            <==> forall m | 0 <= m < |ops| :: !Gaps(states[m], ops[m], id)
  {
    if forall m | 0 <= m < |ops| :: !Gaps(states[m], ops[m], id) {
      forall n | 0 <= n < |states| ensures SeededAt(states[n], id) {
        NoGapsSeeded(states, ops, id, n);
      }
    } else {
      var m :| 0 <= m < |ops| && Gaps(states[m], ops[m], id);
      RunsStaySound(states, ops, m);
      assert states[m + 1] == Step(states[m], ops[m]).0;
      if SeededAt(states[m], id) {
        StepSeeds(states[m], ops[m], id);
        assert !SeededAt(states[m + 1], id);
      }
    }
  }

  /** After such a gap, whoever registers next is given the seed the last participant already has. */
  lemma {:induction false} SeedsCollide(t: Tournament, id: Id, u: User, next: User)
    requires t.state == REGISTRATION && Distinct(t.participants) && Seeded(t.participants)
    requires Earlier(t.participants, u) && |t.participants| <= t.maxParticipants
    requires next == u || !Enrolled(t.participants, next)
    ensures var n, left := |t.participants|, OnOne(t, Unregister(id, u));
            left.Some? &&
            var after := OnOne(left.value, Register(id, next));
            after.Some? && |after.value.participants| == n
            && after.value.participants[n - 2] == t.participants[n - 1]
            && after.value.participants[n - 1] == Participant(next, n) && t.participants[n - 1].seed == n
  {
    var ps := t.participants;
    EarlierLeaves(ps, u);
    NotEnrolledAfter(ps, u, next);
    var left := Without(ps, u);
    assert OnOne(t, Unregister(id, u)) == Some(t.(participants := left));
    assert OnOne(t.(participants := left), Register(id, next))
        == Some(t.(participants := left + [Participant(next, |left| + 1)]));
  }

  lemma {:induction false} EarlierLeaves(ps: seq<Participant>, u: User)
    requires Distinct(ps) && Earlier(ps, u)
    ensures |ps| >= 2 && |Without(ps, u)| == |ps| - 1 && Without(ps, u)[|ps| - 2] == ps[|ps| - 1]
  {
    var i: nat :| 0 <= i < |ps| - 1 && ps[i].user == u;
    WithoutAt(ps, u, i);
  }

  lemma {:induction false} NotEnrolledAfter(ps: seq<Participant>, u: User, next: User)
    requires Distinct(ps) && (next == u || !Enrolled(ps, next))
    ensures !Enrolled(Without(ps, u), next)
  {
    WithoutKeeps(ps, u);
    var left := Without(ps, u);
    forall j | 0 <= j < |left| ensures left[j].user != next {
      assert left[j] in left;
    }
  }
}

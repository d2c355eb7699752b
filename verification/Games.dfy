/** Player statistics of ranked games: the clamped Elo walk, the leaderboard and matchmaking. */
module Games {
  import opened Prelude
  import opened Ranking

  type User = string

  datatype Player = Player(wins: int, losses: int, draws: int, score: int, elo: int)
  datatype Stats = Stats(wins: Option<int>, losses: Option<int>, draws: Option<int>, score: Option<int>)

  /** The statistics object of a game, in insertion order. */
  datatype Entry = Entry(user: User, player: Player)

  datatype Game = Game(isRanked: bool, entries: seq<Entry>)
  datatype Report = Report(user: User, stats: Stats)

  const NEWCOMER := Player(0, 0, 0, 0, 1000)

  /** A number that is given and not zero, as `if (stats.wins)` tests. */
  predicate Truthy(v: Option<int>) { v.Some? && v.value != 0 }

  function OrZero(v: Option<int>): int { if v.Some? then v.value else 0 }

  function Updated(p: Player, s: Stats): Player {
    var won := if Truthy(s.wins) then p.elo + 25 else p.elo;
    var elo := if Truthy(s.losses) then Max(0, won - 20) else won;
    Player(p.wins + OrZero(s.wins), p.losses + OrZero(s.losses), p.draws + OrZero(s.draws),
           p.score + OrZero(s.score), elo)
  }

  function Find(entries: seq<Entry>, u: User): Option<Player> {
    if entries == [] then None
    else if entries[0].user == u then Some(entries[0].player) else Find(entries[1..], u)
  }

  function PlayerOf(entries: seq<Entry>, u: User): Player {
    if Find(entries, u).Some? then Find(entries, u).value else NEWCOMER
  }

  /** `currentStats[userId] = playerData`: in place when present, at the end otherwise. */
  function Store(entries: seq<Entry>, u: User, p: Player): seq<Entry> {
    if entries == [] then [Entry(u, p)]
    else if entries[0].user == u then [Entry(u, p)] + entries[1..]
    else [entries[0]] + Store(entries[1..], u, p)
  }

  function Reported(entries: seq<Entry>, r: Report): seq<Entry> {
    Store(entries, r.user, Updated(PlayerOf(entries, r.user), r.stats))
  }

  function Run(entries: seq<Entry>, reports: seq<Report>): seq<Entry> {
    if reports == [] then entries else Reported(Run(entries, reports[..|reports| - 1]), reports[|reports| - 1])
  }

  class GamesService {
    var games: map<string, Game>

    constructor (games: map<string, Game>)
      ensures this.games == games
    {
      this.games := games;
    }

    /** `None` is the error for a missing or unranked game, which changes nothing. */
    method UpdatePlayerStats(gameId: string, u: User, stats: Stats) returns (r: Option<Player>)
      modifies this
      ensures r.Some? <==> gameId in old(games) && old(games)[gameId].isRanked
      ensures r.None? ==> games == old(games)
      ensures r.Some? ==>
                var entries := Reported(old(games)[gameId].entries, Report(u, stats));
                games == old(games)[gameId := old(games)[gameId].(entries := entries)] && Find(entries, u) == r
    {
      if gameId !in games { return None; }
      var game := games[gameId];
      if !game.isRanked { return None; }
      var p := PlayerOf(game.entries, u);
      if Truthy(stats.wins) { p := p.(wins := p.wins + stats.wins.value); }
      if Truthy(stats.losses) { p := p.(losses := p.losses + stats.losses.value); }
      if Truthy(stats.draws) { p := p.(draws := p.draws + stats.draws.value); }
      if Truthy(stats.score) { p := p.(score := p.score + stats.score.value); }
      if Truthy(stats.wins) { p := p.(elo := p.elo + 25); }
      if Truthy(stats.losses) { p := p.(elo := Max(0, p.elo - 20)); }
      StoreFinds(game.entries, u, p, u);
      games := games[gameId := game.(entries := Store(game.entries, u, p))];
      return Some(p);
    }
  }

  lemma {:induction false} StoreFinds(entries: seq<Entry>, u: User, p: Player, v: User)
    ensures Find(Store(entries, u, p), v) == if v == u then Some(p) else Find(entries, v)
  {
    if entries != [] {
      if entries[0].user != u {
        StoreFinds(entries[1..], u, p, v);
        assert Store(entries, u, p)[1..] == Store(entries[1..], u, p);
      } else {
        assert Store(entries, u, p)[1..] == entries[1..];
      }
    }
  }

  // ---------- the rating of one user over any run ----------

  function ReportsOf(reports: seq<Report>, u: User): seq<Stats> {
    if reports == [] then [] else
      var rest, r := ReportsOf(reports[..|reports| - 1], u), reports[|reports| - 1];
      if r.user == u then rest + [r.stats] else rest
  }

  function PlayerAfter(p: Player, all: seq<Stats>): Player {
    if all == [] then p else Updated(PlayerAfter(p, all[..|all| - 1]), all[|all| - 1])
  }

  /** A user's record after a run depends on that user's own reports only, applied in order. */
  lemma {:induction false} OwnReportsOnly(entries: seq<Entry>, reports: seq<Report>, u: User)
    ensures PlayerOf(Run(entries, reports), u) == PlayerAfter(PlayerOf(entries, u), ReportsOf(reports, u))
    ensures Find(Run(entries, reports), u).Some? <==> Find(entries, u).Some? || ReportsOf(reports, u) != []
  {
    if reports != [] {
      var before, r := reports[..|reports| - 1], reports[|reports| - 1];
      OwnReportsOnly(entries, before, u);
      var e := Run(entries, before);
      StoreFinds(e, r.user, Updated(PlayerOf(e, r.user), r.stats), u);
      if r.user == u {
        var all := ReportsOf(reports, u);
        assert all[..|all| - 1] == ReportsOf(before, u);
      }
    }
  }

  /** The rating steps of one report: a win step, then a loss step. */
  function StepsOf(s: Stats): seq<int> {
    (if Truthy(s.wins) then [25] else []) + (if Truthy(s.losses) then [-20] else [])
  }

  function Steps(all: seq<Stats>): seq<int> {
    if all == [] then [] else Steps(all[..|all| - 1]) + StepsOf(all[|all| - 1])
  }

  /** The walk that starts at `from` and never goes below zero. */
  function Walk(from: int, steps: seq<int>): int {
    if steps == [] then from else Max(0, Walk(from, steps[..|steps| - 1]) + steps[|steps| - 1])
  }

  lemma {:induction false} WalkAppend(from: int, a: seq<int>, b: seq<int>)
    ensures Walk(from, a + b) == Walk(Walk(from, a), b)
  {
    if b == [] {
      assert a + b == a;
    } else {
      assert (a + b)[..|a + b| - 1] == a + b[..|b| - 1];
      WalkAppend(from, a, b[..|b| - 1]);
    }
  }

  lemma {:induction false} ReportWalks(p: Player, s: Stats)
    requires p.elo >= 0
    ensures Updated(p, s).elo == Walk(p.elo, StepsOf(s))
  {
    var steps := StepsOf(s);
    if |steps| == 2 {
      assert steps[..1] == [25] && steps[..1][..0] == [];
      assert Walk(p.elo, steps[..1]) == p.elo + 25;
    } else if |steps| == 1 {
      assert steps[..0] == [];
    }
  }

  /** Reports move the rating exactly as the clamped walk over their steps does. */
  lemma {:induction false} EloIsWalk(p: Player, all: seq<Stats>)
    requires p.elo >= 0
    ensures PlayerAfter(p, all).elo == Walk(p.elo, Steps(all)) >= 0
  {
    if all != [] {
      var before, s := all[..|all| - 1], all[|all| - 1];
      EloIsWalk(p, before);
      ReportWalks(PlayerAfter(p, before), s);
      WalkAppend(p.elo, Steps(before), StepsOf(s));
      WalkStaysUp(PlayerAfter(p, before).elo, StepsOf(s));
    }
  }

  lemma {:induction false} WalkStaysUp(from: int, steps: seq<int>)
    requires from >= 0
    ensures Walk(from, steps) >= 0
  {
    if steps != [] {
      WalkStaysUp(from, steps[..|steps| - 1]);
    }
  }

  function Sum(steps: seq<int>, n: nat): int
    requires n <= |steps|
  {
    if n == 0 then 0 else Sum(steps, n - 1) + steps[n - 1]
  }

  lemma {:induction false} SumPrefix(steps: seq<int>, m: nat, n: nat)
    requires n <= m <= |steps|
    ensures Sum(steps[..m], n) == Sum(steps, n)
  {
    if n > 0 {
      SumPrefix(steps, m, n - 1);
    }
  }

  /** `r` is the greatest of `from + S_n` and all `S_n - S_k` with `1 <= k <= n`. */
  ghost predicate IsClosedForm(from: int, steps: seq<int>, r: int) {
    var n := |steps|;
    && from + Sum(steps, n) <= r
    && (forall k: nat | 1 <= k <= n :: Sum(steps, n) - Sum(steps, k) <= r)
    && (r == from + Sum(steps, n) || exists k: nat :: 1 <= k <= n && r == Sum(steps, n) - Sum(steps, k))
  }

  /** The closed form of the clamped walk. */
  lemma {:induction false} WalkClosedForm(from: int, steps: seq<int>)
    requires from >= 0
    ensures IsClosedForm(from, steps, Walk(from, steps))
  {
    if steps != [] {
      var n := |steps| - 1;
      var before := steps[..n];
      WalkClosedForm(from, before);
      SumPrefix(steps, n, n);
      var w, r := Walk(from, before), Walk(from, steps);
      forall k: nat | 1 <= k <= n + 1 ensures Sum(steps, n + 1) - Sum(steps, k) <= r {
        if k <= n {
          SumPrefix(steps, n, k);
          assert Sum(before, n) - Sum(before, k) <= w;
        }
      }
      if w + steps[n] < 0 {
        assert r == Sum(steps, n + 1) - Sum(steps, n + 1);
      } else if w != from + Sum(before, n) {
        var k: nat :| 1 <= k <= n && w == Sum(before, n) - Sum(before, k);
        SumPrefix(steps, n, k);
        assert r == Sum(steps, n + 1) - Sum(steps, k);
      }
    }
  }

  function Wins(all: seq<Stats>): nat {
    if all == [] then 0 else Wins(all[..|all| - 1]) + if Truthy(all[|all| - 1].wins) then 1 else 0
  }

  lemma {:induction false} EloBound(p: Player, all: seq<Stats>)
    requires p.elo >= 0
    ensures 0 <= PlayerAfter(p, all).elo <= p.elo + 25 * Wins(all)
  {
    if all != [] {
      EloBound(p, all[..|all| - 1]);
    }
  }

  /**
   Elo over any run of reports, of any users, on a new game: a user's rating is the greatest of
   1000 plus the sum of that user's steps and the sums of the steps after each of them; it is
   never negative and at most 25 above 1000 for each of the user's reports with wins.
   */
  lemma {:induction false} EloClosedForm(reports: seq<Report>, u: User)
    ensures var elo, own := PlayerOf(Run([], reports), u).elo, ReportsOf(reports, u);
            IsClosedForm(1000, Steps(own), elo) && 0 <= elo <= 1000 + 25 * Wins(own)
  {
    OwnReportsOnly([], reports, u);
    EloIsWalk(NEWCOMER, ReportsOf(reports, u));
    WalkClosedForm(1000, Steps(ReportsOf(reports, u)));
    EloBound(NEWCOMER, ReportsOf(reports, u));
  }

  // ---------- leaderboard and matchmaking ----------

  function EloKey(): Entry -> real { (e: Entry) => e.player.elo as real }

  /** `slice(0, limit)`, where a negative limit counts from the end. */
  function SliceLimit(n: nat, limit: int): nat {
    if limit >= 0 then limit else Max(0, n + limit)
  }

  function Leaderboard(entries: seq<Entry>, limit: int): seq<Entry> {
    Take(Ranked(entries, EloKey()), SliceLimit(|entries|, limit))
  }

  function Without(entries: seq<Entry>, u: User): seq<Entry> {
    if entries == [] then [] else (if entries[0].user == u then [] else [entries[0]]) + Without(entries[1..], u)
  }

  /** A rating of 0 reads as absent here, so it counts as 1000 like a missing record. */
  function EffectiveElo(entries: seq<Entry>, u: User): int {
    var elo := PlayerOf(entries, u).elo;
    if elo == 0 then 1000 else elo
  }

  function Abs(x: int): int { if x < 0 then -x else x }

  function Gap(e: Entry, elo: int): int { Abs(e.player.elo - elo) }

  function Nearness(elo: int): Entry -> real { (e: Entry) => (-Gap(e, elo)) as real }

  function Matchmake(entries: seq<Entry>, u: User): seq<Entry> {
    Take(Ranked(Without(entries, u), Nearness(EffectiveElo(entries, u))), 10)
  }

  /** The leaderboard lists the best players first, as many as asked for, and omits no better one. */
  lemma {:induction false} LeaderboardIsTop(entries: seq<Entry>, limit: int)
    ensures var top := Leaderboard(entries, limit);
            && |top| == (if limit >= 0 then Min(|entries|, limit) else Max(0, |entries| + limit))
            && multiset(top) <= multiset(entries)
            && (forall i, j | 0 <= i < j < |top| :: top[i].player.elo >= top[j].player.elo)
            && forall x, y | x in top && y in multiset(entries) - multiset(top) :: x.player.elo >= y.player.elo
  {
    TakeIsTop(entries, SliceLimit(|entries|, limit), EloKey());
    var top := Leaderboard(entries, limit);
    forall i, j | 0 <= i < j < |top| ensures top[i].player.elo >= top[j].player.elo {
      assert EloKey()(top[i]) >= EloKey()(top[j]);
    }
    forall x, y | x in top && y in multiset(entries) - multiset(top) ensures x.player.elo >= y.player.elo {
      assert EloKey()(x) >= EloKey()(y);
    }
  }

  lemma WithoutCons(first: Entry, rest: seq<Entry>, u: User)
    ensures Without([first] + rest, u) == if first.user == u then Without(rest, u) else [first] + Without(rest, u)
  {
    assert ([first] + rest)[1..] == rest;
  }

  lemma CountCons(first: Entry, rest: seq<Entry>, e: Entry)
    ensures multiset([first] + rest)[e] == (if first == e then 1 else 0) + multiset(rest)[e]
  {
  }

  lemma {:induction false} WithoutCounts(entries: seq<Entry>, u: User, e: Entry)
    ensures multiset(Without(entries, u))[e] == if e.user == u then 0 else multiset(entries)[e]
  {
    if entries != [] {
      var first, rest := entries[0], entries[1..];
      WithoutCounts(rest, u, e);
      assert entries == [first] + rest;
      WithoutCons(first, rest, u);
      CountCons(first, rest, e);
      CountCons(first, Without(rest, u), e);
    }
  }

  lemma {:induction false} WithoutKeepsOthers(entries: seq<Entry>, u: User)
    ensures forall e :: multiset(Without(entries, u))[e] == if e.user == u then 0 else multiset(entries)[e]
  {
    forall e ensures multiset(Without(entries, u))[e] == if e.user == u then 0 else multiset(entries)[e] {
      WithoutCounts(entries, u, e);
    }
  }

  /** The rating of `x` is at least as near to this one as that of `y`. */
  ghost predicate Nearer(x: Entry, y: Entry, elo: int) {
    forall d: nat | RatedWithin(y, elo, d) :: RatedWithin(x, elo, d)
  }

  predicate RatedWithin(e: Entry, elo: int, d: nat) { e.player.elo - d <= elo <= e.player.elo + d }

  lemma NearerIs(x: Entry, y: Entry, elo: int)
    requires Gap(x, elo) <= Gap(y, elo)
    ensures Nearer(x, y, elo)
  {
  }

  /** Matchmaking offers up to ten others, never the player, nearest first, and passes over no nearer one. */
  lemma {:induction false} MatchmakeIsNearest(entries: seq<Entry>, u: User)
    ensures var found, own := Matchmake(entries, u), PlayerOf(entries, u).elo;
            var elo := if own == 0 then 1000 else own;
            && |found| == Min(10, |Without(entries, u)|)
            && (forall e | e in found :: e.user != u && e in entries)
            && (forall i, j | 0 <= i < j < |found| :: Nearer(found[i], found[j], elo))
            && (forall x: Entry, y: Entry | x in found && y.user != u && y in multiset(entries) - multiset(found) ::
                  Nearer(x, y, elo))
  {
    var others, elo := Without(entries, u), EffectiveElo(entries, u);
    var found := Matchmake(entries, u);
    WithoutKeepsOthers(entries, u);
    TakeIsTop(others, 10, Nearness(elo));
    forall e | e in found ensures e.user != u && e in entries {
      assert e in multiset(found);
      assert multiset(others)[e] > 0;
    }
    forall i, j | 0 <= i < j < |found| ensures Nearer(found[i], found[j], elo) {
      assert Nearness(elo)(found[i]) >= Nearness(elo)(found[j]);
      NearerIs(found[i], found[j], elo);
    }
    forall x: Entry, y: Entry | x in found && y.user != u && y in multiset(entries) - multiset(found)
      ensures Nearer(x, y, elo)
    {
      assert multiset(others)[y] == multiset(entries)[y];
      assert Nearness(elo)(x) >= Nearness(elo)(y);
      NearerIs(x, y, elo);
    }
  }

  // ---------- the other totals ----------

  datatype Totals = Totals(wins: int, losses: int, draws: int, score: int)

  function Reports(all: seq<Stats>): Totals {
    if all == [] then Totals(0, 0, 0, 0) else
      var t, s := Reports(all[..|all| - 1]), all[|all| - 1];
      Totals(t.wins + OrZero(s.wins), t.losses + OrZero(s.losses), t.draws + OrZero(s.draws), t.score + OrZero(s.score))
  }

  /** Over any run of reports of any users on a new game, a user's totals are the sums of that user's own reports. */
  lemma {:induction false} TotalsAddUp(reports: seq<Report>, u: User)
    ensures var p, t := PlayerOf(Run([], reports), u), Reports(ReportsOf(reports, u));
            p.wins == t.wins && p.losses == t.losses && p.draws == t.draws && p.score == t.score
  {
    OwnReportsOnly([], reports, u);
    TotalsOf(NEWCOMER, ReportsOf(reports, u));
  }

  lemma {:induction false} TotalsOf(p: Player, all: seq<Stats>)
    ensures var p', t := PlayerAfter(p, all), Reports(all);
            p'.wins == p.wins + t.wins && p'.losses == p.losses + t.losses
            && p'.draws == p.draws + t.draws && p'.score == p.score + t.score
  {
    if all != [] {
      TotalsOf(p, all[..|all| - 1]);
    }
  }
}

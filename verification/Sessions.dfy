/** Accounts, login sessions and the rotation of refresh tokens. */
module Sessions {
  import opened Prelude

  type UserId = nat
  type SessionId = nat

  /** Refresh tokens are random and never repeat: the n-th one issued is `n`. */
  type Token = nat

  type Time = int

  const WEEK: Time := 7 * 24 * 60 * 60 * 1000

  datatype Status = ACTIVE | INACTIVE | SUSPENDED | BANNED | PENDING_VERIFICATION | DELETED

  /** A password hash verifies exactly its own password, so the password stands for it. */
  datatype User = User(status: Status, password: Option<string>)

  /** A session row. `access` is the stored prefix of the access token, a unique column like `refresh`. */
  datatype Session = Session(id: SessionId, user: UserId, access: string, refresh: Token, expires: Time)

  /** What is known of an issued refresh token: whose, from which login (if a session came with it), and when. */
  datatype Grant = Grant(owner: UserId, chain: Option<SessionId>, at: Time)

  datatype State = State(users: map<UserId, User>, sessions: seq<Session>, issued: seq<Grant>,
                         nextUser: UserId, nextSession: SessionId)

  datatype Which =
    | OfUser(owner: UserId)
    | WithAccess(owner: UserId, access: string)
    | WithId(owner: UserId, id: SessionId)

  datatype Op =
    | Register(secret: string, disposable: bool, strong: bool, taken: bool, now: Time)
    | OAuthSignUp(now: Time)
    | OAuthLogin(user: UserId, now: Time)
    | Login(user: UserId, attempt: string, access: string, now: Time)
    | Logout(user: UserId, access: string)
    | Refresh(token: Token, access: string, now: Time)
    | ChangePassword(user: UserId, attempt: string, chosen: string, strong: bool)
    | RevokeSession(user: UserId, id: SessionId)
    | RevokeAll(user: UserId)
    | Ban(user: UserId)
    | Unban(user: UserId)
    | Suspend(user: UserId)
    | SetStatus(user: UserId, status: Status)
    | ResetPassword(user: UserId, chosen: string)
    | DeleteAccount(user: UserId)

  datatype Outcome = Rejected | Done | Granted(issue: Token)

  const EMPTY := State(map[], [], [], 0, 0)

  predicate Hit(s: Session, w: Which) {
    match w
    case OfUser(u) => s.user == u
    case WithAccess(u, access) => s.user == u && s.access == access
    case WithId(u, id) => s.user == u && s.id == id
  }

  /** `deleteMany`. */
  function Remove(sessions: seq<Session>, w: Which): (r: seq<Session>)
    ensures forall s :: s in r <==> s in sessions && !Hit(s, w)
  {
    if sessions == [] then [] else
      var init, s := sessions[..|sessions| - 1], sessions[|sessions| - 1];
      assert sessions == init + [s];
      if Hit(s, w) then Remove(init, w) else Remove(init, w) + [s]
  }

  predicate AccessTaken(sessions: seq<Session>, access: string) {
    exists i :: 0 <= i < |sessions| && sessions[i].access == access
  }

  /** `findUnique` on the refresh token. */
  function FindRefresh(sessions: seq<Session>, t: Token): (k: Option<nat>)
    ensures k.None? ==> forall i | 0 <= i < |sessions| :: sessions[i].refresh != t
    ensures k.Some? ==> k.value < |sessions| && sessions[k.value].refresh == t
  {
    if sessions == [] then None
    else if sessions[|sessions| - 1].refresh == t then Some(|sessions| - 1)
    else FindRefresh(sessions[..|sessions| - 1], t)
  }

  function Cleared(st: State, u: UserId): State { st.(sessions := Remove(st.sessions, OfUser(u))) }

  function Issued(st: State, u: UserId, now: Time): State { st.(issued := st.issued + [Grant(u, None, now)]) }

  function SignedUp(st: State, password: Option<string>, now: Time): State {
    Issued(st.(users := st.users[st.nextUser := User(ACTIVE, password)], nextUser := st.nextUser + 1), st.nextUser, now)
  }

  function LoggedIn(st: State, u: UserId, access: string, now: Time): State {
    st.(sessions := st.sessions + [Session(st.nextSession, u, access, |st.issued|, now + WEEK)],
        issued := st.issued + [Grant(u, Some(st.nextSession), now)], nextSession := st.nextSession + 1)
  }

  function Rotated(st: State, k: nat, access: string, now: Time): State
    requires k < |st.sessions|
  {
    var s := st.sessions[k];
    st.(sessions := st.sessions[k := s.(access := access, refresh := |st.issued|, expires := now + WEEK)],
        issued := st.issued + [Grant(s.user, Some(s.id), now)])
  }

  predicate MayLogin(st: State, u: UserId, attempt: string) {
    u in st.users && st.users[u].status !in {BANNED, SUSPENDED} && st.users[u].password == Some(attempt)
  }

  /** The row of a refresh that is let through. */
  predicate MayRefresh(st: State, k: nat, t: Token, access: string, now: Time) {
    && k < |st.sessions| && st.sessions[k].refresh == t && st.sessions[k].expires >= now
    && st.sessions[k].user in st.users && st.users[st.sessions[k].user].status == ACTIVE
    && !AccessTaken(st.sessions[..k] + st.sessions[k + 1..], access)
  }

  function WithUser(st: State, u: UserId, user: User): State { st.(users := st.users[u := user]) }

  function Step(st: State, op: Op): (State, Outcome) {
    match op
    case Register(password, disposable, strong, taken, now) =>
      if disposable || !strong || taken then (st, Rejected)
      else (SignedUp(st, Some(password), now), Granted(|st.issued|))
    case OAuthSignUp(now) => (SignedUp(st, None, now), Granted(|st.issued|))
    case OAuthLogin(u, now) =>
      if u !in st.users then (st, Rejected) else (Issued(st, u, now), Granted(|st.issued|))
    case Login(u, attempt, access, now) =>
      if !MayLogin(st, u, attempt) || AccessTaken(st.sessions, access) then (st, Rejected)
      else (LoggedIn(st, u, access, now), Granted(|st.issued|))
    case Logout(u, access) => (st.(sessions := Remove(st.sessions, WithAccess(u, access))), Done)
    case Refresh(t, access, now) =>
      var k := FindRefresh(st.sessions, t);
      if k.None? || !MayRefresh(st, k.value, t, access, now) then (st, Rejected)
      else (Rotated(st, k.value, access, now), Granted(|st.issued|))
    case ChangePassword(u, attempt, chosen, strong) =>
      if u !in st.users || st.users[u].password != Some(attempt) || !strong then (st, Rejected)
      else (Cleared(WithUser(st, u, st.users[u].(password := Some(chosen))), u), Done)
    case RevokeSession(u, id) => (st.(sessions := Remove(st.sessions, WithId(u, id))), Done)
    case RevokeAll(u) => (Cleared(st, u), Done)
    case Ban(u) =>
      if u !in st.users || st.users[u].status == BANNED then (st, Rejected)
      else (Cleared(WithUser(st, u, st.users[u].(status := BANNED)), u), Done)
    case Unban(u) =>
      if u !in st.users || st.users[u].status != BANNED then (st, Rejected)
      else (WithUser(st, u, st.users[u].(status := ACTIVE)), Done)
    case Suspend(u) =>
      if u !in st.users then (st, Rejected) else (WithUser(st, u, st.users[u].(status := SUSPENDED)), Done)
    case SetStatus(u, status) =>
      if u !in st.users then (st, Rejected) else (WithUser(st, u, st.users[u].(status := status)), Done)
    case ResetPassword(u, chosen) =>
      if u !in st.users then (st, Rejected)
      else (Cleared(WithUser(st, u, st.users[u].(password := Some(chosen))), u), Done)
    case DeleteAccount(u) =>
      if u !in st.users then (st, Rejected) else (WithUser(Cleared(st, u), u, User(DELETED, None)), Done)
  }

  // ---------- what every step keeps ----------

  ghost predicate Owned(s: Session, issued: seq<Grant>) {
    s.refresh < |issued| && issued[s.refresh] == Grant(s.user, Some(s.id), s.expires - WEEK)
  }

  /** Rows carry distinct tokens of their own login and owner, issued a week before they expire. */
  ghost predicate Sound(st: State) {
    && (forall s | s in st.sessions :: Owned(s, st.issued) && s.id < st.nextSession)
    && DistinctIds(st.sessions)
  }

  ghost predicate DistinctIds(sessions: seq<Session>) {
    forall i, j | 0 <= i < j < |sessions| :: sessions[i].id != sessions[j].id
  }

  /** The token is in some session row. */
  ghost predicate Live(st: State, t: Token) { exists s :: s in st.sessions && s.refresh == t }

  /** Issued, and in no row. */
  ghost predicate Dead(st: State, t: Token) { t < |st.issued| && !Live(st, t) }

  lemma {:induction false} RemoveDistinct(sessions: seq<Session>, w: Which)
    requires DistinctIds(sessions)
    ensures DistinctIds(Remove(sessions, w))
  {
    if sessions != [] {
      var init, s := sessions[..|sessions| - 1], sessions[|sessions| - 1];
      RemoveDistinct(init, w);
      var rest := Remove(init, w);
      assert forall x | x in init :: x.id != s.id;
      assert forall i | 0 <= i < |rest| :: rest[i] in rest;
    }
  }

  /** Still sound, with no issued token forgotten and no dead one revived. */
  ghost predicate Follows(st: State, st': State) {
    Sound(st') && st.issued <= st'.issued && forall t | Dead(st, t) :: Dead(st', t)
  }

  /** Dropping rows and changing users. */
  lemma {:induction false} RemovingKeeps(st: State, users: map<UserId, User>, w: Which)
    requires Sound(st)
    ensures Follows(st, st.(users := users, sessions := Remove(st.sessions, w)))
  {
    RemoveDistinct(st.sessions, w);
  }

  lemma {:induction false} LoginKeeps(st: State, u: UserId, access: string, now: Time)
    requires Sound(st)
    ensures Follows(st, LoggedIn(st, u, access, now))
  {
    var st' := LoggedIn(st, u, access, now);
    var n := |st.sessions|;
    forall s | s in st'.sessions
      ensures Owned(s, st'.issued) && s.id < st'.nextSession && (s in st.sessions || s == st'.sessions[n])
    {
      assert s != st'.sessions[n] ==> s in st.sessions;
    }
    assert forall i | 0 <= i < n :: st'.sessions[i] in st.sessions;
  }

  lemma {:induction false} RotationRows(st: State, k: nat, access: string, now: Time, s: Session)
    requires k < |st.sessions| && s in Rotated(st, k, access, now).sessions
    ensures s in st.sessions || s == st.sessions[k].(access := access, refresh := |st.issued|, expires := now + WEEK)
  {
  }

  lemma {:induction false} RotationKeeps(st: State, k: nat, access: string, now: Time)
    requires Sound(st) && k < |st.sessions|
    ensures Follows(st, Rotated(st, k, access, now))
  {
    var st' := Rotated(st, k, access, now);
    assert st.sessions[k] in st.sessions;
    forall s | s in st'.sessions
      ensures Owned(s, st'.issued) && s.id < st'.nextSession && (s in st.sessions || s.refresh == |st.issued|)
    {
      RotationRows(st, k, access, now, s);
    }
  }

  lemma {:induction false} IssuingKeeps(st: State, u: UserId, now: Time)
    requires Sound(st)
    ensures Follows(st, Issued(st, u, now))
  {
    forall s | s in st.sessions ensures Owned(s, Issued(st, u, now).issued) {
      assert Owned(s, st.issued);
    }
  }

  lemma {:induction false} SigningUpKeeps(st: State, password: Option<string>, now: Time)
    requires Sound(st)
    ensures Follows(st, SignedUp(st, password, now))
  {
    IssuingKeeps(st.(users := st.users[st.nextUser := User(ACTIVE, password)], nextUser := st.nextUser + 1),
                 st.nextUser, now);
  }

  predicate Issues(op: Op) { op.Register? || op.OAuthSignUp? || op.OAuthLogin? || op.Login? || op.Refresh? }

  lemma {:induction false} IssuingStepKeeps(st: State, op: Op)
    requires Sound(st) && Issues(op)
    ensures Follows(st, Step(st, op).0)
  {
    match op
    case Register(password, _, _, _, now) => SigningUpKeeps(st, Some(password), now);
    case OAuthSignUp(now) => SigningUpKeeps(st, None, now);
    case OAuthLogin(u, now) => IssuingKeeps(st, u, now);
    case Login(u, attempt, access, now) => LoginKeeps(st, u, access, now);
    case Refresh(t, access, now) =>
      var k := FindRefresh(st.sessions, t);
      if k.Some? { RotationKeeps(st, k.value, access, now); }
  }

  lemma {:induction false} RemovingStepKeeps(st: State, op: Op)
    requires Sound(st) && !Issues(op)
    ensures Follows(st, Step(st, op).0)
  {
    var users := Step(st, op).0.users;
    match op
    case Logout(u, access) => RemovingKeeps(st, users, WithAccess(u, access));
    case ChangePassword(u, _, _, _) => RemovingKeeps(st, users, OfUser(u));
    case RevokeSession(u, id) => RemovingKeeps(st, users, WithId(u, id));
    case RevokeAll(u) => RemovingKeeps(st, users, OfUser(u));
    case Ban(u) => RemovingKeeps(st, users, OfUser(u));
    case Unban(_) =>
    case Suspend(_) =>
    case SetStatus(_, _) =>
    case ResetPassword(u, _) => RemovingKeeps(st, users, OfUser(u));
    case DeleteAccount(u) => RemovingKeeps(st, users, OfUser(u));
  }

  /** Every call keeps the rows sound and revives no dead token. */
  lemma {:induction false} StepKeeps(st: State, op: Op)
    requires Sound(st)
    ensures Follows(st, Step(st, op).0)
  {
    if Issues(op) {
      IssuingStepKeeps(st, op);
    } else {
      RemovingStepKeeps(st, op);
    }
  }

  // ---------- runs ----------

  function Run(ops: seq<Op>): State {
    if ops == [] then EMPTY else Step(Run(ops[..|ops| - 1]), ops[|ops| - 1]).0
  }

  /** What call `n` of a run reports. */
  function Reported(ops: seq<Op>, n: nat): Outcome
    requires n < |ops|
  {
    Step(Run(ops[..n]), ops[n]).1
  }

  lemma {:induction false} RunsAreSound(ops: seq<Op>)
    ensures Sound(Run(ops))
  {
    if ops != [] {
      RunsAreSound(ops[..|ops| - 1]);
      StepKeeps(Run(ops[..|ops| - 1]), ops[|ops| - 1]);
    }
  }

  lemma {:induction false} OneMore(ops: seq<Op>, n: nat)
    requires n < |ops|
    ensures Run(ops[..n + 1]) == Step(Run(ops[..n]), ops[n]).0
  {
    assert ops[..n + 1][..n] == ops[..n];
  }

  lemma {:induction false} DeadNext(ops: seq<Op>, n: nat, t: Token)
    requires n < |ops| && Dead(Run(ops[..n]), t)
    ensures Dead(Run(ops[..n + 1]), t)
  {
    OneMore(ops, n);
    RunsAreSound(ops[..n]);
    StepKeeps(Run(ops[..n]), ops[n]);
  }

  /** A dead token stays dead however the run goes on. */
  lemma {:induction false} DeadForever(ops: seq<Op>, m: nat, n: nat, t: Token)
    requires m <= n <= |ops| && Dead(Run(ops[..m]), t)
    ensures Dead(Run(ops[..n]), t)
  {
    if m < n {
      DeadForever(ops, m, n - 1, t);
      DeadNext(ops, n - 1, t);
    }
  }

  /** A dead token is refused. */
  lemma {:induction false} DeadIsRefused(st: State, t: Token, access: string, now: Time)
    requires Dead(st, t)
    ensures Step(st, Refresh(t, access, now)) == (st, Rejected)
  {
    var k := FindRefresh(st.sessions, t);
    assert forall i | 0 <= i < |st.sessions| :: st.sessions[i] in st.sessions;
  }

  /** No two rows of a sound state carry one token. */
  lemma {:induction false} OneRowPerToken(st: State, i: nat, j: nat)
    requires Sound(st) && i < |st.sessions| && j < |st.sessions| && st.sessions[i].refresh == st.sessions[j].refresh
    ensures i == j
  {
    assert st.sessions[i] in st.sessions && st.sessions[j] in st.sessions;
    assert Owned(st.sessions[i], st.issued) && Owned(st.sessions[j], st.issued);
  }

  /** Accepting a token spends it. */
  lemma {:induction false} AcceptedIsSpent(st: State, t: Token, access: string, now: Time)
    requires Sound(st) && Step(st, Refresh(t, access, now)).1 != Rejected
    ensures Dead(Step(st, Refresh(t, access, now)).0, t)
  {
    var k := FindRefresh(st.sessions, t).value;
    var st' := Rotated(st, k, access, now);
    assert st.sessions[k] in st.sessions && Owned(st.sessions[k], st.issued);
    forall s | s in st'.sessions ensures s.refresh != t {
      var i :| 0 <= i < |st'.sessions| && st'.sessions[i] == s;
      if i != k && st.sessions[i].refresh == t {
        OneRowPerToken(st, i, k);
      }
    }
  }

  predicate Accepts(ops: seq<Op>, n: nat, t: Token) {
    n < |ops| && ops[n].Refresh? && ops[n].token == t && Reported(ops, n) != Rejected
  }

  /** Over any run, a refresh token is accepted at most once. */
  lemma {:induction false} AcceptedOnce(ops: seq<Op>, m: nat, n: nat, t: Token)
    requires Accepts(ops, m, t) && Accepts(ops, n, t)
    ensures m == n
  {
    if m < n {
      SpentAfter(ops, m, n, t);
    } else if n < m {
      SpentAfter(ops, n, m, t);
    }
  }

  lemma {:induction false} SpentAfter(ops: seq<Op>, m: nat, n: nat, t: Token)
    requires Accepts(ops, m, t) && m < n < |ops|
    ensures !Accepts(ops, n, t)
  {
    RunsAreSound(ops[..m]);
    AcceptedIsSpent(Run(ops[..m]), t, ops[m].access, ops[m].now);
    OneMore(ops, m);
    DeadForever(ops, m + 1, n, t);
    if ops[n].Refresh? && ops[n].token == t {
      DeadIsRefused(Run(ops[..n]), t, ops[n].access, ops[n].now);
    }
  }

  /** A login's tokens: in every reachable state at most one of them is live. */
  lemma {:induction false} OneLiveTokenPerLogin(ops: seq<Op>, t: Token, t': Token)
    requires Live(Run(ops), t) && Live(Run(ops), t')
    ensures t < |Run(ops).issued| && t' < |Run(ops).issued|
    ensures Run(ops).issued[t].chain.Some? && (Run(ops).issued[t].chain == Run(ops).issued[t'].chain ==> t == t')
  {
    RunsAreSound(ops);
    var st := Run(ops);
    var s :| s in st.sessions && s.refresh == t;
    var s' :| s' in st.sessions && s'.refresh == t';
    assert Owned(s, st.issued) && Owned(s', st.issued);
    assert s.id == s'.id ==> s == s';
  }

  /** Registration and OAuth sign-in hand out a refresh token that no session holds: it is never accepted. */
  lemma {:induction false} SessionlessIsNeverAccepted(ops: seq<Op>, n: nat, t: Token)
    requires Accepts(ops, n, t)
    ensures t < |Run(ops[..n]).issued| && Run(ops[..n]).issued[t].chain.Some?
  {
    var st := Run(ops[..n]);
    var k := FindRefresh(st.sessions, t).value;
    assert st.sessions[k] in st.sessions && Live(st, t);
    OneLiveTokenPerLogin(ops[..n], t, t);
  }

  /** No row but the one of the token has this access token. */
  ghost predicate Unused(st: State, t: Token, access: string) {
    forall i | 0 <= i < |st.sessions| && st.sessions[i].access == access :: st.sessions[i].refresh == t
  }

  predicate Active(st: State, u: UserId) { u in st.users && st.users[u].status == ACTIVE }

  /** A live token is accepted exactly while it is not expired, its owner is active and the access token is unused. */
  lemma {:induction false} LiveAcceptedExactly(st: State, t: Token, access: string, now: Time)
    requires Sound(st) && t < |st.issued|
    ensures Step(st, Refresh(t, access, now)).1 != Rejected
            <==> Live(st, t) && now <= st.issued[t].at + WEEK && Active(st, st.issued[t].owner) && Unused(st, t, access)
  {
    if Live(st, t) {
      var s :| s in st.sessions && s.refresh == t;
      var k := FindRefresh(st.sessions, t).value;
      assert st.sessions[k] in st.sessions && Owned(st.sessions[k], st.issued);
      OthersUnused(st, k, access);
    } else {
      DeadIsRefused(st, t, access, now);
    }
  }

  lemma {:induction false} OthersUnused(st: State, k: nat, access: string)
    requires Sound(st) && k < |st.sessions|
    ensures Unused(st, st.sessions[k].refresh, access)
            <==> !AccessTaken(st.sessions[..k] + st.sessions[k + 1..], access)
  {
    var others := st.sessions[..k] + st.sessions[k + 1..];
    if !AccessTaken(others, access) {
      forall i | 0 <= i < |st.sessions| && i != k ensures st.sessions[i].access != access {
        assert others[if i < k then i else i - 1] == st.sessions[i];
      }
    }
    if Unused(st, st.sessions[k].refresh, access) {
      forall i | 0 <= i < |others| ensures others[i].access != access {
        var j := if i < k then i else i + 1;
        assert others[i] == st.sessions[j];
        if st.sessions[j].refresh == st.sessions[k].refresh {
          OneRowPerToken(st, j, k);
        }
      }
    }
  }

  /** Login and refresh hand out live tokens, registration and OAuth sign-in dead ones. */
  lemma {:induction false} IssuedLiveExactly(st: State, op: Op)
    requires Sound(st) && Step(st, op).1.Granted?
    ensures var r := Step(st, op);
            r.1.issue == |st.issued| < |r.0.issued| && (Live(r.0, r.1.issue) <==> op.Login? || op.Refresh?)
  {
    var st' := Step(st, op).0;
    forall s | s in st.sessions ensures s.refresh < |st.issued| {
      assert Owned(s, st.issued);
    }
    match op
    case Login(_, _, _, _) => assert st'.sessions[|st.sessions|] in st'.sessions;
    case Refresh(t, _, _) => assert st'.sessions[FindRefresh(st.sessions, t).value] in st'.sessions;
    case Register(_, _, _, _, _) =>
    case OAuthSignUp(_) =>
    case OAuthLogin(_, _) =>
  }

  /**
   A token just handed out can be refreshed exactly when login or refresh handed it out, at most a week has passed, its
   owner is active, and the new access token is unused.
   */
  lemma {:induction false} RefreshableExactly(st: State, op: Op, access: string, now: Time)
    requires Sound(st) && Step(st, op).1.Granted?
    ensures var st', t := Step(st, op).0, Step(st, op).1.issue;
            && t < |st'.issued|
            && (Step(st', Refresh(t, access, now)).1 != Rejected
                <==> (op.Login? || op.Refresh?) && now <= st'.issued[t].at + WEEK
                     && Active(st', st'.issued[t].owner) && Unused(st', t, access))
  {
    StepKeeps(st, op);
    IssuedLiveExactly(st, op);
    LiveAcceptedExactly(Step(st, op).0, Step(st, op).1.issue, access, now);
  }

  /** A string longer than every access token in the table, so none of them. */
  function NewAccess(sessions: seq<Session>): (r: string)
    ensures forall s | s in sessions :: |s.access| < |r|
  {
    if sessions == [] then "" else
      var init, s := sessions[..|sessions| - 1], sessions[|sessions| - 1];
      assert sessions == init + [s];
      NewAccess(init) + s.access + "x"
  }

  lemma {:induction false} GrantedToUser(st: State, op: Op)
    requires Sound(st) && Step(st, op).1.Granted? && (op.Login? || op.Refresh?)
    ensures var st' := Step(st, op).0; st'.issued[|st.issued|].owner in st'.users
  {
  }

  /** The continuation that shows a token usable: its owner is made active, and the token refreshed at once. */
  function UseOf(st: State, t: Token): seq<Op>
    requires t < |st.issued|
  {
    [SetStatus(st.issued[t].owner, ACTIVE), Refresh(t, NewAccess(st.sessions), st.issued[t].at)]
  }

  lemma {:induction false} LiveIsUsable(ops: seq<Op>, t: Token)
    requires var st := Run(ops); t < |st.issued| && Live(st, t) && st.issued[t].owner in st.users
    ensures Accepts(ops + UseOf(Run(ops), t), |ops| + 1, t)
  {
    var st := Run(ops);
    var all := ops + UseOf(st, t);
    RunsAreSound(ops);
    assert all[..|ops|] == ops;
    OneMore(all, |ops|);
    var st1 := Run(all[..|ops| + 1]);
    assert st1 == Step(st, SetStatus(st.issued[t].owner, ACTIVE)).0;
    StepKeeps(st, all[|ops|]);
    assert st1.sessions == st.sessions && Live(st1, t);
    assert forall i | 0 <= i < |st.sessions| :: st.sessions[i] in st.sessions;
    LiveAcceptedExactly(st1, t, NewAccess(st.sessions), st.issued[t].at);
  }

  /** A token is accepted in some continuation of the run exactly when a login or a refresh handed it out. */
  lemma {:induction false} EverUsableExactly(ops: seq<Op>)
    requires ops != [] && Reported(ops, |ops| - 1).Granted?
    ensures var op, t := ops[|ops| - 1], Reported(ops, |ops| - 1).issue;
            (exists more: seq<Op>, n: nat :: |ops| <= n && Accepts(ops + more, n, t)) <==> op.Login? || op.Refresh?
  {
    var last := |ops| - 1;
    var op, t, st := ops[last], Reported(ops, last).issue, Run(ops[..last]);
    assert ops[..|ops|] == ops;
    RunsAreSound(ops[..last]);
    OneMore(ops, last);
    IssuedLiveExactly(st, op);
    if op.Login? || op.Refresh? {
      GrantedToUser(st, op);
      LiveIsUsable(ops, t);
    } else {
      forall more: seq<Op>, n: nat | |ops| <= n ensures !Accepts(ops + more, n, t) {
        DeadIsNeverAccepted(ops, more, n, t);
      }
    }
  }

  lemma {:induction false} DeadIsNeverAccepted(ops: seq<Op>, more: seq<Op>, n: nat, t: Token)
    requires Dead(Run(ops), t) && |ops| <= n
    ensures !Accepts(ops + more, n, t)
  {
    var all := ops + more;
    if n < |all| {
      assert all[..|ops|] == ops;
      DeadForever(all, |ops|, n, t);
      if all[n].Refresh? && all[n].token == t {
        DeadIsRefused(Run(all[..n]), t, all[n].access, all[n].now);
      }
    }
  }

  // ---------- clearing ----------

  /** The calls that end all sessions of a user when they succeed. */
  predicate Clears(op: Op, u: UserId) {
    match op
    case ChangePassword(v, _, _, _) => v == u
    case ResetPassword(v, _) => v == u
    case Ban(v) => v == u
    case DeleteAccount(v) => v == u
    case RevokeAll(v) => v == u
    case _ => false
  }

  lemma {:induction false} ClearingKillsAll(st: State, op: Op, u: UserId, t: Token)
    requires Sound(st) && Clears(op, u) && Step(st, op).1 != Rejected
    requires t < |st.issued| && st.issued[t].owner == u
    ensures Dead(Step(st, op).0, t)
  {
    var st' := Step(st, op).0;
    forall s | s in st'.sessions ensures s.refresh != t {
      assert s in st.sessions && !Hit(s, OfUser(u));
      assert Owned(s, st.issued);
    }
  }

  /**
   After a password change, an administrator's reset, a ban, a deletion or a revoke-all, none of the tokens that
   user had been given before is ever accepted again.
   */
  lemma {:induction false} ClearedForever(ops: seq<Op>, m: nat, n: nat, u: UserId, t: Token)
    requires m < n < |ops| && Clears(ops[m], u) && Reported(ops, m) != Rejected
    requires t < |Run(ops[..m]).issued| && Run(ops[..m]).issued[t].owner == u
    ensures !Accepts(ops, n, t)
  {
    RunsAreSound(ops[..m]);
    ClearingKillsAll(Run(ops[..m]), ops[m], u, t);
    OneMore(ops, m);
    DeadForever(ops, m + 1, n, t);
    if ops[n].Refresh? && ops[n].token == t {
      DeadIsRefused(Run(ops[..n]), t, ops[n].access, ops[n].now);
    }
  }

  // ---------- when a token is accepted ----------

  /**
   In every reachable state: a refresh is accepted exactly when some row holds the token, has not expired, belongs
   to an active user, and the new access token is not another row's. It is then at most a week since the token was
   issued, and the token handed out in return belongs to the same user and the same login.
   */
  lemma {:induction false} AcceptedExactly(ops: seq<Op>, t: Token, access: string, now: Time)
    ensures var r := Step(Run(ops), Refresh(t, access, now)).1;
            r != Rejected <==> exists k: nat :: MayRefresh(Run(ops), k, t, access, now)
    ensures var st := Run(ops);
            var r := Step(st, Refresh(t, access, now));
            r.1.Granted? ==>
              && t < |st.issued| && now <= st.issued[t].at + WEEK
              && r.1.issue < |r.0.issued| && r.0.issued[r.1.issue] == Grant(st.issued[t].owner, st.issued[t].chain, now)
  {
    RunsAreSound(ops);
    var st := Run(ops);
    var found := FindRefresh(st.sessions, t);
    if found.Some? {
      assert st.sessions[found.value] in st.sessions && Owned(st.sessions[found.value], st.issued);
    }
    forall k: nat | MayRefresh(st, k, t, access, now) ensures found == Some(k) {
      OneRowPerToken(st, k, found.value);
    }
  }

  // ---------- the class ----------

  /** The authentication service and the account part of the users service, over the tables they share. */
  class Accounts {
    var users: map<UserId, User>
    var sessions: seq<Session>
    var issued: seq<Grant>
    var nextUser: UserId
    var nextSession: SessionId

    ghost function Now(): State
      reads this
    {
      State(users, sessions, issued, nextUser, nextSession)
    }

    constructor ()
      ensures Now() == EMPTY
    {
      users, sessions, issued, nextUser, nextSession := map[], [], [], 0, 0;
    }

    /** `generateTokenPair`: the refresh half. */
    method GenerateToken(u: UserId, chain: Option<SessionId>, now: Time) returns (t: Token)
      modifies this`issued
      ensures t == |old(issued)| && issued == old(issued) + [Grant(u, chain, now)]
    {
      t := |issued|;
      issued := issued + [Grant(u, chain, now)];
    }

    /** `taken` is what looking up the email and the name finds. */
    method Register(password: string, disposable: bool, strong: bool, taken: bool, now: Time) returns (r: Outcome)
      modifies this
      ensures (Now(), r) == Step(old(Now()), Op.Register(password, disposable, strong, taken, now))
    {
      if disposable { return Rejected; }
      if !strong { return Rejected; }
      if taken { return Rejected; }
      var u := nextUser;
      users, nextUser := users[u := User(ACTIVE, Some(password))], nextUser + 1;
      var t := GenerateToken(u, None, now);
      return Granted(t);
    }

    /** The first sign-in by a provider, with an email that no user has. */
    method OAuthSignUp(now: Time) returns (r: Outcome)
      modifies this
      ensures (Now(), r) == Step(old(Now()), Op.OAuthSignUp(now))
    {
      var u := nextUser;
      users, nextUser := users[u := User(ACTIVE, None)], nextUser + 1;
      var t := GenerateToken(u, None, now);
      return Granted(t);
    }

    method OAuthLogin(u: UserId, now: Time) returns (r: Outcome)
      modifies this
      ensures (Now(), r) == Step(old(Now()), Op.OAuthLogin(u, now))
    {
      if u !in users { return Rejected; }
      var t := GenerateToken(u, None, now);
      return Granted(t);
    }

    method Login(u: UserId, attempt: string, access: string, now: Time) returns (r: Outcome)
      modifies this
      ensures (Now(), r) == Step(old(Now()), Op.Login(u, attempt, access, now))
    {
      if u !in users || users[u].password.None? { return Rejected; }
      if users[u].status == BANNED { return Rejected; }
      if users[u].status == SUSPENDED { return Rejected; }
      if users[u].password.value != attempt { return Rejected; }
      if AccessTaken(sessions, access) { return Rejected; }
      var t := GenerateToken(u, Some(nextSession), now);
      sessions := sessions + [Session(nextSession, u, access, t, now + WEEK)];
      nextSession := nextSession + 1;
      return Granted(t);
    }

    method Logout(u: UserId, access: string)
      modifies this`sessions
      ensures (Now(), Done) == Step(old(Now()), Op.Logout(u, access))
    {
      sessions := Remove(sessions, WithAccess(u, access));
    }

    method RefreshToken(t: Token, access: string, now: Time) returns (r: Outcome)
      modifies this
      ensures (Now(), r) == Step(old(Now()), Refresh(t, access, now))
    {
      var found := FindRefresh(sessions, t);
      if found.None? || sessions[found.value].expires < now { return Rejected; }
      var k := found.value;
      var session := sessions[k];
      if session.user !in users || users[session.user].status != ACTIVE { return Rejected; }
      if AccessTaken(sessions[..k] + sessions[k + 1..], access) { return Rejected; }
      var chosen := GenerateToken(session.user, Some(session.id), now);
      sessions := sessions[k := session.(access := access, refresh := chosen, expires := now + WEEK)];
      return Granted(chosen);
    }

    method ChangePassword(u: UserId, attempt: string, chosen: string, strong: bool) returns (r: Outcome)
      modifies this
      ensures (Now(), r) == Step(old(Now()), Op.ChangePassword(u, attempt, chosen, strong))
      ensures r != Rejected ==> u in users && users[u].password == Some(chosen)
    {
      if u !in users || users[u].password.None? { return Rejected; }
      if users[u].password.value != attempt { return Rejected; }
      if !strong { return Rejected; }
      users := users[u := users[u].(password := Some(chosen))];
      sessions := Remove(sessions, OfUser(u));
      return Done;
    }

    method RevokeSession(u: UserId, id: SessionId)
      modifies this`sessions
      ensures (Now(), Done) == Step(old(Now()), Op.RevokeSession(u, id))
    {
      sessions := Remove(sessions, WithId(u, id));
    }

    method RevokeAllSessions(u: UserId)
      modifies this`sessions
      ensures (Now(), Done) == Step(old(Now()), RevokeAll(u))
    {
      sessions := Remove(sessions, OfUser(u));
    }

    method BanUser(u: UserId) returns (r: Outcome)
      modifies this
      ensures (Now(), r) == Step(old(Now()), Ban(u))
    {
      if u !in users { return Rejected; }
      if users[u].status == BANNED { return Rejected; }
      users := users[u := users[u].(status := BANNED)];
      sessions := Remove(sessions, OfUser(u));
      return Done;
    }

    method UnbanUser(u: UserId) returns (r: Outcome)
      modifies this
      ensures (Now(), r) == Step(old(Now()), Unban(u))
    {
      if u !in users { return Rejected; }
      if users[u].status != BANNED { return Rejected; }
      users := users[u := users[u].(status := ACTIVE)];
      return Done;
    }

    method SetStatus(u: UserId, status: Status) returns (r: Outcome)
      modifies this
      ensures (Now(), r) == Step(old(Now()), Op.SetStatus(u, status))
    {
      if u !in users { return Rejected; }
      users := users[u := users[u].(status := status)];
      return Done;
    }

    method SuspendUser(u: UserId) returns (r: Outcome)
      modifies this
      ensures (Now(), r) == Step(old(Now()), Suspend(u))
    {
      if u !in users { return Rejected; }
      users := users[u := users[u].(status := SUSPENDED)];
      return Done;
    }

    method ResetPassword(u: UserId, chosen: string) returns (r: Outcome)
      modifies this
      ensures (Now(), r) == Step(old(Now()), Op.ResetPassword(u, chosen))
      ensures r != Rejected ==> u in users && users[u].password == Some(chosen)
    {
      if u !in users { return Rejected; }
      users := users[u := users[u].(password := Some(chosen))];
      sessions := Remove(sessions, OfUser(u));
      return Done;
    }

    method DeleteAccount(u: UserId) returns (r: Outcome)
      modifies this
      ensures (Now(), r) == Step(old(Now()), Op.DeleteAccount(u))
    {
      if u !in users { return Rejected; }
      sessions := Remove(sessions, OfUser(u));
      users := users[u := User(DELETED, None)];
      return Done;
    }
  }

  // ---------- bans and suspensions ----------

  predicate ShutOut(st: State, u: UserId) { u in st.users && st.users[u].status in {BANNED, SUSPENDED} }

  /** The calls that can give a banned or suspended account another status. */
  predicate Reinstates(op: Op, u: UserId) {
    match op
    case Unban(v) => v == u
    case SetStatus(v, _) => v == u
    case DeleteAccount(v) => v == u
    case _ => false
  }

  /** The user obtains a token by password or by refreshing. */
  predicate LetIn(ops: seq<Op>, n: nat, u: UserId) {
    && n < |ops| && Reported(ops, n) != Rejected
    && match ops[n]
       case Login(v, _, _, _) => v == u
       case Refresh(t, _, _) => t < |Run(ops[..n]).issued| && Run(ops[..n]).issued[t].owner == u
       case _ => false
  }

  lemma {:induction false} ShutOutIsRefused(ops: seq<Op>, n: nat, u: UserId)
    requires n < |ops| && ShutOut(Run(ops[..n]), u)
    ensures !LetIn(ops, n, u)
  {
    var st := Run(ops[..n]);
    RunsAreSound(ops[..n]);
    if ops[n].Refresh? && Reported(ops, n) != Rejected {
      var k := FindRefresh(st.sessions, ops[n].token).value;
      assert st.sessions[k] in st.sessions && Owned(st.sessions[k], st.issued);
    }
  }

  lemma {:induction false} ShutOutNext(st: State, op: Op, u: UserId)
    requires ShutOut(st, u) && u < st.nextUser && !Reinstates(op, u)
    ensures ShutOut(Step(st, op).0, u) && u < Step(st, op).0.nextUser
  {
  }

  lemma {:induction false} UsersAreNumbered(ops: seq<Op>)
    ensures forall u | u in Run(ops).users :: u < Run(ops).nextUser
  {
    if ops != [] {
      UsersAreNumbered(ops[..|ops| - 1]);
    }
  }

  lemma {:induction false} ShutOutUntil(ops: seq<Op>, m: nat, n: nat, u: UserId)
    requires m <= n <= |ops| && ShutOut(Run(ops[..m]), u)
    requires forall k | m <= k < n :: !Reinstates(ops[k], u)
    ensures ShutOut(Run(ops[..n]), u)
  {
    if m < n {
      ShutOutUntil(ops, m, n - 1, u);
      OneMore(ops, n - 1);
      UsersAreNumbered(ops[..n - 1]);
      ShutOutNext(Run(ops[..n - 1]), ops[n - 1], u);
    }
  }

  /**
   From a ban or a suspension until the account is reinstated or deleted, no login by password and no refresh of
   any of the user's tokens succeeds.
   */
  lemma {:induction false} NoEntryWhileShutOut(ops: seq<Op>, m: nat, n: nat, u: UserId)
    requires m < n < |ops| && (ops[m] == Ban(u) || ops[m] == Suspend(u)) && Reported(ops, m) != Rejected
    requires forall k | m < k < n :: !Reinstates(ops[k], u)
    ensures !LetIn(ops, n, u)
  {
    OneMore(ops, m);
    ShutOutUntil(ops, m + 1, n, u);
    ShutOutIsRefused(ops, n, u);
  }
}

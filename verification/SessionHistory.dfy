/**
 Accounts and sessions told by the calls so far and what they reported, and nothing else: who exists, what each
 password and status is, which tokens stand, and so the outcome of every further call.
 */
module SessionHistory {
  import opened Prelude
  import opened Sessions

  /** The state before call `n`. */
  function At(ops: seq<Op>, n: nat): State
    requires n <= |ops|
  {
    Run(ops[..n])
  }

  predicate Succeeded(ops: seq<Op>, n: nat)
    requires n < |ops|
  {
    Reported(ops, n) != Rejected
  }

  // ---------- who exists, with which password and status ----------

  /** How many users have been created; they are numbered in order. */
  function SignUps(ops: seq<Op>, n: nat): nat
    requires n <= |ops|
  {
    if n == 0 then 0 else
      SignUps(ops, n - 1) +
      if Succeeded(ops, n - 1) && SignsUp(ops[n - 1]) then 1 else 0
  }

  predicate SignsUp(op: Op) { op.Register? || op.OAuthSignUp? }

  /**
   The password that a call which succeeds leaves user `u` with, or none; and `None` when it does not touch it.
   Whoever signs up becomes user `newcomer`.
   */
  function PasswordOf(op: Op, newcomer: UserId, u: UserId): Option<Option<string>> {
    match op
    case Register(secret, _, _, _, _) => if u == newcomer then Some(Some(secret)) else None
    case OAuthSignUp(_) => if u == newcomer then Some(None) else None
    case ChangePassword(v, _, chosen, _) => if u == v then Some(Some(chosen)) else None
    case ResetPassword(v, chosen) => if u == v then Some(Some(chosen)) else None
    case DeleteAccount(v) => if u == v then Some(None) else None
    case _ => None
  }

  /** The status that a call which succeeds puts user `u` in, if it touches it. */
  function StatusOf(op: Op, newcomer: UserId, u: UserId): Option<Status> {
    match op
    case Register(_, _, _, _, _) => if u == newcomer then Some(ACTIVE) else None
    case OAuthSignUp(_) => if u == newcomer then Some(ACTIVE) else None
    case Ban(v) => if u == v then Some(BANNED) else None
    case Unban(v) => if u == v then Some(ACTIVE) else None
    case Suspend(v) => if u == v then Some(SUSPENDED) else None
    case SetStatus(v, status) => if u == v then Some(status) else None
    case DeleteAccount(v) => if u == v then Some(DELETED) else None
    case _ => None
  }

  /** The password that was last set for the user. */
  function LastPassword(ops: seq<Op>, n: nat, u: UserId): Option<string>
    requires n <= |ops|
  {
    if n == 0 then None else
      var chosen := PasswordOf(ops[n - 1], SignUps(ops, n - 1), u);
      if Succeeded(ops, n - 1) && chosen.Some? then chosen.value else LastPassword(ops, n - 1, u)
  }

  /** The status the user was last put in; `None` for nobody. */
  function LastStatus(ops: seq<Op>, n: nat, u: UserId): Option<Status>
    requires n <= |ops|
  {
    if n == 0 then None else
      var put := StatusOf(ops[n - 1], SignUps(ops, n - 1), u);
      if Succeeded(ops, n - 1) && put.Some? then put else LastStatus(ops, n - 1, u)
  }

  /** What the table has of one user is what was last set. */
  ghost predicate UserTold(ops: seq<Op>, n: nat, u: UserId)
    requires n <= |ops|
  {
    var st := At(ops, n);
    && (u in st.users <==> u < SignUps(ops, n))
    && (if u in st.users then
          LastStatus(ops, n, u) == Some(st.users[u].status) && LastPassword(ops, n, u) == st.users[u].password
        else LastStatus(ops, n, u) == None && LastPassword(ops, n, u) == None)
  }

  /** What one call does to one user. */
  lemma {:induction false} StepUser(st: State, op: Op, u: UserId)
    requires u in st.users ==> u < st.nextUser
    ensures var (st', out) := Step(st, op);
            var password, status := PasswordOf(op, st.nextUser, u), StatusOf(op, st.nextUser, u);
            && (u in st'.users <==> u in st.users || (out != Rejected && SignsUp(op) && u == st.nextUser))
            && st'.nextUser == st.nextUser + (if out != Rejected && SignsUp(op) then 1 else 0)
            && (if out == Rejected then st'.users == st.users
                else if u in st'.users then
                  && (password.None? || status.None? ==> u in st.users)
                  && st'.users[u].password == (if password.Some? then password.value else st.users[u].password)
                  && st'.users[u].status == (if status.Some? then status.value else st.users[u].status)
                else password.None? && status.None?)
  {
  }

  lemma {:induction false} UserNext(ops: seq<Op>, n: nat, u: UserId)
    requires n < |ops| && UserTold(ops, n, u) && At(ops, n).nextUser == SignUps(ops, n)
    ensures UserTold(ops, n + 1, u) && At(ops, n + 1).nextUser == SignUps(ops, n + 1)
  {
    OneMore(ops, n);
    StepUser(At(ops, n), ops[n], u);
  }

  /** In every reachable state: users exist, with password and status, exactly as they were created and last set. */
  lemma {:induction false} UsersExactly(ops: seq<Op>, n: nat, u: UserId)
    requires n <= |ops|
    ensures UserTold(ops, n, u) && At(ops, n).nextUser == SignUps(ops, n)
  {
    if n == 0 {
      assert ops[..0] == [];
    } else {
      UsersExactly(ops, n - 1, u);
      UserNext(ops, n - 1, u);
    }
  }

  // ---------- which sessions stand ----------

  function Logins(ops: seq<Op>, n: nat): nat
    requires n <= |ops|
  {
    if n == 0 then 0 else Logins(ops, n - 1) + if Succeeded(ops, n - 1) && ops[n - 1].Login? then 1 else 0
  }

  function Grants(ops: seq<Op>, n: nat): nat
    requires n <= |ops|
  {
    if n == 0 then 0 else Grants(ops, n - 1) + if Reported(ops, n - 1).Granted? then 1 else 0
  }

  lemma StepCounts(st: State, op: Op)
    ensures var (st', out) := Step(st, op);
            && st'.nextSession == st.nextSession + (if out != Rejected && op.Login? then 1 else 0)
            && |st'.issued| == |st.issued| + (if out.Granted? then 1 else 0)
            && (out.Granted? ==> out.issue == |st.issued|)
  {
  }

  lemma {:induction false} Numbered(ops: seq<Op>, n: nat)
    requires n <= |ops|
    ensures At(ops, n).nextSession == Logins(ops, n) && |At(ops, n).issued| == Grants(ops, n)
  {
    if n == 0 {
      assert ops[..0] == [];
    } else {
      Numbered(ops, n - 1);
      OneMore(ops, n - 1);
      StepCounts(At(ops, n - 1), ops[n - 1]);
    }
  }

  predicate Gives(ops: seq<Op>, m: nat)
    requires m < |ops|
  {
    Succeeded(ops, m) && (ops[m].Login? || ops[m].Refresh?)
  }

  /** The login or refresh before call `n` that handed out token `t`. */
  function Giver(ops: seq<Op>, n: nat, t: Token): (m: Option<nat>)
    requires n <= |ops|
    ensures m.Some? ==> m.value < n && Gives(ops, m.value) && Reported(ops, m.value) == Granted(t)
    ensures m.None? ==> forall i | 0 <= i < n && Gives(ops, i) :: Reported(ops, i) != Granted(t)
  {
    if n == 0 then None
    else if Gives(ops, n - 1) && Reported(ops, n - 1) == Granted(t) then Some(n - 1) else Giver(ops, n - 1, t)
  }

  /** Whose token call `m` hands out, and of which login: a refresh passes on what it was given. */
  function Holder(ops: seq<Op>, m: nat): (UserId, SessionId)
    requires m < |ops|
  {
    match ops[m]
    case Login(u, _, _, _) => (u, Logins(ops, m))
    case Refresh(t, _, _) =>
      var g := Giver(ops, m, t);
      if g.Some? then Holder(ops, g.value) else (0, 0)
    case _ => (0, 0)
  }

  /** The session that a login or refresh leaves, good for a week. */
  function SessionOf(ops: seq<Op>, m: nat): Session
    requires m < |ops| && Gives(ops, m)
  {
    var (u, id) := Holder(ops, m);
    Session(id, u, ops[m].access, Grants(ops, m), ops[m].now + 604_800_000)
  }

  /** The call, having succeeded, ends this session: it spends its token, or logs out or clears its user. */
  predicate Kills(op: Op, s: Session) {
    match op
    case Refresh(t, _, _) => s.refresh == t
    case Logout(u, access) => s.user == u && s.access == access
    case RevokeSession(u, id) => s.user == u && s.id == id
    case RevokeAll(u) => s.user == u
    case ChangePassword(u, _, _, _) => s.user == u
    case ResetPassword(u, _) => s.user == u
    case Ban(u) => s.user == u
    case DeleteAccount(u) => s.user == u
    case _ => false
  }

  /** The session of call `m` is still there before call `n`. */
  ghost predicate Stands(ops: seq<Op>, m: nat, n: nat)
    requires n <= |ops|
  {
    m < n && Gives(ops, m) && forall k | m < k < n && Succeeded(ops, k) :: !Kills(ops[k], SessionOf(ops, m))
  }

  /** What one call does to the session table. */
  lemma {:induction false} StepSessions(st: State, op: Op, s: Session)
    requires Sound(st)
    ensures var (st', out) := Step(st, op);
            s in st'.sessions <==>
            (s in st.sessions && !(out != Rejected && Kills(op, s)))
            || (out != Rejected && (op.Login? || op.Refresh?) && s == NewRow(st, op))
  {
    if op.Login? && Step(st, op).1 != Rejected {
      LoginRows(st, op, s);
    } else if op.Refresh? && Step(st, op).1 != Rejected {
      RefreshRows(st, op, s);
    }
  }

  /** The row a login or refresh that is let through leaves. */
  function NewRow(st: State, op: Op): Session
    requires Step(st, op).1 != Rejected && (op.Login? || op.Refresh?)
  {
    if op.Login? then Session(st.nextSession, op.user, op.access, |st.issued|, op.now + 604_800_000)
    else
      var was := st.sessions[FindRefresh(st.sessions, op.token).value];
      Session(was.id, was.user, op.access, |st.issued|, op.now + 604_800_000)
  }

  lemma {:induction false} LoginRows(st: State, op: Op, s: Session)
    requires op.Login? && Step(st, op).1 != Rejected
    ensures s in Step(st, op).0.sessions <==> s in st.sessions || s == NewRow(st, op)
  {
  }

  lemma {:induction false} RefreshRows(st: State, op: Op, s: Session)
    requires Sound(st) && op.Refresh? && Step(st, op).1 != Rejected
    ensures s in Step(st, op).0.sessions <==> (s in st.sessions && s.refresh != op.token) || s == NewRow(st, op)
  {
    var k, rows := FindRefresh(st.sessions, op.token).value, Step(st, op).0.sessions;
    assert rows[k] == NewRow(st, op);
    forall i: nat | i < |st.sessions| && st.sessions[i].refresh == op.token ensures i == k {
      OneRowPerToken(st, i, k);
    }
    if s in st.sessions && s.refresh != op.token {
      var i :| 0 <= i < |st.sessions| && st.sessions[i] == s;
      assert rows[i] == s;
    }
    if s in rows && s != NewRow(st, op) {
      var i :| 0 <= i < |rows| && rows[i] == s;
      assert i != k && s == st.sessions[i];
    }
  }

  lemma {:induction false} IssuedInOrder(ops: seq<Op>, m: nat, n: nat)
    requires m < n <= |ops| && Reported(ops, m).Granted?
    ensures Reported(ops, m) == Granted(Grants(ops, m)) && Grants(ops, m) < Grants(ops, n)
  {
    if n == m + 1 {
      Numbered(ops, m);
      StepCounts(At(ops, m), ops[m]);
    } else {
      IssuedInOrder(ops, m, n - 1);
    }
  }

  /** A token has one giver. */
  lemma {:induction false} GiverIs(ops: seq<Op>, m: nat, n: nat)
    requires m < n <= |ops| && Gives(ops, m)
    ensures Reported(ops, m) == Granted(Grants(ops, m)) && Giver(ops, n, Grants(ops, m)) == Some(m)
  {
    IssuedInOrder(ops, m, n);
    var i := Giver(ops, n, Grants(ops, m)).value;
    if i < m {
      IssuedInOrder(ops, i, m);
    } else if m < i {
      IssuedInOrder(ops, m, i);
      IssuedInOrder(ops, i, n);
    }
  }

  lemma {:induction false} StandsNext(ops: seq<Op>, m: nat, n: nat)
    requires n < |ops|
    ensures Stands(ops, m, n + 1) <==>
            if m == n then Gives(ops, n)
            else Stands(ops, m, n) && !(Succeeded(ops, n) && Kills(ops[n], SessionOf(ops, m)))
  {
  }

  ghost predicate RowTold(ops: seq<Op>, n: nat, s: Session)
    requires n <= |ops|
  {
    exists m :: Stands(ops, m, n) && s == SessionOf(ops, m)
  }

  lemma {:induction false} RowToldNext(ops: seq<Op>, n: nat, s: Session)
    requires n < |ops|
    ensures RowTold(ops, n + 1, s) <==>
            (RowTold(ops, n, s) && !(Succeeded(ops, n) && Kills(ops[n], s)))
            || (Gives(ops, n) && s == SessionOf(ops, n))
  {
    if RowTold(ops, n + 1, s) {
      var m :| Stands(ops, m, n + 1) && s == SessionOf(ops, m);
      StandsNext(ops, m, n);
    }
    if RowTold(ops, n, s) && !(Succeeded(ops, n) && Kills(ops[n], s)) {
      var m :| Stands(ops, m, n) && s == SessionOf(ops, m);
      StandsNext(ops, m, n);
    }
    if Gives(ops, n) && s == SessionOf(ops, n) {
      StandsNext(ops, n, n);
    }
  }

  /** The row a call leaves is the session it is said to give. */
  lemma {:induction false} NewRowIs(ops: seq<Op>, n: nat)
    requires n < |ops| && Gives(ops, n)
    requires forall s | s in At(ops, n).sessions :: RowTold(ops, n, s)
    ensures NewRow(At(ops, n), ops[n]) == SessionOf(ops, n)
  {
    Numbered(ops, n);
    var st := At(ops, n);
    if ops[n].Refresh? {
      var row := st.sessions[FindRefresh(st.sessions, ops[n].token).value];
      assert row in st.sessions;
      var m :| Stands(ops, m, n) && row == SessionOf(ops, m);
      GiverIs(ops, m, n);
    }
  }

  /** In every reachable state the session table holds exactly the sessions that stand. */
  lemma {:induction false} RowsExactly(ops: seq<Op>, n: nat)
    requires n <= |ops|
    ensures forall s :: s in At(ops, n).sessions <==> RowTold(ops, n, s)
  {
    if n == 0 {
      assert ops[..0] == [];
    } else {
      var m := n - 1;
      RowsExactly(ops, m);
      RunsAreSound(ops[..m]);
      OneMore(ops, m);
      if Gives(ops, m) {
        NewRowIs(ops, m);
      }
      forall s ensures s in At(ops, n).sessions <==> RowTold(ops, n, s) {
        StepSessions(At(ops, m), ops[m], s);
        RowToldNext(ops, m, s);
      }
    }
  }

  // ---------- the outcome of every call ----------

  /** No session that stands, but for that of call `except`, uses this access token. */
  ghost predicate AccessFree(ops: seq<Op>, n: nat, access: string, except: nat)
    requires n <= |ops|
  {
    forall m: nat | Stands(ops, m, n) && ops[m].access == access :: m == except
  }

  lemma {:induction false} TakenIsNotFree(ops: seq<Op>, n: nat, access: string)
    requires n <= |ops|
    ensures AccessTaken(At(ops, n).sessions, access) <==> !AccessFree(ops, n, access, n)
  {
    var rows := At(ops, n).sessions;
    RowsExactly(ops, n);
    if AccessTaken(rows, access) {
      var i :| 0 <= i < |rows| && rows[i].access == access;
      assert rows[i] in rows;
      var m :| Stands(ops, m, n) && rows[i] == SessionOf(ops, m);
    }
    if m: nat :| Stands(ops, m, n) && ops[m].access == access {
      assert RowTold(ops, n, SessionOf(ops, m));
      var i :| 0 <= i < |rows| && rows[i] == SessionOf(ops, m);
    }
  }

  lemma {:induction false} LoginExactly(ops: seq<Op>, n: nat)
    requires n < |ops| && ops[n].Login?
    ensures var u := ops[n].user;
            Succeeded(ops, n) <==>
            && LastPassword(ops, n, u) == Some(ops[n].attempt)
            && LastStatus(ops, n, u) !in {Some(BANNED), Some(SUSPENDED)}
            && AccessFree(ops, n, ops[n].access, n)
  {
    UsersExactly(ops, n, ops[n].user);
    TakenIsNotFree(ops, n, ops[n].access);
  }

  /** The token was given by call `m`, whose session stands, is not a week old and belongs to an active user. */
  ghost predicate Usable(ops: seq<Op>, n: nat, t: Token, now: Time, m: nat)
    requires n <= |ops|
  {
    && Stands(ops, m, n) && Reported(ops, m) == Granted(t)
    && now <= ops[m].now + 604_800_000 && LastStatus(ops, n, Holder(ops, m).0) == Some(ACTIVE)
  }

  lemma {:induction false} RefreshExactly(ops: seq<Op>, n: nat)
    requires n < |ops| && ops[n].Refresh?
    ensures Succeeded(ops, n) <==>
            exists m :: Usable(ops, n, ops[n].token, ops[n].now, m) && AccessFree(ops, n, ops[n].access, m)
  {
    var st, t, access := At(ops, n), ops[n].token, ops[n].access;
    RunsAreSound(ops[..n]);
    RowsExactly(ops, n);
    if m: nat :| Stands(ops, m, n) && Reported(ops, m) == Granted(t) {
      StandingRefresh(ops, n, m);
      forall m': nat | Usable(ops, n, t, ops[n].now, m') ensures m == m' {
        OneUsable(ops, n, t, ops[n].now, m, m');
      }
    } else {
      var found := FindRefresh(st.sessions, t);
      if found.Some? {
        assert st.sessions[found.value] in st.sessions;
        var m :| Stands(ops, m, n) && st.sessions[found.value] == SessionOf(ops, m);
        GiverIs(ops, m, n);
        assert false;
      }
    }
  }

  /** A session is told apart from the others that stand by the call that gave it. */
  lemma {:induction false} SessionsDiffer(ops: seq<Op>, n: nat, m: nat, m': nat)
    requires n <= |ops| && Stands(ops, m, n) && Stands(ops, m', n)
    requires SessionOf(ops, m).refresh == SessionOf(ops, m').refresh
    ensures m == m'
  {
    GiverIs(ops, m, n);
    GiverIs(ops, m', n);
  }

  /** The row of a session that stands is the one its token finds. */
  lemma {:induction false} FindsStanding(ops: seq<Op>, n: nat, m: nat) returns (k: nat)
    requires n <= |ops| && Stands(ops, m, n)
    ensures var st, s := At(ops, n), SessionOf(ops, m);
            && FindRefresh(st.sessions, s.refresh) == Some(k) && k < |st.sessions| && st.sessions[k] == s
            && Reported(ops, m) == Granted(s.refresh) && Sound(st)
  {
    var st, s := At(ops, n), SessionOf(ops, m);
    RunsAreSound(ops[..n]);
    RowsExactly(ops, n);
    GiverIs(ops, m, n);
    assert RowTold(ops, n, s);
    k := FindRefresh(st.sessions, s.refresh).value;
    var i: nat :| i < |st.sessions| && st.sessions[i] == s;
    OneRowPerToken(st, i, k);
  }

  lemma {:induction false} StandingRefresh(ops: seq<Op>, n: nat, m: nat)
    requires n < |ops| && ops[n].Refresh? && Stands(ops, m, n) && Reported(ops, m) == Granted(ops[n].token)
    ensures Succeeded(ops, n) <==>
            Usable(ops, n, ops[n].token, ops[n].now, m) && AccessFree(ops, n, ops[n].access, m)
  {
    var k := FindsStanding(ops, n, m);
    RefreshSucceeds(At(ops, n), ops[n], k);
    UsersExactly(ops, n, SessionOf(ops, m).user);
    UnusedIsFree(ops, n, m);
  }

  lemma {:induction false} RefreshSucceeds(st: State, op: Op, k: nat)
    requires Sound(st) && op.Refresh? && FindRefresh(st.sessions, op.token) == Some(k) && k < |st.sessions|
    ensures var s := st.sessions[k];
            Step(st, op).1 != Rejected <==>
            s.expires >= op.now && Active(st, s.user) && Unused(st, s.refresh, op.access)
  {
    OthersUnused(st, k, op.access);
  }

  lemma {:induction false} OneUsable(ops: seq<Op>, n: nat, t: Token, now: Time, m: nat, m': nat)
    requires n <= |ops| && Stands(ops, m, n) && Reported(ops, m) == Granted(t) && Usable(ops, n, t, now, m')
    ensures m == m'
  {
    GiverIs(ops, m, n);
    GiverIs(ops, m', n);
    SessionsDiffer(ops, n, m, m');
  }

  lemma {:induction false} UnusedIsFree(ops: seq<Op>, n: nat, m: nat)
    requires n < |ops| && ops[n].Refresh? && Stands(ops, m, n)
    ensures Unused(At(ops, n), SessionOf(ops, m).refresh, ops[n].access) <==> AccessFree(ops, n, ops[n].access, m)
  {
    FreeIsUnused(ops, n, m);
    var st, access := At(ops, n), ops[n].access;
    RowsExactly(ops, n);
    if Unused(st, SessionOf(ops, m).refresh, access) {
      forall m': nat | Stands(ops, m', n) && ops[m'].access == access ensures m' == m {
        assert RowTold(ops, n, SessionOf(ops, m'));
        var i :| 0 <= i < |st.sessions| && st.sessions[i] == SessionOf(ops, m');
        SessionsDiffer(ops, n, m, m');
      }
    }
  }

  lemma {:induction false} FreeIsUnused(ops: seq<Op>, n: nat, m: nat)
    requires n < |ops| && ops[n].Refresh? && Stands(ops, m, n)
    ensures AccessFree(ops, n, ops[n].access, m) ==> Unused(At(ops, n), SessionOf(ops, m).refresh, ops[n].access)
  {
    var st, access := At(ops, n), ops[n].access;
    RowsExactly(ops, n);
    if AccessFree(ops, n, access, m) {
      forall i | 0 <= i < |st.sessions| && st.sessions[i].access == access
        ensures st.sessions[i].refresh == SessionOf(ops, m).refresh
      {
        assert st.sessions[i] in st.sessions;
        var m' :| Stands(ops, m', n) && st.sessions[i] == SessionOf(ops, m');
      }
    }
  }

  /** Whether call `n` succeeds, by its kind and the calls before it. */
  ghost predicate Due(ops: seq<Op>, n: nat)
    requires n < |ops|
  {
    match ops[n]
    case Register(_, disposable, strong, taken, _) => !disposable && strong && !taken
    case OAuthSignUp(_) => true
    case OAuthLogin(u, _) => u < SignUps(ops, n)
    case Login(u, attempt, access, _) =>
      && LastPassword(ops, n, u) == Some(attempt) && LastStatus(ops, n, u) !in {Some(BANNED), Some(SUSPENDED)}
      && AccessFree(ops, n, access, n)
    case Refresh(t, access, now) => exists m :: Usable(ops, n, t, now, m) && AccessFree(ops, n, access, m)
    case ChangePassword(u, attempt, _, strong) => LastPassword(ops, n, u) == Some(attempt) && strong
    case Ban(u) => u < SignUps(ops, n) && LastStatus(ops, n, u) != Some(BANNED)
    case Unban(u) => LastStatus(ops, n, u) == Some(BANNED)
    case Suspend(u) => u < SignUps(ops, n)
    case SetStatus(u, _) => u < SignUps(ops, n)
    case ResetPassword(u, _) => u < SignUps(ops, n)
    case DeleteAccount(u) => u < SignUps(ops, n)
    case _ => true
  }

  /**
   Over any run, the calls before decide every call: a login goes through exactly with the password last set, a refresh
   exactly with a token whose session stands, and every change to an account exactly when the account is there for it.
   What goes through reports a token exactly when it gives one, and the tokens are numbered in order.
   */
  lemma {:induction false} OutcomesExactly(ops: seq<Op>, n: nat)
    requires n < |ops|
    ensures Reported(ops, n) ==
            if !Due(ops, n) then Rejected else if Issues(ops[n]) then Granted(Grants(ops, n)) else Done
  {
    Numbered(ops, n);
    StepCounts(At(ops, n), ops[n]);
    SuccessExactly(ops, n);
    StepReports(At(ops, n), ops[n]);
  }

  lemma StepReports(st: State, op: Op)
    ensures var out := Step(st, op).1; out != Rejected ==> if Issues(op) then out.Granted? else out == Done
  {
  }

  lemma {:induction false} SuccessExactly(ops: seq<Op>, n: nat)
    requires n < |ops|
    ensures Succeeded(ops, n) <==> Due(ops, n)
  {
    if ops[n].Login? {
      LoginExactly(ops, n);
    } else if ops[n].Refresh? {
      RefreshExactly(ops, n);
    } else {
      UsersExactly(ops, n, Subject(ops[n]));
      AccountSucceeds(At(ops, n), ops[n]);
    }
  }

  /** Whose account a call is about. */
  function Subject(op: Op): UserId {
    match op
    case OAuthLogin(u, _) => u
    case ChangePassword(u, _, _, _) => u
    case Ban(u) => u
    case Unban(u) => u
    case Suspend(u) => u
    case SetStatus(u, _) => u
    case ResetPassword(u, _) => u
    case DeleteAccount(u) => u
    case _ => 0
  }

  lemma AccountSucceeds(st: State, op: Op)
    requires !op.Login? && !op.Refresh?
    ensures var there := Subject(op) in st.users;
            Step(st, op).1 != Rejected <==>
            match op
            case Register(_, disposable, strong, taken, _) => !disposable && strong && !taken
            case ChangePassword(u, attempt, _, strong) => there && st.users[u].password == Some(attempt) && strong
            case Ban(u) => there && st.users[u].status != BANNED
            case Unban(u) => there && st.users[u].status == BANNED
            case OAuthSignUp(_) => true
            case Logout(_, _) => true
            case RevokeSession(_, _) => true
            case RevokeAll(_) => true
            case _ => there
  {
  }
}

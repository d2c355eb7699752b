/**
 Requests and friendships told by the calls so far and which of them were accepted, and nothing else: which requests
 stand and how they were answered, who are friends, and so the outcome of every further call.
 */
module FriendsHistory {
  import opened Prelude
  import opened Friends

  ghost predicate Within(states: seq<State>, ops: seq<Op>, oks: seq<bool>, n: nat) {
    IsRun(states, ops, oks) && n <= |ops|
  }

  /** Rows are numbered in order, requests and friendships together. */
  function Rows(ops: seq<Op>, oks: seq<bool>, n: nat): nat
    requires n <= |ops| == |oks|
  {
    if n == 0 then 0 else
      Rows(ops, oks, n - 1) + if oks[n - 1] && (ops[n - 1].SendRequest? || ops[n - 1].AcceptRequest?) then 1 else 0
  }

  /** Call `m` sent request `r`, and neither of the two has blocked the other between it and call `n`. */
  ghost predicate Stands(ops: seq<Op>, oks: seq<bool>, m: nat, n: nat, r: Id, a: User, b: User)
    requires n <= |ops| == |oks|
  {
    && m < n && oks[m] && ops[m] == SendRequest(a, b) && Rows(ops, oks, m) == r
    && forall k | m < k < n && oks[k] :: !Blocks(ops[k], a, b)
  }

  /** How request `r` was last answered. */
  function Answer(ops: seq<Op>, oks: seq<bool>, n: nat, r: Id): Status
    requires n <= |ops| == |oks|
  {
    if n == 0 then PENDING
    else if oks[n - 1] && ops[n - 1].AcceptRequest? && ops[n - 1].id == r then ACCEPTED
    else if oks[n - 1] && ops[n - 1].RejectRequest? && ops[n - 1].id == r then REJECTED
    else Answer(ops, oks, n - 1, r)
  }

  ghost predicate StandsAs(ops: seq<Op>, oks: seq<bool>, n: nat, r: Id, a: User, b: User)
    requires n <= |ops| == |oks|
  {
    exists m :: Stands(ops, oks, m, n, r, a, b)
  }

  lemma {:induction false} RowsInOrder(ops: seq<Op>, oks: seq<bool>, m: nat, n: nat)
    requires m < n <= |ops| == |oks| && oks[m] && ops[m].SendRequest?
    ensures Rows(ops, oks, m) < Rows(ops, oks, n)
  {
    if m < n - 1 {
      RowsInOrder(ops, oks, m, n - 1);
    }
  }

  lemma {:induction false} Numbered(states: seq<State>, ops: seq<Op>, oks: seq<bool>, n: nat)
    requires Within(states, ops, oks, n)
    ensures states[n].next == Rows(ops, oks, n)
  {
    if n > 0 {
      Numbered(states, ops, oks, n - 1);
      assert Next(states[n - 1], ops[n - 1], states[n], oks[n - 1]);
    }
  }

  lemma {:induction false} StandsNext(ops: seq<Op>, oks: seq<bool>, n: nat, r: Id, a: User, b: User)
    requires n < |ops| == |oks|
    ensures StandsAs(ops, oks, n + 1, r, a, b) <==>
            (oks[n] && ops[n] == SendRequest(a, b) && Rows(ops, oks, n) == r)
            || (StandsAs(ops, oks, n, r, a, b) && !(oks[n] && Blocks(ops[n], a, b)))
  {
    if StandsAs(ops, oks, n + 1, r, a, b) {
      var m: nat :| Stands(ops, oks, m, n + 1, r, a, b);
      assert m < n ==> Stands(ops, oks, m, n, r, a, b);
    }
    if oks[n] && ops[n] == SendRequest(a, b) && Rows(ops, oks, n) == r {
      assert Stands(ops, oks, n, n + 1, r, a, b);
    }
    if StandsAs(ops, oks, n, r, a, b) && !(oks[n] && Blocks(ops[n], a, b)) {
      var m :| Stands(ops, oks, m, n, r, a, b);
      assert Stands(ops, oks, m, n + 1, r, a, b);
    }
  }

  /** A request row is there exactly when it was sent and stands, with the answer last given. */
  ghost predicate RequestTold(states: seq<State>, ops: seq<Op>, oks: seq<bool>, n: nat, r: Id)
    requires Within(states, ops, oks, n)
  {
    var requests := states[n].requests;
    && (forall a, b :: StandsAs(ops, oks, n, r, a, b) <==>
          r in requests && requests[r].sender == a && requests[r].receiver == b)
    && (r in requests ==> requests[r].status == Answer(ops, oks, n, r))
    && (r >= Rows(ops, oks, n) ==> Answer(ops, oks, n, r) == PENDING)
  }

  /** What one call does to one request row. */
  lemma {:induction false} StepRequest(st: State, op: Op, st': State, ok: bool, r: Id)
    requires Graph(st) && Next(st, op, st', ok)
    ensures r in st'.requests <==>
            (r in st.requests && !(ok && Blocks(op, st.requests[r].sender, st.requests[r].receiver)))
            || (ok && op.SendRequest? && r == st.next)
    ensures r in st'.requests ==>
              if ok && op.SendRequest? && r == st.next then st'.requests[r] == Request(op.sender, op.receiver, PENDING)
              else st'.requests[r] == st.requests[r].(status :=
                if ok && op.AcceptRequest? && op.id == r then ACCEPTED
                else if ok && op.RejectRequest? && op.id == r then REJECTED else st.requests[r].status)
    ensures ok && (op.AcceptRequest? || op.RejectRequest?) && op.id == r ==> r in st.requests && r < st.next
  {
  }

  lemma {:induction false} RequestNext(states: seq<State>, ops: seq<Op>, oks: seq<bool>, n: nat, next: nat, r: Id)
    requires IsRun(states, ops, oks) && n + 1 == next <= |ops| && RequestTold(states, ops, oks, n, r)
    ensures RequestTold(states, ops, oks, next, r)
  {
    assert Next(states[n], ops[n], states[next], oks[n]);
    RunsKeepGraph(states, ops, oks, n);
    Numbered(states, ops, oks, n);
    StepRequest(states[n], ops[n], states[next], oks[n], r);
    forall a, b ensures StandsAs(ops, oks, next, r, a, b) <==>
      r in states[next].requests && states[next].requests[r].sender == a && states[next].requests[r].receiver == b
    {
      StandsNext(ops, oks, n, r, a, b);
      assert r in states[n].requests ==> r < states[n].next;
    }
  }

  /** In every reachable state the requests are exactly those that were sent and stand, answered as they last were. */
  lemma {:induction false} RequestsExactly(states: seq<State>, ops: seq<Op>, oks: seq<bool>, n: nat, r: Id)
    requires Within(states, ops, oks, n)
    ensures RequestTold(states, ops, oks, n, r)
  {
    if n > 0 {
      RequestsExactly(states, ops, oks, n - 1, r);
      RequestNext(states, ops, oks, n - 1, n, r);
    }
  }

  // ---------- who are friends ----------

  /** The call ends the friendship of the two: one removes or blocks the other. */
  predicate Parts(op: Op, a: User, b: User) {
    Blocks(op, a, b) || (op.RemoveFriend? && SamePair(op.user, op.friend, a, b))
  }

  /** Call `k` accepted a request between the two that stood then. */
  ghost predicate Unites(ops: seq<Op>, oks: seq<bool>, k: nat, a: User, b: User)
    requires k < |ops| == |oks|
  {
    && oks[k] && ops[k].AcceptRequest?
    && (StandsAs(ops, oks, k, ops[k].id, a, b) || StandsAs(ops, oks, k, ops[k].id, b, a))
  }

  ghost predicate FriendsSince(ops: seq<Op>, oks: seq<bool>, k: nat, n: nat, a: User, b: User)
    requires n <= |ops| == |oks|
  {
    k < n && Unites(ops, oks, k, a, b) && forall j | k < j < n && oks[j] :: !Parts(ops[j], a, b)
  }

  ghost predicate AreFriends(ops: seq<Op>, oks: seq<bool>, n: nat, a: User, b: User)
    requires n <= |ops| == |oks|
  {
    exists k :: FriendsSince(ops, oks, k, n, a, b)
  }

  lemma {:induction false} FriendsNext(ops: seq<Op>, oks: seq<bool>, n: nat, a: User, b: User)
    requires n < |ops| == |oks|
    ensures AreFriends(ops, oks, n + 1, a, b) <==>
            Unites(ops, oks, n, a, b) || (AreFriends(ops, oks, n, a, b) && !(oks[n] && Parts(ops[n], a, b)))
  {
    if AreFriends(ops, oks, n + 1, a, b) {
      var k: nat :| FriendsSince(ops, oks, k, n + 1, a, b);
      assert k < n ==> FriendsSince(ops, oks, k, n, a, b);
    }
    if Unites(ops, oks, n, a, b) {
      assert FriendsSince(ops, oks, n, n + 1, a, b);
    }
    if AreFriends(ops, oks, n, a, b) && !(oks[n] && Parts(ops[n], a, b)) {
      var k :| FriendsSince(ops, oks, k, n, a, b);
      assert FriendsSince(ops, oks, k, n + 1, a, b);
    }
  }

  /** The request that a call accepts is one between the two. */
  predicate AcceptsOf(st: State, op: Op, a: User, b: User) {
    op.AcceptRequest? && op.id in st.requests
    && SamePair(st.requests[op.id].sender, st.requests[op.id].receiver, a, b)
  }

  lemma {:induction false} StepFriendship(st: State, op: Op, st': State, ok: bool, a: User, b: User)
    requires Graph(st) && Next(st, op, st', ok)
    ensures HasFriendship(st', a, b) <==>
            (ok && AcceptsOf(st, op, a, b)) || (HasFriendship(st, a, b) && !(ok && Parts(op, a, b)))
  {
    match op
    case AcceptRequest(id, u) => AcceptExactly(st, id, u, st', ok);
    case RemoveFriend(x, y) => if ok { RowGone(st, st', x, y, a, b); }
    case BlockUser(x, y) => if ok { RowGone(st, st', x, y, a, b); }
    case SendRequest(_, _) => SameFriends(st, st', a, b);
    case RejectRequest(_, _) => SameFriends(st, st', a, b);
  }

  lemma SameFriends(st: State, st': State, a: User, b: User)
    requires st'.friends == st.friends
    ensures HasFriendship(st', a, b) <==> HasFriendship(st, a, b)
  {
    assert forall f :: IsFriendship(st', f, a, b) <==> IsFriendship(st, f, a, b);
  }

  lemma {:induction false} RowGone(st: State, st': State, x: User, y: User, a: User, b: User)
    requires Graph(st) && OneRowGone(st, st'.friends, x, y)
    ensures HasFriendship(st', a, b) <==> HasFriendship(st, a, b) && !SamePair(x, y, a, b)
  {
    if HasFriendship(st, a, b) && !SamePair(x, y, a, b) {
      OthersStay(st, st', x, y, a, b);
    }
    if HasFriendship(st', a, b) {
      GoneForGood(st, st', x, y, a, b);
    }
  }

  lemma {:induction false} OthersStay(st: State, st': State, x: User, y: User, a: User, b: User)
    requires Graph(st) && OneRowGone(st, st'.friends, x, y) && HasFriendship(st, a, b) && !SamePair(x, y, a, b)
    ensures HasFriendship(st', a, b)
  {
    var f :| IsFriendship(st, f, a, b);
    assert !IsFriendship(st, f, x, y);
    OneRowIsAll(st, st'.friends, x, y);
    assert st'.friends[f] == st.friends[f];
    assert IsFriendship(st', f, a, b);
  }

  lemma NoNewRows(st: State, friends: map<Id, Friend>, x: User, y: User)
    requires OneRowGone(st, friends, x, y)
    ensures forall f | f in friends :: f in st.friends && friends[f] == st.friends[f]
  {
  }

  lemma {:induction false} GoneForGood(st: State, st': State, x: User, y: User, a: User, b: User)
    requires Graph(st) && OneRowGone(st, st'.friends, x, y) && HasFriendship(st', a, b)
    ensures HasFriendship(st, a, b) && !SamePair(x, y, a, b)
  {
    var f :| IsFriendship(st', f, a, b);
    NoNewRows(st, st'.friends, x, y);
    assert IsFriendship(st, f, a, b);
    if SamePair(x, y, a, b) {
      assert IsFriendship(st.(friends := st'.friends), f, x, y);
      OneRowIsAll(st, st'.friends, x, y);
      assert false;
    }
  }

  /** In every reachable state, two are friends exactly when one accepted the other and neither has parted since. */
  lemma {:induction false} FriendsExactly(states: seq<State>, ops: seq<Op>, oks: seq<bool>, n: nat, a: User, b: User)
    requires Within(states, ops, oks, n)
    ensures HasFriendship(states[n], a, b) <==> AreFriends(ops, oks, n, a, b)
  {
    if n > 0 {
      var m := n - 1;
      FriendsExactly(states, ops, oks, m, a, b);
      RunsKeepGraph(states, ops, oks, m);
      assert Next(states[m], ops[m], states[n], oks[m]);
      StepFriendship(states[m], ops[m], states[n], oks[m], a, b);
      FriendsNext(ops, oks, m, a, b);
      if ops[m].AcceptRequest? {
        RequestsExactly(states, ops, oks, m, ops[m].id);
      }
    }
  }

  // ---------- the outcome of every call ----------

  /** Whether call `n` is accepted, by its kind and the calls before it. */
  ghost predicate Due(ops: seq<Op>, oks: seq<bool>, n: nat)
    requires n < |ops| == |oks|
  {
    match ops[n]
    case SendRequest(a, b) => a != b && forall r :: !StandsAs(ops, oks, n, r, a, b) && !StandsAs(ops, oks, n, r, b, a)
    case AcceptRequest(r, u) => Answer(ops, oks, n, r) == PENDING && exists a :: StandsAs(ops, oks, n, r, a, u)
    case RejectRequest(r, u) => exists a :: StandsAs(ops, oks, n, r, a, u)
    case RemoveFriend(a, b) => AreFriends(ops, oks, n, a, b)
    case BlockUser(a, b) => a != b
  }

  lemma {:induction false} ReceiverExactly(states: seq<State>, ops: seq<Op>, oks: seq<bool>, n: nat, r: Id, u: User)
    requires Within(states, ops, oks, n)
    ensures var requests := states[n].requests;
            && (r in requests && requests[r].receiver == u <==> exists a :: StandsAs(ops, oks, n, r, a, u))
            && (r in requests ==> requests[r].status == Answer(ops, oks, n, r))
  {
    var requests := states[n].requests;
    RequestsExactly(states, ops, oks, n, r);
    if r in requests {
      assert StandsAs(ops, oks, n, r, requests[r].sender, requests[r].receiver);
    }
  }

  lemma {:induction false} AskedExactly(states: seq<State>, ops: seq<Op>, oks: seq<bool>, n: nat, a: User, b: User)
    requires Within(states, ops, oks, n)
    ensures HasRequest(states[n], a, b)
            <==> exists r :: StandsAs(ops, oks, n, r, a, b) || StandsAs(ops, oks, n, r, b, a)
  {
    var st := states[n];
    if HasRequest(st, a, b) {
      var r :| IsRequest(st, r, a, b);
      RequestsExactly(states, ops, oks, n, r);
      assert StandsAs(ops, oks, n, r, st.requests[r].sender, st.requests[r].receiver);
    }
    if r :| StandsAs(ops, oks, n, r, a, b) || StandsAs(ops, oks, n, r, b, a) {
      RequestsExactly(states, ops, oks, n, r);
      assert IsRequest(st, r, a, b);
    }
  }

  lemma {:induction false} AskingExactly(states: seq<State>, ops: seq<Op>, oks: seq<bool>, n: nat, a: User, b: User)
    requires IsRun(states, ops, oks) && n < |ops| && ops[n] == SendRequest(a, b)
    ensures oks[n] <==> Due(ops, oks, n)
  {
    assert Next(states[n], ops[n], states[n + 1], oks[n]);
    RunsKeepGraph(states, ops, oks, n);
    AskedExactly(states, ops, oks, n, a, b);
    if HasFriendship(states[n], a, b) {
      FriendsHaveAsked(states[n], a, b);
    }
  }

  /**
   Over any run, the calls before decide every call: a request goes through exactly when it is not to oneself and none
   between the two stands; it is accepted exactly by its receiver while it stands unanswered, rejected by its receiver
   as long as it stands; a friend is removed exactly while the two are friends; and anybody but oneself can be blocked.
   */
  lemma {:induction false} OutcomesExactly(states: seq<State>, ops: seq<Op>, oks: seq<bool>, n: nat)
    requires IsRun(states, ops, oks) && n < |ops|
    ensures oks[n] <==> Due(ops, oks, n)
  {
    assert Next(states[n], ops[n], states[n + 1], oks[n]);
    RunsKeepGraph(states, ops, oks, n);
    match ops[n]
    case SendRequest(a, b) => AskingExactly(states, ops, oks, n, a, b);
    case AcceptRequest(r, u) =>
      ReceiverExactly(states, ops, oks, n, r, u);
      AcceptExactly(states[n], r, u, states[n + 1], oks[n]);
    case RejectRequest(r, u) => ReceiverExactly(states, ops, oks, n, r, u);
    case RemoveFriend(a, b) => FriendsExactly(states, ops, oks, n, a, b);
    case BlockUser(_, _) =>
  }
}

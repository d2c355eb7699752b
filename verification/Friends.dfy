/** Friend requests and friendships: what every serial run of the service keeps true of the two tables. */
module Friends {
  import opened Prelude

  type User = string
  type Id = nat

  datatype Status = PENDING | ACCEPTED | REJECTED
  datatype Request = Request(sender: User, receiver: User, status: Status)
  datatype Friend = Friend(user: User, friend: User)

  /** The two tables by row id; fresh ids are counted up. */
  datatype State = State(requests: map<Id, Request>, friends: map<Id, Friend>, next: Id)

  datatype Op =
    | SendRequest(sender: User, receiver: User)
    | AcceptRequest(id: Id, user: User)
    | RejectRequest(id: Id, user: User)
    | RemoveFriend(user: User, friend: User)
    | BlockUser(user: User, blocked: User)

  const EMPTY := State(map[], map[], 0)

  predicate SamePair(a: User, b: User, x: User, y: User) { (a == x && b == y) || (a == y && b == x) }

  predicate IsRequest(st: State, id: Id, a: User, b: User) {
    id in st.requests && SamePair(st.requests[id].sender, st.requests[id].receiver, a, b)
  }

  predicate IsFriendship(st: State, id: Id, a: User, b: User) {
    id in st.friends && SamePair(st.friends[id].user, st.friends[id].friend, a, b)
  }

  ghost predicate HasRequest(st: State, a: User, b: User) { exists id :: IsRequest(st, id, a, b) }

  ghost predicate HasFriendship(st: State, a: User, b: User) { exists id :: IsFriendship(st, id, a, b) }

  /** The row the unique key (userId, friendId) would collide with. */
  ghost predicate KeyTaken(st: State, a: User, b: User) {
    exists id :: id in st.friends && st.friends[id] == Friend(a, b)
  }

  predicate MayAccept(st: State, id: Id, u: User) {
    id in st.requests && st.requests[id].receiver == u && st.requests[id].status == PENDING
  }

  predicate MayReject(st: State, id: Id, u: User) {
    id in st.requests && st.requests[id].receiver == u
  }

  function Marked(st: State, id: Id, status: Status): map<Id, Request>
    requires id in st.requests
  {
    st.requests[id := st.requests[id].(status := status)]
  }

  function Befriend(st: State, a: User, b: User): map<Id, Friend> { st.friends[st.next := Friend(a, b)] }

  function RequestsWithout(st: State, a: User, b: User): map<Id, Request> {
    map id | id in st.requests && !IsRequest(st, id, a, b) :: st.requests[id]
  }

  /** Some one friendship row of the pair is gone, if there was one; a lookup without an order may pick any. */
  ghost predicate OneRowGone(st: State, friends: map<Id, Friend>, a: User, b: User) {
    if HasFriendship(st, a, b) then exists id :: IsFriendship(st, id, a, b) && friends == st.friends - {id}
    else friends == st.friends
  }

  /** One service call takes `st` to `st'` and reports `ok`. */
  ghost predicate Next(st: State, op: Op, st': State, ok: bool) {
    match op
    case SendRequest(a, b) =>
      if a == b || HasRequest(st, a, b) || HasFriendship(st, a, b) then st' == st && !ok
      else ok && st' == State(st.requests[st.next := Request(a, b, PENDING)], st.friends, st.next + 1)
    case AcceptRequest(id, u) =>
      if !MayAccept(st, id, u) || KeyTaken(st, st.requests[id].sender, u) then st' == st && !ok
      else ok && st' == State(Marked(st, id, ACCEPTED), Befriend(st, st.requests[id].sender, u), st.next + 1)
    case RejectRequest(id, u) =>
      if !MayReject(st, id, u) then st' == st && !ok
      else ok && st' == st.(requests := Marked(st, id, REJECTED))
    case RemoveFriend(a, b) =>
      if !HasFriendship(st, a, b) then st' == st && !ok
      else ok && OneRowGone(st, st'.friends, a, b) && st' == st.(friends := st'.friends)
    case BlockUser(a, b) =>
      if a == b then st' == st && !ok
      else ok && OneRowGone(st, st'.friends, a, b)
           && st' == State(RequestsWithout(st, a, b), st'.friends, st.next)
  }

  class FriendsService {
    var requests: map<Id, Request>
    var friends: map<Id, Friend>
    var next: Id

    ghost function Now(): State
      reads this
    {
      State(requests, friends, next)
    }

    constructor ()
      ensures Now() == EMPTY && Graph(Now())
    {
      requests, friends, next := map[], map[], 0;
    }

    /** `findFirst` on the friend table, either way round. */
    method FindFriendship(a: User, b: User) returns (found: Option<Id>)
      ensures found.None? <==> !HasFriendship(Now(), a, b)
      ensures found.Some? ==> IsFriendship(Now(), found.value, a, b)
    {
      if id :| id in friends && SamePair(friends[id].user, friends[id].friend, a, b) {
        assert IsFriendship(Now(), id, a, b);
        return Some(id);
      }
      assert forall id | id in friends :: !SamePair(friends[id].user, friends[id].friend, a, b);
      return None;
    }

    method SendRequest(a: User, b: User) returns (ok: bool)
      modifies this
      ensures Next(old(Now()), Op.SendRequest(a, b), Now(), ok)
    {
      if a == b { return false; }
      if id :| id in requests && SamePair(requests[id].sender, requests[id].receiver, a, b) {
        assert IsRequest(Now(), id, a, b);
        return false;
      }
      assert !HasRequest(Now(), a, b) by {
        assert forall id | id in requests :: !SamePair(requests[id].sender, requests[id].receiver, a, b);
      }
      var friendship := FindFriendship(a, b);
      if friendship.Some? { return false; }
      requests := requests[next := Request(a, b, PENDING)];
      next := next + 1;
      return true;
    }

    /** The new row is refused, and with it the whole transaction, when the unique key is taken. */
    method AcceptRequest(id: Id, u: User) returns (ok: bool)
      modifies this
      ensures Next(old(Now()), Op.AcceptRequest(id, u), Now(), ok)
    {
      if id !in requests { return false; }
      var request := requests[id];
      if request.receiver != u { return false; }
      if request.status != PENDING { return false; }
      if other :| other in friends && friends[other] == Friend(request.sender, request.receiver) { return false; }
      requests := requests[id := request.(status := ACCEPTED)];
      friends := friends[next := Friend(request.sender, request.receiver)];
      next := next + 1;
      return true;
    }

    method RejectRequest(id: Id, u: User) returns (ok: bool)
      modifies this
      ensures Next(old(Now()), Op.RejectRequest(id, u), Now(), ok)
    {
      if id !in requests { return false; }
      if requests[id].receiver != u { return false; }
      requests := requests[id := requests[id].(status := REJECTED)];
      return true;
    }

    method RemoveFriend(a: User, b: User) returns (ok: bool)
      modifies this
      ensures Next(old(Now()), Op.RemoveFriend(a, b), Now(), ok)
    {
      var found := FindFriendship(a, b);
      if found.None? { return false; }
      friends := friends - {found.value};
      return true;
    }

    method BlockUser(a: User, b: User) returns (ok: bool)
      modifies this
      ensures Next(old(Now()), Op.BlockUser(a, b), Now(), ok)
    {
      if a == b { return false; }
      var found := FindFriendship(a, b);
      if found.Some? {
        friends := friends - {found.value};
      }
      requests := map id | id in requests && !SamePair(requests[id].sender, requests[id].receiver, a, b) ::
          requests[id];
      return true;
    }

    method GetMutualFriends(u: User, other: User) returns (ids: set<User>)
      requires Graph(Now())
      ensures forall x :: x in ids <==> HasFriendship(Now(), u, x) && HasFriendship(Now(), other, x)
      ensures u !in ids && other !in ids
    {
      var mine := set id | id in friends && (friends[id].user == u || friends[id].friend == u)
        :: if friends[id].user == u then friends[id].friend else friends[id].user;
      var theirs := set id | id in friends && (friends[id].user == other || friends[id].friend == other)
        :: if friends[id].user == other then friends[id].friend else friends[id].user;
      assert mine == FriendIds(Now(), u) && theirs == FriendIds(Now(), other);
      ids := set x | x in mine && x in theirs;
      MutualFriends(Now(), u, other);
    }
  }

  // ---------- the invariant ----------

  /**
   No self rows; at most one request and one friendship for an unordered pair; and behind every
   friendship a request of its pair that is no longer pending.
   */
  ghost predicate Graph(st: State) {
    && (forall id | id in st.requests :: id < st.next && st.requests[id].sender != st.requests[id].receiver)
    && (forall id | id in st.friends :: id < st.next && st.friends[id].user != st.friends[id].friend)
    && (forall i, j | i in st.requests && j in st.requests && i != j ::
          !SamePair(st.requests[i].sender, st.requests[i].receiver, st.requests[j].sender, st.requests[j].receiver))
    && PairsOnce(st.friends)
    && (forall id | id in st.friends :: Backed(st, st.friends[id].user, st.friends[id].friend))
  }

  ghost predicate PairsOnce(friends: map<Id, Friend>) {
    forall i, j | i in friends && j in friends && i != j ::
      !SamePair(friends[i].user, friends[i].friend, friends[j].user, friends[j].friend)
  }

  /** A request between the two exists and has been answered. */
  ghost predicate Backed(st: State, a: User, b: User) {
    exists r :: IsRequest(st, r, a, b) && st.requests[r].status != PENDING
  }

  lemma {:induction false} SendKeepsBacking(st: State, a: User, b: User, st': State, f: Id)
    requires Graph(st) && Next(st, SendRequest(a, b), st', true) && f in st.friends
    ensures Backed(st', st.friends[f].user, st.friends[f].friend)
  {
    assert Backed(st, st.friends[f].user, st.friends[f].friend);
    var r: Id :| IsRequest(st, r, st.friends[f].user, st.friends[f].friend) && st.requests[r].status != PENDING;
    assert r < st.next && st'.requests[r] == st.requests[r];
    assert IsRequest(st', r, st.friends[f].user, st.friends[f].friend);
  }

  lemma {:induction false} SendKeepsGraph(st: State, a: User, b: User, st': State)
    requires Graph(st) && Next(st, SendRequest(a, b), st', true)
    ensures Graph(st')
  {
    forall i | i in st.requests
      ensures !SamePair(st.requests[i].sender, st.requests[i].receiver, a, b)
    {
      assert !IsRequest(st, i, a, b);
    }
    forall f | f in st'.friends ensures Backed(st', st'.friends[f].user, st'.friends[f].friend) {
      SendKeepsBacking(st, a, b, st', f);
    }
  }

  /** A request of a pair that is friends is the answered one behind the friendship. */
  lemma {:induction false} FriendsHaveAnswered(st: State, f: Id, id: Id)
    requires Graph(st) && id in st.requests
    ensures IsFriendship(st, f, st.requests[id].sender, st.requests[id].receiver) ==> st.requests[id].status != PENDING
  {
    if IsFriendship(st, f, st.requests[id].sender, st.requests[id].receiver) {
      var r :| IsRequest(st, r, st.friends[f].user, st.friends[f].friend) && st.requests[r].status != PENDING;
      assert r == id;
    }
  }

  /** A pending request means no friendship yet, so accepting it never collides and never duplicates. */
  lemma {:induction false} AcceptAlwaysFits(st: State, id: Id, u: User)
    requires Graph(st) && MayAccept(st, id, u)
    ensures !HasFriendship(st, st.requests[id].sender, u) && !KeyTaken(st, st.requests[id].sender, u)
  {
    var a := st.requests[id].sender;
    forall f ensures !IsFriendship(st, f, a, u) {
      FriendsHaveAnswered(st, f, id);
    }
    forall f | f in st.friends ensures st.friends[f] != Friend(a, u) {
      assert !IsFriendship(st, f, a, u);
    }
  }

  lemma {:induction false} AcceptKeepsBacking(st: State, id: Id, u: User, st': State)
    requires Graph(st) && Next(st, AcceptRequest(id, u), st', true)
    ensures forall f | f in st'.friends :: Backed(st', st'.friends[f].user, st'.friends[f].friend)
  {
    var a := st.requests[id].sender;
    assert st'.friends == st.friends[st.next := Friend(a, u)];
    assert IsRequest(st', id, a, u);
    MarkingKeepsBacked(st, st', id);
  }

  lemma {:induction false} AcceptKeepsGraph(st: State, id: Id, u: User, st': State)
    requires Graph(st) && Next(st, AcceptRequest(id, u), st', true)
    ensures Graph(st')
  {
    AcceptAlwaysFits(st, id, u);
    NewRowKeepsPairs(st, st.requests[id].sender, u);
    AcceptKeepsBacking(st, id, u, st');
  }

  lemma {:induction false} NewRowKeepsPairs(st: State, a: User, b: User)
    requires Graph(st) && !HasFriendship(st, a, b)
    ensures PairsOnce(st.friends[st.next := Friend(a, b)])
  {
    forall f | f in st.friends ensures !SamePair(st.friends[f].user, st.friends[f].friend, a, b) {
      assert !IsFriendship(st, f, a, b);
    }
  }

  /** Answering a request leaves every answered request answered. */
  lemma {:induction false} MarkingKeepsBacked(st: State, st': State, id: Id)
    requires id in st.requests && st'.requests.Keys == st.requests.Keys && st'.requests[id].status != PENDING
    requires forall r | r in st.requests ::
      st'.requests[r].sender == st.requests[r].sender && st'.requests[r].receiver == st.requests[r].receiver
      && (r != id ==> st'.requests[r].status == st.requests[r].status)
    ensures forall a, b | Backed(st, a, b) :: Backed(st', a, b)
  {
    forall a, b | Backed(st, a, b) ensures Backed(st', a, b) {
      var r :| IsRequest(st, r, a, b) && st.requests[r].status != PENDING;
      assert IsRequest(st', r, a, b);
    }
  }

  lemma {:induction false} RejectKeepsGraph(st: State, id: Id, u: User, st': State)
    requires Graph(st) && Next(st, RejectRequest(id, u), st', true)
    ensures Graph(st')
  {
    MarkingKeepsBacked(st, st', id);
  }

  lemma {:induction false} RemoveKeepsGraph(st: State, a: User, b: User, st': State)
    requires Graph(st) && Next(st, RemoveFriend(a, b), st', true)
    ensures Graph(st')
  {
    forall f | f in st'.friends ensures Backed(st', st'.friends[f].user, st'.friends[f].friend) {
      var r :| IsRequest(st, r, st.friends[f].user, st.friends[f].friend) && st.requests[r].status != PENDING;
      assert IsRequest(st', r, st.friends[f].user, st.friends[f].friend);
    }
  }

  /** Deleting any one friendship row of a pair leaves the pair none, and every other pair its own. */
  lemma {:induction false} OneRowIsAll(st: State, friends: map<Id, Friend>, a: User, b: User)
    requires Graph(st) && OneRowGone(st, friends, a, b)
    ensures !HasFriendship(st.(friends := friends), a, b)
    ensures forall id | id in st.friends && !IsFriendship(st, id, a, b) ::
              id in friends && friends[id] == st.friends[id]
  {
    if HasFriendship(st, a, b) {
      var gone :| IsFriendship(st, gone, a, b) && friends == st.friends - {gone};
      assert forall id | id in st.friends && IsFriendship(st, id, a, b) :: id == gone;
    } else {
      assert forall id | id in st.friends :: !IsFriendship(st, id, a, b);
    }
  }

  /** Blocking clears the pair in both tables, though it deletes a single friendship row, and touches no other pair. */
  lemma {:induction false} BlockClears(st: State, a: User, b: User, st': State)
    requires Graph(st) && Next(st, BlockUser(a, b), st', true)
    ensures !HasFriendship(st', a, b) && !HasRequest(st', a, b)
    ensures forall id | id in st.friends && !IsFriendship(st, id, a, b) ::
              id in st'.friends && st'.friends[id] == st.friends[id]
    ensures forall id | id in st.requests && !IsRequest(st, id, a, b) ::
              id in st'.requests && st'.requests[id] == st.requests[id]
  {
    OneRowIsAll(st, st'.friends, a, b);
    assert forall id :: IsFriendship(st', id, a, b) ==> IsFriendship(st.(friends := st'.friends), id, a, b);
    forall id ensures !IsRequest(st', id, a, b) {
      assert id in st'.requests ==> !IsRequest(st, id, a, b);
    }
  }

  /** Every friendship that survives a block keeps its answered request. */
  lemma {:induction false} BlockKeepsBacking(st: State, a: User, b: User, st': State, f: Id)
    requires Graph(st) && Next(st, BlockUser(a, b), st', true) && f in st'.friends
    ensures f in st.friends && st'.friends[f] == st.friends[f]
    ensures Backed(st', st'.friends[f].user, st'.friends[f].friend)
  {
    BlockClears(st, a, b, st');
    var x, y := st'.friends[f].user, st'.friends[f].friend;
    assert !IsFriendship(st', f, a, b);
    assert Backed(st, x, y);
    var r :| IsRequest(st, r, x, y) && st.requests[r].status != PENDING;
    assert !IsRequest(st, r, a, b);
    assert IsRequest(st', r, x, y);
  }

  lemma {:induction false} BlockKeepsGraph(st: State, a: User, b: User, st': State)
    requires Graph(st) && Next(st, BlockUser(a, b), st', true)
    ensures Graph(st')
  {
    forall f | f in st'.friends
      ensures f in st.friends && st'.friends[f] == st.friends[f]
      ensures Backed(st', st'.friends[f].user, st'.friends[f].friend)
    {
      BlockKeepsBacking(st, a, b, st', f);
    }
    assert forall r | r in st'.requests :: r in st.requests && st'.requests[r] == st.requests[r];
  }

  lemma {:induction false} NextKeepsGraph(st: State, op: Op, st': State, ok: bool)
    requires Graph(st) && Next(st, op, st', ok)
    ensures Graph(st')
  {
    if ok {
      match op
      case SendRequest(a, b) => SendKeepsGraph(st, a, b, st');
      case AcceptRequest(id, u) => AcceptKeepsGraph(st, id, u, st');
      case RejectRequest(id, u) => RejectKeepsGraph(st, id, u, st');
      case RemoveFriend(a, b) => RemoveKeepsGraph(st, a, b, st');
      case BlockUser(a, b) => BlockKeepsGraph(st, a, b, st');
    }
  }

  /** A serial run: states, the calls between them, and what each call reported. */
  ghost predicate IsRun(states: seq<State>, ops: seq<Op>, oks: seq<bool>) {
    && |states| == |ops| + 1 && |oks| == |ops| && states[0] == EMPTY
    && forall n | 0 <= n < |ops| :: Next(states[n], ops[n], states[n + 1], oks[n])
  }

  /** Every state of every serial run is a proper friend graph. */
  lemma {:induction false} RunsKeepGraph(states: seq<State>, ops: seq<Op>, oks: seq<bool>, n: nat)
    requires IsRun(states, ops, oks) && n < |states|
    ensures Graph(states[n])
  {
    if n > 0 {
      RunsKeepGraph(states, ops, oks, n - 1);
      NextKeepsGraph(states[n - 1], ops[n - 1], states[n], oks[n - 1]);
    }
  }

  /**
   In a proper graph, accepting succeeds exactly for the receiver of a pending request, and makes the one
   friendship.
   */
  lemma {:induction false} AcceptExactly(st: State, id: Id, u: User, st': State, ok: bool)
    requires Graph(st) && Next(st, AcceptRequest(id, u), st', ok)
    ensures ok <==> MayAccept(st, id, u)
    ensures ok ==> HasFriendship(st', st.requests[id].sender, u)
    ensures ok ==> forall a, b :: HasFriendship(st', a, b) <==> Befriended(st, st.requests[id].sender, u, a, b)
  {
    if MayAccept(st, id, u) {
      AcceptAlwaysFits(st, id, u);
      var x := st.requests[id].sender;
      assert IsFriendship(st', st.next, x, u);
      forall a, b ensures HasFriendship(st', a, b) <==> Befriended(st, x, u, a, b) {
        NewFriendship(st, st', x, u, a, b);
      }
    }
  }

  /** The pair were friends before, or are the two now befriended. */
  ghost predicate Befriended(st: State, x: User, y: User, a: User, b: User) {
    HasFriendship(st, a, b) || SamePair(x, y, a, b)
  }

  lemma {:induction false} NewFriendship(st: State, st': State, x: User, y: User, a: User, b: User)
    requires Graph(st) && st'.friends == st.friends[st.next := Friend(x, y)]
    ensures HasFriendship(st', a, b) <==> Befriended(st, x, y, a, b)
  {
    assert forall f | f in st.friends :: f < st.next;
    if HasFriendship(st', a, b) {
      var f :| IsFriendship(st', f, a, b);
      assert f == st.next || IsFriendship(st, f, a, b);
    }
    if HasFriendship(st, a, b) {
      var f :| IsFriendship(st, f, a, b);
      assert IsFriendship(st', f, a, b);
    }
    if SamePair(x, y, a, b) {
      assert IsFriendship(st', st.next, a, b);
    }
  }

  predicate Asks(op: Op, a: User, b: User) { op.SendRequest? && SamePair(op.sender, op.receiver, a, b) }

  predicate Blocks(op: Op, a: User, b: User) { op.BlockUser? && SamePair(op.user, op.blocked, a, b) }

  /** Nothing but a block between the two removes the request of a pair. */
  lemma {:induction false} RequestStays(st: State, op: Op, st': State, ok: bool, a: User, b: User)
    requires Graph(st) && Next(st, op, st', ok) && HasRequest(st, a, b) && !Blocks(op, a, b)
    ensures HasRequest(st', a, b)
  {
    var r: Id :| IsRequest(st, r, a, b);
    assert r < st.next;
    assert IsRequest(st', r, a, b);
  }

  lemma {:induction false} RequestLasts(states: seq<State>, ops: seq<Op>, oks: seq<bool>, m: nat, n: nat, a: User,
      b: User)
    requires IsRun(states, ops, oks) && m <= n < |states| && HasRequest(states[m], a, b)
    requires forall k | m <= k < n :: !Blocks(ops[k], a, b)
    ensures HasRequest(states[n], a, b)
  {
    if m < n {
      RequestLasts(states, ops, oks, m, n - 1, a, b);
      RunsKeepGraph(states, ops, oks, n - 1);
      RequestStays(states[n - 1], ops[n - 1], states[n], oks[n - 1], a, b);
    }
  }

  lemma {:induction false} PairRefused(st: State, op: Op, st': State, ok: bool, a: User, b: User)
    requires HasRequest(st, a, b) && Asks(op, a, b) && Next(st, op, st', ok)
    ensures !ok
  {
    var r: Id :| IsRequest(st, r, a, b);
    assert IsRequest(st, r, op.sender, op.receiver);
  }

  /** A pair asks once: after a request, however it was answered, neither side can ask until one blocks the other. */
  lemma {:induction false} AskedOnlyOnce(states: seq<State>, ops: seq<Op>, oks: seq<bool>, m: nat, n: nat, a: User,
      b: User)
    requires IsRun(states, ops, oks) && m < n < |ops| && Asks(ops[m], a, b) && oks[m] && Asks(ops[n], a, b)
    requires forall k | m < k < n :: !Blocks(ops[k], a, b)
    ensures !oks[n]
  {
    assert Next(states[m], ops[m], states[m + 1], oks[m]);
    assert IsRequest(states[m + 1], states[m].next, a, b);
    RequestLasts(states, ops, oks, m + 1, n, a, b);
    PairRefused(states[n], ops[n], states[n + 1], oks[n], a, b);
  }

  /** Request `m` of the pair succeeded, and neither has blocked the other between it and call `n`. */
  ghost predicate Standing(ops: seq<Op>, oks: seq<bool>, m: nat, n: nat, a: User, b: User) {
    && m < n <= |ops| == |oks| && Asks(ops[m], a, b) && oks[m]
    && forall k | m < k < n :: !Blocks(ops[k], a, b)
  }

  /** A request in the table was there before the call, which was no block of the pair, or is the one now sent. */
  lemma {:induction false} RequestOrigin(st: State, op: Op, st': State, ok: bool, a: User, b: User)
    requires Graph(st) && Next(st, op, st', ok) && HasRequest(st', a, b)
    ensures (HasRequest(st, a, b) && !Blocks(op, a, b)) || (Asks(op, a, b) && ok)
  {
    var r: Id :| IsRequest(st', r, a, b);
    if r in st.requests {
      assert IsRequest(st, r, a, b);
      if Blocks(op, a, b) && ok {
        BlockClears(st, op.user, op.blocked, st');
        assert IsRequest(st', r, op.user, op.blocked);
      }
    }
  }

  lemma {:induction false} StandingMeansRequest(
      states: seq<State>, ops: seq<Op>, oks: seq<bool>, m: nat, n: nat, a: User, b: User)
    requires IsRun(states, ops, oks) && Standing(ops, oks, m, n, a, b)
    ensures HasRequest(states[n], a, b)
  {
    assert Next(states[m], ops[m], states[m + 1], oks[m]);
    assert IsRequest(states[m + 1], states[m].next, a, b);
    RequestLasts(states, ops, oks, m + 1, n, a, b);
  }

  lemma {:induction false} RequestWasAsked(
      states: seq<State>, ops: seq<Op>, oks: seq<bool>, n: nat, a: User, b: User) returns (m: nat)
    requires IsRun(states, ops, oks) && n < |states| && HasRequest(states[n], a, b)
    ensures Standing(ops, oks, m, n, a, b)
  {
    assert n > 0 by {
      var r :| IsRequest(states[n], r, a, b);
    }
    RunsKeepGraph(states, ops, oks, n - 1);
    assert Next(states[n - 1], ops[n - 1], states[n], oks[n - 1]);
    RequestOrigin(states[n - 1], ops[n - 1], states[n], oks[n - 1], a, b);
    if Asks(ops[n - 1], a, b) && oks[n - 1] {
      m := n - 1;
    } else {
      m := RequestWasAsked(states, ops, oks, n - 1, a, b);
    }
  }

  /** In every reachable state, a pair has a request exactly when one of its requests still stands. */
  lemma {:induction false} RequestStandsExactly(
      states: seq<State>, ops: seq<Op>, oks: seq<bool>, n: nat, a: User, b: User)
    requires IsRun(states, ops, oks) && n < |states|
    ensures HasRequest(states[n], a, b) <==> exists m :: Standing(ops, oks, m, n, a, b)
  {
    if m: nat :| Standing(ops, oks, m, n, a, b) {
      StandingMeansRequest(states, ops, oks, m, n, a, b);
    }
    if HasRequest(states[n], a, b) {
      var m := RequestWasAsked(states, ops, oks, n, a, b);
    }
  }

  /**
   Over any run, a request goes through exactly when it is not to oneself and no earlier request of the pair stands:
   none succeeded since the last time one of the two blocked the other.
   */
  lemma {:induction false} AskingSucceedsExactly(
      states: seq<State>, ops: seq<Op>, oks: seq<bool>, n: nat, a: User, b: User)
    requires IsRun(states, ops, oks) && n < |ops| && ops[n] == SendRequest(a, b)
    ensures oks[n] <==> a != b && !exists m :: Standing(ops, oks, m, n, a, b)
  {
    RequestStandsExactly(states, ops, oks, n, a, b);
    RunsKeepGraph(states, ops, oks, n);
    assert Next(states[n], ops[n], states[n + 1], oks[n]);
    if HasFriendship(states[n], a, b) {
      FriendsHaveAsked(states[n], a, b);
    }
  }

  lemma {:induction false} FriendsHaveAsked(st: State, a: User, b: User)
    requires Graph(st) && HasFriendship(st, a, b)
    ensures HasRequest(st, a, b)
  {
    var f :| IsFriendship(st, f, a, b);
    assert Backed(st, st.friends[f].user, st.friends[f].friend);
    var r :| IsRequest(st, r, st.friends[f].user, st.friends[f].friend);
    assert IsRequest(st, r, a, b);
  }

  /** So a pair that unfriended cannot be friends again until one blocks the other. */
  lemma {:induction false} UnfriendedCannotAsk(states: seq<State>, ops: seq<Op>, oks: seq<bool>, m: nat, n: nat,
      a: User, b: User)
    requires IsRun(states, ops, oks) && m < n < |ops| && ops[m] == RemoveFriend(a, b) && oks[m] && Asks(ops[n], a, b)
    requires forall k | m < k < n :: !Blocks(ops[k], a, b)
    ensures !oks[n] && !HasFriendship(states[m + 1], a, b)
  {
    var st, st' := states[m], states[m + 1];
    assert Next(st, ops[m], st', oks[m]);
    RunsKeepGraph(states, ops, oks, m);
    FriendsHaveAsked(st, a, b);
    RequestStays(st, ops[m], st', oks[m], a, b);
    OneRowIsAll(st, st'.friends, a, b);
    assert st' == st.(friends := st'.friends);
    RequestLasts(states, ops, oks, m + 1, n, a, b);
    PairRefused(states[n], ops[n], states[n + 1], oks[n], a, b);
  }

  lemma {:induction false} BlockedMayAskAgain(st: State, a: User, b: User, st': State, st'': State, ok: bool)
    requires Graph(st) && Next(st, BlockUser(a, b), st', true) && Next(st', SendRequest(b, a), st'', ok)
    ensures ok
  {
    BlockClears(st, a, b, st');
    assert forall id :: IsRequest(st', id, b, a) ==> IsRequest(st', id, a, b);
    assert forall id :: IsFriendship(st', id, b, a) ==> IsFriendship(st', id, a, b);
  }

  // ---------- rejecting what was accepted ----------

  /** A request between the two exists and is accepted. */
  ghost predicate AcceptedBy(st: State, a: User, b: User) {
    exists r :: IsRequest(st, r, a, b) && st.requests[r].status == ACCEPTED
  }

  /** Behind every friendship stands an accepted request. */
  ghost predicate FriendsAccepted(st: State) {
    forall f | f in st.friends :: AcceptedBy(st, st.friends[f].user, st.friends[f].friend)
  }

  /** The receiver rejects a request whose two sides are friends. */
  ghost predicate Undermines(st: State, op: Op) {
    && op.RejectRequest? && MayReject(st, op.id, op.user)
    && HasFriendship(st, st.requests[op.id].sender, st.requests[op.id].receiver)
  }

  lemma {:induction false} AcceptedLasts(st: State, st': State, a: User, b: User, r: Id)
    requires IsRequest(st, r, a, b) && st.requests[r].status == ACCEPTED
    requires r in st'.requests && st'.requests[r] == st.requests[r]
    ensures AcceptedBy(st', a, b)
  {
    assert IsRequest(st', r, a, b);
  }

  /** A call that keeps the friendships and every accepted request keeps the one behind the other. */
  lemma {:induction false} AcceptedKept(st: State, st': State)
    requires FriendsAccepted(st)
    requires forall f | f in st'.friends :: f in st.friends && st'.friends[f] == st.friends[f]
    requires forall f, r | f in st'.friends && IsRequest(st, r, st.friends[f].user, st.friends[f].friend)
               && st.requests[r].status == ACCEPTED :: r in st'.requests && st'.requests[r] == st.requests[r]
    ensures FriendsAccepted(st')
  {
    forall f | f in st'.friends ensures AcceptedBy(st', st'.friends[f].user, st'.friends[f].friend) {
      var a, b := st.friends[f].user, st.friends[f].friend;
      assert AcceptedBy(st, a, b);
      var r :| IsRequest(st, r, a, b) && st.requests[r].status == ACCEPTED;
      AcceptedLasts(st, st', a, b, r);
    }
  }

  lemma {:induction false} SendKeepsAccepted(st: State, a: User, b: User, st': State)
    requires Graph(st) && FriendsAccepted(st) && Next(st, SendRequest(a, b), st', true)
    ensures FriendsAccepted(st')
  {
    AcceptedKept(st, st');
  }

  lemma {:induction false} AcceptKeepsAccepted(st: State, id: Id, u: User, st': State)
    requires Graph(st) && FriendsAccepted(st) && Next(st, AcceptRequest(id, u), st', true)
    ensures FriendsAccepted(st')
  {
    forall f | f in st'.friends ensures AcceptedBy(st', st'.friends[f].user, st'.friends[f].friend) {
      var a, b := st'.friends[f].user, st'.friends[f].friend;
      if f == st.next {
        assert IsRequest(st', id, a, b) && st'.requests[id].status == ACCEPTED;
      } else {
        assert st.friends[f] == st'.friends[f];
        AcceptKeepsOne(st, id, u, st', a, b);
      }
    }
  }

  lemma {:induction false} AcceptKeepsOne(st: State, id: Id, u: User, st': State, a: User, b: User)
    requires Next(st, AcceptRequest(id, u), st', true) && AcceptedBy(st, a, b)
    ensures AcceptedBy(st', a, b)
  {
    var r :| IsRequest(st, r, a, b) && st.requests[r].status == ACCEPTED;
    AcceptedLasts(st, st', a, b, r);
  }

  /** Rejecting keeps an accepted request behind every friendship exactly when the two are not friends. */
  lemma {:induction false} RejectKeepsAcceptedExactly(st: State, id: Id, u: User, st': State)
    requires Graph(st) && FriendsAccepted(st) && Next(st, RejectRequest(id, u), st', true)
    ensures FriendsAccepted(st') <==> !HasFriendship(st, st.requests[id].sender, st.requests[id].receiver)
  {
    var x, y := st.requests[id].sender, st.requests[id].receiver;
    if HasFriendship(st, x, y) {
      var f :| IsFriendship(st, f, x, y);
      var a, b := st.friends[f].user, st.friends[f].friend;
      forall r | IsRequest(st', r, a, b) ensures st'.requests[r].status != ACCEPTED {
        assert r != id ==> !SamePair(st.requests[r].sender, st.requests[r].receiver, x, y);
      }
      assert f in st'.friends && !AcceptedBy(st', a, b);
    } else {
      forall f, r | f in st'.friends && IsRequest(st, r, st.friends[f].user, st.friends[f].friend) ensures r != id {
        assert !IsFriendship(st, f, x, y);
      }
      AcceptedKept(st, st');
    }
  }

  lemma {:induction false} RemoveKeepsAccepted(st: State, a: User, b: User, st': State)
    requires Graph(st) && FriendsAccepted(st) && Next(st, RemoveFriend(a, b), st', true)
    ensures FriendsAccepted(st')
  {
    AcceptedKept(st, st');
  }

  lemma {:induction false} BlockKeepsAccepted(st: State, a: User, b: User, st': State)
    requires Graph(st) && FriendsAccepted(st) && Next(st, BlockUser(a, b), st', true)
    ensures FriendsAccepted(st')
  {
    BlockClears(st, a, b, st');
    forall f | f in st'.friends
      ensures f in st.friends && st'.friends[f] == st.friends[f]
      ensures forall r | IsRequest(st, r, st.friends[f].user, st.friends[f].friend) :: !IsRequest(st, r, a, b)
    {
      assert !IsFriendship(st', f, a, b);
    }
    AcceptedKept(st, st');
  }

  /** A call keeps an accepted request behind every friendship exactly when it is no rejection between friends. */
  lemma {:induction false} NextKeepsAcceptedExactly(st: State, op: Op, st': State, ok: bool)
    requires Graph(st) && FriendsAccepted(st) && Next(st, op, st', ok)
    ensures FriendsAccepted(st') <==> !Undermines(st, op)
  {
    if ok {
      match op
      case SendRequest(a, b) => SendKeepsAccepted(st, a, b, st');
      case AcceptRequest(id, u) => AcceptKeepsAccepted(st, id, u, st');
      case RejectRequest(id, u) => RejectKeepsAcceptedExactly(st, id, u, st');
      case RemoveFriend(a, b) => RemoveKeepsAccepted(st, a, b, st');
      case BlockUser(a, b) => BlockKeepsAccepted(st, a, b, st');
    }
  }

  lemma {:induction false} RunAccepted(states: seq<State>, ops: seq<Op>, oks: seq<bool>, n: nat)
    requires IsRun(states, ops, oks) && n < |states|
    requires forall m | 0 <= m < |ops| :: !Undermines(states[m], ops[m])
    ensures FriendsAccepted(states[n])
  {
    if n > 0 {
      RunAccepted(states, ops, oks, n - 1);
      RunsKeepGraph(states, ops, oks, n - 1);
      assert Next(states[n - 1], ops[n - 1], states[n], oks[n - 1]) && !Undermines(states[n - 1], ops[n - 1]);
      NextKeepsAcceptedExactly(states[n - 1], ops[n - 1], states[n], oks[n - 1]);
    }
  }

  /**
   Over any run, an accepted request stands behind every friendship at every moment, if and only if no call of the run
   rejects a request whose two sides are friends at the time.
   */
  lemma {:induction false} AcceptedExactlyUnlessRejected(states: seq<State>, ops: seq<Op>, oks: seq<bool>)
    requires IsRun(states, ops, oks)
    ensures (forall n | 0 <= n < |states| :: FriendsAccepted(states[n]))
            <==> forall m | 0 <= m < |ops| :: !Undermines(states[m], ops[m])
  {
    if forall m | 0 <= m < |ops| :: !Undermines(states[m], ops[m]) {
      forall n | 0 <= n < |states| ensures FriendsAccepted(states[n]) {
        RunAccepted(states, ops, oks, n);
      }
    } else {
      var m :| 0 <= m < |ops| && Undermines(states[m], ops[m]);
      RunsKeepGraph(states, ops, oks, m);
      assert Next(states[m], ops[m], states[m + 1], oks[m]);
      if FriendsAccepted(states[m]) {
        NextKeepsAcceptedExactly(states[m], ops[m], states[m + 1], oks[m]);
        assert !FriendsAccepted(states[m + 1]);
      }
    }
  }

  /** Such a call is within reach of any two users: ask, accept, and reject what was accepted. */
  lemma {:induction false} RejectedFriends(a: User, b: User) returns (states: seq<State>)
    requires a != b
    ensures IsRun(states, [SendRequest(a, b), AcceptRequest(0, b), RejectRequest(0, b)], [true, true, true])
    ensures HasFriendship(states[3], a, b) && states[3].requests == map[0 := Request(a, b, REJECTED)]
    ensures !FriendsAccepted(states[3])
  {
    var asked := State(map[0 := Request(a, b, PENDING)], map[], 1);
    var accepted := State(map[0 := Request(a, b, ACCEPTED)], map[1 := Friend(a, b)], 2);
    var rejected := State(map[0 := Request(a, b, REJECTED)], map[1 := Friend(a, b)], 2);
    states := [EMPTY, asked, accepted, rejected];
    assert Next(EMPTY, SendRequest(a, b), asked, true);
    assert Next(asked, AcceptRequest(0, b), accepted, true);
    assert Next(accepted, RejectRequest(0, b), rejected, true);
    assert IsFriendship(rejected, 1, a, b);
  }

  // ---------- mutual friends ----------

  function FriendIds(st: State, u: User): set<User> {
    set id | id in st.friends && (st.friends[id].user == u || st.friends[id].friend == u)
      :: if st.friends[id].user == u then st.friends[id].friend else st.friends[id].user
  }

  /** In a proper graph the ids read off a user's rows are exactly the user's friends, and never the user. */
  lemma {:induction false} FriendIdsAreFriends(st: State, u: User)
    requires Graph(st)
    ensures forall x :: x in FriendIds(st, u) <==> HasFriendship(st, u, x)
    ensures u !in FriendIds(st, u)
  {
    forall x ensures x in FriendIds(st, u) <==> HasFriendship(st, u, x) {
      if x in FriendIds(st, u) {
        var id :| id in st.friends && (st.friends[id].user == u || st.friends[id].friend == u)
          && x == if st.friends[id].user == u then st.friends[id].friend else st.friends[id].user;
        assert IsFriendship(st, id, u, x);
      }
      if HasFriendship(st, u, x) {
        var id :| IsFriendship(st, id, u, x);
        assert st.friends[id].user != st.friends[id].friend;
      }
    }
  }

  /** Mutual friends are the friends of both, so the same from either side, and neither party is one. */
  lemma {:induction false} MutualFriends(st: State, u: User, other: User)
    requires Graph(st)
    ensures var ids := FriendIds(st, u) * FriendIds(st, other);
            && (forall x :: x in ids <==> HasFriendship(st, u, x) && HasFriendship(st, other, x))
            && u !in ids && other !in ids && ids == FriendIds(st, other) * FriendIds(st, u)
  {
    FriendIdsAreFriends(st, u);
    FriendIdsAreFriends(st, other);
  }
}

/**
 What the manager's state means in terms of the events so far, and nothing else: who is connected, which sockets are
 still open, who is subscribed to what and in which rooms; and so whom each kind of message reaches.
 */
module WebSocketHistory {
  import opened Prelude
  import opened WebSocketIndex
  import opened WebSocketMethods

  /** The state after the first `n` events. */
  function At(events: seq<Event>, n: nat): State
    requires n <= |events|
  {
    Run(EMPTY, events[..n])
  }

  lemma NextAt(events: seq<Event>, n: nat)
    requires n < |events|
    ensures At(events, n + 1) == Step(At(events, n), events[n])
  {
    assert events[..n + 1][..n] == events[..n];
  }

  // ---------- who is connected ----------

  ghost predicate StaysFrom(events: seq<Event>, m: int, n: nat, s: Socket)
    requires -1 <= m && n <= |events|
  {
    forall d | m < d < n :: events[d] != Disconnect(s)
  }

  /** The socket was opened at event `c` and has not disconnected since. */
  ghost predicate OpenedAt(events: seq<Event>, n: nat, s: Socket, c: nat)
    requires n <= |events|
  {
    c < n && events[c].Connect? && events[c].s == s && StaysFrom(events, c, n, s)
  }

  ghost predicate Held(events: seq<Event>, n: nat, s: Socket)
    requires n <= |events|
  {
    exists c :: OpenedAt(events, n, s, c)
  }

  /** The socket was opened at event `c`, with a token that proves user `u`, and has not disconnected since. */
  ghost predicate Accepted(events: seq<Event>, n: nat, s: Socket, c: nat, u: User)
    requires n <= |events|
  {
    OpenedAt(events, n, s, c) && events[c] == Connect(s, Some(u)) && !Held(events, c, s)
  }

  lemma {:induction false} OpenedNext(events: seq<Event>, n: nat, s: Socket, c: nat)
    requires n < |events|
    ensures OpenedAt(events, n + 1, s, c) <==>
            if c == n then events[n].Connect? && events[n].s == s
            else OpenedAt(events, n, s, c) && events[n] != Disconnect(s)
  {
  }

  lemma {:induction false} HeldNext(events: seq<Event>, n: nat, s: Socket)
    requires n < |events|
    ensures Held(events, n + 1, s) <==>
            (events[n].Connect? && events[n].s == s) || (Held(events, n, s) && events[n] != Disconnect(s))
  {
    forall c: nat
      ensures OpenedAt(events, n + 1, s, c) <==>
              if c == n then events[n].Connect? && events[n].s == s
              else OpenedAt(events, n, s, c) && events[n] != Disconnect(s)
    {
      OpenedNext(events, n, s, c);
    }
    if Held(events, n, s) {
      var c :| OpenedAt(events, n, s, c);
      assert c != n;
    }
    if events[n].Connect? && events[n].s == s {
      assert OpenedAt(events, n + 1, s, n);
    } else if Held(events, n + 1, s) {
      var c :| OpenedAt(events, n + 1, s, c);
      assert OpenedAt(events, n, s, c);
    }
  }

  lemma StepHolds(st: State, e: Event, s: Socket)
    ensures s in Step(st, e).sockets <==>
            (e.Connect? && e.s == s) || (s in st.sockets && e != Disconnect(s))
  {
  }

  lemma {:induction false} HeldExactly(events: seq<Event>, n: nat, s: Socket)
    requires n <= |events|
    ensures s in At(events, n).sockets <==> Held(events, n, s)
  {
    if n == 0 {
      assert events[..0] == [];
    } else {
      HeldExactly(events, n - 1, s);
      NextAt(events, n - 1);
      StepHolds(At(events, n - 1), events[n - 1], s);
      HeldNext(events, n - 1, s);
    }
  }

  ghost predicate LiveAs(st: State, s: Socket, u: User) { s in st.sockets && st.sockets[s].user == Some(u) }

  lemma StepLiveAs(st: State, e: Event, s: Socket, u: User)
    ensures LiveAs(Step(st, e), s, u) <==>
            (e == Connect(s, Some(u)) && s !in st.sockets) || (LiveAs(st, s, u) && e != Disconnect(s))
  {
  }

  lemma {:induction false} AcceptedNext(events: seq<Event>, n: nat, s: Socket, c: nat, u: User)
    requires n < |events|
    ensures Accepted(events, n + 1, s, c, u) <==>
            if c == n then events[n] == Connect(s, Some(u)) && !Held(events, n, s)
            else Accepted(events, n, s, c, u) && events[n] != Disconnect(s)
  {
    OpenedNext(events, n, s, c);
  }

  /** In every reachable state a socket is a connection of a user exactly when accepted as one and not gone since. */
  lemma {:induction false} LiveExactly(events: seq<Event>, n: nat, s: Socket, u: User)
    requires n <= |events|
    ensures LiveAs(At(events, n), s, u) <==> exists c :: Accepted(events, n, s, c, u)
  {
    if n == 0 {
      assert events[..0] == [];
    } else {
      var m := n - 1;
      LiveExactly(events, m, s, u);
      HeldExactly(events, m, s);
      NextAt(events, m);
      StepLiveAs(At(events, m), events[m], s, u);
      forall c: nat
        ensures Accepted(events, n, s, c, u) <==>
                if c == m then events[m] == Connect(s, Some(u)) && !Held(events, m, s)
                else Accepted(events, m, s, c, u) && events[m] != Disconnect(s)
      {
        AcceptedNext(events, m, s, c, u);
      }
      if LiveAs(At(events, n), s, u) {
        if events[m] == Connect(s, Some(u)) && s !in At(events, m).sockets {
          assert Accepted(events, n, s, m, u);
        } else {
          var c :| Accepted(events, m, s, c, u);
          assert c != m && Accepted(events, n, s, c, u);
        }
      }
    }
  }

  // ---------- which sockets are open ----------

  /** Some tick since `c` has not been answered. */
  ghost predicate Awaits(events: seq<Event>, c: nat, n: nat, s: Socket)
    requires n <= |events|
  {
    exists j :: AwaitsFrom(events, c, n, s, j)
  }

  ghost predicate AwaitsFrom(events: seq<Event>, c: nat, n: nat, s: Socket, j: nat)
    requires n <= |events|
  {
    c < j < n && events[j].Tick? && forall i | j < i < n :: events[i] != Pong(s)
  }

  /** Event `m` ends the socket: it closes, or a tick comes while an earlier one is still unanswered. */
  ghost predicate Ends(events: seq<Event>, c: nat, m: nat, s: Socket)
    requires m < |events|
  {
    c < m && (events[m] == Closing(s) || (events[m].Tick? && Awaits(events, c, m, s)))
  }

  ghost predicate Ended(events: seq<Event>, c: nat, n: nat, s: Socket)
    requires n <= |events|
  {
    exists m: nat :: m < n && Ends(events, c, m, s)
  }

  lemma {:induction false} AwaitsNext(events: seq<Event>, c: nat, n: nat, s: Socket)
    requires c < n < |events|
    ensures Awaits(events, c, n + 1, s) <==> events[n].Tick? || (Awaits(events, c, n, s) && events[n] != Pong(s))
  {
    if events[n].Tick? {
      assert AwaitsFrom(events, c, n + 1, s, n);
    }
    if Awaits(events, c, n, s) && events[n] != Pong(s) {
      var j :| AwaitsFrom(events, c, n, s, j);
      assert AwaitsFrom(events, c, n + 1, s, j);
    }
    if Awaits(events, c, n + 1, s) && !events[n].Tick? {
      var j :| AwaitsFrom(events, c, n + 1, s, j);
      assert AwaitsFrom(events, c, n, s, j);
    }
  }

  lemma {:induction false} EndedNext(events: seq<Event>, c: nat, n: nat, s: Socket)
    requires n < |events|
    ensures Ended(events, c, n + 1, s) <==> Ended(events, c, n, s) || Ends(events, c, n, s)
  {
  }

  lemma StepOpen(st: State, e: Event, s: Socket)
    requires s in st.sockets && st.sockets[s].user.Some? && e != Disconnect(s)
    ensures var k, st' := st.sockets[s], Step(st, e);
            && s in st'.sockets
            && (st'.sockets[s].open <==> k.open && e != Closing(s) && !(e.Tick? && !k.isAlive))
  {
  }

  /** An accepted socket is open, and expects no pong, exactly as the events since then say. */
  lemma {:induction false} OpenExactly(events: seq<Event>, n: nat, s: Socket, c: nat, u: User)
    requires n <= |events| && Accepted(events, n, s, c, u)
    ensures LiveAs(At(events, n), s, u)
    ensures At(events, n).sockets[s].isAlive <==> !Awaits(events, c, n, s)
    ensures At(events, n).sockets[s].open <==> !Ended(events, c, n, s)
  {
    var m := n - 1;
    LiveExactly(events, n, s, u);
    NextAt(events, m);
    AcceptedNext(events, m, s, c, u);
    if c == m {
      HeldExactly(events, m, s);
    } else {
      OpenExactly(events, m, s, c, u);
      AwaitsNext(events, c, m, s);
      EndedNext(events, c, m, s);
      StepOpen(At(events, m), events[m], s);
      AliveStep(At(events, m), events[m], s);
    }
  }

  // ---------- who is subscribed to what ----------

  /** The event gives socket `s` a subscription: by subscribing, or by joining the room of that name. */
  ghost predicate Adds(e: Event, s: Socket, name: string) {
    e == Receive(s, Subscribe(name)) || exists r :: e == Receive(s, JoinRoom(r)) && name == "room:" + r
  }

  ghost predicate Drops(e: Event, s: Socket, name: string) {
    e == Receive(s, Unsubscribe(name)) || exists r :: e == Receive(s, LeaveRoom(r)) && name == "room:" + r
  }

  ghost predicate SubscribedSince(events: seq<Event>, c: nat, n: nat, s: Socket, name: string, m: nat)
    requires n <= |events|
  {
    c < m < n && Adds(events[m], s, name) && forall k | m < k < n :: !Drops(events[k], s, name)
  }

  ghost predicate Subscribed(events: seq<Event>, c: nat, n: nat, s: Socket, name: string)
    requires n <= |events|
  {
    exists m :: SubscribedSince(events, c, n, s, name, m)
  }

  lemma {:induction false} SubscribedNext(events: seq<Event>, c: nat, n: nat, s: Socket, name: string)
    requires c < n < |events|
    ensures Subscribed(events, c, n + 1, s, name) <==>
            Adds(events[n], s, name) || (Subscribed(events, c, n, s, name) && !Drops(events[n], s, name))
  {
    if Adds(events[n], s, name) {
      assert SubscribedSince(events, c, n + 1, s, name, n);
    }
    if Subscribed(events, c, n, s, name) && !Drops(events[n], s, name) {
      var m :| SubscribedSince(events, c, n, s, name, m);
      assert SubscribedSince(events, c, n + 1, s, name, m);
    }
    if Subscribed(events, c, n + 1, s, name) && !Adds(events[n], s, name) {
      var m :| SubscribedSince(events, c, n + 1, s, name, m);
      assert SubscribedSince(events, c, n, s, name, m);
    }
  }

  lemma HandleSubscribes(st: State, s: Socket, message: Message, name: string)
    requires s in st.sockets && st.sockets[s].user.Some?
    ensures var k, e := st.sockets[s], Receive(s, message);
            var k' := Handle(st, s, k, k.user.value, message).sockets[s];
            name in k'.subscriptions <==> Adds(e, s, name) || (name in k.subscriptions && !Drops(e, s, name))
  {
  }

  lemma StepSubscribes(st: State, e: Event, s: Socket, name: string)
    requires s in st.sockets && st.sockets[s].user.Some? && e != Disconnect(s)
    ensures s in Step(st, e).sockets
    ensures name in Step(st, e).sockets[s].subscriptions <==>
            Adds(e, s, name) || (name in st.sockets[s].subscriptions && !Drops(e, s, name))
  {
    if e.Receive? && e.s == s {
      HandleSubscribes(st, s, e.message, name);
    } else {
      assert !Adds(e, s, name) && !Drops(e, s, name);
    }
  }

  /** An accepted socket is subscribed exactly to what it asked for since and has not given up again. */
  lemma {:induction false} SubscribedExactly(events: seq<Event>, n: nat, s: Socket, c: nat, u: User, name: string)
    requires n <= |events| && Accepted(events, n, s, c, u)
    ensures LiveAs(At(events, n), s, u)
    ensures name in At(events, n).sockets[s].subscriptions <==> Subscribed(events, c, n, s, name)
  {
    var m := n - 1;
    LiveExactly(events, n, s, u);
    NextAt(events, m);
    AcceptedNext(events, m, s, c, u);
    if c == m {
      HeldExactly(events, m, s);
    } else {
      SubscribedExactly(events, m, s, c, u, name);
      SubscribedNext(events, c, m, s, name);
      StepSubscribes(At(events, m), events[m], s, name);
    }
  }

  // ---------- who is in which room ----------

  ghost predicate Online(events: seq<Event>, n: nat, u: User)
    requires n <= |events|
  {
    exists s, c :: Accepted(events, n, s, c, u)
  }

  /** Event `m` is a message of user `u`, from any of the user's sockets, to join room `r`. */
  ghost predicate Joins(events: seq<Event>, m: nat, u: User, r: Room)
    requires m < |events|
  {
    events[m].Receive? && events[m].message == JoinRoom(r) && exists c :: Accepted(events, m, events[m].s, c, u)
  }

  ghost predicate Leaves(events: seq<Event>, m: nat, u: User, r: Room)
    requires m < |events|
  {
    events[m].Receive? && events[m].message == LeaveRoom(r) && exists c :: Accepted(events, m, events[m].s, c, u)
  }

  /** The user joined at event `m`, has not left since, on whatever socket, and has been online all along. */
  ghost predicate MemberSince(events: seq<Event>, n: nat, u: User, r: Room, m: nat)
    requires n <= |events|
  {
    && m < n && Joins(events, m, u, r)
    && (forall k | m < k < n :: !Leaves(events, k, u, r))
    && (forall k | m < k <= n :: Online(events, k, u))
  }

  ghost predicate Member(events: seq<Event>, n: nat, u: User, r: Room)
    requires n <= |events|
  {
    exists m :: MemberSince(events, n, u, r, m)
  }

  lemma {:induction false} MemberNext(events: seq<Event>, n: nat, u: User, r: Room)
    requires n < |events|
    ensures Member(events, n + 1, u, r) <==>
            Online(events, n + 1, u)
            && (Joins(events, n, u, r) || (Member(events, n, u, r) && !Leaves(events, n, u, r)))
  {
    if Online(events, n + 1, u) && Joins(events, n, u, r) {
      assert MemberSince(events, n + 1, u, r, n);
    } else if Online(events, n + 1, u) && Member(events, n, u, r) && !Leaves(events, n, u, r) {
      var m :| MemberSince(events, n, u, r, m);
      assert MemberSince(events, n + 1, u, r, m);
    }
    if Member(events, n + 1, u, r) && !Joins(events, n, u, r) {
      var m :| MemberSince(events, n + 1, u, r, m);
      assert MemberSince(events, n, u, r, m);
    }
  }

  lemma {:induction false} OnlineExactly(events: seq<Event>, n: nat, u: User)
    requires n <= |events|
    ensures Online(events, n, u) <==> u in Live(At(events, n)).Values
  {
    var st := At(events, n);
    if Online(events, n, u) {
      var s, c :| Accepted(events, n, s, c, u);
      LiveExactly(events, n, s, u);
      assert s in Live(st) && Live(st)[s] == u;
    }
    if u in Live(st).Values {
      var s :| s in Live(st) && Live(st)[s] == u;
      LiveExactly(events, n, s, u);
    }
  }

  /** How the memberships move, in a state whose index is exact. */
  lemma {:induction false} StepJoined(st: State, e: Event, u: User, r: Room)
    requires Exact(st)
    ensures var st' := Step(st, e);
            (r, u) in Joined(st') <==>
            u in Live(st').Values
            && ((e.Receive? && e.message == JoinRoom(r) && LiveAs(st, e.s, u))
                || ((r, u) in Joined(st) && !(e.Receive? && e.message == LeaveRoom(r) && LiveAs(st, e.s, u))))
  {
    var st' := Step(st, e);
    StepExact(st, e);
    StepAbs(st, e);
    LiveAfter(st, e);
    JoinedAreOnline(st, u, r);
    JoinedAreOnline(st', u, r);
    if e.Receive? && LiveAs(st, e.s, u) {
      assert e.s in Live(st') && Live(st')[e.s] == u;
    }
  }

  lemma {:induction false} JoinedAreOnline(st: State, u: User, r: Room)
    requires Exact(st)
    ensures (r, u) in Joined(st) ==> u in Live(st).Values
  {
    ExactMeans(st);
  }

  lemma {:induction false} MessagesExactly(events: seq<Event>, n: nat, u: User, r: Room)
    requires n < |events|
    ensures var e, st := events[n], At(events, n);
            && (Joins(events, n, u, r) <==> e.Receive? && e.message == JoinRoom(r) && LiveAs(st, e.s, u))
            && (Leaves(events, n, u, r) <==> e.Receive? && e.message == LeaveRoom(r) && LiveAs(st, e.s, u))
  {
    if events[n].Receive? {
      LiveExactly(events, n, events[n].s, u);
    }
  }

  /** In every reachable state a user is in a room exactly when having joined, stayed online and not left since. */
  lemma {:induction false} MemberExactly(events: seq<Event>, n: nat, u: User, r: Room)
    requires n <= |events|
    ensures (r, u) in Joined(At(events, n)) <==> Member(events, n, u, r)
  {
    if n == 0 {
      assert events[..0] == [];
    } else {
      var m := n - 1;
      MemberExactly(events, m, u, r);
      IndexRefinesFlatTable(events[..m]);
      NextAt(events, m);
      StepJoined(At(events, m), events[m], u, r);
      MessagesExactly(events, m, u, r);
      OnlineExactly(events, n, u);
      MemberNext(events, m, u, r);
    }
  }

  // ---------- whom a message reaches ----------

  /** The socket was accepted as one of user `u`, at event `c`, and nothing has ended it. */
  ghost predicate Reachable(events: seq<Event>, s: Socket, c: nat, u: User) {
    Accepted(events, |events|, s, c, u) && !Ended(events, c, |events|, s)
  }

  lemma {:induction false} OpenReachable(events: seq<Event>, s: Socket, u: User)
    ensures var st := Run(EMPTY, events);
            (LiveAs(st, s, u) && st.sockets[s].open) <==> exists c :: Reachable(events, s, c, u)
  {
    assert events[..|events|] == events;
    LiveExactly(events, |events|, s, u);
    forall c: nat | Accepted(events, |events|, s, c, u)
      ensures Run(EMPTY, events).sockets[s].open <==> !Ended(events, c, |events|, s)
    {
      OpenExactly(events, |events|, s, c, u);
    }
    if LiveAs(Run(EMPTY, events), s, u) && Run(EMPTY, events).sockets[s].open {
      var c :| Accepted(events, |events|, s, c, u);
      assert Reachable(events, s, c, u);
    }
  }

  /** A message to a user goes exactly to the sockets accepted as that user's that nothing has ended. */
  lemma {:induction false} UserReachedExactly(events: seq<Event>, s: Socket, u: User)
    ensures s in OpenOf(Run(EMPTY, events), u) <==> exists c :: Reachable(events, s, c, u)
  {
    OpenReachable(events, s, u);
  }

  /** A broadcast goes exactly to the accepted sockets that nothing has ended. */
  lemma {:induction false} BroadcastReachedExactly(events: seq<Event>, s: Socket)
    ensures s in AllOpen(Run(EMPTY, events)) <==> exists c, u :: Reachable(events, s, c, u)
  {
    var st := Run(EMPTY, events);
    if s in AllOpen(st) {
      OpenReachable(events, s, Live(st)[s]);
      var c :| Reachable(events, s, c, Live(st)[s]);
    }
    if c, u :| Reachable(events, s, c, u) {
      OpenReachable(events, s, u);
    }
  }

  /** A message to a room goes exactly to those of the users who are in it. */
  lemma {:induction false} RoomReachedExactly(events: seq<Event>, s: Socket, r: Room)
    ensures s in OpenInRoom(Run(EMPTY, events), r)
            <==> exists c, u :: Reachable(events, s, c, u) && Member(events, |events|, u, r)
  {
    var st := Run(EMPTY, events);
    assert events[..|events|] == events;
    if s in OpenInRoom(st, r) {
      var u := Live(st)[s];
      OpenReachable(events, s, u);
      MemberExactly(events, |events|, u, r);
      var c :| Reachable(events, s, c, u);
    }
    if c, u :| Reachable(events, s, c, u) && Member(events, |events|, u, r) {
      OpenReachable(events, s, u);
      MemberExactly(events, |events|, u, r);
    }
  }

  /** An event goes exactly to those subscribed to it, or to everything. */
  lemma {:induction false} EventReachedExactly(events: seq<Event>, s: Socket, name: string)
    ensures s in AllWanting(Run(EMPTY, events), name)
            <==> exists c, u :: Reachable(events, s, c, u) && SubscribedTo(events, c, s, name)
  {
    var st := Run(EMPTY, events);
    assert events[..|events|] == events;
    if s in AllWanting(st, name) {
      var u := Live(st)[s];
      OpenReachable(events, s, u);
      var c :| Reachable(events, s, c, u);
      SubscribedExactly(events, |events|, s, c, u, name);
      SubscribedExactly(events, |events|, s, c, u, "*");
      assert SubscribedTo(events, c, s, name);
    }
    if c, u :| Reachable(events, s, c, u) && SubscribedTo(events, c, s, name) {
      OpenReachable(events, s, u);
      SubscribedExactly(events, |events|, s, c, u, name);
      SubscribedExactly(events, |events|, s, c, u, "*");
    }
  }

  ghost predicate SubscribedTo(events: seq<Event>, c: nat, s: Socket, name: string) {
    Subscribed(events, c, |events|, s, name) || Subscribed(events, c, |events|, s, "*")
  }

  /** In particular, from the second tick that a socket leaves unanswered, no message reaches it any more. */
  lemma {:induction false} SilentIsUnreachable(events: seq<Event>, s: Socket, c: nat, u: User, i: nat, j: nat)
    requires Accepted(events, |events|, s, c, u) && c < i < j < |events| && events[i].Tick? && events[j].Tick?
    requires forall m | i < m < j :: events[m] != Pong(s)
    ensures s !in AllOpen(Run(EMPTY, events))
  {
    assert AwaitsFrom(events, c, j, s, i);
    assert Ends(events, c, j, s);
    assert events[..|events|] == events;
    OpenExactly(events, |events|, s, c, u);
  }
}

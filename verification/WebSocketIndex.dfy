/**
 The WebSocket manager's two-level index (user to sockets, room to users) as a state machine, and
 its agreement with a flat table of live connections.
 */
module WebSocketIndex {
  import opened Prelude

  type User = string
  type Room = string
  type Socket = nat

  /** The fields the manager hangs on a socket; `user` is unset on a connection it refused. */
  datatype Sock = Sock(user: Option<User>, isAlive: bool, subscriptions: set<string>, open: bool)

  /** `sockets` is the server's own set of clients, from connection until the socket is closed. */
  datatype State = State(clients: map<User, set<Socket>>, rooms: map<Room, set<User>>, sockets: map<Socket, Sock>)

  datatype Message =
    | Subscribe(event: string)
    | Unsubscribe(event: string)
    | JoinRoom(room: Room)
    | LeaveRoom(room: Room)
    | Ping

  /** `Connect` carries the user its token proves, if any; `Closing` is a socket leaving the open state. */
  datatype Event =
    | Connect(s: Socket, token: Option<User>)
    | Receive(s: Socket, message: Message)
    | Pong(s: Socket)
    | Closing(s: Socket)
    | Disconnect(s: Socket)
    | Tick

  const EMPTY := State(map[], map[], map[])

  function Lookup<K, V>(m: map<K, set<V>>, k: K): set<V> {
    if k in m then m[k] else {}
  }

  /** One beat of the heartbeat on one socket: terminate it if unanswered, else expect an answer. */
  function Beat(k: Sock): Sock {
    if !k.isAlive then k.(open := false) else k.(isAlive := false)
  }

  /** Removing a user from every room, then dropping the rooms that are left empty. */
  function Evict(rooms: map<Room, set<User>>, u: User): map<Room, set<User>> {
    map r | r in rooms && rooms[r] - {u} != {} :: rooms[r] - {u}
  }

  function Drop(st: State, s: Socket, u: User): State {
    var sockets := st.sockets - {s};
    if u !in st.clients then st.(sockets := sockets)
    else if st.clients[u] - {s} == {} then State(st.clients - {u}, Evict(st.rooms, u), sockets)
    else State(st.clients[u := st.clients[u] - {s}], st.rooms, sockets)
  }

  function Accept(st: State, s: Socket, token: Option<User>): State {
    match token
    case None => st.(sockets := st.sockets[s := Sock(None, false, {}, false)])
    case Some(u) =>
      State(st.clients[u := Lookup(st.clients, u) + {s}], st.rooms, st.sockets[s := Sock(token, true, {}, true)])
  }

  function Handle(st: State, s: Socket, k: Sock, u: User, m: Message): State {
    match m
    case Subscribe(ev) => st.(sockets := st.sockets[s := k.(subscriptions := k.subscriptions + {ev})])
    case Unsubscribe(ev) => st.(sockets := st.sockets[s := k.(subscriptions := k.subscriptions - {ev})])
    case JoinRoom(r) =>
      State(st.clients, st.rooms[r := Lookup(st.rooms, r) + {u}],
            st.sockets[s := k.(subscriptions := k.subscriptions + {"room:" + r})])
    case LeaveRoom(r) =>
      State(st.clients, if r in st.rooms then st.rooms[r := st.rooms[r] - {u}] else st.rooms,
            st.sockets[s := k.(subscriptions := k.subscriptions - {"room:" + r})])
    case Ping => st
  }

  /** A refused connection has no handlers: its messages and pongs go unheard. */
  function Step(st: State, e: Event): State {
    match e
    case Tick => st.(sockets := map s | s in st.sockets :: Beat(st.sockets[s]))
    case Connect(s, token) => if s in st.sockets then st else Accept(st, s, token)
    case Receive(s, m) =>
      if s in st.sockets && st.sockets[s].user.Some? then
        Handle(st, s, st.sockets[s], st.sockets[s].user.value, m)
      else st
    case Pong(s) =>
      if s in st.sockets && st.sockets[s].user.Some? then
        st.(sockets := st.sockets[s := st.sockets[s].(isAlive := true)]) else st
    case Closing(s) =>
      if s in st.sockets then st.(sockets := st.sockets[s := st.sockets[s].(open := false)]) else st
    case Disconnect(s) =>
      if s in st.sockets && st.sockets[s].user.Some? then Drop(st, s, st.sockets[s].user.value)
      else st.(sockets := st.sockets - {s})
  }

  function Run(st: State, events: seq<Event>): State {
    if events == [] then st else Step(Run(st, events[..|events| - 1]), events[|events| - 1])
  }

  // ---------- the flat table ----------

  /** Who is connected on what, and which users are in which rooms. */
  datatype Flat = Flat(live: map<Socket, User>, joined: set<(Room, User)>)

  /** The same history on the flat table: a user who has no connection left has left every room. */
  function FlatStep(f: Flat, sockets: set<Socket>, e: Event): Flat {
    match e
    case Connect(s, token) => if s in sockets || token.None? then f else f.(live := f.live[s := token.value])
    case Receive(s, JoinRoom(r)) => if s in f.live then f.(joined := f.joined + {(r, f.live[s])}) else f
    case Receive(s, LeaveRoom(r)) => if s in f.live then f.(joined := f.joined - {(r, f.live[s])}) else f
    case Disconnect(s) =>
      if s !in f.live then f else
      var live := f.live - {s};
      if f.live[s] in live.Values then f.(live := live)
      else Flat(live, set p | p in f.joined && p.1 != f.live[s])
    case _ => f
  }

  function FlatRun(events: seq<Event>): Flat {
    if events == [] then Flat(map[], {}) else
      var before := events[..|events| - 1];
      FlatStep(FlatRun(before), Run(EMPTY, before).sockets.Keys, events[|events| - 1])
  }

  /** The accepted connections among some sockets. */
  function Users(sockets: map<Socket, Sock>): map<Socket, User> {
    map s | s in sockets && sockets[s].user.Some? :: sockets[s].user.value
  }

  function Live(st: State): map<Socket, User> { Users(st.sockets) }

  function Pairs(rooms: map<Room, set<User>>): set<(Room, User)> {
    set r, u | r in rooms && u in rooms[r] :: (r, u)
  }

  function Joined(st: State): set<(Room, User)> { Pairs(st.rooms) }

  function Abs(st: State): Flat { Flat(Live(st), Joined(st)) }

  /** The sockets of one user, according to the flat table. */
  function SocketsOf(st: State, u: User): set<Socket> {
    set s | s in Live(st) && Live(st)[s] == u
  }

  /**
   The two-level index is exact: a user has an entry just when connected, the entry is the set of
   that user's sockets, and only connected users are in rooms.
   */
  ghost predicate Exact(st: State) {
    && (forall u: User :: Lookup(st.clients, u) == SocketsOf(st, u))
    && (forall u | u in st.clients :: st.clients[u] != {})
    && (forall r, u | r in st.rooms && u in st.rooms[r] :: u in st.clients)
  }

  /** No empty entries, disjoint socket sets, and only online room members. */
  lemma {:induction false} ExactMeans(st: State)
    requires Exact(st)
    ensures forall u: User :: u in st.clients <==> u in Live(st).Values
    ensures forall u, v | u in st.clients && v in st.clients && u != v :: st.clients[u] !! st.clients[v]
    ensures forall s, u | u in st.clients && s in st.clients[u] :: s in Live(st) && Live(st)[s] == u
  {
    forall u: User ensures u in st.clients <==> u in Live(st).Values {
      assert Lookup(st.clients, u) == SocketsOf(st, u);
      if u in Live(st).Values {
        var s :| s in Live(st) && Live(st)[s] == u;
        assert s in SocketsOf(st, u);
      }
      if u in st.clients {
        var s :| s in st.clients[u];
        assert Live(st)[s] == u;
      }
    }
    forall s, u | u in st.clients && s in st.clients[u] ensures s in Live(st) && Live(st)[s] == u {
      assert Lookup(st.clients, u) == SocketsOf(st, u);
    }
    forall u, v | u in st.clients && v in st.clients && u != v ensures st.clients[u] !! st.clients[v] {
      assert Lookup(st.clients, u) == SocketsOf(st, u) && Lookup(st.clients, v) == SocketsOf(st, v);
    }
  }

  lemma UsersUpdate(sockets: map<Socket, Sock>, s: Socket, k: Sock)
    requires s in sockets && k.user == sockets[s].user
    ensures Users(sockets[s := k]) == Users(sockets)
  {
  }

  lemma LiveReceive(st: State, s: Socket, m: Message)
    ensures Live(Step(st, Receive(s, m))) == Live(st)
  {
    if s in st.sockets && st.sockets[s].user.Some? {
      var k := Step(st, Receive(s, m)).sockets[s];
      assert k.user == st.sockets[s].user && Step(st, Receive(s, m)).sockets == st.sockets[s := k];
      UsersUpdate(st.sockets, s, k);
    }
  }

  lemma LiveConnect(st: State, s: Socket, token: Option<User>)
    ensures Live(Step(st, Connect(s, token))) ==
            if s !in st.sockets && token.Some? then Live(st)[s := token.value] else Live(st)
  {
  }

  lemma LiveDisconnect(st: State, s: Socket)
    ensures Live(Step(st, Disconnect(s))) == Live(st) - {s}
  {
    assert Step(st, Disconnect(s)).sockets == st.sockets - {s};
  }

  lemma {:induction false} LiveAfter(st: State, e: Event)
    ensures Live(Step(st, e)) ==
            if e.Connect? && e.s !in st.sockets && e.token.Some? then Live(st)[e.s := e.token.value]
            else if e.Disconnect? then Live(st) - {e.s} else Live(st)
  {
    match e
    case Tick =>
    case Connect(s, token) => LiveConnect(st, s, token);
    case Disconnect(s) => LiveDisconnect(st, s);
    case Receive(s, m) => LiveReceive(st, s, m);
    case Pong(s) => if s in st.sockets { UsersUpdate(st.sockets, s, st.sockets[s].(isAlive := true)); }
    case Closing(s) => if s in st.sockets { UsersUpdate(st.sockets, s, st.sockets[s].(open := false)); }
  }

  /** Everything but the last disconnect of a user leaves the room sets alone or changes one of them. */
  lemma {:induction false} DropExact(st: State, s: Socket)
    requires Exact(st) && s in Live(st)
    ensures Exact(Step(st, Disconnect(s)))
    ensures Live(st)[s] !in Step(st, Disconnect(s)).clients ==>
              forall r | r in Step(st, Disconnect(s)).rooms :: Step(st, Disconnect(s)).rooms[r] != {}
  {
    var u := Live(st)[s];
    var st' := Step(st, Disconnect(s));
    LiveAfter(st, Disconnect(s));
    assert s in SocketsOf(st, u) && SocketsOf(st, u) == Lookup(st.clients, u);
    forall v: User ensures Lookup(st'.clients, v) == SocketsOf(st', v) {
      assert Lookup(st.clients, v) == SocketsOf(st, v);
      assert SocketsOf(st', v) == SocketsOf(st, v) - {s};
    }
  }

  lemma {:induction false} ConnectExact(st: State, s: Socket, token: Option<User>)
    requires Exact(st)
    ensures Exact(Step(st, Connect(s, token)))
  {
    var st' := Step(st, Connect(s, token));
    LiveAfter(st, Connect(s, token));
    forall v: User ensures Lookup(st'.clients, v) == SocketsOf(st', v) {
      assert Lookup(st.clients, v) == SocketsOf(st, v);
      if s !in st.sockets && token.Some? {
        assert SocketsOf(st', v) == if v == token.value then SocketsOf(st, v) + {s} else SocketsOf(st, v);
      }
    }
  }

  lemma {:induction false} RoomsChangeExact(st: State, st': State)
    requires Exact(st) && Live(st') == Live(st) && st'.clients == st.clients
    requires forall r, u | r in st'.rooms && u in st'.rooms[r] :: u in st.clients
    ensures Exact(st')
  {
    forall u: User ensures Lookup(st'.clients, u) == SocketsOf(st', u) {
      assert Lookup(st.clients, u) == SocketsOf(st, u);
    }
  }

  /** Every event keeps the index exact. */
  lemma {:induction false} StepExact(st: State, e: Event)
    requires Exact(st)
    ensures Exact(Step(st, e))
  {
    LiveAfter(st, e);
    match e
    case Connect(s, token) => ConnectExact(st, s, token);
    case Disconnect(s) =>
      if s in Live(st) { DropExact(st, s); } else { RoomsChangeExact(st, Step(st, e)); }
    case Receive(s, m) =>
      if s in Live(st) {
        ExactMeans(st);
        assert Live(st)[s] in Live(st).Values;
        RoomsChangeExact(st, Step(st, e));
      }
    case Tick => RoomsChangeExact(st, Step(st, e));
    case Pong(s) => RoomsChangeExact(st, Step(st, e));
    case Closing(s) => RoomsChangeExact(st, Step(st, e));
  }

  lemma {:induction false} JoinLeavePairs(rooms: map<Room, set<User>>, r: Room, u: User)
    ensures Pairs(rooms[r := Lookup(rooms, r) + {u}]) == Pairs(rooms) + {(r, u)}
    ensures r in rooms ==> Pairs(rooms[r := rooms[r] - {u}]) == Pairs(rooms) - {(r, u)}
    ensures r !in rooms ==> (r, u) !in Pairs(rooms)
  {
  }

  /** The two-level index moves as the flat table does. */
  lemma {:induction false} StepAbs(st: State, e: Event)
    requires Exact(st)
    ensures Abs(Step(st, e)) == FlatStep(Abs(st), st.sockets.Keys, e)
  {
    LiveAfter(st, e);
    match e
    case Disconnect(s) => if s in Live(st) { DisconnectAbs(st, s); }
    case Receive(s, m) =>
      if s in Live(st) {
        match m
        case JoinRoom(r) => JoinLeavePairs(st.rooms, r, Live(st)[s]);
        case LeaveRoom(r) => JoinLeavePairs(st.rooms, r, Live(st)[s]);
        case Subscribe(_) =>
        case Unsubscribe(_) =>
        case Ping =>
      }
    case Connect(_, _) =>
    case Tick =>
    case Pong(_) =>
    case Closing(_) =>
  }

  /** Sweeping a user out of the rooms removes exactly that user's memberships. */
  lemma {:induction false} EvictJoined(rooms: map<Room, set<User>>, u: User)
    ensures Pairs(Evict(rooms, u)) == set p | p in Pairs(rooms) && p.1 != u
  {
    forall p: (Room, User) ensures p in Pairs(Evict(rooms, u)) <==> p in Pairs(rooms) && p.1 != u {
      assert p in Pairs(rooms) <==> p.0 in rooms && p.1 in rooms[p.0];
      if p.0 in rooms && p.1 in rooms[p.0] && p.1 != u {
        assert p.1 in rooms[p.0] - {u};
        assert p.0 in Evict(rooms, u);
      }
    }
  }

  lemma {:induction false} DisconnectAbs(st: State, s: Socket)
    requires Exact(st) && s in Live(st)
    ensures Joined(Step(st, Disconnect(s))) == FlatStep(Abs(st), st.sockets.Keys, Disconnect(s)).joined
  {
    var u := Live(st)[s];
    var live := Live(st) - {s};
    assert Lookup(st.clients, u) == SocketsOf(st, u) && s in SocketsOf(st, u);
    if SocketsOf(st, u) - {s} != {} {
      var x :| x in SocketsOf(st, u) - {s};
      assert x in live && live[x] == u;
    } else {
      forall x | x in live ensures live[x] != u {
        assert x in SocketsOf(st, u) <==> live[x] == u;
      }
      EvictJoined(st.rooms, u);
    }
  }

  /** In every reachable state the index is exact and agrees with the flat table. */
  lemma {:induction false} IndexRefinesFlatTable(events: seq<Event>)
    ensures Exact(Run(EMPTY, events)) && Abs(Run(EMPTY, events)) == FlatRun(events)
  {
    if events == [] {
      assert Live(EMPTY) == map[];
    } else {
      var before, e := events[..|events| - 1], events[|events| - 1];
      IndexRefinesFlatTable(before);
      StepExact(Run(EMPTY, before), e);
      StepAbs(Run(EMPTY, before), e);
    }
  }

  /** When a user's last connection goes, the user is in no room and no room is left empty. */
  lemma {:induction false} LastDisconnectSweeps(events: seq<Event>, s: Socket)
    requires s in FlatRun(events).live
    requires FlatRun(events).live[s] !in (FlatRun(events).live - {s}).Values
    ensures var st := Run(EMPTY, events + [Disconnect(s)]);
            && FlatRun(events).live[s] !in st.clients
            && (forall r | r in st.rooms :: st.rooms[r] != {} && FlatRun(events).live[s] !in st.rooms[r])
  {
    var u := FlatRun(events).live[s];
    var all := events + [Disconnect(s)];
    assert all[..|all| - 1] == events;
    IndexRefinesFlatTable(events);
    IndexRefinesFlatTable(all);
    ExactMeans(Run(EMPTY, all));
    assert u !in Live(Run(EMPTY, all)).Values;
    DropExact(Run(EMPTY, events), s);
  }

  // ---------- the heartbeat ----------

  /** Index `i` of the run is a tick at which socket `s` is terminated. */
  ghost predicate TerminatedAt(st: State, events: seq<Event>, s: Socket, i: nat) {
    i < |events| && events[i].Tick?
    && s in Run(st, events[..i]).sockets && !Run(st, events[..i]).sockets[s].isAlive
  }

  /** Some tick before `n` has not been answered by `s` since. */
  ghost predicate Unanswered(events: seq<Event>, s: Socket, n: nat)
    requires n <= |events|
  {
    exists j | 0 <= j < n && events[j].Tick? :: forall m | j < m < n :: events[m] != Pong(s)
  }

  ghost predicate Stays(events: seq<Event>, s: Socket) {
    forall m | 0 <= m < |events| :: events[m] != Disconnect(s)
  }

  /** How one more event changes whether a tick stands unanswered. */
  lemma {:induction false} UnansweredStep(events: seq<Event>, s: Socket, e: Event)
    ensures Unanswered(events + [e], s, |events| + 1) <==>
            e.Tick? || (Unanswered(events, s, |events|) && e != Pong(s))
  {
    var all, n := events + [e], |events|;
    if Unanswered(events, s, n) && e != Pong(s) {
      var j :| 0 <= j < n && events[j].Tick? && forall m | j < m < n :: events[m] != Pong(s);
      assert all[j].Tick? && forall m | j < m < n + 1 :: all[m] != Pong(s);
    }
    if Unanswered(all, s, n + 1) && !e.Tick? {
      var j :| 0 <= j < n + 1 && all[j].Tick? && forall m | j < m < n + 1 :: all[m] != Pong(s);
      assert all[n] == e;
      assert events[j].Tick? && forall m | j < m < n :: events[m] != Pong(s) by {
        assert forall m | j <= m < n :: events[m] == all[m];
      }
    }
    if e.Tick? {
      assert all[n].Tick?;
    }
  }

  /** An accepted socket stays one, and its liveness mark follows ticks and its own pongs. */
  lemma {:induction false} AliveStep(st: State, e: Event, s: Socket)
    requires s in st.sockets && st.sockets[s].user.Some? && e != Disconnect(s)
    ensures var st' := Step(st, e);
            s in st'.sockets && st'.sockets[s].user.Some?
            && (st'.sockets[s].isAlive <==> !e.Tick? && (e == Pong(s) || st.sockets[s].isAlive))
  {
  }

  lemma {:induction false} AliveUnlessUnanswered(st: State, events: seq<Event>, s: Socket)
    requires s in st.sockets && st.sockets[s].user.Some? && st.sockets[s].isAlive && Stays(events, s)
    ensures var st' := Run(st, events);
            && s in st'.sockets && st'.sockets[s].user.Some?
            && (st'.sockets[s].isAlive <==> !Unanswered(events, s, |events|))
    decreases |events|
  {
    if events != [] {
      var before, e := events[..|events| - 1], events[|events| - 1];
      AliveUnlessUnanswered(st, before, s);
      assert events == before + [e];
      UnansweredStep(before, s, e);
      AliveStep(Run(st, before), e, s);
    }
  }

  /**
   Heartbeat: a socket that has just been accepted is terminated exactly at those ticks that
   follow an earlier tick with no pong of its own in between.
   */
  lemma {:induction false} TerminatedExactly(st: State, events: seq<Event>, s: Socket, i: nat)
    requires s in st.sockets && st.sockets[s].user.Some? && st.sockets[s].isAlive && Stays(events, s)
    requires i < |events|
    ensures TerminatedAt(st, events, s, i) <==> events[i].Tick? && Unanswered(events, s, i)
  {
    AliveUnlessUnanswered(st, events[..i], s);
    if Unanswered(events[..i], s, i) {
      var j :| 0 <= j < i && events[..i][j].Tick? && forall m | j < m < i :: events[..i][m] != Pong(s);
      assert events[j].Tick? && forall m | j < m < i :: events[m] != Pong(s) by {
        forall m | j < m < i ensures events[m] != Pong(s) {
          assert events[..i][m] == events[m];
        }
      }
    }
    if Unanswered(events, s, i) {
      var j :| 0 <= j < i && events[j].Tick? && forall m | j < m < i :: events[m] != Pong(s);
      assert events[..i][j].Tick? && forall m | j < m < i :: events[..i][m] != Pong(s);
    }
  }

  /** Safety: a socket that answers every tick before the next one is never terminated. */
  lemma {:induction false} AnsweringIsNeverTerminated(st: State, events: seq<Event>, s: Socket)
    requires s in st.sockets && st.sockets[s].user.Some? && st.sockets[s].isAlive && Stays(events, s)
    requires forall j, i | 0 <= j < i < |events| && events[j].Tick? && events[i].Tick? ::
               exists m :: j < m < i && events[m] == Pong(s)
    ensures forall i: nat :: !TerminatedAt(st, events, s, i)
  {
    forall i: nat | i < |events| ensures !TerminatedAt(st, events, s, i) {
      TerminatedExactly(st, events, s, i);
    }
  }

  /** Bounded detection: a socket that stays silent is terminated by the second tick. */
  lemma {:induction false} SilentIsTerminated(st: State, events: seq<Event>, s: Socket, first: nat, second: nat)
    requires s in st.sockets && st.sockets[s].user.Some? && st.sockets[s].isAlive && Stays(events, s)
    requires first < second < |events| && events[first].Tick? && events[second].Tick?
    requires forall m | 0 <= m < second :: events[m] != Pong(s)
    ensures TerminatedAt(st, events, s, second)
    ensures (forall m | 0 <= m < first :: !events[m].Tick?) ==> !TerminatedAt(st, events, s, first)
  {
    TerminatedExactly(st, events, s, second);
    TerminatedExactly(st, events, s, first);
    assert events[first].Tick? && forall m | first < m < second :: events[m] != Pong(s);
  }
}

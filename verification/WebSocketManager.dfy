/**
 The manager itself: `clients`, `rooms` and the sockets' own fields changed in place, and the
 loops over them. Each handler is proved to do what its event does; each sender to reach exactly
 the open sockets the flat table calls for, each once.
 */
module WebSocketMethods {
  import opened Prelude
  import opened WebSocketIndex

  type Frame = string
  type Outbox = seq<(Socket, Frame)>

  /** One copy of a frame for each of some sockets. */
  ghost function Copies(recipients: set<Socket>, f: Frame): multiset<(Socket, Frame)> {
    multiset(set s | s in recipients :: (s, f))
  }

  /** Between two moments, each recipient was sent the frame once and nothing else was sent. */
  ghost predicate SentOnce(before: Outbox, after: Outbox, recipients: set<Socket>, f: Frame) {
    before <= after && multiset(after[|before|..]) == Copies(recipients, f)
  }

  lemma {:induction false} CopiesAdd(a: set<Socket>, b: set<Socket>, f: Frame)
    requires a !! b
    ensures Copies(a + b, f) == Copies(a, f) + Copies(b, f)
  {
    var sa, sb := set s | s in a :: (s, f), set s | s in b :: (s, f);
    assert (set s | s in a + b :: (s, f)) == sa + sb;
    forall p: (Socket, Frame) | p in sa ensures p !in sb {
      assert p.0 in a;
    }
    forall p: (Socket, Frame) ensures multiset(sa + sb)[p] == multiset(sa)[p] + multiset(sb)[p] {
    }
  }

  /** Two bursts to disjoint recipients make one burst to both. */
  lemma {:induction false} SentBoth(o1: Outbox, o2: Outbox, o3: Outbox, a: set<Socket>, b: set<Socket>, f: Frame)
    requires SentOnce(o1, o2, a, f) && SentOnce(o2, o3, b, f) && a !! b
    ensures SentOnce(o1, o3, a + b, f)
  {
    CopiesAdd(a, b, f);
    assert o3[|o1|..] == o2[|o1|..] + o3[|o2|..];
  }

  lemma {:induction false} SentOne(o: Outbox, s: Socket, f: Frame)
    ensures SentOnce(o, o + [(s, f)], {s}, f)
  {
    assert (o + [(s, f)])[|o|..] == [(s, f)];
    assert (set x | x in {s} :: (x, f)) == {(s, f)};
  }

  lemma {:induction false} SentNothing(o: Outbox, f: Frame)
    ensures SentOnce(o, o, {}, f)
  {
    assert (set x: Socket | x in {} :: (x, f)) == {};
    assert o[|o|..] == [];
  }

  /** Sweeping one more room: it keeps the user out, and stays only if someone is left. */
  lemma {:induction false} EvictOneMore(was: map<Room, set<User>>, rooms: map<Room, set<User>>, todo: set<Room>,
      r: Room, u: User)
    requires r in todo && todo <= rooms.Keys <= was.Keys && rooms[r] == was[r]
    requires rooms - todo == Evict(was - todo, u)
    ensures var left := rooms[r] - {u};
            (if left == {} then rooms[r := left] - {r} else rooms[r := left]) - (todo - {r}) ==
                Evict(was - (todo - {r}), u)
  {
    var left := rooms[r] - {u};
    var swept := if left == {} then rooms[r := left] - {r} else rooms[r := left];
    var want := Evict(was - (todo - {r}), u);
    forall x ensures x in swept - (todo - {r}) <==> x in want {
      assert x in rooms - todo <==> x in Evict(was - todo, u);
    }
    forall x | x in want ensures (swept - (todo - {r}))[x] == want[x] {
      if x != r {
        assert x in rooms - todo && (rooms - todo)[x] == Evict(was - todo, u)[x];
      }
    }
  }

  // ---------- who should be reached ----------

  function OpenOf(st: State, u: User): set<Socket> {
    set s | s in Live(st) && Live(st)[s] == u && st.sockets[s].open
  }

  function OpenIn(st: State, users: set<User>): set<Socket> {
    set s | s in Live(st) && Live(st)[s] in users && st.sockets[s].open
  }

  function OpenInRoom(st: State, r: Room): set<Socket> {
    set s | s in Live(st) && (r, Live(st)[s]) in Joined(st) && st.sockets[s].open
  }

  predicate Wants(k: Sock, event: string) {
    event in k.subscriptions || "*" in k.subscriptions
  }

  function OpenWanting(st: State, users: set<User>, event: string): set<Socket> {
    set s | s in OpenIn(st, users) && Wants(st.sockets[s], event)
  }

  /** The sockets to serve among some: open, and wanting the event when one is given. */
  function Served(sockets: map<Socket, Sock>, cs: set<Socket>, event: Option<string>): set<Socket> {
    set s | s in cs && s in sockets && sockets[s].open && (event.None? || Wants(sockets[s], event.value))
  }

  lemma {:induction false} ServeOneMore(sockets: map<Socket, Sock>, cs: set<Socket>, todo: set<Socket>, c: Socket,
      event: Option<string>)
    requires c in todo && todo <= cs && c in sockets
    ensures Served(sockets, cs - (todo - {c}), event) ==
            Served(sockets, cs - todo, event) + Served(sockets, {c}, event)
    ensures Served(sockets, {c}, event) ==
            if sockets[c].open && (event.None? || Wants(sockets[c], event.value)) then {c} else {}
  {
  }

  /** Under an exact index, a user's entry is the user's sockets, so serving it serves the user. */
  lemma {:induction false} ServedByEntry(st: State, u: User, event: string)
    requires Exact(st)
    ensures Served(st.sockets, Lookup(st.clients, u), None) == OpenOf(st, u)
    ensures Served(st.sockets, Lookup(st.clients, u), Some(event)) == OpenWanting(st, {u}, event)
    ensures Lookup(st.clients, u) <= st.sockets.Keys
  {
    assert Lookup(st.clients, u) == SocketsOf(st, u);
  }

  function AllOpen(st: State): set<Socket> {
    set s | s in Live(st) && st.sockets[s].open
  }

  function AllWanting(st: State, event: string): set<Socket> {
    set s | s in AllOpen(st) && Wants(st.sockets[s], event)
  }

  lemma {:induction false} WantOneMore(st: State, users: set<User>, todo: set<User>, u: User, event: string)
    requires u in todo && todo <= users
    ensures OpenWanting(st, users - (todo - {u}), event) ==
            OpenWanting(st, users - todo, event) + OpenWanting(st, {u}, event)
    ensures OpenWanting(st, users - todo, event) !! OpenWanting(st, {u}, event)
    ensures OpenWanting(st, users - users, event) == {}
  {
  }

  lemma {:induction false} OnlineAreAll(st: State)
    requires Exact(st)
    ensures OpenIn(st, st.clients.Keys) == AllOpen(st)
    ensures forall event :: OpenWanting(st, st.clients.Keys, event) == AllWanting(st, event)
  {
    ExactMeans(st);
    forall s | s in Live(st) ensures Live(st)[s] in st.clients {
      assert Live(st)[s] in Live(st).Values;
    }
  }

  /** The live sockets of all users but some. */
  function SocketsOutside(st: State, todo: set<User>): set<Socket> {
    set s | s in Live(st) && Live(st)[s] !in todo
  }

  lemma CountOneMore(st: State, todo: set<User>, u: User)
    requires Exact(st) && u in todo && u in st.clients
    ensures SocketsOutside(st, todo - {u}) == SocketsOutside(st, todo) + st.clients[u]
    ensures SocketsOutside(st, todo) !! st.clients[u]
  {
    assert Lookup(st.clients, u) == SocketsOf(st, u);
  }

  class WebSocketManager {
    var clients: map<User, set<Socket>>
    var rooms: map<Room, set<User>>
    var sockets: map<Socket, Sock>
    var sent: Outbox

    ghost function Now(): State
      reads this
    {
      State(clients, rooms, sockets)
    }

    ghost predicate Valid()
      reads this
    {
      Exact(Now())
    }

    constructor ()
      ensures Valid() && Now() == EMPTY && sent == []
    {
      clients, rooms, sockets, sent := map[], map[], map[], [];
    }

    method Send(s: Socket, f: Frame)
      requires s in sockets
      modifies this`sent
      ensures SentOnce(old(sent), sent, if sockets[s].open then {s} else {}, f)
    {
      SentOne(sent, s, f);
      SentNothing(sent, f);
      if sockets[s].open {
        sent := sent + [(s, f)];
      }
    }

    method AddClient(u: User, s: Socket)
      modifies this`clients
      ensures clients == old(clients)[u := Lookup(old(clients), u) + {s}]
    {
      if u !in clients {
        clients := clients[u := {}];
      }
      clients := clients[u := clients[u] + {s}];
    }

    method HandleConnection(s: Socket, token: Option<User>)
      requires Valid() && s !in sockets
      modifies this
      ensures Valid() && Now() == Step(old(Now()), Connect(s, token))
      ensures SentOnce(old(sent), sent, if token.Some? then {s} else {}, "connected")
    {
      ghost var next := Step(Now(), Connect(s, token));
      StepExact(Now(), Connect(s, token));
      if token.None? {
        sockets := sockets[s := Sock(None, false, {}, false)];
        SentNothing(sent, "connected");
        assert Now() == next;
        return;
      }
      sockets := sockets[s := Sock(token, true, {}, true)];
      AddClient(token.value, s);
      assert Now() == next;
      Send(s, "connected");
    }

    method HandleSubscribe(s: Socket, event: string)
      requires Valid() && s in sockets && sockets[s].user.Some?
      modifies this
      ensures Valid() && Now() == Step(old(Now()), Receive(s, Subscribe(event)))
      ensures SentOnce(old(sent), sent, if old(sockets)[s].open then {s} else {}, "subscribed")
    {
      ghost var next := Step(Now(), Receive(s, Subscribe(event)));
      StepExact(Now(), Receive(s, Subscribe(event)));
      sockets := sockets[s := sockets[s].(subscriptions := sockets[s].subscriptions + {event})];
      assert Now() == next;
      Send(s, "subscribed");
    }

    method HandleUnsubscribe(s: Socket, event: string)
      requires Valid() && s in sockets && sockets[s].user.Some?
      modifies this
      ensures Valid() && Now() == Step(old(Now()), Receive(s, Unsubscribe(event)))
      ensures SentOnce(old(sent), sent, if old(sockets)[s].open then {s} else {}, "unsubscribed")
    {
      ghost var next := Step(Now(), Receive(s, Unsubscribe(event)));
      StepExact(Now(), Receive(s, Unsubscribe(event)));
      sockets := sockets[s := sockets[s].(subscriptions := sockets[s].subscriptions - {event})];
      assert Now() == next;
      Send(s, "unsubscribed");
    }

    method HandleJoinRoom(s: Socket, r: Room)
      requires Valid() && s in sockets && sockets[s].user.Some?
      modifies this
      ensures Valid() && Now() == Step(old(Now()), Receive(s, JoinRoom(r))) && sent == old(sent)
    {
      ghost var next := Step(Now(), Receive(s, JoinRoom(r)));
      StepExact(Now(), Receive(s, JoinRoom(r)));
      if r !in rooms {
        rooms := rooms[r := {}];
      }
      rooms := rooms[r := rooms[r] + {sockets[s].user.value}];
      sockets := sockets[s := sockets[s].(subscriptions := sockets[s].subscriptions + {"room:" + r})];
      assert Now() == next;
    }

    method HandleLeaveRoom(s: Socket, r: Room)
      requires Valid() && s in sockets && sockets[s].user.Some?
      modifies this
      ensures Valid() && Now() == Step(old(Now()), Receive(s, LeaveRoom(r))) && sent == old(sent)
    {
      ghost var next := Step(Now(), Receive(s, LeaveRoom(r)));
      StepExact(Now(), Receive(s, LeaveRoom(r)));
      if r in rooms {
        rooms := rooms[r := rooms[r] - {sockets[s].user.value}];
      }
      sockets := sockets[s := sockets[s].(subscriptions := sockets[s].subscriptions - {"room:" + r})];
      assert Now() == next;
    }

    /** The `ping` message, answered by the manager itself; it is no protocol ping and does not count as a pong. */
    method HandlePing(s: Socket)
      requires Valid() && s in sockets && sockets[s].user.Some?
      modifies this`sent
      ensures Valid() && Now() == Step(old(Now()), Receive(s, Ping)) && Now() == old(Now())
      ensures SentOnce(old(sent), sent, if sockets[s].open then {s} else {}, "pong")
    {
      Send(s, "pong");
    }

    method HandlePong(s: Socket)
      requires Valid() && s in sockets && sockets[s].user.Some?
      modifies this`sockets
      ensures Valid() && Now() == Step(old(Now()), Pong(s))
    {
      ghost var next := Step(Now(), Pong(s));
      StepExact(Now(), Pong(s));
      sockets := sockets[s := sockets[s].(isAlive := true)];
    }

    /** Sweeping a user out of the rooms, dropping emptied rooms from the map being iterated over. */
    method LeaveAllRooms(u: User)
      modifies this`rooms
      ensures rooms == Evict(old(rooms), u)
    {
      var todo := rooms.Keys;
      ghost var was := rooms;
      while todo != {}
        invariant todo <= rooms.Keys <= was.Keys
        invariant rooms - todo == Evict(was - todo, u)
        invariant forall r | r in todo :: rooms[r] == was[r]
        decreases |todo|
      {
        var r :| r in todo;
        EvictOneMore(was, rooms, todo, r, u);
        todo := todo - {r};
        rooms := rooms[r := rooms[r] - {u}];
        if rooms[r] == {} {
          rooms := rooms - {r};
        }
      }
      assert rooms - {} == rooms && was - {} == was;
    }

    method HandleDisconnect(s: Socket)
      requires Valid() && s in sockets && sockets[s].user.Some?
      modifies this
      ensures Valid() && Now() == Step(old(Now()), Disconnect(s)) && sent == old(sent)
    {
      ghost var was, next := Now(), Step(Now(), Disconnect(s));
      StepExact(Now(), Disconnect(s));
      var u := sockets[s].user.value;
      sockets := sockets - {s};
      if u in clients {
        clients := clients[u := clients[u] - {s}];
        if clients[u] == {} {
          clients := clients - {u};
          assert clients == was.clients - {u};
          LeaveAllRooms(u);
        }
      }
      assert Now() == next;
    }

    method SendToUser(u: User, f: Frame)
      requires Valid()
      modifies this`sent
      ensures SentOnce(old(sent), sent, OpenOf(Now(), u), f)
    {
      SentNothing(sent, f);
      ServedByEntry(Now(), u, "");
      if u in clients {
        var todo := clients[u];
        assert Served(sockets, clients[u] - todo, None) == {};
        while todo != {}
          invariant todo <= clients[u]
          invariant SentOnce(old(sent), sent, Served(sockets, clients[u] - todo, None), f)
          decreases |todo|
        {
          var c :| c in todo;
          ServeOneMore(sockets, clients[u], todo, c, None);
          label before:
          Send(c, f);
          SentBoth(old(sent), old@before(sent), sent, Served(sockets, clients[u] - todo, None),
              Served(sockets, {c}, None), f);
          todo := todo - {c};
        }
        assert clients[u] - todo == clients[u];
      }
    }

    method SendToUsers(users: set<User>, f: Frame)
      requires Valid()
      modifies this`sent
      ensures SentOnce(old(sent), sent, OpenIn(Now(), users), f)
    {
      SentNothing(sent, f);
      var todo := users;
      assert OpenIn(Now(), users - todo) == {};
      while todo != {}
        invariant todo <= users
        invariant SentOnce(old(sent), sent, OpenIn(Now(), users - todo), f)
        decreases |todo|
      {
        var u :| u in todo;
        label before:
        SendToUser(u, f);
        SentBoth(old(sent), old@before(sent), sent, OpenIn(Now(), users - todo), OpenOf(Now(), u), f);
        assert OpenIn(Now(), users - (todo - {u})) == OpenIn(Now(), users - todo) + OpenOf(Now(), u);
        todo := todo - {u};
      }
      assert users - todo == users;
    }

    /** A room's message reaches the open sockets of the users who are in the room, each once. */
    method SendToRoom(r: Room, f: Frame)
      requires Valid()
      modifies this`sent
      ensures SentOnce(old(sent), sent, OpenInRoom(Now(), r), f)
    {
      SentNothing(sent, f);
      assert OpenInRoom(Now(), r) == OpenIn(Now(), Lookup(rooms, r));
      if r in rooms {
        SendToUsers(rooms[r], f);
      } else {
        assert OpenIn(Now(), {}) == {};
      }
    }

    /** A broadcast reaches every open accepted socket once. */
    method Broadcast(f: Frame)
      requires Valid()
      modifies this`sent
      ensures SentOnce(old(sent), sent, AllOpen(Now()), f)
    {
      OnlineAreAll(Now());
      SendToUsers(clients.Keys, f);
    }

    method SendToSubscribersOf(u: User, event: string, f: Frame)
      requires Valid() && u in clients
      modifies this`sent
      ensures SentOnce(old(sent), sent, OpenWanting(Now(), {u}, event), f)
    {
      SentNothing(sent, f);
      ServedByEntry(Now(), u, event);
      var todo := clients[u];
      assert Served(sockets, clients[u] - todo, Some(event)) == {};
      while todo != {}
        invariant todo <= clients[u]
        invariant SentOnce(old(sent), sent, Served(sockets, clients[u] - todo, Some(event)), f)
        decreases |todo|
      {
        var c :| c in todo;
        ServeOneMore(sockets, clients[u], todo, c, Some(event));
        if Wants(sockets[c], event) {
          label before:
          Send(c, f);
          SentBoth(old(sent), old@before(sent), sent,
                   Served(sockets, clients[u] - todo, Some(event)), Served(sockets, {c}, Some(event)), f);
        }
        todo := todo - {c};
      }
      assert clients[u] - todo == clients[u];
    }

    /** An event reaches once every open accepted socket subscribed to it or to everything. */
    method BroadcastToSubscribers(event: string, f: Frame)
      requires Valid()
      modifies this`sent
      ensures SentOnce(old(sent), sent, AllWanting(Now(), event), f)
    {
      ghost var st := Now();
      SentNothing(sent, f);
      OnlineAreAll(st);
      var todo := clients.Keys;
      ghost var reached: set<Socket> := {};
      while todo != {}
        invariant todo <= clients.Keys && Now() == st
        invariant reached == OpenWanting(st, clients.Keys - todo, event)
        invariant SentOnce(old(sent), sent, reached, f)
        decreases |todo|
      {
        var u :| u in todo;
        WantOneMore(st, clients.Keys, todo, u, event);
        label before:
        SendToSubscribersOf(u, event, f);
        SentBoth(old(sent), old@before(sent), sent, reached, OpenWanting(st, {u}, event), f);
        reached := reached + OpenWanting(st, {u}, event);
        todo := todo - {u};
      }
      assert clients.Keys - todo == clients.Keys;
    }

    /** The heartbeat's loop over every socket the server holds. */
    method BeatAll() returns (terminated: set<Socket>)
      modifies this`sockets
      ensures sockets == map s | s in old(sockets) :: Beat(old(sockets)[s])
      ensures terminated == set s | s in old(sockets) && !old(sockets)[s].isAlive
    {
      terminated := {};
      var todo := sockets.Keys;
      ghost var was := sockets;
      while todo != {}
        invariant todo <= was.Keys == sockets.Keys
        invariant forall s | s in todo :: sockets[s] == was[s]
        invariant forall s | s in was && s !in todo :: sockets[s] == Beat(was[s])
        invariant forall s :: s in terminated <==> s in was && s !in todo && !was[s].isAlive
        decreases |todo|
      {
        var s :| s in todo;
        todo := todo - {s};
        var dead := BeatOne(s);
        if dead { terminated := terminated + {s}; }
      }
    }

    method BeatOne(s: Socket) returns (dead: bool)
      requires s in sockets
      modifies this`sockets
      ensures sockets == old(sockets)[s := Beat(old(sockets)[s])] && dead == !old(sockets)[s].isAlive
    {
      dead := !sockets[s].isAlive;
      if dead {
        sockets := sockets[s := sockets[s].(open := false)];
      } else {
        sockets := sockets[s := sockets[s].(isAlive := false)];
      }
    }

    /** One beat: sockets that have not answered since the last one are terminated. */
    method Heartbeat() returns (terminated: set<Socket>)
      requires Valid()
      modifies this`sockets
      ensures Valid() && Now() == Step(old(Now()), Tick)
      ensures terminated == set s | s in old(sockets) && !old(sockets)[s].isAlive
      ensures forall s | s in sockets ::
                s in old(sockets) && (sockets[s].open <==> old(sockets)[s].open && s !in terminated)
    {
      StepExact(Now(), Tick);
      terminated := BeatAll();
    }

    method IsUserOnline(u: User) returns (online: bool)
      requires Valid()
      ensures online <==> exists s :: s in Live(Now()) && Live(Now())[s] == u
    {
      online := u in clients;
      ExactMeans(Now());
    }

    /** Adding up the sizes of the users' socket sets counts the live connections. */
    method GetConnectionCount() returns (count: nat)
      requires Valid()
      ensures count == |Live(Now())|
    {
      count := 0;
      ExactMeans(Now());
      var todo := clients.Keys;
      ghost var counted: set<Socket> := {};
      while todo != {}
        invariant todo <= clients.Keys
        invariant counted == SocketsOutside(Now(), todo)
        invariant count == |counted|
        decreases |todo|
      {
        var u :| u in todo;
        CountOneMore(Now(), todo, u);
        count := count + |clients[u]|;
        counted := counted + clients[u];
        todo := todo - {u};
      }
      assert counted == Live(Now()).Keys;
    }
  }
}

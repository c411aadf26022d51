/** The websocket gateway counts users by their connections: who a connection belongs to, which connections
    a user has, and how many user sessions began and ended. A connection is bound to its user by a timer,
    some time after it opens. */
module WsGateway {
  import opened Wrappers

  type Conn = nat
  type User = string

  /** The two indexes and the two session counters. */
  datatype Index = Index(users: map<User, set<Conn>>, meta: map<Conn, User>, starts: nat, ends: nat)

  function Connect(index: Index, conn: Conn, user: User): Index {
    if user in index.users then
      index.(meta := index.meta[conn := user], users := index.users[user := index.users[user] + {conn}])
    else
      index.(meta := index.meta[conn := user], users := index.users[user := {conn}], starts := index.starts + 1)
  }

  /** Takes a connection from a user, and the user away with the last one. */
  function TakeFrom(index: Index, conn: Conn, user: User): Index {
    if user !in index.users then index
    else if index.users[user] - {conn} == {} then index.(users := index.users - {user}, ends := index.ends + 1)
    else index.(users := index.users[user := index.users[user] - {conn}])
  }

  /** A connection that was never bound is looked for under the user its session names. */
  function Disconnect(index: Index, conn: Conn, sessionUser: Option<User>): Index {
    var rest := index.(meta := index.meta - {conn});
    if conn in index.meta then TakeFrom(rest, conn, index.meta[conn])
    else if sessionUser.Some? then TakeFrom(rest, conn, sessionUser.value)
    else rest
  }

  predicate BoundTo(index: Index, conn: Conn, user: User) {
    conn in index.meta && index.meta[conn] == user
  }

  predicate Among(index: Index, conn: Conn, user: User) {
    user in index.users && conn in index.users[user]
  }

  /** The two indexes say the same. */
  ghost predicate Mirror(index: Index) {
    forall c, u :: BoundTo(index, c, u) <==> Among(index, c, u)
  }

  /** No user is kept without a connection, and the sessions that are not over are the users. */
  ghost predicate Counted(index: Index) {
    && (forall u :: u in index.users ==> index.users[u] != {})
    && index.starts == index.ends + |index.users|
  }

  ghost predicate Agree(index: Index) {
    Mirror(index) && Counted(index)
  }

  /** What is known of all connections: those in the active set, those whose close is still to come, those
      whose binding timer is still to fire, and those ever opened. */
  datatype Gateway = Gateway(index: Index, active: set<Conn>, closable: set<Conn>, timers: set<Conn>, known: set<Conn>)

  datatype Event =
    | Open(conn: Conn, fails: bool)
    | Fire(conn: Conn, user: Option<User>)
    | Close(conn: Conn, sessionUser: Option<User>)

  function Initial(): Gateway {
    Gateway(Index(map[], map[], 0, 0), {}, {}, {}, {})
  }

  /** A connection opens once, closes once, and is bound by one timer, which a failed opening never sets. */
  function Step(g: Gateway, e: Event): Gateway {
    match e
    case Open(c, fails) =>
      if c in g.known then g
      else
        g.(known := g.known + {c}, closable := g.closable + {c},
           active := if fails then g.active else g.active + {c},
           timers := if fails then g.timers else g.timers + {c})
    case Fire(c, user) =>
      if c !in g.timers then g
      else g.(timers := g.timers - {c}, index := if user.Some? then Connect(g.index, c, user.value) else g.index)
    case Close(c, sessionUser) =>
      if c !in g.closable then g
      else g.(closable := g.closable - {c}, active := g.active - {c}, index := Disconnect(g.index, c, sessionUser))
  }

  function Run(events: seq<Event>): Gateway
    decreases |events|
  {
    if events == [] then Initial() else Step(Run(events[..|events| - 1]), events[|events| - 1])
  }

  // ---------- the handlers ----------

  class Handlers {
    var activeConnections: set<Conn>
    var userConnectionMap: map<User, set<Conn>>
    var connectionMeta: map<Conn, User>
    var sessionStarts: nat
    var sessionEnds: nat
    var timers: set<Conn>

    ghost function Contents(): Index
      reads this
    {
      Index(userConnectionMap, connectionMeta, sessionStarts, sessionEnds)
    }

    constructor ()
      ensures Contents() == Initial().index && activeConnections == {} && timers == {}
    {
      activeConnections, timers := {}, {};
      userConnectionMap, connectionMeta := map[], map[];
      sessionStarts, sessionEnds := 0, 0;
    }

    method HandleConnection(conn: Conn, fails: bool)
      modifies this
      ensures Contents() == old(Contents())
      ensures activeConnections == if fails then old(activeConnections) - {conn} else old(activeConnections) + {conn}
      ensures timers == if fails then old(timers) else old(timers) + {conn}
    {
      activeConnections := activeConnections + {conn};
      if fails {
        activeConnections := activeConnections - {conn};
        return;
      }
      timers := timers + {conn};
    }

    /** The timer set by `deferUserBinding` fires. */
    method BindUser(conn: Conn, user: Option<User>)
      modifies this
      ensures activeConnections == old(activeConnections) && timers == old(timers) - {conn}
      ensures Contents() == if user.Some? then Connect(old(Contents()), conn, user.value) else old(Contents())
    {
      timers := timers - {conn};
      if user.Some? {
        HandleUserConnect(conn, user.value);
      }
    }

    method HandleUserConnect(conn: Conn, user: User)
      modifies this
      ensures activeConnections == old(activeConnections) && timers == old(timers)
      ensures Contents() == Connect(old(Contents()), conn, user)
    {
      connectionMeta := connectionMeta[conn := user];
      if user !in userConnectionMap {
        userConnectionMap := userConnectionMap[user := {}];
        sessionStarts := sessionStarts + 1;
        assert {} + {conn} == {conn};
      }
      userConnectionMap := userConnectionMap[user := userConnectionMap[user] + {conn}];
      assert userConnectionMap == Connect(old(Contents()), conn, user).users;
    }

    method HandleClose(conn: Conn, sessionUser: Option<User>)
      modifies this
      ensures activeConnections == old(activeConnections) - {conn} && timers == old(timers)
      ensures Contents() == Disconnect(old(Contents()), conn, sessionUser)
    {
      activeConnections := activeConnections - {conn};
      HandleUserDisconnect(conn, sessionUser);
    }

    method HandleUserDisconnect(conn: Conn, sessionUser: Option<User>)
      modifies this
      ensures activeConnections == old(activeConnections) && timers == old(timers)
      ensures Contents() == Disconnect(old(Contents()), conn, sessionUser)
    {
      var meta := if conn in connectionMeta then Some(connectionMeta[conn]) else None;
      connectionMeta := connectionMeta - {conn};
      var user := if meta.Some? then meta else sessionUser;
      if user.None? || user.value !in userConnectionMap {
        return;
      }
      userConnectionMap := userConnectionMap[user.value := userConnectionMap[user.value] - {conn}];
      if userConnectionMap[user.value] == {} {
        userConnectionMap := userConnectionMap - {user.value};
        sessionEnds := sessionEnds + 1;
      }
    }

    method GetActiveUserCount() returns (count: nat)
      ensures Agree(Contents()) ==> count == sessionStarts - sessionEnds
    {
      count := |userConnectionMap|;
    }
  }

  // ---------- agreement ----------

  lemma ConnectCounts(index: Index, conn: Conn, user: User)
    requires Counted(index)
    ensures Counted(Connect(index, conn, user))
  {
    var after := Connect(index, conn, user);
    assert conn in after.users[user];
    if user in index.users {
      assert after.users.Keys == index.users.Keys;
    } else {
      assert after.users.Keys == index.users.Keys + {user};
    }
  }

  lemma ConnectReaches(index: Index, conn: Conn, user: User, c: Conn, u: User)
    ensures BoundTo(Connect(index, conn, user), c, u) <==> if c == conn then u == user else BoundTo(index, c, u)
    ensures Among(Connect(index, conn, user), c, u) <==> Among(index, c, u) || (c == conn && u == user)
  {
  }

  /** Binding keeps the indexes in agreement exactly when the connection has no other user already. */
  lemma ConnectKeepsAgreement(index: Index, conn: Conn, user: User)
    requires Agree(index)
    ensures Agree(Connect(index, conn, user)) <==> (conn !in index.meta || index.meta[conn] == user)
  {
    hide Connect, Counted, BoundTo, Among;
    ConnectCounts(index, conn, user);
    var after := Connect(index, conn, user);
    forall c, u
      ensures BoundTo(after, c, u) <==> if c == conn then u == user else BoundTo(index, c, u)
      ensures Among(after, c, u) <==> Among(index, c, u) || (c == conn && u == user)
    {
      ConnectReaches(index, conn, user, c, u);
    }
    OnlyUser(index, conn);
  }

  lemma OnlyUser(index: Index, conn: Conn)
    ensures forall u :: BoundTo(index, conn, u) <==> conn in index.meta && u == index.meta[conn]
    ensures conn in index.meta ==> BoundTo(index, conn, index.meta[conn])
  {
  }

  /** Unbinding always does, whether or not the connection was bound. */
  lemma DisconnectKeepsAgreement(index: Index, conn: Conn, sessionUser: Option<User>)
    requires Agree(index)
    ensures Agree(Disconnect(index, conn, sessionUser))
  {
    hide Agree, TakeFrom;
    var rest := index.(meta := index.meta - {conn});
    if conn in index.meta {
      TakeKeepsAgreement(index, conn, index.meta[conn]);
    } else {
      assert rest == index;
      if sessionUser.Some? {
        TakeFindsNothing(index, conn, sessionUser.value);
      }
    }
  }

  lemma TakeFindsNothing(index: Index, conn: Conn, user: User)
    requires Agree(index) && conn !in index.meta
    ensures TakeFrom(index, conn, user) == index
  {
    assert !BoundTo(index, conn, user);
    if user in index.users {
      assert index.users[user] - {conn} == index.users[user];
      assert index.users[user := index.users[user]] == index.users;
    }
  }

  lemma TakeKeepsAgreement(index: Index, conn: Conn, user: User)
    requires Agree(index) && BoundTo(index, conn, user)
    ensures Agree(TakeFrom(index.(meta := index.meta - {conn}), conn, user))
  {
    hide TakeFrom, Counted, BoundTo, Among;
    var rest := index.(meta := index.meta - {conn});
    var after := TakeFrom(rest, conn, user);
    assert Among(index, conn, user);
    TakeCounts(index, conn, user);
    forall c, u
      ensures BoundTo(after, c, u) <==> BoundTo(index, c, u) && c != conn
      ensures Among(after, c, u) <==> Among(index, c, u) && !(c == conn && u == user)
      ensures BoundTo(index, conn, u) ==> u == user
    {
      TakeReaches(index, conn, user, c, u);
    }
  }

  lemma TakeReaches(index: Index, conn: Conn, user: User, c: Conn, u: User)
    requires BoundTo(index, conn, user)
    ensures
      var after := TakeFrom(index.(meta := index.meta - {conn}), conn, user);
      && (BoundTo(after, c, u) <==> BoundTo(index, c, u) && c != conn)
      && (Among(after, c, u) <==> Among(index, c, u) && !(c == conn && u == user))
    ensures BoundTo(index, conn, u) ==> u == user
  {
    if Among(index, c, u) && u == user && c != conn {
      assert c in index.users[user] - {conn};
    }
  }

  lemma TakeCounts(index: Index, conn: Conn, user: User)
    requires Counted(index) && Among(index, conn, user)
    ensures Counted(TakeFrom(index.(meta := index.meta - {conn}), conn, user))
  {
    var after := TakeFrom(index.(meta := index.meta - {conn}), conn, user);
    if index.users[user] - {conn} == {} {
      assert after.users.Keys == index.users.Keys - {user};
    } else {
      assert after.users.Keys == index.users.Keys;
    }
  }

  // ---------- runs ----------

  predicate Opens(e: Event, conn: Conn) {
    e.Open? && e.conn == conn
  }

  /** The connection was opened without failing, for the first time, and has not been closed since. */
  ghost predicate IsOpen(events: seq<Event>, conn: Conn) {
    exists i :: 0 <= i < |events| && events[i] == Open(conn, false)
                && (forall j :: 0 <= j < i ==> !Opens(events[j], conn))
                && forall j :: i < j < |events| ==> !(events[j].Close? && events[j].conn == conn)
  }

  ghost predicate WasOpened(events: seq<Event>, conn: Conn) {
    exists i :: 0 <= i < |events| && Opens(events[i], conn)
  }

  lemma IsOpenSnoc(before: seq<Event>, e: Event, conn: Conn)
    ensures IsOpen(before + [e], conn) <==>
            || (e == Open(conn, false) && !WasOpened(before, conn))
            || (IsOpen(before, conn) && !(e.Close? && e.conn == conn))
    ensures WasOpened(before + [e], conn) <==> WasOpened(before, conn) || Opens(e, conn)
    ensures IsOpen(before, conn) ==> WasOpened(before, conn)
  {
    var events, n := before + [e], |before|;
    assert events[n] == e && forall i :: 0 <= i < n ==> events[i] == before[i];
    if i :| 0 <= i < n && before[i] == Open(conn, false) && (forall j :: 0 <= j < i ==> !Opens(before[j], conn))
            && forall j :: i < j < n ==> !(before[j].Close? && before[j].conn == conn)
    {
      assert events[i] == Open(conn, false) && Opens(before[i], conn);
    }
    if i :| 0 <= i < n && Opens(before[i], conn) {
      assert Opens(events[i], conn);
    }
  }

  /** The active connections are exactly those that are open. */
  lemma {:induction false} ActiveAreOpen(events: seq<Event>, conn: Conn)
    ensures conn in Run(events).active <==> IsOpen(events, conn)
    ensures conn in Run(events).known <==> WasOpened(events, conn)
    ensures IsOpen(events, conn) ==> conn in Run(events).closable
    decreases |events|
  {
    if events != [] {
      var before, e := events[..|events| - 1], events[|events| - 1];
      ActiveAreOpen(before, conn);
      assert events == before + [e];
      IsOpenSnoc(before, e, conn);
      hide IsOpen, WasOpened, Connect, Disconnect;
    }
  }

  /** The connections whose timer found them already closed, and a user to bind them to. */
  function LateBinds(events: seq<Event>): set<Conn>
    decreases |events|
  {
    if events == [] then {}
    else
      var g, e := Run(events[..|events| - 1]), events[|events| - 1];
      LateBinds(events[..|events| - 1]) +
      if e.Fire? && e.conn in g.timers && e.user.Some? && e.conn !in g.active then {e.conn} else {}
  }

  /** A connection that waits for its timer has not been bound; one that was bound and is not active has
      nothing left to come. */
  ghost predicate Inv(g: Gateway, late: set<Conn>) {
    && Agree(g.index)
    && g.timers <= g.known && g.closable <= g.known && g.active <= g.closable
    && g.index.meta.Keys <= g.known
    && g.timers !! g.index.meta.Keys
    && g.closable * (g.timers + g.index.meta.Keys) <= g.active
    && g.index.meta.Keys - g.active == late
  }

  lemma MetaKeys(index: Index, conn: Conn, user: User, sessionUser: Option<User>)
    ensures Connect(index, conn, user).meta.Keys == index.meta.Keys + {conn}
    ensures Disconnect(index, conn, sessionUser).meta.Keys == index.meta.Keys - {conn}
  {
  }

  lemma StepKeepsInv(g: Gateway, late: set<Conn>, e: Event)
    requires Inv(g, late)
    ensures Inv(Step(g, e),
                late + if e.Fire? && e.conn in g.timers && e.user.Some? && e.conn !in g.active then {e.conn} else {})
  {
    hide Agree, Connect, Disconnect;
    match e
    case Open(c, fails) =>
    case Fire(c, user) =>
      if c in g.timers && user.Some? {
        ConnectKeepsAgreement(g.index, c, user.value);
        MetaKeys(g.index, c, user.value, None);
      }
    case Close(c, sessionUser) =>
      if c in g.closable {
        DisconnectKeepsAgreement(g.index, c, sessionUser);
        MetaKeys(g.index, c, "", sessionUser);
      }
  }

  lemma {:induction false} RunKeepsInv(events: seq<Event>)
    ensures Inv(Run(events), LateBinds(events))
    decreases |events|
  {
    if events != [] {
      RunKeepsInv(events[..|events| - 1]);
      StepKeepsInv(Run(events[..|events| - 1]), LateBinds(events[..|events| - 1]), events[|events| - 1]);
    }
  }

  /** In whatever order connections open, are bound and close, a connection is bound to a user exactly when
      it is among the user's connections, no user is left without one, and the sessions begun and not ended
      are the users. */
  lemma IndexesAgree(events: seq<Event>)
    ensures Agree(Run(events).index)
  {
    RunKeepsInv(events);
  }

  /** The connections counted though they are gone are exactly those bound after they closed; if there are
      none, every user counted has an active connection. */
  lemma StaleExactlyLate(events: seq<Event>)
    ensures Run(events).index.meta.Keys - Run(events).active == LateBinds(events)
    ensures LateBinds(events) == {} ==>
              forall u :: u in Run(events).index.users ==>
                exists c :: c in Run(events).index.users[u] && c in Run(events).active
  {
    RunKeepsInv(events);
    var index := Run(events).index;
    if LateBinds(events) == {} {
      forall u | u in index.users ensures exists c :: c in index.users[u] && c in Run(events).active {
        var c :| c in index.users[u];
        assert Among(index, c, u) && BoundTo(index, c, u);
        assert c in index.meta.Keys;
      }
    }
  }

  /** A connection that closes before its timer fires is then counted for good. */
  lemma LateBindStays(events: seq<Event>, more: seq<Event>)
    ensures LateBinds(events) <= Run(events + more).index.meta.Keys
  {
    LateBindsGrow(events, more);
    StaleExactlyLate(events + more);
  }

  lemma {:induction false} LateBindsGrow(events: seq<Event>, more: seq<Event>)
    ensures LateBinds(events) <= LateBinds(events + more)
    decreases |more|
  {
    if more == [] {
      assert events + more == events;
    } else {
      LateBindsGrow(events, more[..|more| - 1]);
      assert (events + more)[..|events + more| - 1] == events + more[..|more| - 1];
    }
  }

  /** That happens: a connection closes before its timer fires, and its session has a user. Nobody is
      connected then, and the user is counted. */
  lemma ClosedBeforeBound(conn: Conn, user: User)
    ensures
      var events := [Open(conn, false), Close(conn, None), Fire(conn, Some(user))];
      && LateBinds(events) == {conn}
      && Run(events).active == {} && user in Run(events).index.users
  {
    var events := [Open(conn, false), Close(conn, None), Fire(conn, Some(user))];
    var start := Initial();
    var g1 := start.(known := {conn}, closable := {conn}, active := {conn}, timers := {conn});
    var g2 := g1.(closable := {}, active := {});
    assert events[..2] == [Open(conn, false), Close(conn, None)] && events[..2][..1] == [Open(conn, false)];
    assert events[..2][..1][..0] == [];
    assert Run([]) == start;
    assert Run(events[..2][..1]) == Step(start, Open(conn, false)) == g1;
    assert start.index.meta - {conn} == start.index.meta;
    assert Run(events[..2]) == Step(g1, Close(conn, None)) == g2;
    assert LateBinds([]) == {};
    assert LateBinds(events[..2][..1]) == {};
    assert LateBinds(events[..2]) == {};
  }
}

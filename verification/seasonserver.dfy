/**
 * The season broadcast server (`MyTcpServer`).
 *
 * The server accepts up to four clients into a slot table, and on every timer
 * tick sends each tracked client a season name, staggered so that slot `i`
 * gets the name `i` places after the current season, then advances the season.
 * Sockets are opaque numbers and a broadcast is the list of messages it writes.
 */
module SeasonServer {
  import opened Results
  import opened Colours

  /** An accepted socket. */
  type Socket = nat

  /** The size of the slot table, `clients[4]`. */
  const SlotCount := 4

  /**
   * `Stopped` is a server whose `listen` failed: no connection ever arrives
   * and the broadcast timer is never started. A listening server holds the
   * slot table, the number `id` of slots filled and the current season.
   */
  datatype Server =
    | Stopped
    | Listening(clients: seq<Option<Socket>>, id: int, season: int)

  /** One `write` of a broadcast: the slot, its socket and the text sent. */
  datatype Message = Message(slot: nat, socket: Socket, text: string)

  /** The constructor: on a successful `listen`, an empty table with `id` and `season` at 0. */
  function Start(listenOk: bool): (s: Server)
    ensures s.Listening? <==> listenOk
    ensures s.Listening? ==> s.id == 0 && s.season == 0 && Inv(s)
  {
    if listenOk then Listening(seq(SlotCount, _ => None), 0, 0) else Stopped
  }

  /** What holds between events: the first `id` slots are filled, the rest empty, and the season is 0 to 3. */
  predicate Inv(s: Server) {
    s.Listening? ==>
      |s.clients| == SlotCount && 0 <= s.id <= SlotCount && 0 <= s.season < 4 &&
      (forall k :: 0 <= k < |s.clients| ==> (s.clients[k].Some? <==> k < s.id))
  }

  /** `newConnection`: a free slot takes the socket; with all four slots filled the socket is dropped. */
  function NewConnection(s: Server, sock: Socket): (r: Server)
    requires Inv(s)
    ensures Inv(r)
  {
    match s
    case Stopped => Stopped
    case Listening(clients, id, season) =>
      if id < 4 then Listening(clients[id := Some(sock)], id + 1, season) else s
  }

  /** The name `sendSeason` writes for a season number; other numbers write nothing. */
  function SeasonText(n: int): Option<string> {
    if n == 0 then Some(Spring)
    else if n == 1 then Some(Summer)
    else if n == 2 then Some(Autumn)
    else if n == 3 then Some(Winter)
    else None
  }

  /** The loop of `sendSeason` from slot `i`, with `tmp` the season for that slot. */
  function SendFrom(clients: seq<Option<Socket>>, id: int, i: nat, tmp: int): (msgs: seq<Message>)
    requires 0 <= id <= |clients| && i <= id
    requires forall k :: i <= k < id ==> clients[k].Some?
    requires 0 <= tmp < 4
    ensures |msgs| == id - i
    decreases id - i
  {
    if i == id then []
    else
      var written := match SeasonText(tmp) case Some(t) => [Message(i, clients[i].value, t)] case None => [];
      written + SendFrom(clients, id, i + 1, (tmp + 1) % 4)
  }

  /** `sendSeason`: the staggered messages, then the season advanced, wrapping past 3 to 0. */
  function SendSeason(s: Server): (r: (Server, seq<Message>))
    requires Inv(s)
    ensures Inv(r.0)
  {
    match s
    case Stopped => (Stopped, [])
    case Listening(clients, id, season) =>
      var next := if season + 1 > 3 then 0 else season + 1;
      (Listening(clients, id, next), SendFrom(clients, id, 0, season))
  }

  // ---------------------------------------------------------------------------
  // Properties of the server

  /** Slot `k` of the loop started at slot `i` with season `tmp` gets the name `k - i` places after `tmp`. */
  lemma {:induction false} SendFromAt(clients: seq<Option<Socket>>, id: int, i: nat, tmp: int, k: nat)
    requires 0 <= id <= |clients| && i <= k < id
    requires forall k' :: i <= k' < id ==> clients[k'].Some?
    requires 0 <= tmp < 4
    ensures SendFrom(clients, id, i, tmp)[k - i] ==
      Message(k, clients[k].value, SeasonNames[(tmp + (k - i)) % 4])
    decreases id - i
  {
    if k > i {
      SendFromAt(clients, id, i + 1, (tmp + 1) % 4, k);
      assert ((tmp + 1) % 4 + (k - (i + 1))) % 4 == (tmp + (k - i)) % 4;
    }
  }

  /**
   * A broadcast sends exactly one message per tracked slot, in slot order:
   * slot `k` gets season `(season + k) mod 4` on its own socket.
   */
  lemma Broadcast(s: Server)
    requires Inv(s) && s.Listening?
    ensures var msgs := SendSeason(s).1;
      |msgs| == s.id &&
      forall k :: 0 <= k < s.id ==> msgs[k] == Message(k, s.clients[k].value, SeasonNames[(s.season + k) % 4])
  {
    forall k | 0 <= k < s.id
      ensures SendSeason(s).1[k] == Message(k, s.clients[k].value, SeasonNames[(s.season + k) % 4])
    {
      SendFromAt(s.clients, s.id, 0, s.season, k);
    }
  }

  /** Every broadcast advances the season by one modulo 4, with or without clients, and keeps the table. */
  lemma BroadcastAdvances(s: Server)
    requires Inv(s) && s.Listening?
    ensures SendSeason(s).0 == Listening(s.clients, s.id, (s.season + 1) % 4)
  {
  }

  /** Four broadcasts bring the season back to where it was. */
  lemma FourBroadcasts(s: Server)
    requires Inv(s)
    ensures SendSeason(SendSeason(SendSeason(SendSeason(s).0).0).0).0 == s
  {
  }

  /** With three clients from the start: spring, summer, autumn; then summer, autumn, winter. */
  lemma ThreeClients(a: Socket, b: Socket, c: Socket)
    ensures var s := NewConnection(NewConnection(NewConnection(Start(true), a), b), c);
      var (s1, first) := SendSeason(s);
      var (_, second) := SendSeason(s1);
      first == [Message(0, a, Spring), Message(1, b, Summer), Message(2, c, Autumn)] &&
      second == [Message(0, a, Summer), Message(1, b, Autumn), Message(2, c, Winter)]
  {
    var s := NewConnection(NewConnection(NewConnection(Start(true), a), b), c);
    assert s == Listening([Some(a), Some(b), Some(c), None], 3, 0);
    var s1 := SendSeason(s).0;
    assert s1 == Listening([Some(a), Some(b), Some(c), None], 3, 1);
  }

  /** A connection fills the next slot while one is free and changes nothing else; once full it changes nothing. */
  lemma ConnectionSlot(s: Server, sock: Socket)
    requires Inv(s) && s.Listening?
    ensures var r := NewConnection(s, sock);
      if s.id < 4 then
        r.id == s.id + 1 && r.clients[s.id] == Some(sock) && r.season == s.season &&
        forall k :: 0 <= k < 4 && k != s.id ==> r.clients[k] == s.clients[k]
      else r == s
  {
  }

  /** The events the server reacts to. */
  datatype Event = Connect(sock: Socket) | Tick

  /** A run of events, and every message written along it. */
  function Run(s: Server, events: seq<Event>): (r: (Server, seq<Message>))
    requires Inv(s)
    ensures Inv(r.0)
    decreases |events|
  {
    if events == [] then (s, [])
    else
      var (s1, msgs1) := match events[0]
        case Connect(sock) => (NewConnection(s, sock), [])
        case Tick => SendSeason(s);
      var (s2, msgs2) := Run(s1, events[1..]);
      (s2, msgs1 + msgs2)
  }

  /** Along any run, `id` never decreases and a filled slot is never overwritten. */
  lemma {:induction false} RunKeepsSlots(s: Server, events: seq<Event>)
    requires Inv(s) && s.Listening?
    ensures var r := Run(s, events).0;
      r.Listening? && s.id <= r.id &&
      forall k :: 0 <= k < s.id ==> r.clients[k] == s.clients[k]
    decreases |events|
  {
    if events != [] {
      var s1 := match events[0]
        case Connect(sock) => NewConnection(s, sock)
        case Tick => SendSeason(s).0;
      RunKeepsSlots(s1, events[1..]);
    }
  }

  /** Along any run, every message goes to a socket held in a filled slot of the table at the end. */
  lemma {:induction false} RunMessagesTracked(s: Server, events: seq<Event>)
    requires Inv(s) && s.Listening?
    ensures var (r, msgs) := Run(s, events);
      r.Listening? && |r.clients| == SlotCount &&
      forall m :: m in msgs ==> m.slot < r.id && r.clients[m.slot] == Some(m.socket)
    decreases |events|
  {
    if events != [] {
      var (s1, msgs1) := match events[0]
        case Connect(sock) => (NewConnection(s, sock), [])
        case Tick => SendSeason(s);
      RunMessagesTracked(s1, events[1..]);
      RunKeepsSlots(s1, events[1..]);
      if events[0].Tick? {
        Broadcast(s);
      }
    }
  }

  /**
   * Once four clients are tracked, a further socket is never tracked and so
   * never receives anything, whatever events follow.
   */
  lemma FifthClientIgnored(s: Server, events: seq<Event>, sock: Socket)
    requires Inv(s) && s.Listening? && s.id == 4 && Some(sock) !in s.clients
    ensures forall m :: m in Run(s, events).1 ==> m.socket != sock
  {
    RunMessagesTracked(s, events);
    RunFull(s, events);
  }

  /** A full table never changes along a run. */
  lemma {:induction false} RunFull(s: Server, events: seq<Event>)
    requires Inv(s) && s.Listening? && s.id == 4
    ensures Run(s, events).0.Listening? && Run(s, events).0.clients == s.clients && Run(s, events).0.id == 4
    decreases |events|
  {
    if events != [] {
      var s1 := match events[0]
        case Connect(sock) => NewConnection(s, sock)
        case Tick => SendSeason(s).0;
      RunFull(s1, events[1..]);
    }
  }

  /** A server whose `listen` failed ignores every event and sends nothing. */
  lemma {:induction false} StoppedIsInert(events: seq<Event>)
    ensures Run(Stopped, events) == (Stopped, [])
    decreases |events|
  {
    if events != [] {
      StoppedIsInert(events[1..]);
      var none: seq<Message> := [];
      assert NewConnection(Stopped, 0) == Stopped && SendSeason(Stopped) == (Stopped, none);
      assert none + none == none;
      assert Run(Stopped, events) == (Stopped, none + none);
    }
  }
}

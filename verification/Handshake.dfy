/** The negotiation between tracer/protocol/client.go and server.go: two event handlers joined by two FIFO channels. */
module Handshake {
  import opened Types
  import opened Framing

  const PROTOCOL_VERSION: GoString := [49]    // "1"

  /** What the handlers do that can be seen from outside. */
  datatype Action =
    | ServerAccepts(version: GoString)      // the version check passed and the server hello was sent
    | ServerConnected                       // the Connected handler
    | ServerHandles(p: Packet)              // the Symbols and RawFuncLog handlers
    | ServerError
    | ServerStops
    | ClientAccepts(version: GoString)
    | ClientConnected
    | ClientHandles(p: Packet)              // the StartTrace and StopTrace handlers
    | ClientShutdown                        // the Shutdown handler
    | ClientError
    | ClientStops

  // ---------- the two OnEvent functions for a received packet ----------

  function ServerReacts(negotiated: bool, p: Packet): seq<Action> {
    if !negotiated then
      if p.ClientHello? && p.version == PROTOCOL_VERSION then [ServerAccepts(p.version)] else [ServerError, ServerStops]
    else match p
      case Ping => []
      case Symbol(_) => [ServerHandles(p)]
      case RawLog(_) => [ServerHandles(p)]
      case _ => [ServerError, ServerStops]
  }

  function ClientReacts(negotiated: bool, p: Packet): seq<Action> {
    if !negotiated then
      if p.ServerHello? && p.version == PROTOCOL_VERSION then [ClientAccepts(p.version), ClientConnected]
      else [ClientError, ClientStops]
    else match p
      case Ping => []
      case Shutdown => [ClientShutdown, ClientStops]
      case StartTrace(_) => [ClientHandles(p)]
      case StopTrace(_) => [ClientHandles(p)]
      case Symbol(_) => [ClientStops]
      case RawLog(_) => [ClientStops]
      case _ => [ClientError, ClientStops]
  }

  // ---------- what a party owes for the packets it has received ----------

  datatype Party = AtServer | AtClient

  /** The hello that completes the negotiation. */
  predicate Opens(who: Party, p: Packet) {
    match who
    case AtServer => p.ClientHello? && p.version == PROTOCOL_VERSION
    case AtClient => p.ServerHello? && p.version == PROTOCOL_VERSION
  }

  /** The packets a handler of the application is waiting for. */
  predicate HasHandler(who: Party, p: Packet) {
    match who
    case AtServer => p.Symbol? || p.RawLog?
    case AtClient => p.StartTrace? || p.StopTrace?
  }

  /** Where the first such hello stands among the packets received; their number if it has not come. */
  function Opening(who: Party, got: seq<Packet>): nat {
    if got == [] then 0
    else
      var n := |got| - 1;
      var k := Opening(who, got[..n]);
      if k < n || Opens(who, got[n]) then k else n + 1
  }

  /** The packets for the application from place `from` on, in order. */
  function Duty(who: Party, got: seq<Packet>, from: nat): seq<Packet> {
    if |got| <= from then []
    else
      var n := |got| - 1;
      Duty(who, got[..n], from) + if HasHandler(who, got[n]) then [got[n]] else []
  }

  /** A packet that ends the connection: anything but the hello before the negotiation is complete, and after it anything
      but a ping or a packet for the application. */
  predicate Ends(who: Party, negotiated: bool, p: Packet) {
    if negotiated then !p.Ping? && !HasHandler(who, p) else !Opens(who, p)
  }

  /** The actions other than handing a packet over that packet p asks for. A negotiated client stops on a shutdown, a
      symbol table or a call event without reporting an error. */
  predicate Due(who: Party, negotiated: bool, p: Packet, a: Action) {
    match a
    case ServerStops => Ends(who, negotiated, p)
    case ServerError => Ends(who, negotiated, p)
    case ServerAccepts(version) => !negotiated && Opens(who, p) && version == PROTOCOL_VERSION
    case ClientStops => Ends(who, negotiated, p)
    case ClientError => Ends(who, negotiated, p) && !(negotiated && (p.Shutdown? || p.Symbol? || p.RawLog?))
    case ClientShutdown => negotiated && p.Shutdown?
    case ClientAccepts(version) => !negotiated && Opens(who, p) && version == PROTOCOL_VERSION
    case ClientConnected => !negotiated && Opens(who, p)
    case _ => false
  }

  /** Which actions these are. */
  predicate Answer(who: Party, a: Action) {
    match who
    case AtServer => a.ServerStops? || a.ServerError? || a.ServerAccepts?
    case AtClient =>
      a.ClientStops? || a.ClientError? || a.ClientShutdown? || a.ClientAccepts? || a.ClientConnected?
  }

  /** How many of the packets received ask for the action; a stopped party may still take packets. */
  function Owed(who: Party, got: seq<Packet>, a: Action): nat {
    if got == [] then 0
    else
      var n := |got| - 1;
      Owed(who, got[..n], a) + if Due(who, Opening(who, got) < n, got[n], a) then 1 else 0
  }

  /** The packets the application was handed, in order. */
  function HandledBy(who: Party, log: seq<Action>): seq<Packet> {
    if log == [] then [] else HandledBy(who, log[..|log| - 1]) + HandedBy(who, log[|log| - 1])
  }

  function HandedBy(who: Party, a: Action): seq<Packet> {
    if (who.AtServer? && a.ServerHandles?) || (who.AtClient? && a.ClientHandles?) then [a.p] else []
  }

  lemma {:induction false} OpeningIsFirst(who: Party, got: seq<Packet>)
    ensures var k := Opening(who, got);
            k <= |got| && (k < |got| ==> Opens(who, got[k])) && forall i :: 0 <= i < k ==> !Opens(who, got[i])
  {
    if got != [] {
      var n := |got| - 1;
      OpeningIsFirst(who, got[..n]);
      assert forall i :: 0 <= i < n ==> got[..n][i] == got[i];
    }
  }

  /** An action that no packet asks for is not owed. */
  lemma {:induction false} NothingOwed(who: Party, got: seq<Packet>, a: Action)
    requires forall i :: 0 <= i < |got| ==> !Due(who, Opening(who, got) < i, got[i], a)
    ensures Owed(who, got, a) == 0
  {
    if got != [] {
      var n := |got| - 1;
      OpeningIsFirst(who, got[..n]);
      forall i | 0 <= i < n ensures !Due(who, Opening(who, got[..n]) < i, got[..n][i], a) {
        assert !Due(who, Opening(who, got) < i, got[i], a);
      }
      NothingOwed(who, got[..n], a);
    }
  }

  /** The party has done what it owes: the negotiation is complete exactly if the hello has come, the application was
      handed exactly its packets after the hello, each once and in order, and every other action was taken as often as
      packets asked for it. */
  ghost predicate Served(who: Party, negotiated: bool, got: seq<Packet>, log: seq<Action>) {
    forall b {:trigger Shown(b)} :: Shown(b) ==>
      && (negotiated <==> Opening(who, got) < |got|)
      && HandledBy(who, log) == Duty(who, got, Opening(who, got) + 1)
      && forall a :: Answer(who, a) ==> Count(log, a) == Owed(who, got, a)
  }

  /** True of everything: mentioning it opens Served and the histories. */
  predicate Shown(b: bool) {
    true
  }

  lemma HandledByOne(who: Party, log: seq<Action>, a: Action)
    ensures HandledBy(who, log + [a]) == HandledBy(who, log) + HandedBy(who, a)
  {
    assert (log + [a])[..|log|] == log;
  }

  /** What up to two actions hand over. */
  function Handed(who: Party, acts: seq<Action>): seq<Packet>
    requires |acts| <= 2
  {
    if acts == [] then []
    else if |acts| == 1 then HandedBy(who, acts[0])
    else HandedBy(who, acts[0]) + HandedBy(who, acts[1])
  }

  lemma HandledByTwo(who: Party, log: seq<Action>, a: Action, b: Action)
    ensures HandledBy(who, log + [a, b]) == HandledBy(who, log) + HandedBy(who, a) + HandedBy(who, b)
  {
    HandledByOne(who, log, a);
    HandledByOne(who, log + [a], b);
    assert log + [a, b] == log + [a] + [b];
  }

  lemma HandledByAppend(who: Party, log: seq<Action>, acts: seq<Action>)
    requires |acts| <= 2
    ensures HandledBy(who, log + acts) == HandledBy(who, log) + Handed(who, acts)
  {
    if acts == [] {
      assert log + acts == log;
    } else if |acts| == 1 {
      assert acts == [acts[0]];
      HandledByOne(who, log, acts[0]);
    } else {
      assert acts == [acts[0], acts[1]];
      HandledByTwo(who, log, acts[0], acts[1]);
      InTurn(HandledBy(who, log), HandedBy(who, acts[0]), HandedBy(who, acts[1]));
    }
  }

  lemma InTurn<T>(a: seq<T>, b: seq<T>, c: seq<T>)
    ensures a + b + c == a + (b + c)
  {
  }

  function Times(acts: seq<Action>, a: Action): nat
    requires |acts| <= 2
  {
    (if |acts| > 0 && acts[0] == a then 1 else 0) + (if |acts| > 1 && acts[1] == a then 1 else 0)
  }

  /** What one packet p asks for. */
  ghost predicate Asks(who: Party, negotiated: bool, p: Packet, acts: seq<Action>) {
    && |acts| <= 2
    && Handed(who, acts) == (if negotiated && HasHandler(who, p) then [p] else [])
    && forall a :: Answer(who, a) ==> Times(acts, a) == if Due(who, negotiated, p, a) then 1 else 0
  }

  /** How one more packet changes what is owed. */
  lemma OwedNext(who: Party, got: seq<Packet>, p: Packet)
    ensures var open, next := Opening(who, got) < |got|, got + [p];
            && (Opening(who, next) < |next| <==> open || Opens(who, p))
            && (open ==> Opening(who, next) == Opening(who, got))
            && Duty(who, next, Opening(who, next) + 1) ==
               Duty(who, got, Opening(who, got) + 1) + (if open && HasHandler(who, p) then [p] else [])
            && forall a :: Owed(who, next, a) == Owed(who, got, a) + if Due(who, open, p, a) then 1 else 0
  {
    assert (got + [p])[..|got|] == got;
    OpeningIsFirst(who, got);
  }

  /** One more packet and the actions it asks for. */
  lemma ServedNext(who: Party, negotiated: bool, got: seq<Packet>, log: seq<Action>, p: Packet, acts: seq<Action>)
    requires Served(who, negotiated, got, log) && Asks(who, negotiated, p, acts)
    ensures Served(who, negotiated || Opens(who, p), got + [p], log + acts)
  {
    assert Shown(true);
    OwedNext(who, got, p);
    HandledByAppend(who, log, acts);
    forall a | Answer(who, a) ensures Count(log + acts, a) == Owed(who, got + [p], a) {
      CountAppend(log, acts, a);
    }
  }

  /** Actions of the other party, or neither handling nor stopping, change nothing. */
  lemma ServedAside(who: Party, negotiated: bool, got: seq<Packet>, log: seq<Action>, acts: seq<Action>)
    requires Served(who, negotiated, got, log) && |acts| <= 2
    requires Handed(who, acts) == [] && forall a :: a in acts ==> !Answer(who, a)
    ensures Served(who, negotiated, got, log + acts)
  {
    assert Shown(true);
    HandledByAppend(who, log, acts);
    forall a | Answer(who, a) ensures Count(log + acts, a) == Count(log, a) {
      CountNone(log, acts, a);
    }
  }

  lemma ServerAsks(negotiated: bool, p: Packet)
    ensures Asks(AtServer, negotiated, p, ServerReacts(negotiated, p))
    ensures ServerReacts(negotiated, p) == [ServerAccepts(PROTOCOL_VERSION)] <==> !negotiated && Opens(AtServer, p)
    ensures Handed(AtClient, ServerReacts(negotiated, p)) == []
    ensures forall a :: a in ServerReacts(negotiated, p) ==> !Answer(AtClient, a)
  {
  }

  lemma ClientAsks(negotiated: bool, p: Packet)
    ensures Asks(AtClient, negotiated, p, ClientReacts(negotiated, p))
    ensures ClientConnected in ClientReacts(negotiated, p) <==> !negotiated && Opens(AtClient, p)
    ensures Handed(AtServer, ClientReacts(negotiated, p)) == []
    ensures forall a :: a in ClientReacts(negotiated, p) ==> !Answer(AtServer, a)
  {
  }

  lemma ServedMeans(who: Party, negotiated: bool, got: seq<Packet>, log: seq<Action>)
    requires Served(who, negotiated, got, log)
    ensures negotiated <==> Opening(who, got) < |got|
    ensures HandledBy(who, log) == Duty(who, got, Opening(who, got) + 1)
    ensures forall a :: Answer(who, a) ==> Count(log, a) == Owed(who, got, a)
  {
    assert Shown(true);
  }

  /** ServerConn and Client keep one flag each; the handlers are what the functions above say. */
  class ServerConn {
    var isNegotiated: bool
    ghost var log: seq<Action>
    ghost var outbox: seq<Packet>
    ghost var got: seq<Packet>

    constructor ()
      ensures Valid() && !isNegotiated && log == [] && outbox == [] && got == []
    {
      isNegotiated, log, outbox, got := false, [], [], [];
    }

    /** No handler has fired before an accepted hello of the current version; Connected has fired, and the server hello been
        sent, exactly once if negotiated and never otherwise; the packets received are answered as they ask. */
    ghost predicate Valid()
      reads this
    {
      ServerHistory(isNegotiated, log, outbox) && Served(AtServer, isNegotiated, got, log)
    }

    /** EventRecv keeps that history whatever packet arrives. The flag is set only after the server hello has been sent and
        just before Connected fires. */
    method OnRecv(p: Packet)
      requires Valid()
      modifies this
      ensures Valid()
      ensures log == old(log) + ServerReacts(old(isNegotiated), p) +
                     (if isNegotiated && !old(isNegotiated) then [ServerConnected] else [])
      ensures isNegotiated <==> old(isNegotiated) || ServerReacts(old(isNegotiated), p) == [ServerAccepts(PROTOCOL_VERSION)]
      ensures outbox == old(outbox) +
                        (if isNegotiated && !old(isNegotiated) then [ServerHello(PROTOCOL_VERSION)] else [])
      ensures got == old(got) + [p]
    {
      ServerHistoryNext(isNegotiated, log, outbox, p);
      ServerServes(isNegotiated, got, log, p);
      assert forall a: seq<Action> :: a + [] == a;
      assert outbox + [] == outbox;
      got := got + [p];
      if !isNegotiated {
        if !p.ClientHello? || p.version != PROTOCOL_VERSION {
          log := log + [ServerError, ServerStops];
          return;
        }
        outbox, log := outbox + [ServerHello(PROTOCOL_VERSION)], log + [ServerAccepts(p.version)];
        isNegotiated := true;
        log := log + [ServerConnected];
      } else {
        match p {
          case Ping =>
          case Symbol(_) => log := log + [ServerHandles(p)];
          case RawLog(_) => log := log + [ServerHandles(p)];
          case _ => log := log + [ServerError, ServerStops];
        }
      }
    }
  }

  class Client {
    var isNegotiated: bool
    ghost var log: seq<Action>
    ghost var got: seq<Packet>

    ghost predicate Valid()
      reads this
    {
      ClientHistory(isNegotiated, log) && Served(AtClient, isNegotiated, got, log)
    }

    constructor ()
      ensures Valid() && !isNegotiated && log == [] && got == []
    {
      isNegotiated, log, got := false, [], [];
    }

    method OnRecv(p: Packet)
      requires Valid()
      modifies this
      ensures Valid()
      ensures log == old(log) + ClientReacts(old(isNegotiated), p)
      ensures isNegotiated <==> old(isNegotiated) || ClientConnected in ClientReacts(old(isNegotiated), p)
      ensures got == old(got) + [p]
    {
      ClientHistoryNext(isNegotiated, log, p);
      ClientServes(isNegotiated, got, log, p);
      got := got + [p];
      if !isNegotiated {
        if !p.ServerHello? || p.version != PROTOCOL_VERSION {
          log := log + [ClientError, ClientStops];
          return;
        }
        isNegotiated := true;
        log := log + [ClientAccepts(p.version), ClientConnected];
      } else {
        match p {
          case Ping =>
          case Shutdown => log := log + [ClientShutdown, ClientStops];
          case StartTrace(_) => log := log + [ClientHandles(p)];
          case StopTrace(_) => log := log + [ClientHandles(p)];
          case Symbol(_) => log := log + [ClientStops];
          case RawLog(_) => log := log + [ClientStops];
          case _ => log := log + [ClientError, ClientStops];
        }
      }
    }
  }

  // ---------- the two parties together ----------

  /** The server's handler is interruptible between sending its hello and setting its flag. */
  datatype World = World(
    client: bool,               // Client.isNegotiated
    server: bool,               // ServerConn.isNegotiated
    greeting: bool,             // the server hello is sent, the flag not yet set
    toServer: seq<Packet>,
    toClient: seq<Packet>,
    clientSent: seq<Packet>,    // all that was ever put on the way to the server
    serverSent: seq<Packet>,    // all that was ever put on the way to the client
    log: seq<Action>)

  datatype Step =
    | ClientSends(p: Packet)    // the hello of EventConnected, or anything the application sends
    | ServerSends(p: Packet)    // anything the server's application sends
    | ServerReceives
    | ServerGreeted             // the rest of the handler that sent the hello
    | ClientReceives

  const InitWorld := World(false, false, false, [], [], [], [], [])

  /** Applications do not forge the server's hello. Channels are FIFO; a stopped party may still take packets. */
  predicate Enabled(w: World, step: Step) {
    match step
    case ClientSends(_) => true
    case ServerSends(p) => !p.ServerHello?
    case ServerReceives => w.toServer != [] && !w.greeting
    case ServerGreeted => w.greeting
    case ClientReceives => w.toClient != []
  }

  /** Packets are received as the codec delivers them: a shutdown arrives as a ping. */
  function Next(w: World, step: Step): World
    requires Enabled(w, step)
  {
    match step
    case ClientSends(p) => w.(toServer := w.toServer + [p], clientSent := w.clientSent + [p])
    case ServerSends(p) => w.(toClient := w.toClient + [p], serverSent := w.serverSent + [p])
    case ServerReceives =>
      var acts := ServerReacts(w.server, Arrives(w.toServer[0]));
      var greets := acts == [ServerAccepts(PROTOCOL_VERSION)];
      var reply := if greets then [ServerHello(PROTOCOL_VERSION)] else [];
      w.(toServer := w.toServer[1..], log := w.log + acts, greeting := greets,
         toClient := w.toClient + reply, serverSent := w.serverSent + reply)
    case ServerGreeted => w.(greeting := false, server := true, log := w.log + [ServerConnected])
    case ClientReceives =>
      var acts := ClientReacts(w.client, Arrives(w.toClient[0]));
      w.(toClient := w.toClient[1..], log := w.log + acts, client := w.client || ClientConnected in acts)
  }

  ghost predicate Reaches(w: World, steps: seq<Step>, t: World)
    decreases |steps|
  {
    if steps == [] then w == t
    else Enabled(w, steps[0]) && Reaches(Next(w, steps[0]), steps[1..], t)
  }

  function Count(log: seq<Action>, a: Action): nat {
    if log == [] then 0 else Count(log[..|log| - 1], a) + (if log[|log| - 1] == a then 1 else 0)
  }

  /** Every handler action comes after an acceptance of the current version by the same party. */
  ghost predicate HandledAfterAccept(log: seq<Action>) {
    log == [] ||
    (HandledAfterAccept(log[..|log| - 1]) && MayFollow(log[..|log| - 1], log[|log| - 1]))
  }

  predicate MayFollow(log: seq<Action>, a: Action) {
    && (a.ServerHandles? ==> ServerAccepts(PROTOCOL_VERSION) in log)
    && (a.ClientHandles? || a.ClientShutdown? ==> ClientAccepts(PROTOCOL_VERSION) in log)
  }

  /** The same, action by action. */
  lemma {:induction false} HandledMeans(log: seq<Action>, i: nat)
    requires HandledAfterAccept(log) && i < |log|
    ensures MayFollow(log[..i], log[i])
  {
    var n := |log| - 1;
    if i < n {
      HandledMeans(log[..n], i);
      assert log[..n][..i] == log[..i];
    }
  }

  ghost predicate OnlyCurrentVersion(log: seq<Action>) {
    forall i :: 0 <= i < |log| ==>
      && (log[i].ServerAccepts? ==> log[i].version == PROTOCOL_VERSION)
      && (log[i].ClientAccepts? ==> log[i].version == PROTOCOL_VERSION)
      && !log[i].ClientShutdown?
  }

  ghost predicate FlagsOk(w: World) {
    && !(w.server && w.greeting)
    && (w.server || w.greeting ==> ServerAccepts(PROTOCOL_VERSION) in w.log)
    && (w.client ==> ClientAccepts(PROTOCOL_VERSION) in w.log)
    && (w.client ==> w.server || w.greeting)
    && (forall i :: 0 <= i < |w.toClient| && w.toClient[i].ServerHello? ==> w.server || w.greeting)
  }

  ghost predicate OnceOk(w: World) {
    && Count(w.log, ServerConnected) == (if w.server then 1 else 0)
    && Count(w.log, ClientConnected) == (if w.client then 1 else 0)
  }

  ghost predicate Inv(w: World) {
    HandledAfterAccept(w.log) && OnlyCurrentVersion(w.log) && FlagsOk(w) && OnceOk(w)
  }

  lemma CountAppend(log: seq<Action>, acts: seq<Action>, a: Action)
    requires |acts| <= 2
    ensures Count(log + acts, a) ==
            Count(log, a) + (if |acts| > 0 && acts[0] == a then 1 else 0) + (if |acts| > 1 && acts[1] == a then 1 else 0)
  {
    if |acts| == 0 {
      assert log + acts == log;
    } else if |acts| == 1 {
      assert (log + acts)[..|log|] == log;
    } else {
      assert (log + acts)[..|log| + 1] == log + [acts[0]];
      assert (log + [acts[0]])[..|log|] == log;
    }
  }

  lemma HandledOne(log: seq<Action>, a: Action)
    requires HandledAfterAccept(log) && MayFollow(log, a)
    ensures HandledAfterAccept(log + [a])
  {
    assert (log + [a])[..|log|] == log;
  }

  lemma HandledAppend(log: seq<Action>, acts: seq<Action>)
    requires HandledAfterAccept(log) && |acts| <= 2
    requires forall i :: 0 <= i < |acts| ==> MayFollow(log, acts[i])
    ensures HandledAfterAccept(log + acts)
  {
    if |acts| == 0 {
      assert log + acts == log;
    } else {
      HandledOne(log, acts[0]);
      if |acts| == 2 {
        MemberAppend(log, [acts[0]], ServerAccepts(PROTOCOL_VERSION));
        MemberAppend(log, [acts[0]], ClientAccepts(PROTOCOL_VERSION));
        HandledOne(log + [acts[0]], acts[1]);
        assert log + [acts[0]] + [acts[1]] == log + acts;
      } else {
        assert log + [acts[0]] == log + acts;
      }
    }
  }

  /** Every acceptance in the log is of the current version. */
  ghost predicate VersionsOk(log: seq<Action>) {
    forall i :: 0 <= i < |log| ==>
      && (log[i].ServerAccepts? ==> log[i].version == PROTOCOL_VERSION)
      && (log[i].ClientAccepts? ==> log[i].version == PROTOCOL_VERSION)
  }

  /** What one server connection may have done. */
  ghost predicate ServerHistory(negotiated: bool, log: seq<Action>, outbox: seq<Packet>) {
    forall b {:trigger Shown(b)} :: Shown(b) ==>
      && HandledAfterAccept(log) && (negotiated ==> ServerAccepts(PROTOCOL_VERSION) in log)
      && VersionsOk(log)
      && Count(log, ServerConnected) == (if negotiated then 1 else 0)
      && outbox == (if negotiated then [ServerHello(PROTOCOL_VERSION)] else [])
  }

  lemma ServerHistoryNext(negotiated: bool, log: seq<Action>, outbox: seq<Packet>, p: Packet)
    requires ServerHistory(negotiated, log, outbox)
    ensures var acts := ServerReacts(negotiated, p);
            if acts == [ServerAccepts(PROTOCOL_VERSION)] then
              ServerHistory(true, log + acts + [ServerConnected], outbox + [ServerHello(PROTOCOL_VERSION)])
            else ServerHistory(negotiated, log + acts, outbox)
  {
    var acts := ServerReacts(negotiated, p);
    assert Shown(true);
    HandledAppend(log, acts);
    CountAppend(log, acts, ServerConnected);
    if acts == [ServerAccepts(PROTOCOL_VERSION)] {
      ServerGreets(log, outbox);
    } else {
      MemberAppend(log, acts, ServerAccepts(PROTOCOL_VERSION));
    }
  }

  lemma ServerGreets(log: seq<Action>, outbox: seq<Packet>)
    requires ServerHistory(false, log, outbox)
    ensures var acts := [ServerAccepts(PROTOCOL_VERSION)];
            ServerHistory(true, log + acts + [ServerConnected], outbox + [ServerHello(PROTOCOL_VERSION)])
  {
    var accepted := log + [ServerAccepts(PROTOCOL_VERSION)];
    assert Shown(true);
    HandledAppend(log, [ServerAccepts(PROTOCOL_VERSION)]);
    CountAppend(log, [ServerAccepts(PROTOCOL_VERSION)], ServerConnected);
    HandledAppend(accepted, [ServerConnected]);
    CountAppend(accepted, [ServerConnected], ServerConnected);
    assert accepted[|log|] == ServerAccepts(PROTOCOL_VERSION);
    MemberAppend(accepted, [ServerConnected], ServerAccepts(PROTOCOL_VERSION));
  }

  lemma ServerServes(negotiated: bool, got: seq<Packet>, log: seq<Action>, p: Packet)
    requires Served(AtServer, negotiated, got, log)
    ensures var acts := ServerReacts(negotiated, p);
            if acts == [ServerAccepts(PROTOCOL_VERSION)] then
              Served(AtServer, true, got + [p], log + acts + [ServerConnected])
            else Served(AtServer, negotiated, got + [p], log + acts)
  {
    var acts := ServerReacts(negotiated, p);
    ServerAsks(negotiated, p);
    ServedNext(AtServer, negotiated, got, log, p, acts);
    if acts == [ServerAccepts(PROTOCOL_VERSION)] {
      ServedAside(AtServer, true, got + [p], log + acts, [ServerConnected]);
    }
  }

  lemma ClientServes(negotiated: bool, got: seq<Packet>, log: seq<Action>, p: Packet)
    requires Served(AtClient, negotiated, got, log)
    ensures var acts := ClientReacts(negotiated, p);
            Served(AtClient, negotiated || ClientConnected in acts, got + [p], log + acts)
  {
    ClientAsks(negotiated, p);
    ServedNext(AtClient, negotiated, got, log, p, ClientReacts(negotiated, p));
  }

  lemma MemberAppend(log: seq<Action>, acts: seq<Action>, a: Action)
    ensures a in log ==> a in log + acts
  {
  }

  /** What one client may have done. */
  ghost predicate ClientHistory(negotiated: bool, log: seq<Action>) {
    forall b {:trigger Shown(b)} :: Shown(b) ==>
      && HandledAfterAccept(log) && (negotiated ==> ClientAccepts(PROTOCOL_VERSION) in log)
      && VersionsOk(log)
      && Count(log, ClientConnected) == (if negotiated then 1 else 0)
  }

  lemma ClientHistoryNext(negotiated: bool, log: seq<Action>, p: Packet)
    requires ClientHistory(negotiated, log)
    ensures var acts := ClientReacts(negotiated, p); ClientHistory(negotiated || ClientConnected in acts, log + acts)
  {
    var acts := ClientReacts(negotiated, p);
    assert Shown(true);
    HandledAppend(log, acts);
    CountAppend(log, acts, ClientConnected);
    MemberAppend(log, acts, ClientAccepts(PROTOCOL_VERSION));
    if !negotiated && ClientConnected in acts {
      assert (log + acts)[|log|] == ClientAccepts(PROTOCOL_VERSION);
    }
  }

  /** Actions a party may add to the log, given which parties have accepted a hello. */
  ghost predicate Allowed(serverAccepted: bool, clientAccepted: bool, acts: seq<Action>) {
    && |acts| <= 2
    && OnlyCurrentVersion(acts)
    && (forall i :: 0 <= i < |acts| ==>
          (acts[i].ServerHandles? ==> serverAccepted) && (acts[i].ClientHandles? ==> clientAccepted))
  }

  lemma AppendKeeps(log: seq<Action>, acts: seq<Action>, serverAccepted: bool, clientAccepted: bool)
    requires HandledAfterAccept(log) && OnlyCurrentVersion(log) && Allowed(serverAccepted, clientAccepted, acts)
    requires serverAccepted ==> ServerAccepts(PROTOCOL_VERSION) in log
    requires clientAccepted ==> ClientAccepts(PROTOCOL_VERSION) in log
    ensures HandledAfterAccept(log + acts) && OnlyCurrentVersion(log + acts)
  {
    HandledAppend(log, acts);
  }

  lemma ServerActs(w: World, p: Packet)
    ensures Allowed(w.server, w.client, ServerReacts(w.server, p))
    ensures ServerConnected !in ServerReacts(w.server, p) && ClientConnected !in ServerReacts(w.server, p)
  {
  }

  lemma ClientActs(w: World, p: Packet)
    requires !p.Shutdown?
    ensures Allowed(w.server, w.client, ClientReacts(w.client, p)) && ServerConnected !in ClientReacts(w.client, p)
    ensures w.client ==> ClientConnected !in ClientReacts(w.client, p)
    ensures ClientConnected in ClientReacts(w.client, p) ==>
              ClientReacts(w.client, p) == [ClientAccepts(PROTOCOL_VERSION), ClientConnected] && p.ServerHello?
  {
  }

  lemma CountNone(log: seq<Action>, acts: seq<Action>, a: Action)
    requires |acts| <= 2 && a !in acts
    ensures Count(log + acts, a) == Count(log, a)
  {
    CountAppend(log, acts, a);
  }

  lemma ServerReceivesKeeps(w: World)
    requires Inv(w) && Enabled(w, ServerReceives)
    ensures Inv(Next(w, ServerReceives))
  {
    var p := Arrives(w.toServer[0]);
    var acts := ServerReacts(w.server, p);
    ServerActs(w, p);
    AppendKeeps(w.log, acts, w.server, w.client);
    CountNone(w.log, acts, ServerConnected);
    CountNone(w.log, acts, ClientConnected);
    MemberAppend(w.log, acts, ServerAccepts(PROTOCOL_VERSION));
    MemberAppend(w.log, acts, ClientAccepts(PROTOCOL_VERSION));
  }

  lemma ServerGreetedKeeps(w: World)
    requires Inv(w) && Enabled(w, ServerGreeted)
    ensures Inv(Next(w, ServerGreeted))
  {
    AppendKeeps(w.log, [ServerConnected], w.server, w.client);
    CountAppend(w.log, [ServerConnected], ServerConnected);
    CountNone(w.log, [ServerConnected], ClientConnected);
    assert forall a :: a in w.log ==> a in w.log + [ServerConnected];
  }

  lemma ClientReceivesKeeps(w: World)
    requires Inv(w) && Enabled(w, ClientReceives)
    ensures Inv(Next(w, ClientReceives))
  {
    var p := Arrives(w.toClient[0]);
    var acts := ClientReacts(w.client, p);
    ClientActs(w, p);
    AppendKeeps(w.log, acts, w.server, w.client);
    CountNone(w.log, acts, ServerConnected);
    if ClientConnected in acts {
      CountAppend(w.log, acts, ClientConnected);
      assert acts[0] in w.log + acts;
    } else {
      CountNone(w.log, acts, ClientConnected);
    }
    assert forall a :: a in w.log ==> a in w.log + acts;
  }

  lemma StepKeeps(w: World, step: Step)
    requires Inv(w) && Enabled(w, step)
    ensures Inv(Next(w, step))
  {
    match step
    case ServerReceives => ServerReceivesKeeps(w);
    case ServerGreeted => ServerGreetedKeeps(w);
    case ClientReceives => ClientReceivesKeeps(w);
    case ClientSends(_) =>
    case ServerSends(_) =>
  }

  /** In every run: no Symbols, RawFuncLog or trace-command handler fires before its party accepted a hello of the
      current version, Connected fires at most once per side, the client's Shutdown handler never fires, and a
      negotiated client implies a server that is negotiated or about to set its flag. */
  lemma {:induction false} EveryRun(w: World, steps: seq<Step>, t: World)
    requires Inv(w) && Reaches(w, steps, t)
    ensures Inv(t)
    decreases |steps|
  {
    if steps != [] {
      StepKeeps(w, steps[0]);
      EveryRun(Next(w, steps[0]), steps[1..], t);
    }
  }

  lemma FromTheStart(steps: seq<Step>, t: World)
    requires Reaches(InitWorld, steps, t)
    ensures HandledAfterAccept(t.log) && OnlyCurrentVersion(t.log)
    ensures Count(t.log, ServerConnected) <= 1 && Count(t.log, ClientConnected) <= 1
    ensures t.client ==> (t.server <==> !t.greeting)
  {
    EveryRun(InitWorld, steps, t);
  }

  // ---------- every packet received is answered, in every run ----------

  function Arrivals(sent: seq<Packet>): seq<Packet> {
    if sent == [] then [] else Arrivals(sent[..|sent| - 1]) + [Arrives(sent[|sent| - 1])]
  }

  /** What has left the channel, as it arrived. */
  function Received(sent: seq<Packet>, queue: seq<Packet>): seq<Packet>
    requires |queue| <= |sent|
  {
    Arrivals(sent[..|sent| - |queue|])
  }

  /** The channel holds the last of what was sent. */
  ghost predicate Fifo(sent: seq<Packet>, queue: seq<Packet>) {
    |queue| <= |sent| && queue == sent[|sent| - |queue|..]
  }

  lemma Enqueue(sent: seq<Packet>, queue: seq<Packet>, more: seq<Packet>)
    requires Fifo(sent, queue)
    ensures Fifo(sent + more, queue + more) && Received(sent + more, queue + more) == Received(sent, queue)
  {
    var n := |sent| - |queue|;
    assert (sent + more)[..n] == sent[..n];
  }

  lemma Dequeue(sent: seq<Packet>, queue: seq<Packet>)
    requires Fifo(sent, queue) && queue != []
    ensures Fifo(sent, queue[1..])
    ensures Received(sent, queue[1..]) == Received(sent, queue) + [Arrives(queue[0])]
  {
    var n := |sent| - |queue|;
    assert sent[..n + 1][..n] == sent[..n];
  }

  /** One channel and the party at its end. */
  ghost predicate Side(who: Party, negotiated: bool, sent: seq<Packet>, queue: seq<Packet>, log: seq<Action>) {
    forall b {:trigger Opened(b)} :: Opened(b) ==>
      Fifo(sent, queue) && Served(who, negotiated, Received(sent, queue), log)
  }

  /** True of everything: mentioning it opens Side. */
  predicate Opened(b: bool) {
    true
  }

  lemma SideSends(who: Party, negotiated: bool, sent: seq<Packet>, queue: seq<Packet>, log: seq<Action>, more: seq<Packet>)
    requires Side(who, negotiated, sent, queue, log)
    ensures Side(who, negotiated, sent + more, queue + more, log)
  {
    assert Opened(true);
    Enqueue(sent, queue, more);
  }

  lemma SideTakes(who: Party, negotiated: bool, sent: seq<Packet>, queue: seq<Packet>, log: seq<Action>, acts: seq<Action>)
    requires Side(who, negotiated, sent, queue, log) && queue != [] && Asks(who, negotiated, Arrives(queue[0]), acts)
    ensures Side(who, negotiated || Opens(who, Arrives(queue[0])), sent, queue[1..], log + acts)
  {
    assert Opened(true);
    Dequeue(sent, queue);
    ServedNext(who, negotiated, Received(sent, queue), log, Arrives(queue[0]), acts);
  }

  lemma SideAside(who: Party, negotiated: bool, sent: seq<Packet>, queue: seq<Packet>, log: seq<Action>, acts: seq<Action>)
    requires Side(who, negotiated, sent, queue, log) && |acts| <= 2
    requires Handed(who, acts) == [] && forall a :: a in acts ==> !Answer(who, a)
    ensures Side(who, negotiated, sent, queue, log + acts)
  {
    assert Opened(true);
    ServedAside(who, negotiated, Received(sent, queue), log, acts);
  }

  ghost predicate Serving(w: World) {
    && Side(AtServer, w.server || w.greeting, w.clientSent, w.toServer, w.log)
    && Side(AtClient, w.client, w.serverSent, w.toClient, w.log)
  }

  lemma ServerReceivesServes(w: World)
    requires Serving(w) && Enabled(w, ServerReceives)
    ensures Serving(Next(w, ServerReceives))
  {
    var acts := ServerReacts(w.server, Arrives(w.toServer[0]));
    ServerAsks(w.server, Arrives(w.toServer[0]));
    SideTakes(AtServer, w.server, w.clientSent, w.toServer, w.log, acts);
    SideAside(AtClient, w.client, w.serverSent, w.toClient, w.log, acts);
    SideSends(AtClient, w.client, w.serverSent, w.toClient, w.log + acts,
              if acts == [ServerAccepts(PROTOCOL_VERSION)] then [ServerHello(PROTOCOL_VERSION)] else []);
  }

  lemma ClientReceivesServes(w: World)
    requires Serving(w) && Enabled(w, ClientReceives)
    ensures Serving(Next(w, ClientReceives))
  {
    var acts := ClientReacts(w.client, Arrives(w.toClient[0]));
    ClientAsks(w.client, Arrives(w.toClient[0]));
    SideTakes(AtClient, w.client, w.serverSent, w.toClient, w.log, acts);
    SideAside(AtServer, w.server || w.greeting, w.clientSent, w.toServer, w.log, acts);
  }

  lemma ServerGreetedServes(w: World)
    requires Serving(w) && Enabled(w, ServerGreeted)
    ensures Serving(Next(w, ServerGreeted))
  {
    SideAside(AtServer, true, w.clientSent, w.toServer, w.log, [ServerConnected]);
    SideAside(AtClient, w.client, w.serverSent, w.toClient, w.log, [ServerConnected]);
  }

  lemma StepServes(w: World, step: Step)
    requires Serving(w) && Enabled(w, step)
    ensures Serving(Next(w, step))
  {
    match step
    case ServerReceives => ServerReceivesServes(w);
    case ClientReceives => ClientReceivesServes(w);
    case ServerGreeted => ServerGreetedServes(w);
    case ClientSends(p) => SideSends(AtServer, w.server || w.greeting, w.clientSent, w.toServer, w.log, [p]);
    case ServerSends(p) => SideSends(AtClient, w.client, w.serverSent, w.toClient, w.log, [p]);
  }

  lemma InitServes()
    ensures Serving(InitWorld)
  {
  }

  lemma {:induction false} EveryRunServes(w: World, steps: seq<Step>, t: World)
    requires Serving(w) && Reaches(w, steps, t)
    ensures Serving(t)
    decreases |steps|
  {
    if steps != [] {
      StepServes(w, steps[0]);
      EveryRunServes(Next(w, steps[0]), steps[1..], t);
    }
  }

  lemma ReachedServes(steps: seq<Step>, t: World)
    requires Reaches(InitWorld, steps, t)
    ensures Serving(t)
  {
    InitServes();
    EveryRunServes(InitWorld, steps, t);
  }

  /** In every run, of all that was put on the way to a party exactly a beginning has been received, and of that exactly the
      symbols and call events (at the server) or the trace commands (at the client) behind the first hello of the current
      version have reached the application, each once and in order; every other packet but a ping stopped the
      connection. */
  lemma HandledExactly(steps: seq<Step>, t: World)
    requires Reaches(InitWorld, steps, t)
    ensures Fifo(t.clientSent, t.toServer) && Fifo(t.serverSent, t.toClient)
    ensures Served(AtServer, t.server || t.greeting, Received(t.clientSent, t.toServer), t.log)
    ensures Served(AtClient, t.client, Received(t.serverSent, t.toClient), t.log)
  {
    ReachedServes(steps, t);
    assert Opened(true);
  }

  /** A client that greets first and then sends only pings, symbols and call events. */
  predicate Orderly(sent: seq<Packet>) {
    && sent != [] && Opens(AtServer, sent[0])
    && forall i :: 0 < i < |sent| ==> sent[i].Ping? || sent[i].Symbol? || sent[i].RawLog?
  }

  lemma {:induction false} OrderlyArrives(sent: seq<Packet>)
    requires forall i :: 0 <= i < |sent| ==> !sent[i].Shutdown?
    ensures Arrivals(sent) == sent
  {
    if sent != [] {
      OrderlyArrives(sent[..|sent| - 1]);
    }
  }

  lemma OrderlyEndsNowhere(sent: seq<Packet>)
    requires Orderly(sent)
    ensures Owed(AtServer, sent, ServerStops) == 0 && Opening(AtServer, sent) == 0
  {
    OpeningIsFirst(AtServer, sent);
    NothingOwed(AtServer, sent, ServerStops);
  }

  lemma OrderlyServed(negotiated: bool, sent: seq<Packet>, log: seq<Action>)
    requires Orderly(sent) && Served(AtServer, negotiated, Received(sent, []), log)
    ensures HandledBy(AtServer, log) == Duty(AtServer, sent, 1) && Count(log, ServerStops) == 0 && negotiated
  {
    assert sent[..|sent|] == sent;
    OrderlyArrives(sent);
    OrderlyEndsNowhere(sent);
    ServedMeans(AtServer, negotiated, sent, log);
  }

  /** Such a client loses nothing: once its channel is empty, the server's application has been handed every symbol table
      and every call event it sent, in order, and the server never stopped. */
  lemma OrderlyClientIsServed(steps: seq<Step>, t: World)
    requires Reaches(InitWorld, steps, t) && Orderly(t.clientSent) && t.toServer == []
    ensures HandledBy(AtServer, t.log) == Duty(AtServer, t.clientSent, 1)
    ensures Count(t.log, ServerStops) == 0 && (t.server || t.greeting)
  {
    HandledExactly(steps, t);
    OrderlyServed(t.server || t.greeting, t.clientSent, t.log);
  }

  /** The window is real: between the server's hello leaving and its flag being set, the client can be negotiated while
      the server is not. */
  lemma NegotiatedClientFirst(hello: Packet)
    requires hello.ClientHello? && hello.version == PROTOCOL_VERSION
    ensures exists t :: Reaches(InitWorld, [ClientSends(hello), ServerReceives, ClientReceives], t) && t.client && !t.server
  {
    var w1 := Next(InitWorld, ClientSends(hello));
    var w2 := Next(w1, ServerReceives);
    var w3 := Next(w2, ClientReceives);
    assert w3.client && !w3.server;
    assert Reaches(w3, [], w3);
    assert Reaches(w2, [ClientReceives], w3);
    assert Reaches(w1, [ServerReceives, ClientReceives], w3);
  }
}

/**
 The rendezvous of two peers behind NATs (Client.cpp): the connecting side runs XConnect and
 XAsymClient, the listening side XListen and XAsymServer. They exchange messages over two first-in
 first-out channels that the STUNT control server relays. Any action may fail or time out.
 */
module Rendezvous {
  import opened Bytes

  datatype Message = Echo | Address(ip: int) | Port(port: int) | Ready

  datatype Action =
    | SendEcho | ReceiveEcho
    | Predict
    | SendAddress | SendPort | ReceiveAddress | ReceivePort
    | TryConnect     // punches the hole; this attempt must not succeed
    | Rebind         // a new socket on the same local address
    | Listen
    | SendReady | ReceiveReady
    | CheckHairpin
    | Connect | AwaitConnected
    | AwaitAccept

  const CLIENT: seq<Action> := [
    SendEcho, ReceiveEcho, SendEcho,
    Predict, SendAddress, SendPort, ReceiveAddress, ReceivePort,
    TryConnect, Rebind, Listen, SendReady, CheckHairpin, AwaitAccept]

  const SERVER: seq<Action> := [
    ReceiveEcho, SendEcho, ReceiveEcho,
    Predict, SendAddress, SendPort, ReceiveAddress, ReceivePort,
    ReceiveReady, CheckHairpin, Connect, AwaitConnected]

  datatype Status = Working | Connected | Hairpin | Broken

  /**
   One side: the next action, the predicted global address and the local one behind it, the address
   received, the local address a hole was punched from, and the ones its socket is bound to and
   listens on.
   */
  datatype Party = Party(
    pc: nat, status: Status,
    ip: int, port: int, local: int,
    peerIp: int, peerPort: int,
    hole: Option<(int, int, int)>, bound: Option<int>, listening: Option<int>)

  /**
   `dialled` is the address the listening side has connected to; `garbled` that a message was not the
   expected one.
   */
  datatype World = World(client: Party, server: Party, toServer: seq<Message>, toClient: seq<Message>,
                         dialled: Option<(int, int)>, garbled: bool)

  const NEW_PARTY: Party := Party(0, Working, 0, 0, 0, 0, 0, None, None, None)
  const START: World := World(NEW_PARTY, NEW_PARTY, [], [], None, false)

  /** A move of one side: its next action succeeds, with the given prediction if it predicts, or fails. */
  datatype Move = Move(isClient: bool, fails: bool, ip: int, port: int, local: int)

  function Script(isClient: bool): seq<Action> {
    if isClient then CLIENT else SERVER
  }

  function Side(w: World, isClient: bool): Party {
    if isClient then w.client else w.server
  }

  function Inbox(w: World, isClient: bool): seq<Message> {
    if isClient then w.toClient else w.toServer
  }

  function WithSide(w: World, isClient: bool, p: Party): World {
    if isClient then w.(client := p) else w.(server := p)
  }

  function Sent(w: World, isClient: bool, m: Message): World {
    if isClient then w.(toServer := w.toServer + [m]) else w.(toClient := w.toClient + [m])
  }

  function Taken(w: World, isClient: bool): World
    requires Inbox(w, isClient) != []
  {
    if isClient then w.(toClient := w.toClient[1..]) else w.(toServer := w.toServer[1..])
  }

  predicate Receives(a: Action) {
    a in {ReceiveEcho, ReceiveAddress, ReceivePort, ReceiveReady}
  }

  predicate AtWork(w: World, isClient: bool) {
    Side(w, isClient).status == Working && Side(w, isClient).pc < |Script(isClient)|
  }

  /** Whether the next action of a side can succeed. */
  predicate CanSucceed(w: World, isClient: bool)
    requires AtWork(w, isClient)
  {
    var a := Script(isClient)[Side(w, isClient).pc];
    if Receives(a) then Inbox(w, isClient) != []
    else if a == AwaitAccept then w.dialled != None
    else if a == AwaitConnected then w.client.listening != None || w.client.status == Connected
    else true
  }

  /** Storing a received message in the place its reader wants it. */
  function Stored(p: Party, a: Action, m: Message): Option<Party> {
    match (a, m)
    case (ReceiveEcho, Echo) => Some(p)
    case (ReceiveReady, Ready) => Some(p)
    case (ReceiveAddress, Address(ip)) => Some(p.(peerIp := ip))
    case (ReceivePort, Port(port)) => Some(p.(peerPort := port))
    case _ => None
  }

  /** What the next action does when it succeeds. */
  function Act(w: World, mv: Move): World
    requires AtWork(w, mv.isClient) && CanSucceed(w, mv.isClient)
  {
    var c := mv.isClient;
    var a := Script(c)[Side(w, c).pc];
    var p := Side(w, c).(pc := Side(w, c).pc + 1);
    if Receives(a) then
      match Stored(p, a, Inbox(w, c)[0])
      case Some(p') => WithSide(Taken(w, c), c, p')
      case None => WithSide(Taken(w, c), c, p).(garbled := true)
    else
      match a
      case SendEcho => Sent(WithSide(w, c, p), c, Echo)
      case SendAddress => Sent(WithSide(w, c, p), c, Address(p.ip))
      case SendPort => Sent(WithSide(w, c, p), c, Port(p.port))
      case SendReady => Sent(WithSide(w, c, p), c, Ready)
      case Predict => WithSide(w, c, p.(ip := mv.ip, port := mv.port, local := mv.local, bound := Some(mv.local)))
      case TryConnect => WithSide(w, c, p.(hole := Some((p.local, p.peerIp, p.peerPort)), bound := None))
      case Rebind => WithSide(w, c, p.(bound := Some(p.local)))
      case Listen => WithSide(w, c, p.(listening := p.bound))
      case CheckHairpin => WithSide(w, c, if p.ip == p.peerIp then p.(status := Hairpin, listening := None) else p)
      case Connect => WithSide(w, c, p).(dialled := Some((p.peerIp, p.peerPort)))
      case AwaitAccept => WithSide(w, c, p.(status := Connected, listening := None))
      case AwaitConnected => WithSide(w, c, p.(status := Connected))
      case _ => w
  }

  /** A failing action ends the side's work and closes its sockets. */
  function Breaks(w: World, isClient: bool): World {
    WithSide(w, isClient, Side(w, isClient).(status := Broken, bound := None, listening := None))
  }

  predicate Enabled(w: World, mv: Move) {
    AtWork(w, mv.isClient) && (mv.fails || CanSucceed(w, mv.isClient))
  }

  function Next(w: World, mv: Move): World
    requires Enabled(w, mv)
  {
    if mv.fails then Breaks(w, mv.isClient) else Act(w, mv)
  }

  // --------------------------------------------------------------------------- Invariant

  /** Everything the connecting side ever sends. */
  function ClientSends(p: Party): seq<Message> {
    [Echo, Echo, Address(p.ip), Port(p.port), Ready]
  }

  function ServerSends(p: Party): seq<Message> {
    [Echo, Address(p.ip), Port(p.port)]
  }

  // How many messages a side has sent or received when it stands before an action.

  function ClientSentCount(pc: nat): nat {
    if pc == 0 then 0 else if pc <= 2 then 1 else if pc <= 4 then 2 else if pc == 5 then 3 else if pc <= 11 then
        4 else 5
  }

  function ClientReceivedCount(pc: nat): nat {
    if pc <= 1 then 0 else if pc <= 6 then 1 else if pc == 7 then 2 else 3
  }

  function ServerSentCount(pc: nat): nat {
    if pc <= 1 then 0 else if pc <= 4 then 1 else if pc == 5 then 2 else 3
  }

  function ServerReceivedCount(pc: nat): nat {
    if pc == 0 then 0 else if pc <= 2 then 1 else if pc <= 6 then 2 else if pc == 7 then 3 else if pc == 8 then 4 else 5
  }

  /** The channels hold exactly what was sent and not yet received. */
  predicate ChannelsFit(w: World) {
    var c, s := w.client, w.server;
    && ServerReceivedCount(s.pc) <= ClientSentCount(c.pc) <= 5
    && ClientReceivedCount(c.pc) <= ServerSentCount(s.pc) <= 3
    && w.toServer == ClientSends(c)[ServerReceivedCount(s.pc)..ClientSentCount(c.pc)]
    && w.toClient == ServerSends(s)[ClientReceivedCount(c.pc)..ServerSentCount(s.pc)]
  }

  /** What each side has learned is what the other announced. */
  predicate Informed(w: World) {
    var c, s := w.client, w.server;
    && (c.pc > 6 ==> c.peerIp == s.ip)
    && (c.pc > 7 ==> c.peerPort == s.port)
    && (s.pc > 6 ==> s.peerIp == c.ip)
    && (s.pc > 7 ==> s.peerPort == c.port)
  }

  /** The hole, the socket and the verdict of the connecting side. */
  predicate ClientFits(w: World) {
    var c, s := w.client, w.server;
    && c.pc <= |CLIENT|
    && (c.pc > 8 ==> c.hole == Some((c.local, s.ip, s.port)))
    && (c.status == Working && c.pc == 10 ==> c.bound == Some(c.local))
    && (c.status == Working && 10 < c.pc ==> c.listening == Some(c.local))
    && (c.status == Working ==> c.pc < |CLIENT|)
    && (c.pc <= 10 ==> c.listening == None)
    && (c.status == Hairpin ==> c.pc == 13 && c.ip == s.ip)
    && (c.status == Connected ==> c.pc == 14 && w.dialled != None)
    && (c.pc >= 13 && c.status != Hairpin ==> c.ip != s.ip)
  }

  predicate ServerFits(w: World) {
    var c, s := w.client, w.server;
    && s.pc <= |SERVER|
    && (s.status == Working ==> s.pc < |SERVER|)
    && (s.status == Hairpin ==> s.pc == 10 && s.ip == c.ip)
    && (s.status == Connected ==> s.pc == 12)
    && (s.pc >= 10 && s.status != Hairpin ==> s.ip != c.ip)
    && w.dialled == if s.pc > 10 then Some((c.ip, c.port)) else None
  }

  predicate Invariant(w: World) {
    !w.garbled && ChannelsFit(w) && Informed(w) && ClientFits(w) && ServerFits(w)
  }

  lemma StartInvariant()
    ensures Invariant(START)
  {
  }

  // One lemma for each kind of action of each side.

  lemma ClientActions(pc: nat)
    requires pc < |CLIENT|
    ensures Receives(CLIENT[pc]) <==> pc in {1, 6, 7}
    ensures CLIENT[pc] in {SendEcho, SendAddress, SendPort, SendReady} <==> pc in {0, 2, 4, 5, 11}
    ensures CLIENT[pc] in {Predict, TryConnect, Rebind, Listen, CheckHairpin, AwaitAccept} <==>
            pc in {3, 8, 9, 10, 12, 13}
  {
  }

  lemma ServerActions(pc: nat)
    requires pc < |SERVER|
    ensures Receives(SERVER[pc]) <==> pc in {0, 2, 6, 7, 8}
    ensures SERVER[pc] in {SendEcho, SendAddress, SendPort} <==> pc in {1, 4, 5}
    ensures SERVER[pc] in {Predict, CheckHairpin, Connect, AwaitConnected} <==> pc in {3, 9, 10, 11}
  {
  }

  lemma SendExtends(all: seq<Message>, r: nat, k: nat, m: Message)
    requires r <= k < |all| && all[k] == m
    ensures all[r..k] + [m] == all[r..k + 1]
  {
  }

  lemma ReceiveShrinks(all: seq<Message>, r: nat, k: nat)
    requires r <= k <= |all| && all[r..k] != []
    ensures r < k && all[r..k][0] == all[r] && all[r..k][1..] == all[r + 1..k]
  {
  }

  lemma {:induction false} ClientSendKeeps(w: World, mv: Move)
    requires Invariant(w) && mv.isClient && Enabled(w, mv) && !mv.fails && w.client.pc in {0, 2, 4, 5, 11}
    ensures Invariant(Act(w, mv))
  {
    var c, s := w.client, w.server;
    var k := ClientSentCount(c.pc);
    SendExtends(ClientSends(c), ServerReceivedCount(s.pc), k, ClientSends(c)[k]);
  }

  lemma {:induction false} ClientReceiveKeeps(w: World, mv: Move)
    requires Invariant(w) && mv.isClient && Enabled(w, mv) && !mv.fails && w.client.pc in {1, 6, 7}
    ensures Invariant(Act(w, mv))
  {
    var c, s := w.client, w.server;
    ReceiveShrinks(ServerSends(s), ClientReceivedCount(c.pc), ServerSentCount(s.pc));
  }

  /** A prediction comes before anything that depends on it is sent. */
  lemma PredictionIsFirst(p: Party, q: Party, r: nat, k: nat)
    requires r <= k <= 1
    ensures ServerSends(p)[r..k] == ServerSends(q)[r..k]
    ensures ClientSends(p)[r..k] == ClientSends(q)[r..k]
  {
  }

  lemma SecondEchoIsFirst(p: Party, q: Party, r: nat, k: nat)
    requires r <= k <= 2
    ensures ClientSends(p)[r..k] == ClientSends(q)[r..k]
  {
  }

  lemma {:induction false} ClientLocalKeeps(w: World, mv: Move)
    requires Invariant(w) && mv.isClient && Enabled(w, mv) && !mv.fails && w.client.pc in {3, 8, 9, 10, 12, 13}
    ensures Invariant(Act(w, mv))
  {
    var w' := Act(w, mv);
    var c, s := w.client, w.server;
    if c.pc == 3 {
      SecondEchoIsFirst(c, w'.client, ServerReceivedCount(s.pc), ClientSentCount(c.pc));
    }
  }

  lemma {:induction false} ServerSendKeeps(w: World, mv: Move)
    requires Invariant(w) && !mv.isClient && Enabled(w, mv) && !mv.fails && w.server.pc in {1, 4, 5}
    ensures Invariant(Act(w, mv))
  {
    var c, s := w.client, w.server;
    var k := ServerSentCount(s.pc);
    SendExtends(ServerSends(s), ClientReceivedCount(c.pc), k, ServerSends(s)[k]);
  }

  lemma {:induction false} ServerReceiveKeeps(w: World, mv: Move)
    requires Invariant(w) && !mv.isClient && Enabled(w, mv) && !mv.fails && w.server.pc in {0, 2, 6, 7, 8}
    ensures Invariant(Act(w, mv))
  {
    var c, s := w.client, w.server;
    ReceiveShrinks(ClientSends(c), ServerReceivedCount(s.pc), ClientSentCount(c.pc));
  }

  lemma {:induction false} ServerLocalKeeps(w: World, mv: Move)
    requires Invariant(w) && !mv.isClient && Enabled(w, mv) && !mv.fails && w.server.pc in {3, 9, 10, 11}
    ensures Invariant(Act(w, mv))
  {
    var w' := Act(w, mv);
    var c, s := w.client, w.server;
    if s.pc == 3 {
      PredictionIsFirst(s, w'.server, ClientReceivedCount(c.pc), ServerSentCount(s.pc));
    }
  }

  lemma BreakKeeps(w: World, isClient: bool)
    requires Invariant(w) && AtWork(w, isClient)
    ensures Invariant(Breaks(w, isClient))
  {
  }

  lemma {:induction false} NextKeepsInvariant(w: World, mv: Move)
    requires Invariant(w) && Enabled(w, mv)
    ensures Invariant(Next(w, mv))
  {
    hide Invariant, Act, CanSucceed, Breaks;
    if mv.fails {
      BreakKeeps(w, mv.isClient);
    } else if mv.isClient {
      if w.client.pc in {0, 2, 4, 5, 11} {
        ClientSendKeeps(w, mv);
      } else if w.client.pc in {1, 6, 7} {
        ClientReceiveKeeps(w, mv);
      } else {
        ClientLocalKeeps(w, mv);
      }
    } else if w.server.pc in {1, 4, 5} {
      ServerSendKeeps(w, mv);
    } else if w.server.pc in {0, 2, 6, 7, 8} {
      ServerReceiveKeeps(w, mv);
    } else {
      ServerLocalKeeps(w, mv);
    }
  }

  // --------------------------------------------------------------------------- Runs

  /** A run: every move is enabled where it happens. */
  predicate IsRun(w: World, moves: seq<Move>)
    decreases |moves|
  {
    moves != [] ==> Enabled(w, moves[0]) && IsRun(Next(w, moves[0]), moves[1..])
  }

  function After(w: World, moves: seq<Move>): World
    requires IsRun(w, moves)
    decreases |moves|
  {
    if moves == [] then w else After(Next(w, moves[0]), moves[1..])
  }

  lemma {:induction false} RunKeepsInvariant(w: World, moves: seq<Move>)
    requires Invariant(w) && IsRun(w, moves)
    ensures Invariant(After(w, moves))
    decreases |moves|
  {
    hide Invariant, Enabled, Next;
    if moves != [] {
      NextKeepsInvariant(w, moves[0]);
      RunKeepsInvariant(Next(w, moves[0]), moves[1..]);
    }
  }

  /**
   Whenever the listening side is about to connect, in any run with any failures: the connecting side
   has punched a hole towards this side's announced address and has listened on the same local
   address; unless it has failed since, it is still listening there; and the address dialled is the
   one it announced.
   */
  lemma {:induction false} ConnectIsSafe(moves: seq<Move>)
    requires IsRun(START, moves)
    ensures
      var w := After(START, moves);
      AtWork(w, false) && SERVER[w.server.pc] == Connect ==>
        && w.client.pc > 11 && CLIENT[10] == Listen && CLIENT[11] == SendReady
        && w.client.hole == Some((w.client.local, w.server.ip, w.server.port))
        && (w.client.status != Broken ==> w.client.status == Working && w.client.listening == Some(w.client.local))
        && (w.server.peerIp, w.server.peerPort) == (w.client.ip, w.client.port)
  {
    StartInvariant();
    RunKeepsInvariant(START, moves);
  }

  /** Both sides come to the same verdict on the hairpin problem, and take no other message for the one they expect. */
  lemma {:induction false} SameVerdict(moves: seq<Move>)
    requires IsRun(START, moves)
    ensures
      var w := After(START, moves);
      && !w.garbled
      && (w.client.pc > 12 && w.server.pc > 9 ==>
            && (w.client.status == Hairpin <==> w.client.ip == w.server.ip)
            && (w.server.status == Hairpin <==> w.client.ip == w.server.ip))
  {
    StartInvariant();
    RunKeepsInvariant(START, moves);
  }

  predicate Unbroken(w: World) {
    w.client.status != Broken && w.server.status != Broken
  }

  predicate CanGoOn(w: World) {
    (AtWork(w, true) && CanSucceed(w, true)) || (AtWork(w, false) && CanSucceed(w, false))
  }

  /** While nothing has failed, somebody can go on until both sides are done. */
  lemma {:induction false} NoDeadlock(w: World)
    requires Invariant(w) && Unbroken(w)
    ensures CanGoOn(w) || (w.client.status != Working && w.server.status != Working)
  {
    if w.client.status == Working {
      ClientActions(w.client.pc);
    }
    if w.server.status == Working {
      ServerActions(w.server.pc);
    }
  }

  lemma SuccessStep(w: World, mv: Move)
    requires Enabled(w, mv) && !mv.fails && Unbroken(w)
    ensures Unbroken(Next(w, mv))
  {
  }

  lemma {:induction false} SuccessKeepsUnbroken(w: World, moves: seq<Move>)
    requires IsRun(w, moves) && Unbroken(w) && forall i :: 0 <= i < |moves| ==> !moves[i].fails
    ensures Unbroken(After(w, moves))
    decreases |moves|
  {
    hide Next, Enabled;
    if moves != [] {
      SuccessStep(w, moves[0]);
      SuccessKeepsUnbroken(Next(w, moves[0]), moves[1..]);
    }
  }

  /** What is left to do; every move reduces it. */
  function Remaining(w: World): int {
    (if w.client.status == Working then |CLIENT| - w.client.pc else 0) +
    (if w.server.status == Working then |SERVER| - w.server.pc else 0)
  }

  /** A move ends the work of its side or takes it one action further, and leaves the other side as it is. */
  lemma MoveAdvances(w: World, mv: Move)
    requires Enabled(w, mv)
    ensures
      var p, q := Side(w, mv.isClient), Side(Next(w, mv), mv.isClient);
      q.status != Working || q.pc == p.pc + 1
    ensures Side(Next(w, mv), !mv.isClient) == Side(w, !mv.isClient)
  {
  }

  lemma {:induction false} MoveReduces(w: World, mv: Move)
    requires Invariant(w) && Enabled(w, mv)
    ensures 0 <= Remaining(Next(w, mv)) < Remaining(w)
  {
    hide Invariant, Next, CanSucceed;
    NextKeepsInvariant(w, mv);
    MoveAdvances(w, mv);
    NothingLeft(Next(w, mv));
  }

  /** Every run, with or without failures, ends after at most as many moves as the two scripts have actions. */
  lemma {:induction false} RunsEnd(w: World, moves: seq<Move>)
    requires Invariant(w) && IsRun(w, moves)
    ensures |moves| <= Remaining(w)
    decreases |moves|
  {
    hide Invariant, Enabled, Next, Remaining;
    if moves == [] {
      NothingLeft(w);
    } else {
      NextKeepsInvariant(w, moves[0]);
      MoveReduces(w, moves[0]);
      RunsEnd(Next(w, moves[0]), moves[1..]);
    }
  }

  lemma NothingLeft(w: World)
    requires Invariant(w)
    ensures 0 <= Remaining(w)
  {
  }

  /**
   A run without failures or timeouts goes on until both sides are done, within 26 moves: both found
   the hairpin problem if their global addresses agree, and otherwise both are connected, the
   listening side having dialled the announced address through the hole punched for it.
   */
  lemma {:induction false} SuccessfulRun(moves: seq<Move>)
    requires IsRun(START, moves) && forall i :: 0 <= i < |moves| ==> !moves[i].fails
    ensures
      var w := After(START, moves);
      && |moves| <= 26
      && (!CanGoOn(w) ==>
            if w.client.ip == w.server.ip then w.client.status == Hairpin && w.server.status == Hairpin
            else
              && w.client.status == Connected && w.server.status == Connected
              && w.dialled == Some((w.client.ip, w.client.port))
              && w.client.hole == Some((w.client.local, w.server.ip, w.server.port)))
  {
    hide Invariant, After, IsRun, CanGoOn;
    StartInvariant();
    RunKeepsInvariant(START, moves);
    RunsEnd(START, moves);
    SuccessKeepsUnbroken(START, moves);
    if !CanGoOn(After(START, moves)) {
      Outcome(After(START, moves));
    }
  }

  /** Where a run without failures stops. */
  lemma {:induction false} Outcome(w: World)
    requires Invariant(w) && Unbroken(w) && !CanGoOn(w)
    ensures
      if w.client.ip == w.server.ip then w.client.status == Hairpin && w.server.status == Hairpin
      else
        && w.client.status == Connected && w.server.status == Connected
        && w.dialled == Some((w.client.ip, w.client.port))
        && w.client.hole == Some((w.client.local, w.server.ip, w.server.port))
  {
    hide CanGoOn, ChannelsFit;
    NoDeadlock(w);
  }

  /** The connecting side is gone and the other one has not found the connection. */
  predicate ClientGone(w: World) {
    w.client.status == Broken && w.client.listening == None && w.server.status != Connected
  }

  /** The listening side is gone without having dialled. */
  predicate ServerGone(w: World) {
    w.server.status == Broken && w.dialled == None && w.client.status != Connected
  }

  lemma ClientGoneStays(w: World, mv: Move)
    requires Enabled(w, mv) && ClientGone(w)
    ensures ClientGone(Next(w, mv))
  {
  }

  lemma ServerGoneStays(w: World, mv: Move)
    requires Enabled(w, mv) && ServerGone(w)
    ensures ServerGone(Next(w, mv))
  {
  }

  lemma {:induction false} GoneForEver(w: World, moves: seq<Move>)
    requires IsRun(w, moves)
    ensures ClientGone(w) ==> ClientGone(After(w, moves))
    ensures ServerGone(w) ==> ServerGone(After(w, moves))
    decreases |moves|
  {
    hide Enabled, Next, ClientGone, ServerGone;
    if moves != [] {
      if ClientGone(w) {
        ClientGoneStays(w, moves[0]);
      }
      if ServerGone(w) {
        ServerGoneStays(w, moves[0]);
      }
      GoneForEver(Next(w, moves[0]), moves[1..]);
    }
  }

  /**
   A side that fails before the other has what it waits for leaves the other unconnected for ever: the
   listening side while it has not found the connection, the connecting side while nobody has dialled it.
   */
  lemma {:induction false} FailureIsSeen(w: World, mv: Move, moves: seq<Move>)
    requires Enabled(w, mv) && mv.fails && IsRun(Next(w, mv), moves)
    ensures mv.isClient && w.server.status != Connected ==> After(Next(w, mv), moves).server.status != Connected
    ensures !mv.isClient && w.dialled == None && w.client.status != Connected ==>
              After(Next(w, mv), moves).client.status != Connected
  {
    GoneForEver(Next(w, mv), moves);
    hide After, IsRun;
  }
}

/**
 The hole punching manager (stunt_mgr.cpp) as a state machine over its tables: one step for each
 handler, triggered by the tracker (PK), by the STUNT log connection, or by a control socket.
 */
module PunchSteps {
  type Pid = nat
  type Socket = nat

  datatype Address = Address(ip: int, port: int)

  /** What the tracker tells about a peer; `details` stands for the fields that are only copied. */
  datatype Level = Level(pid: Pid, details: int)

  datatype PeerInfo = PeerInfo(pid: Pid, details: int, manifest: int, session: int, isPuncher: bool, ctrl: Address)

  const ZERO_INFO: PeerInfo := PeerInfo(0, 0, 0, 0, false, Address(0, 0))

  datatype Phase = ReceivePeer | ConnectPeer

  datatype CtrlState = CtrlState(phase: Phase, isPuncher: bool, peer: Address)

  /** Why the program stopped: the PAUSE macro ends it. */
  datatype Halt =
    | Running
    | Inconsistent      // a table lookup failed
    | AnnouncedTwice    // a second log message for a peer that is still unknown
    | NetworkFailure    // a connection, an answer or a listening socket failed

  /** `dials` lists the arguments of `ConnectToCTRL` so far. */
  datatype State = State(
    list: seq<Pid>,
    ctrlPid: map<Socket, Pid>,
    pidPeer: map<Pid, Socket>,
    info: map<Pid, PeerInfo>,
    unknown: map<Pid, Address>,
    ctrlState: map<Socket, CtrlState>,
    dials: seq<PeerInfo>,
    halt: Halt)

  const START: State := State([], map[], map[], map[], map[], map[], [], Running)

  /** The sockets the operating system hands out for a dial, unless it fails. */
  datatype Net = Sockets(ctrl: Socket, peer: Socket) | Fails

  /** What comes in on a control socket, and whether the work on the peer socket that follows succeeds. */
  datatype Answer = Received(peer: Address, works: bool) | NoAnswer

  /**
   The events. `blocked` says that the peer module already knows a connection, `junk` is the content of
   uninitialised fields, `reply` the answer of the STUNT server.
   */
  datatype Event =
    | Punch(level: Level, manifest: int, pid: Pid, session: int, blocked: bool, junk: Address, reply: int)
    | Accept(manifest: int, pid: Pid, session: int, net: Net)
    | Log(pid: Pid, ctrl: Address, net: Net)
    | Ctrl(sock: Socket, answer: Answer)

  /** The list without the first occurrence of `pid`. */
  function Without(list: seq<Pid>, pid: Pid): seq<Pid> {
    if list == [] then [] else if list[0] == pid then list[1..] else [list[0]] + Without(list[1..], pid)
  }

  /** `ConnectToCTRL`. */
  function Dial(s: State, info: PeerInfo, net: Net): State {
    var s' := s.(dials := s.dials + [info]);
    match net
    case Fails => s'.(halt := NetworkFailure)
    case Sockets(c, p) =>
      s'.(ctrlPid := s.ctrlPid[c := info.pid], pidPeer := s.pidPeer[info.pid := p],
          ctrlState := s.ctrlState[c := CtrlState(ReceivePeer, info.isPuncher, Address(0, 0))])
  }

  /** The entry a map subscript yields, created with zeros when missing. */
  function InfoOf(s: State, pid: Pid): PeerInfo {
    if pid in s.info then s.info[pid] else ZERO_INFO
  }

  function PunchStep(s: State, e: Event): State
    requires e.Punch?
  {
    if e.pid in s.list then
      if e.pid in s.info then s else s.(halt := Inconsistent)
    else
      var info := PeerInfo(e.level.pid, e.level.details, e.manifest, e.session, true, e.junk);
      var s' := s.(list := s.list + [e.pid], info := s.info[e.pid := info]);
      if !e.blocked && e.reply < 0 then s'.(halt := NetworkFailure) else s'
  }

  function AcceptStep(s: State, e: Event): State
    requires e.Accept?
  {
    if e.pid in s.list then
      if e.pid in s.info then s else s.(halt := Inconsistent)
    else
      var info := InfoOf(s, e.pid).(manifest := e.manifest, session := e.session, isPuncher := false, pid := e.pid);
      if e.pid in s.unknown then
        var info' := info.(ctrl := s.unknown[e.pid]);
        Dial(s.(list := s.list + [e.pid], info := s.info[e.pid := info'], unknown := s.unknown - {e.pid}), info', e.net)
      else s.(list := s.list + [e.pid], info := s.info[e.pid := info])
  }

  function LogStep(s: State, e: Event): State
    requires e.Log?
  {
    if e.pid !in s.info then
      if e.pid in s.unknown then s.(halt := AnnouncedTwice) else s.(unknown := s.unknown[e.pid := e.ctrl])
    else
      var info := s.info[e.pid].(ctrl := e.ctrl);
      Dial(s.(info := s.info[e.pid := info]), info, e.net)
  }

  /** Removes everything about a finished control connection. */
  function Finish(s: State, sock: Socket, pid: Pid): State {
    var s' := s.(ctrlPid := s.ctrlPid - {sock}, pidPeer := s.pidPeer - {pid}, ctrlState := s.ctrlState - {sock},
                 info := s.info - {pid});
    if pid in s.list then s'.(list := Without(s.list, pid)) else s'.(halt := Inconsistent)
  }

  function CtrlStep(s: State, e: Event): State
    requires e.Ctrl?
  {
    if e.sock !in s.ctrlPid then s.(halt := Inconsistent)
    else
      var pid := s.ctrlPid[e.sock];
      if pid !in s.pidPeer || e.sock !in s.ctrlState || pid !in s.info then s.(halt := Inconsistent)
      else
        match e.answer
        case NoAnswer => s.(halt := NetworkFailure)
        case Received(peer, works) =>
          var c := s.ctrlState[e.sock];
          match c.phase
          case ReceivePeer =>
            var s' := s.(ctrlState := s.ctrlState[e.sock := CtrlState(ConnectPeer, c.isPuncher, peer)]);
            if !c.isPuncher then s'
            else if works then Finish(s', e.sock, pid)
            else s'.(halt := NetworkFailure)  // binding, listening or reporting it failed
          case ConnectPeer =>
            if works then Finish(s, e.sock, pid) else s.(halt := NetworkFailure)
  }

  /** One event; nothing happens any more once the program has stopped. */
  function Step(s: State, e: Event): State {
    if s.halt != Running then s
    else
      match e
      case Punch(_, _, _, _, _, _, _) => PunchStep(s, e)
      case Accept(_, _, _, _) => AcceptStep(s, e)
      case Log(_, _, _) => LogStep(s, e)
      case Ctrl(_, _) => CtrlStep(s, e)
  }

  // --------------------------------------------------------------------------- The manager

  /** The manager's own tables, changed in place. */
  class Manager {
    var listPid: seq<Pid>
    var mapCtrlfdPid: map<Socket, Pid>
    var mapPidSpeer: map<Pid, Socket>
    var mapPidPeerInfo: map<Pid, PeerInfo>
    var mapPidPeerInfoUnknown: map<Pid, Address>
    var mapCtrlfdState: map<Socket, CtrlState>
    var dials: seq<PeerInfo>
    var halt: Halt

    function Current(): State
      reads this
    {
      State(listPid, mapCtrlfdPid, mapPidSpeer, mapPidPeerInfo, mapPidPeerInfoUnknown, mapCtrlfdState, dials, halt)
    }

    constructor ()
      ensures Current() == START
    {
      listPid, mapCtrlfdPid, mapPidSpeer, mapPidPeerInfo := [], map[], map[], map[];
      mapPidPeerInfoUnknown, mapCtrlfdState, dials, halt := map[], map[], [], Running;
    }

    method ConnectToCtrl(info: PeerInfo, net: Net)
      modifies this
      ensures Current() == Dial(old(Current()), info, net)
    {
      dials := dials + [info];
      if net.Fails? {
        halt := NetworkFailure;
        return;
      }
      mapCtrlfdPid := mapCtrlfdPid[net.ctrl := info.pid];
      mapPidSpeer := mapPidSpeer[info.pid := net.peer];
      mapCtrlfdState := mapCtrlfdState[net.ctrl := CtrlState(ReceivePeer, info.isPuncher, Address(0, 0))];
    }

    /** 1: nothing was sent; 0: the server was told; the program stops on a negative answer. */
    method TcpPunchConnection(level: Level, manifest: int, peerID: Pid, session: int, blocked: bool, junk: Address,
                              reply: int) returns (code: int)
      requires halt == Running
      modifies this
      ensures Current() == Step(old(Current()), Punch(level, manifest, peerID, session, blocked, junk, reply))
      ensures halt == Running ==> code == if peerID in old(listPid) || blocked then 1 else 0
    {
      if peerID in listPid {
        if peerID !in mapPidPeerInfo {
          halt := Inconsistent;
        }
        return 1;
      }
      listPid := listPid + [peerID];
      mapPidPeerInfo := mapPidPeerInfo[peerID := PeerInfo(level.pid, level.details, manifest, session, true, junk)];
      if blocked {
        return 1;
      }
      if reply < 0 {
        halt := NetworkFailure;
        return -1;
      }
      code := 0;
    }

    method AcceptCheckNat(manifest: int, pid: Pid, session: int, net: Net)
      requires halt == Running
      modifies this
      ensures Current() == Step(old(Current()), Accept(manifest, pid, session, net))
    {
      if pid in listPid {
        if pid !in mapPidPeerInfo {
          halt := Inconsistent;
        }
        return;
      }
      listPid := listPid + [pid];
      if pid in mapPidPeerInfoUnknown {
        var info := if pid in mapPidPeerInfo then mapPidPeerInfo[pid] else ZERO_INFO;
        info := info.(ctrl := mapPidPeerInfoUnknown[pid]);
        info := info.(manifest := manifest);
        info := info.(session := session);
        info := info.(isPuncher := false);
        info := info.(pid := pid);
        mapPidPeerInfo := mapPidPeerInfo[pid := info];
        mapPidPeerInfoUnknown := mapPidPeerInfoUnknown - {pid};
        ConnectToCtrl(info, net);
      } else {
        var info := if pid in mapPidPeerInfo then mapPidPeerInfo[pid] else ZERO_INFO;
        info := info.(manifest := manifest);
        info := info.(session := session);
        info := info.(isPuncher := false);
        info := info.(pid := pid);
        mapPidPeerInfo := mapPidPeerInfo[pid := info];
      }
    }

    /** A message on the log connection. */
    method HandleLog(pid: Pid, ctrl: Address, net: Net)
      requires halt == Running
      modifies this
      ensures Current() == Step(old(Current()), Log(pid, ctrl, net))
    {
      if pid !in mapPidPeerInfo {
        if pid in mapPidPeerInfoUnknown {
          halt := AnnouncedTwice;
          return;
        }
        mapPidPeerInfoUnknown := mapPidPeerInfoUnknown[pid := ctrl];
        return;
      }
      mapPidPeerInfo := mapPidPeerInfo[pid := mapPidPeerInfo[pid].(ctrl := ctrl)];
      ConnectToCtrl(mapPidPeerInfo[pid], net);
    }

    /** A message on a control socket. */
    method HandleCtrl(sock: Socket, answer: Answer)
      requires halt == Running
      modifies this
      ensures Current() == Step(old(Current()), Ctrl(sock, answer))
    {
      if sock !in mapCtrlfdPid {
        halt := Inconsistent;
        return;
      }
      var peerID := mapCtrlfdPid[sock];
      if peerID !in mapPidSpeer || sock !in mapCtrlfdState || peerID !in mapPidPeerInfo {
        halt := Inconsistent;
        return;
      }
      if answer.NoAnswer? {
        halt := NetworkFailure;
        return;
      }
      var state := mapCtrlfdState[sock];
      if state.phase == ReceivePeer {
        mapCtrlfdState := mapCtrlfdState[sock := CtrlState(ConnectPeer, state.isPuncher, answer.peer)];
        if !state.isPuncher {
          return;
        }
      }
      if !answer.works {
        halt := NetworkFailure;
        return;
      }
      Remove(sock, peerID);
    }

    method Remove(sock: Socket, pid: Pid)
      modifies this
      ensures Current() == Finish(old(Current()), sock, pid)
    {
      mapCtrlfdPid := mapCtrlfdPid - {sock};
      mapPidSpeer := mapPidSpeer - {pid};
      mapCtrlfdState := mapCtrlfdState - {sock};
      mapPidPeerInfo := mapPidPeerInfo - {pid};
      var at := 0;
      while at < |listPid| && listPid[at] != pid
        invariant 0 <= at <= |listPid| && forall i :: 0 <= i < at ==> listPid[i] != pid
      {
        at := at + 1;
      }
      WithoutAt(listPid, pid, at);
      if at < |listPid| {
        listPid := listPid[..at] + listPid[at + 1..];
      } else {
        halt := Inconsistent;
      }
    }
  }

  lemma {:induction false} WithoutAt(list: seq<Pid>, pid: Pid, at: nat)
    requires at <= |list| && (forall i :: 0 <= i < at ==> list[i] != pid) && (at < |list| ==> list[at] == pid)
    ensures Without(list, pid) == if at < |list| then list[..at] + list[at + 1..] else list
    decreases |list|
  {
    if list != [] && list[0] != pid {
      var rest := list[1..];
      WithoutAt(rest, pid, at - 1);
      assert list == [list[0]] + rest;
      if at < |list| {
        assert list[..at] == [list[0]] + rest[..at - 1] && list[at + 1..] == rest[at..];
      }
    }
  }
}

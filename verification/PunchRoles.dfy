/**
 Who punches: the role a peer gets when it becomes pending reaches the control sockets dialled for it, and
 decides what the first message on such a socket does.
 */
module PunchRoles {
  import opened PunchSteps
  import opened PunchSafety

  // --------------------------------------------------------------------------- Roles by events

  /** A peer that is not pending becomes so as a puncher by a punching request, and as the other side by a notice. */
  function RolesAfter(roles: map<Pid, bool>, s: State, e: Event): map<Pid, bool> {
    if s.halt == Running && e.Punch? && e.pid !in s.list then roles[e.pid := true]
    else if s.halt == Running && e.Accept? && e.pid !in s.list then roles[e.pid := false]
    else roles
  }

  /** The roles given during a run. */
  function Roles(roles: map<Pid, bool>, s: State, events: seq<Event>): map<Pid, bool>
    decreases |events|
  {
    if events == [] then roles else Roles(RolesAfter(roles, s, events[0]), Step(s, events[0]), events[1..])
  }

  ghost predicate Recorded(s: State, roles: map<Pid, bool>) {
    forall pid :: pid in s.info ==> pid in roles && s.info[pid].isPuncher == roles[pid]
  }

  lemma {:induction false} RecordedStep(s: State, roles: map<Pid, bool>, e: Event)
    requires Recorded(s, roles)
    ensures Recorded(Step(s, e), RolesAfter(roles, s, e))
  {
    hide PunchStep, AcceptStep, LogStep, CtrlStep, Recorded;
    if s.halt == Running {
      match e
      case Punch(_, _, _, _, _, _, _) => PunchRecorded(s, roles, e);
      case Accept(_, _, _, _) => AcceptRecorded(s, roles, e);
      case Log(_, _, _) => LogRecorded(s, roles, e);
      case Ctrl(_, _) => CtrlRecorded(s, roles, e);
    }
  }

  lemma PunchRecorded(s: State, roles: map<Pid, bool>, e: Event)
    requires e.Punch? && Recorded(s, roles) && s.halt == Running
    ensures Recorded(PunchStep(s, e), RolesAfter(roles, s, e))
  {
  }

  lemma LogRecorded(s: State, roles: map<Pid, bool>, e: Event)
    requires e.Log? && Recorded(s, roles) && s.halt == Running
    ensures Recorded(LogStep(s, e), RolesAfter(roles, s, e))
  {
  }

  lemma {:induction false} CtrlRecorded(s: State, roles: map<Pid, bool>, e: Event)
    requires e.Ctrl? && Recorded(s, roles) && s.halt == Running
    ensures Recorded(CtrlStep(s, e), RolesAfter(roles, s, e))
  {
    hide Finish;
    DialFinishInfo();
  }

  lemma {:induction false} AcceptRecorded(s: State, roles: map<Pid, bool>, e: Event)
    requires e.Accept? && Recorded(s, roles) && s.halt == Running
    ensures Recorded(AcceptStep(s, e), RolesAfter(roles, s, e))
  {
    hide Dial;
    DialFinishInfo();
  }

  /** In every run the descriptions carry the roles given by the events. */
  lemma {:induction false} RunRecords(s: State, roles: map<Pid, bool>, events: seq<Event>)
    requires Recorded(s, roles)
    ensures Recorded(Run(s, events), Roles(roles, s, events))
    decreases |events|
  {
    hide Recorded, Step, RolesAfter;
    if events != [] {
      RecordedStep(s, roles, events[0]);
      RunRecords(Step(s, events[0]), RolesAfter(roles, s, events[0]), events[1..]);
    }
  }

  // --------------------------------------------------------------------------- Roles of control sockets

  /** A control socket of a peer with a description has the peer's role. */
  ghost predicate RolesAgree(s: State) {
    forall c :: c in s.ctrlPid && c in s.ctrlState && s.ctrlPid[c] in s.info ==>
      s.ctrlState[c].isPuncher == s.info[s.ctrlPid[c]].isPuncher
  }

  /** A control socket left over from an earlier connection to the peer, with the other role. */
  predicate LeftOver(s: State, pid: Pid, role: bool, c: Socket) {
    c in s.ctrlPid && c in s.ctrlState && s.ctrlPid[c] == pid && s.ctrlState[c].isPuncher != role
  }

  /** The event makes a peer pending while such a socket is there, and does not replace it by dialling. */
  ghost predicate Misassigns(s: State, e: Event) {
    && s.halt == Running && (e.Punch? || e.Accept?) && e.pid !in s.list
    && exists c :: LeftOver(s, e.pid, e.Punch?, c) &&
         !(e.Accept? && e.pid in s.unknown && e.net.Sockets? && e.net.ctrl == c)
  }

  lemma {:induction false} PunchRolesStep(s: State, e: Event)
    requires e.Punch? && s.halt == Running && RolesAgree(s) && Agree(s)
    ensures RolesAgree(PunchStep(s, e)) <==> !Misassigns(s, e)
  {
    var s' := PunchStep(s, e);
    if e.pid !in s.list {
      assert s'.info[e.pid].isPuncher && s'.ctrlPid == s.ctrlPid && s'.ctrlState == s.ctrlState;
      forall c | c in s.ctrlPid && c in s.ctrlState && s.ctrlPid[c] in s'.info
        ensures s'.ctrlState[c].isPuncher == s'.info[s'.ctrlPid[c]].isPuncher <==> !LeftOver(s, e.pid, true, c)
      {
      }
    }
  }

  lemma {:induction false} AcceptRolesStep(s: State, e: Event)
    requires e.Accept? && s.halt == Running && RolesAgree(s) && Agree(s)
    ensures RolesAgree(AcceptStep(s, e)) <==> !Misassigns(s, e)
  {
    var s' := AcceptStep(s, e);
    if e.pid !in s.list {
      AcceptTables(s, e);
      hide AcceptStep, Agree;
      var dialled := e.pid in s.unknown && e.net.Sockets?;
      if Misassigns(s, e) {
        var c :| LeftOver(s, e.pid, e.Punch?, c) && !(dialled && e.net.ctrl == c);
        assert c in s'.ctrlPid && c in s'.ctrlState && s'.ctrlPid[c] == e.pid && s'.ctrlState[c] == s.ctrlState[c];
      } else {
        forall c | c in s'.ctrlPid && c in s'.ctrlState && s'.ctrlPid[c] in s'.info
          ensures s'.ctrlState[c].isPuncher == s'.info[s'.ctrlPid[c]].isPuncher
        {
          assert !(dialled && c == e.net.ctrl) ==> !LeftOver(s, e.pid, e.Punch?, c);
        }
      }
    }
  }

  /** What a notice for a peer that is not pending does to the tables of control sockets. */
  lemma AcceptTables(s: State, e: Event)
    requires e.Accept? && s.halt == Running && Agree(s) && e.pid !in s.list
    ensures
      var s' := AcceptStep(s, e);
      && e.pid in s'.info && !s'.info[e.pid].isPuncher
      && (forall pid :: pid != e.pid ==> (pid in s'.info <==> pid in s.info))
      && (forall pid :: pid != e.pid && pid in s.info ==> s'.info[pid] == s.info[pid])
      && (if e.pid in s.unknown && e.net.Sockets? then
            && s'.ctrlPid == s.ctrlPid[e.net.ctrl := e.pid]
            && s'.ctrlState == s.ctrlState[e.net.ctrl := CtrlState(ReceivePeer, false, Address(0, 0))]
          else s'.ctrlPid == s.ctrlPid && s'.ctrlState == s.ctrlState)
  {
  }

  lemma LogRolesStep(s: State, e: Event)
    requires e.Log? && s.halt == Running && RolesAgree(s) && OwnIds(s.info)
    ensures RolesAgree(LogStep(s, e))
  {
  }

  lemma CtrlRolesStep(s: State, e: Event)
    requires e.Ctrl? && s.halt == Running && RolesAgree(s)
    ensures RolesAgree(CtrlStep(s, e))
  {
  }

  lemma {:induction false} RolesStep(s: State, e: Event)
    requires RolesAgree(s) && Agree(s) && OwnIds(s.info)
    ensures RolesAgree(Step(s, e)) <==> !Misassigns(s, e)
  {
    hide PunchStep, AcceptStep, LogStep, CtrlStep, RolesAgree, Agree, OwnIds, LeftOver;
    if s.halt == Running {
      match e
      case Punch(_, _, _, _, _, _, _) => PunchRolesStep(s, e);
      case Accept(_, _, _, _) => AcceptRolesStep(s, e);
      case Log(_, _, _) => LogRolesStep(s, e);
      case Ctrl(_, _) => CtrlRolesStep(s, e);
    }
  }

  ghost predicate RolesAllAlong(s: State, events: seq<Event>)
    decreases |events|
  {
    RolesAgree(s) && (events != [] ==> RolesAllAlong(Step(s, events[0]), events[1..]))
  }

  ghost predicate NeverMisassigns(s: State, events: seq<Event>)
    decreases |events|
  {
    events != [] ==> !Misassigns(s, events[0]) && NeverMisassigns(Step(s, events[0]), events[1..])
  }

  /**
   While punching requests carry the peer's own id, the roles agree all the way exactly when no peer becomes
   pending in one role with a control socket left over from the other.
   */
  lemma {:induction false} RolesIffNeverMisassigned(s: State, events: seq<Event>)
    requires RolesAgree(s) && Agree(s) && OwnIds(s.info) && forall i :: 0 <= i < |events| ==> Matching(events[i])
    ensures RolesAllAlong(s, events) <==> NeverMisassigns(s, events)
    decreases |events|
  {
    hide RolesAgree, Agree, OwnIds, Step, Misassigns, Matching;
    if events != [] {
      RolesStep(s, events[0]);
      AgreeStep(s, events[0]);
      OwnIdsStep(s, events[0]);
      if RolesAgree(Step(s, events[0])) {
        RolesIffNeverMisassigned(Step(s, events[0]), events[1..]);
      }
    }
  }

  // --------------------------------------------------------------------------- Safe runs

  /** In a linked state every control socket belongs to a pending peer, so that none is left over. */
  lemma {:induction false} LinkedHasNoLeftOver(s: State, e: Event)
    requires Linked(s)
    ensures !Misassigns(s, e)
  {
    if e.Punch? || e.Accept? {
      forall c | c in s.ctrlPid ensures s.ctrlPid[c] in s.list {
        assert s.ctrlPid[c] in s.ctrlPid.Values;
      }
    }
  }

  /** In a safe run whose punching requests carry own ids the roles agree all the way. */
  lemma {:induction false} SafeRunsKeepRoles(s: State, events: seq<Event>)
    requires SafeAllAlong(s, events) && RolesAgree(s) && OwnIds(s.info)
    requires forall i :: 0 <= i < |events| ==> Matching(events[i])
    ensures NeverMisassigns(s, events) && RolesAllAlong(s, events)
    ensures Linked(Run(s, events)) && Run(s, events).halt == Running && RolesAgree(Run(s, events))
    decreases |events|
  {
    hide RolesAgree, OwnIds, Step, Misassigns, Matching, Linked;
    if events != [] {
      assert Agree(s) by {
        LinkedAgrees(s);
      }
      LinkedHasNoLeftOver(s, events[0]);
      RolesStep(s, events[0]);
      OwnIdsStep(s, events[0]);
      SafeRunsKeepRoles(Step(s, events[0]), events[1..]);
    }
  }

  lemma LinkedAgrees(s: State)
    requires Linked(s)
    ensures Agree(s)
  {
  }

  /** What one successful message does to the tables, by the role and the phase of its socket. */
  lemma {:induction false} MessageEffect(s: State, sock: Socket, peer: Address)
    requires Linked(s) && s.halt == Running && sock in s.ctrlPid
    ensures sock in s.ctrlState && s.ctrlPid[sock] in s.list
    ensures
      var pid, s' := s.ctrlPid[sock], Step(s, Ctrl(sock, Received(peer, true)));
      if s.ctrlState[sock].phase == ReceivePeer && !s.ctrlState[sock].isPuncher then
        s' == s.(ctrlState := s.ctrlState[sock := CtrlState(ConnectPeer, false, peer)])
      else
        && s'.halt == Running && s'.unknown == s.unknown && s'.dials == s.dials
        && s'.ctrlPid == s.ctrlPid - {sock} && s'.ctrlState == s.ctrlState - {sock}
        && s'.pidPeer == s.pidPeer - {pid} && s'.info == s.info - {pid}
        && forall x :: x in s'.list <==> x in s.list && x != pid
  {
    hide Finish;
    var pid := s.ctrlPid[sock];
    assert pid in s.ctrlPid.Values;
    assert sock in s.ctrlState;
    MessageStep(s, sock, peer);
    WithoutMembers(s.list, pid);
    FinishTables(s, sock, pid);
  }

  lemma FinishTables(s: State, sock: Socket, pid: Pid)
    requires pid in s.list
    ensures Finish(s, sock, pid) == s.(ctrlPid := s.ctrlPid - {sock}, pidPeer := s.pidPeer - {pid},
                                       ctrlState := s.ctrlState - {sock}, info := s.info - {pid},
                                       list := Without(s.list, pid))
  {
  }

  /**
   In a safe run with own ids, the first message on a control socket that succeeds removes the peer from
   every table exactly when the peer became pending by a punching request, and leaves it waiting to connect
   to the peer address received exactly when it became pending by the tracker's notice.
   */
  lemma {:induction false} FirstMessageByRole(events: seq<Event>, sock: Socket, peer: Address)
    requires SafeAllAlong(START, events) && forall i :: 0 <= i < |events| ==> Matching(events[i])
    requires
      var s := Run(START, events);
      sock in s.ctrlPid && sock in s.ctrlState && s.ctrlState[sock].phase == ReceivePeer
    ensures Run(START, events).ctrlPid[sock] in Roles(map[], START, events)
    ensures
      var s, roles := Run(START, events), Roles(map[], START, events);
      var pid, s' := s.ctrlPid[sock], Step(s, Ctrl(sock, Received(peer, true)));
      && pid in s.list && s'.halt == Running
      && (roles[pid] <==> pid !in s'.list)
      && (roles[pid] <==> pid !in s'.info && pid !in s'.pidPeer && sock !in s'.ctrlPid && sock !in s'.ctrlState)
      && (!roles[pid] <==> s' == s.(ctrlState := s.ctrlState[sock := CtrlState(ConnectPeer, false, peer)]))
  {
    hide Step, Linked, RolesAllAlong, NeverMisassigns, SafeAllAlong, Roles, Run;
    var s, roles := Run(START, events), Roles(map[], START, events);
    SafeRunsKeepRoles(START, events);
    RunRecords(START, map[], events);
    var pid := s.ctrlPid[sock];
    LinkedPending(s, sock);
    assert pid in s.info && s.info[pid].isPuncher == roles[pid];
    MessageEffect(s, sock, peer);
  }

  lemma {:induction false} LinkedPending(s: State, sock: Socket)
    requires Linked(s) && sock in s.ctrlPid
    ensures s.ctrlPid[sock] in s.info && s.ctrlPid[sock] in s.list
  {
    assert s.ctrlPid[sock] in s.ctrlPid.Values;
  }

  /** A left-over socket: a second announcement, the end of the first connection, and the peer in its other role. */
  lemma {:induction false} LeftOverMisassigns(s: State, first: Socket, ctrl: Address, second: Socket, p: Socket,
                                              peer: Address, manifest: int, session: int, net: Net)
    requires Linked(s) && s.halt == Running && RolesAgree(s) && first in s.ctrlPid && second !in s.ctrlPid
    requires var pid := s.ctrlPid[first]; HasOwnId(s, pid) && pid in s.info && s.info[pid].isPuncher
    requires s.ctrlPid[first] !in s.unknown
    ensures
      var pid := s.ctrlPid[first];
      var again := Step(s, Log(pid, ctrl, Sockets(second, p)));
      var finished := Step(again, Ctrl(first, Received(peer, true)));
      Misassigns(finished, Accept(manifest, pid, session, net))
  {
    hide Step, Finish, Linked, RolesAgree, Without, LeftOver;
    var pid := s.ctrlPid[first];
    var again := Step(s, Log(pid, ctrl, Sockets(second, p)));
    RoleOfFirst(s, first);
    SecondDial(s, first, ctrl, second, p);
    SecondRole(s, pid, ctrl, second, p);
    MessageStep(again, first, peer);
    WithoutMembers(s.list, pid);
    FinishTables(again, first, pid);
    StillLeftOver(again, first, second, pid);
    var finished, notice := Step(again, Ctrl(first, Received(peer, true))), Accept(manifest, pid, session, net);
    assert finished == Finish(again, first, pid);
    assert finished.halt == Running && pid !in finished.list && pid !in finished.unknown;
    assert LeftOver(finished, notice.pid, notice.Punch?, second);
  }

  lemma RoleOfFirst(s: State, first: Socket)
    requires Linked(s) && RolesAgree(s) && first in s.ctrlPid && s.ctrlPid[first] in s.info
    ensures first in s.ctrlState && s.ctrlState[first].isPuncher == s.info[s.ctrlPid[first]].isPuncher
    ensures NoDuplicates(s.list) && s.ctrlPid[first] in s.list
  {
  }

  lemma StillLeftOver(s: State, first: Socket, second: Socket, pid: Pid)
    requires pid in s.list && first != second && second in s.ctrlPid && s.ctrlPid[second] == pid
    requires second in s.ctrlState && s.ctrlState[second].isPuncher
    ensures LeftOver(Finish(s, first, pid), pid, false, second)
  {
  }

  lemma SecondRole(s: State, pid: Pid, ctrl: Address, second: Socket, p: Socket)
    requires s.halt == Running && pid in s.info && HasOwnId(s, pid)
    ensures
      var again := Step(s, Log(pid, ctrl, Sockets(second, p)));
      && again.ctrlState == s.ctrlState[second := CtrlState(ReceivePeer, s.info[pid].isPuncher, Address(0, 0))]
      && again.unknown == s.unknown && again.list == s.list
  {
  }

  // --------------------------------------------------------------------------- When the program stops

  /** From a linked state the program stops exactly on a second waiting announcement, an unknown socket or a failure. */
  lemma {:induction false} StopsExactly(s: State, e: Event)
    requires Linked(s) && s.halt == Running
    ensures Step(s, e).halt ==
            match e
            case Punch(_, _, pid, _, blocked, _, reply) =>
              if pid in s.list || blocked || reply >= 0 then Running else NetworkFailure
            case Accept(_, pid, _, net) =>
              if pid !in s.list && pid in s.unknown && net.Fails? then NetworkFailure else Running
            case Log(pid, _, net) =>
              if pid in s.info then (if net.Fails? then NetworkFailure else Running)
              else if pid in s.unknown then AnnouncedTwice else Running
            case Ctrl(sock, answer) =>
              if sock !in s.ctrlPid then Inconsistent
              else if answer.NoAnswer? then NetworkFailure
              else if answer.works || s.ctrlState[sock] == CtrlState(ReceivePeer, false, s.ctrlState[sock].peer)
              then Running else NetworkFailure
  {
    if e.Ctrl? && e.sock in s.ctrlPid {
      LinkedPending(s, e.sock);
      assert s.ctrlPid[e.sock] in s.pidPeer by {
        assert s.ctrlPid[e.sock] in s.ctrlPid.Values;
      }
    }
  }
}

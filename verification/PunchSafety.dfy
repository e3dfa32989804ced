/** What every run of the hole punching manager keeps, and what it needs from its environment. */
module PunchSafety {
  import opened PunchSteps

  // --------------------------------------------------------------------------- Agreement of the tables

  predicate NoDuplicates(list: seq<Pid>) {
    forall i, j :: 0 <= i < j < |list| ==> list[i] != list[j]
  }

  ghost predicate ListMatches(list: seq<Pid>, info: map<Pid, PeerInfo>) {
    NoDuplicates(list) && forall pid :: pid in list <==> pid in info
  }

  /** Only the side that does not punch waits to connect, unless the program stopped as a puncher failed to listen. */
  ghost predicate PhasesFit(s: State) {
    s.halt != NetworkFailure ==>
      forall sock :: sock in s.ctrlState && s.ctrlState[sock].phase == ConnectPeer ==> !s.ctrlState[sock].isPuncher
  }

  ghost predicate OwnIds(info: map<Pid, PeerInfo>) {
    forall pid :: pid in info ==> info[pid].pid == pid
  }

  /** The list and the descriptions agree, and so do the two tables of control sockets. */
  ghost predicate Agree(s: State) {
    ListMatches(s.list, s.info) && s.ctrlPid.Keys == s.ctrlState.Keys && PhasesFit(s)
  }

  /** Every peer socket has a description. */
  ghost predicate Described(s: State) {
    s.pidPeer.Keys <= s.info.Keys
  }

  /** The tracker's description of a peer carries the peer's own id. */
  predicate Matching(e: Event) {
    e.Punch? ==> e.level.pid == e.pid
  }

  function Run(s: State, events: seq<Event>): State
    decreases |events|
  {
    if events == [] then s else Run(Step(s, events[0]), events[1..])
  }

  lemma {:induction false} WithoutMembers(list: seq<Pid>, pid: Pid)
    requires NoDuplicates(list)
    ensures NoDuplicates(Without(list, pid))
    ensures forall x :: x in Without(list, pid) <==> x in list && x != pid
    decreases |list|
  {
    if list != [] {
      var rest := list[1..];
      assert forall i, j :: 0 <= i < j < |rest| ==> rest[i] == list[i + 1] && rest[j] == list[j + 1];
      WithoutMembers(rest, pid);
      assert forall x :: x in list <==> x == list[0] || x in rest;
      assert list[0] !in rest;
    }
  }

  lemma AddedToList(s: State, pid: Pid, info: PeerInfo)
    requires Agree(s) && pid !in s.list
    ensures Agree(s.(list := s.list + [pid], info := s.info[pid := info]))
  {
  }

  lemma InfoChanged(s: State, pid: Pid, info: PeerInfo)
    requires Agree(s) && pid in s.info
    ensures Agree(s.(info := s.info[pid := info]))
  {
  }

  lemma DialKeeps(s: State, info: PeerInfo, net: Net)
    requires Agree(s) && s.halt == Running
    ensures Agree(Dial(s, info, net))
  {
  }

  /** The state stored just before a control connection is finished leaves no trace. */
  lemma {:induction false} FinishForgets(s: State, sock: Socket, pid: Pid, c: CtrlState)
    ensures Finish(s.(ctrlState := s.ctrlState[sock := c]), sock, pid) == Finish(s, sock, pid)
  {
    assert s.ctrlState[sock := c] - {sock} == s.ctrlState - {sock};
  }

  lemma {:induction false} FinishKeeps(s: State, sock: Socket, pid: Pid)
    requires Agree(s) && s.halt == Running
    ensures Agree(Finish(s, sock, pid))
  {
    WithoutMembers(s.list, pid);
  }

  lemma {:induction false} CtrlKeeps(s: State, e: Event)
    requires Agree(s) && s.halt == Running && e.Ctrl?
    ensures Agree(CtrlStep(s, e))
  {
    hide Finish, ListMatches;
    if e.sock in s.ctrlPid && e.answer.Received? {
      var c := s.ctrlState[e.sock];
      FinishKeeps(s, e.sock, s.ctrlPid[e.sock]);
      FinishForgets(s, e.sock, s.ctrlPid[e.sock], CtrlState(ConnectPeer, c.isPuncher, e.answer.peer));
      assert s.ctrlState[e.sock := CtrlState(ConnectPeer, c.isPuncher, e.answer.peer)].Keys == s.ctrlState.Keys;
    }
  }

  /** Agreement does not depend on the fields it does not mention, and outlasts a stop. */
  lemma HaltIsFree()
    ensures forall s: State, h :: s.halt == Running && Agree(s) ==> Agree(s.(halt := h))
    ensures forall s, u :: Agree(s) <==> Agree(s.(unknown := u))
  {
  }

  lemma {:induction false} AgreeStep(s: State, e: Event)
    requires Agree(s)
    ensures Agree(Step(s, e))
  {
    hide Agree, Dial;
    if s.halt == Running {
      HaltIsFree();
      match e
      case Punch(level, manifest, pid, session, _, junk, _) =>
        if pid !in s.list {
          AddedToList(s, pid, PeerInfo(level.pid, level.details, manifest, session, true, junk));
        }
      case Accept(manifest, pid, session, net) =>
        if pid !in s.list {
          var info := InfoOf(s, pid).(manifest := manifest, session := session, isPuncher := false, pid := pid);
          AddedToList(s, pid, info);
          if pid in s.unknown {
            var info' := info.(ctrl := s.unknown[pid]);
            AddedToList(s, pid, info');
            DialKeeps(s.(list := s.list + [pid], info := s.info[pid := info'], unknown := s.unknown - {pid}), info',
                      net);
          }
        }
      case Log(pid, ctrl, net) =>
        if pid in s.info {
          var info := s.info[pid].(ctrl := ctrl);
          InfoChanged(s, pid, info);
          DialKeeps(s.(info := s.info[pid := info]), info, net);
        }
      case Ctrl(_, _) =>
        CtrlKeeps(s, e);
    }
  }

  /** Whatever anybody sends, whatever the network does and however often the server announces, the tables agree. */
  lemma {:induction false} AlwaysAgree(s: State, events: seq<Event>)
    requires Agree(s)
    ensures Agree(Run(s, events))
    decreases |events|
  {
    hide Agree, Step;
    if events != [] {
      AgreeStep(s, events[0]);
      AlwaysAgree(Step(s, events[0]), events[1..]);
    }
  }

  /** In every run. */
  lemma {:induction false} AgreeFromStart(events: seq<Event>)
    ensures Agree(Run(START, events))
  {
    AlwaysAgree(START, events);
  }

  // --------------------------------------------------------------------------- Peer sockets and descriptions

  /**
   The announcement dials for a peer whose description carries the id of another one that has no
   description: the peer socket is filed under that id.
   */
  predicate Misfiles(s: State, e: Event) {
    && s.halt == Running && e.Log? && e.net.Sockets?
    && e.pid in s.info && s.info[e.pid].pid !in s.info
  }

  lemma PunchDescribes(s: State, e: Event)
    requires e.Punch? && Described(s)
    ensures Described(PunchStep(s, e))
  {
  }

  lemma AcceptDescribes(s: State, e: Event)
    requires e.Accept? && Described(s)
    ensures Described(AcceptStep(s, e))
  {
  }

  lemma {:induction false} LogDescribes(s: State, e: Event)
    requires e.Log? && s.halt == Running && Described(s)
    ensures Described(LogStep(s, e)) <==> !Misfiles(s, e)
  {
    if e.pid in s.info {
      var info := s.info[e.pid].(ctrl := e.ctrl);
      assert s.info[e.pid := info].Keys == s.info.Keys;
      assert e.net.Sockets? ==> info.pid in LogStep(s, e).pidPeer;
    }
  }

  lemma CtrlDescribes(s: State, e: Event)
    requires e.Ctrl? && Described(s)
    ensures Described(CtrlStep(s, e))
  {
  }

  lemma {:induction false} DescribedStep(s: State, e: Event)
    requires Described(s)
    ensures Described(Step(s, e)) <==> !Misfiles(s, e)
  {
    hide AcceptStep, LogStep, CtrlStep, Described;
    if s.halt == Running {
      match e
      case Punch(_, _, _, _, _, _, _) =>
        assert Described(PunchStep(s, e)) by {
          PunchDescribes(s, e);
        }
      case Accept(_, _, _, _) => AcceptDescribes(s, e);
      case Log(_, _, _) => LogDescribes(s, e);
      case Ctrl(_, _) => CtrlDescribes(s, e);
    }
  }

  /** All the way through the run, its start and its end included, every peer socket has a description. */
  ghost predicate DescribedAllAlong(s: State, events: seq<Event>)
    decreases |events|
  {
    Described(s) && (events != [] ==> DescribedAllAlong(Step(s, events[0]), events[1..]))
  }

  predicate NeverMisfiles(s: State, events: seq<Event>)
    decreases |events|
  {
    events != [] ==> !Misfiles(s, events[0]) && NeverMisfiles(Step(s, events[0]), events[1..])
  }

  /**
   Every peer socket keeps having a description exactly as long as no announcement meets a description
   with the id of a peer that is not pending.
   */
  lemma {:induction false} DescribedIffNeverMisfiled(s: State, events: seq<Event>)
    requires Described(s)
    ensures DescribedAllAlong(s, events) <==> NeverMisfiles(s, events)
    decreases |events|
  {
    hide Described, Misfiles, Step;
    if events != [] {
      DescribedStep(s, events[0]);
      if Described(Step(s, events[0])) {
        DescribedIffNeverMisfiled(Step(s, events[0]), events[1..]);
      }
    }
  }

  /** Such a run: a punching request whose description carries another id, and the server's announcement. */
  lemma {:induction false} MismatchBreaks(s: State, level: Level, pid: Pid, junk: Address, ctrl: Address, c: Socket,
                                          p: Socket)
    requires s.halt == Running && pid !in s.list && pid !in s.info && level.pid !in s.info && level.pid != pid
    ensures NeverMisfiles(s, [Punch(level, 0, pid, 0, false, junk, 0)])
    ensures
      var punch, log := Punch(level, 0, pid, 0, false, junk, 0), Log(pid, ctrl, Sockets(c, p));
      Misfiles(Step(s, punch), log) && !NeverMisfiles(s, [punch, log]) && !Described(Run(s, [punch, log]))
  {
    var punch, log := Punch(level, 0, pid, 0, false, junk, 0), Log(pid, ctrl, Sockets(c, p));
    var s1 := Step(s, punch);
    assert s1.info == s.info[pid := PeerInfo(level.pid, level.details, 0, 0, true, junk)] && s1.halt == Running;
    assert Step(s1, log).pidPeer == s.pidPeer[level.pid := p] && level.pid !in Step(s1, log).info;
    assert [punch, log][1..] == [log] && [log][1..] == [] && [punch][1..] == [];
    assert Run(s, [punch, log]) == Run(s1, [log]) == Run(Step(s1, log), []) == Step(s1, log);
    assert !NeverMisfiles(s1, [log]);
  }

  // --------------------------------------------------------------------------- Own ids

  lemma {:induction false} OwnIdsStep(s: State, e: Event)
    requires OwnIds(s.info) && Matching(e)
    ensures OwnIds(Step(s, e).info)
  {
    hide Dial, Finish;
    DialFinishInfo();
    if e.Accept? {
      AcceptInfo(s, e);
    }
  }

  lemma DialFinishInfo()
    ensures forall s, info, net :: Dial(s, info, net).info == s.info
    ensures forall s, sock, pid :: Finish(s, sock, pid).info == s.info - {pid}
  {
  }

  lemma AcceptInfo(s: State, e: Event)
    requires e.Accept? && OwnIds(s.info)
    ensures OwnIds(AcceptStep(s, e).info)
  {
  }

  lemma OwnIdsNeverMisfile(s: State, e: Event)
    requires OwnIds(s.info)
    ensures !Misfiles(s, e)
  {
  }

  /**
   While punching requests carry the peer's own id, no announcement misfiles, and every peer socket has
   a description.
   */
  lemma {:induction false} MatchingKeepsDescriptions(s: State, events: seq<Event>)
    requires Described(s) && OwnIds(s.info) && forall i :: 0 <= i < |events| ==> Matching(events[i])
    ensures NeverMisfiles(s, events) && DescribedAllAlong(s, events)
    decreases |events|
  {
    hide Described, Misfiles, Step, Matching, OwnIds;
    if events != [] {
      OwnIdsNeverMisfile(s, events[0]);
      DescribedStep(s, events[0]);
      OwnIdsStep(s, events[0]);
      MatchingKeepsDescriptions(Step(s, events[0]), events[1..]);
    }
  }

  // --------------------------------------------------------------------------- No failing lookup

  ghost predicate Injective(m: map<Socket, Pid>) {
    forall a, b :: a in m && b in m && a != b ==> m[a] != m[b]
  }

  /** Each control socket belongs to its own peer, whose socket and description are there. */
  ghost predicate Linked(s: State) {
    Agree(s) && Described(s) && Injective(s.ctrlPid) && s.ctrlPid.Values == s.pidPeer.Keys
  }

  predicate FreshNet(s: State, net: Net) {
    net.Sockets? && net.ctrl !in s.ctrlPid
  }

  /** What a single event must respect, the server's announcements apart. */
  predicate Expected(s: State, e: Event) {
    match e
    case Punch(_, _, _, _, blocked, _, reply) => blocked || reply >= 0
    case Accept(_, _, _, net) => FreshNet(s, net)
    case Log(_, _, net) => FreshNet(s, net)
    case Ctrl(sock, answer) => sock in s.ctrlPid && answer.Received? && answer.works
  }

  /**
   What an announcement needs: the peer described is pending and has no connection under way; or, before
   the tracker has described the peer, no earlier announcement is waiting.
   */
  predicate Harmless(s: State, pid: Pid) {
    if pid in s.info then s.info[pid].pid in s.info && s.info[pid].pid !in s.pidPeer else pid !in s.unknown
  }

  lemma {:induction false} ValuesAfterAdding(m: map<Socket, Pid>, c: Socket, pid: Pid)
    requires c !in m
    ensures m[c := pid].Values == m.Values + {pid}
    ensures Injective(m) && pid !in m.Values ==> Injective(m[c := pid])
    ensures pid in m.Values ==> !Injective(m[c := pid])
  {
    var m' := m[c := pid];
    forall x | x in m.Values + {pid} ensures x in m'.Values {
      if x in m.Values {
        var a :| a in m && m[a] == x;
        assert m'[a] == x;
      } else {
        assert m'[c] == x;
      }
    }
    forall a | a in m ensures m[a] in m.Values {
    }
    if pid in m.Values {
      var other :| other in m && m[other] == pid;
      assert m'[other] == m'[c];
    }
  }

  lemma {:induction false} DialLinks(s: State, info: PeerInfo, net: Net)
    requires Linked(s) && s.halt == Running && FreshNet(s, net)
    ensures Linked(Dial(s, info, net)) <==> info.pid in s.info && info.pid !in s.pidPeer
    ensures Dial(s, info, net).halt == s.halt
  {
    hide Agree, Injective;
    assert info.pid in Dial(s, info, net).pidPeer;
    DialKeeps(s, info, net);
    ValuesAfterAdding(s.ctrlPid, net.ctrl, info.pid);
  }

  lemma {:induction false} ValuesAfterRemoving(m: map<Socket, Pid>, c: Socket)
    requires Injective(m) && c in m
    ensures (m - {c}).Values == m.Values - {m[c]} && Injective(m - {c})
  {
    var m' := m - {c};
    forall x ensures x in m'.Values <==> x in m.Values && x != m[c] {
      if x in m.Values && x != m[c] {
        var a :| a in m && m[a] == x;
        assert a in m' && m'[a] == x;
      }
      if x in m'.Values {
        var a :| a in m' && m'[a] == x;
        assert a in m && m[a] == x;
      }
    }
  }

  lemma {:induction false} FinishLinks(s: State, sock: Socket)
    requires Linked(s) && sock in s.ctrlPid && s.halt == Running
    ensures s.ctrlPid[sock] in s.pidPeer && s.ctrlPid[sock] in s.info
    ensures Linked(Finish(s, sock, s.ctrlPid[sock])) && Finish(s, sock, s.ctrlPid[sock]).halt == Running
  {
    var pid := s.ctrlPid[sock];
    assert pid in s.ctrlPid.Values;
    FinishKeeps(s, sock, pid);
    ValuesAfterRemoving(s.ctrlPid, sock);
    hide Injective;
  }

  lemma {:induction false} LinkedIsFree()
    ensures forall s: State, h :: s.halt == Running && Linked(s) ==> Linked(s.(halt := h))
    ensures forall s, u :: Linked(s) <==> Linked(s.(unknown := u))
  {
    HaltIsFree();
  }

  lemma {:induction false} LinkedAdded(s: State, pid: Pid, info: PeerInfo)
    requires Linked(s) && pid !in s.list
    ensures pid !in s.pidPeer && pid !in s.info && Linked(s.(list := s.list + [pid], info := s.info[pid := info]))
  {
    AddedToList(s, pid, info);
  }

  /** From a linked state an expected event leads to a linked state and goes on, if it is no announcement. */
  lemma {:induction false} LinkedStep(s: State, e: Event)
    requires Linked(s) && s.halt == Running && Expected(s, e) && !e.Log?
    ensures Linked(Step(s, e)) && Step(s, e).halt == Running
  {
    hide Linked, Dial, Finish;
    LinkedIsFree();
    match e
    case Punch(level, manifest, pid, session, _, junk, _) =>
      if pid in s.list {
        ListedIsKnown(s, pid);
      } else {
        LinkedAdded(s, pid, PeerInfo(level.pid, level.details, manifest, session, true, junk));
      }
    case Accept(manifest, pid, session, net) =>
      if pid in s.list {
        ListedIsKnown(s, pid);
      } else {
        var info := InfoOf(s, pid).(manifest := manifest, session := session, isPuncher := false, pid := pid);
        LinkedAdded(s, pid, info);
        if pid in s.unknown {
          var info' := info.(ctrl := s.unknown[pid]);
          LinkedAdded(s, pid, info');
          DialLinks(s.(list := s.list + [pid], info := s.info[pid := info'], unknown := s.unknown - {pid}), info', net);
        }
      }
    case Ctrl(sock, answer) =>
      LinkedCtrl(s, sock, answer.peer);
  }

  lemma ListedIsKnown(s: State, pid: Pid)
    requires Linked(s)
    ensures pid in s.list <==> pid in s.info
  {
  }

  lemma {:induction false} LinkedCtrl(s: State, sock: Socket, peer: Address)
    requires Linked(s) && s.halt == Running && sock in s.ctrlPid
    ensures var s' := CtrlStep(s, Ctrl(sock, Received(peer, true))); Linked(s') && s'.halt == Running
  {
    hide Finish;
    FinishLinks(s, sock);
    assert sock in s.ctrlState;
    var c := s.ctrlState[sock];
    FinishForgets(s, sock, s.ctrlPid[sock], CtrlState(ConnectPeer, c.isPuncher, peer));
    if c.phase == ReceivePeer && !c.isPuncher {
      var s' := s.(ctrlState := s.ctrlState[sock := CtrlState(ConnectPeer, false, peer)]);
      assert s'.ctrlState.Keys == s.ctrlState.Keys;
      assert Agree(s');
    }
  }

  /** From a linked state an announcement leads to a linked state and goes on exactly when it is harmless. */
  lemma {:induction false} AnnouncementStep(s: State, pid: Pid, ctrl: Address, net: Net)
    requires Linked(s) && s.halt == Running && FreshNet(s, net)
    ensures
      var s' := Step(s, Log(pid, ctrl, net));
      Linked(s') && s'.halt == Running <==> Harmless(s, pid)
  {
    hide Linked, Dial;
    LinkedIsFree();
    if pid in s.info {
      var info := s.info[pid].(ctrl := ctrl);
      LinkedInfo(s, pid, ctrl);
      DialLinks(s.(info := s.info[pid := info]), info, net);
    }
  }

  lemma LinkedPeers(s: State, pid: Pid)
    requires Linked(s)
    ensures pid in s.pidPeer ==> pid in s.info
  {
  }

  lemma {:induction false} LinkedInfo(s: State, pid: Pid, ctrl: Address)
    requires Linked(s) && pid in s.info
    ensures Linked(s.(info := s.info[pid := s.info[pid].(ctrl := ctrl)]))
  {
    InfoChanged(s, pid, s.info[pid].(ctrl := ctrl));
  }

  /** All along the run the program goes on, and control sockets and peers correspond. */
  ghost predicate SafeAllAlong(s: State, events: seq<Event>)
    decreases |events|
  {
    Linked(s) && s.halt == Running && (events != [] ==> SafeAllAlong(Step(s, events[0]), events[1..]))
  }

  predicate ExpectedRun(s: State, events: seq<Event>)
    decreases |events|
  {
    events != [] ==> Expected(s, events[0]) && ExpectedRun(Step(s, events[0]), events[1..])
  }

  predicate AnnouncementsHarmless(s: State, events: seq<Event>)
    decreases |events|
  {
    events != [] ==>
      (events[0].Log? ==> Harmless(s, events[0].pid)) && AnnouncementsHarmless(Step(s, events[0]), events[1..])
  }

  /**
   With fresh sockets and working servers a run is safe all along exactly when every announcement in it
   is harmless.
   */
  lemma {:induction false} SafeIffHarmless(s: State, events: seq<Event>)
    requires Linked(s) && s.halt == Running && ExpectedRun(s, events)
    ensures SafeAllAlong(s, events) <==> AnnouncementsHarmless(s, events)
    decreases |events|
  {
    hide Linked, Step, Expected, Harmless;
    if events != [] {
      var e, s' := events[0], Step(s, events[0]);
      assert Linked(s') && s'.halt == Running <==> (e.Log? ==> Harmless(s, e.pid)) by {
        ExpectedStep(s, e);
      }
      if Linked(s') && s'.halt == Running {
        SafeIffHarmless(s', events[1..]);
      }
    }
  }

  lemma {:induction false} ExpectedStep(s: State, e: Event)
    requires Linked(s) && s.halt == Running && Expected(s, e)
    ensures Linked(Step(s, e)) && Step(s, e).halt == Running <==> (e.Log? ==> Harmless(s, e.pid))
  {
    hide Linked, Step, Harmless;
    if e.Log? {
      AnnouncementStep(s, e.pid, e.ctrl, e.net);
    } else {
      LinkedStep(s, e);
    }
  }

  // --------------------------------------------------------------------------- Runs with one announcement each

  /** A peer is pending from its first mention until its control connection is finished. */
  predicate Pending(s: State, pid: Pid) {
    pid in s.info || pid in s.unknown
  }

  /** The peers announced since they became pending, once `e` has led to `s'`. */
  function Announced(announced: set<Pid>, e: Event, s': State): set<Pid> {
    set pid | pid in announced + (if e.Log? then {e.pid} else {}) && Pending(s', pid)
  }

  /**
   A run in which every event is as expected, punching requests carry the peer's own id, and the server
   announces each pending peer once.
   */
  predicate OrderlyRun(s: State, announced: set<Pid>, events: seq<Event>)
    decreases |events|
  {
    events != [] ==>
      && Expected(s, events[0]) && Matching(events[0])
      && (events[0].Log? ==> events[0].pid !in announced)
      && OrderlyRun(Step(s, events[0]), Announced(announced, events[0], Step(s, events[0])), events[1..])
  }

  /** Connections under way and waiting announcements have been announced. */
  ghost predicate Accounted(s: State, announced: set<Pid>) {
    s.pidPeer.Keys <= announced && s.unknown.Keys <= announced
  }

  lemma {:induction false} AccountedStep(s: State, announced: set<Pid>, e: Event)
    requires Linked(s) && s.halt == Running && Accounted(s, announced) && OwnIds(s.info)
    requires Expected(s, e) && Matching(e) && (e.Log? ==> e.pid !in announced)
    ensures var s' := Step(s, e);
            Linked(s') && s'.halt == Running && OwnIds(s'.info) &&
            Accounted(s', Announced(announced, e, s'))
  {
    hide Linked, Finish;
    var s' := Step(s, e);
    OwnIdsStep(s, e);
    ExpectedStep(s, e);
    forall pid | pid in s'.pidPeer || pid in s'.unknown ensures pid in Announced(announced, e, s') {
      LinkedPeers(s', pid);
      PeersGrow(s, e, pid);
    }
  }

  /** Dialling adds one peer socket at most, finishing adds none; neither adds a waiting announcement. */
  lemma PeersOfDialAndFinish(s: State, info: PeerInfo, net: Net, sock: Socket, pid: Pid)
    ensures Dial(s, info, net).pidPeer.Keys <= s.pidPeer.Keys + {info.pid} && Dial(s, info, net).unknown == s.unknown
    ensures Finish(s, sock, pid).pidPeer.Keys <= s.pidPeer.Keys && Finish(s, sock, pid).unknown == s.unknown
  {
  }

  lemma {:induction false} AcceptPeers(s: State, e: Event)
    requires e.Accept? && Linked(s)
    ensures AcceptStep(s, e).pidPeer.Keys <= s.pidPeer.Keys + s.unknown.Keys
    ensures AcceptStep(s, e).unknown.Keys <= s.unknown.Keys
  {
    hide Linked, Dial;
    if e.pid !in s.list && e.pid in s.unknown {
      var info := InfoOf(s, e.pid).(manifest := e.manifest, session := e.session, isPuncher := false, pid := e.pid,
                                    ctrl := s.unknown[e.pid]);
      var s' := s.(list := s.list + [e.pid], info := s.info[e.pid := info], unknown := s.unknown - {e.pid});
      PeersOfDialAndFinish(s', info, e.net, 0, 0);
    }
  }

  lemma {:induction false} LogPeers(s: State, e: Event)
    requires e.Log? && OwnIds(s.info)
    ensures LogStep(s, e).pidPeer.Keys <= s.pidPeer.Keys + {e.pid}
    ensures LogStep(s, e).unknown.Keys <= s.unknown.Keys + {e.pid}
  {
    hide Linked, Dial;
    if e.pid in s.info {
      var info := s.info[e.pid].(ctrl := e.ctrl);
      PeersOfDialAndFinish(s.(info := s.info[e.pid := info]), info, e.net, 0, 0);
    }
  }

  lemma {:induction false} CtrlPeers(s: State, e: Event)
    requires e.Ctrl?
    ensures CtrlStep(s, e).pidPeer.Keys <= s.pidPeer.Keys && CtrlStep(s, e).unknown == s.unknown
  {
    hide Finish;
    if e.sock in s.ctrlPid && e.sock in s.ctrlState && e.answer.Received? {
      var c := s.ctrlState[e.sock];
      PeersOfDialAndFinish(s, ZERO_INFO, Fails, e.sock, s.ctrlPid[e.sock]);
      PeersOfDialAndFinish(s.(ctrlState := s.ctrlState[e.sock := CtrlState(ConnectPeer, c.isPuncher, e.answer.peer)]),
                           ZERO_INFO, Fails, e.sock, s.ctrlPid[e.sock]);
    }
  }

  /** Where new peer sockets and waiting announcements come from. */
  lemma {:induction false} PeersGrow(s: State, e: Event, pid: Pid)
    requires pid in Step(s, e).pidPeer || pid in Step(s, e).unknown
    requires Linked(s) && OwnIds(s.info)
    ensures pid in s.pidPeer || pid in s.unknown || (e.Log? && pid == e.pid)
  {
    hide Linked, AcceptStep, LogStep, CtrlStep;
    if e.Accept? {
      AcceptPeers(s, e);
    } else if e.Log? {
      LogPeers(s, e);
    } else if e.Ctrl? {
      CtrlPeers(s, e);
    }
  }

  /** In an orderly run no lookup ever fails, and no control socket shares its peer with another. */
  lemma {:induction false} OrderlyRunIsSafe(s: State, announced: set<Pid>, events: seq<Event>)
    requires Linked(s) && s.halt == Running && Accounted(s, announced) && OwnIds(s.info) &&
             OrderlyRun(s, announced, events)
    ensures SafeAllAlong(s, events) && Linked(Run(s, events)) && Run(s, events).halt == Running
    decreases |events|
  {
    hide Linked, Step, Accounted, Expected, OwnIds, Matching;
    if events != [] {
      AccountedStep(s, announced, events[0]);
      OrderlyRunIsSafe(Step(s, events[0]), Announced(announced, events[0], Step(s, events[0])), events[1..]);
    }
  }

  /** From the start: every orderly run is safe. */
  lemma {:induction false} OrderlyRunFromStart(events: seq<Event>)
    requires OrderlyRun(START, {}, events)
    ensures SafeAllAlong(START, events) && Linked(Run(START, events)) && Run(START, events).halt == Running
  {
    OrderlyRunIsSafe(START, {}, events);
  }

  predicate HasOwnId(s: State, pid: Pid) {
    pid in s.info ==> s.info[pid].pid == pid
  }

  /** Announced again, a peer is dialled again, and both control sockets stand for it. */
  lemma {:induction false} SecondDial(s: State, first: Socket, ctrl: Address, second: Socket, p: Socket)
    requires Linked(s) && s.halt == Running && first in s.ctrlPid && second !in s.ctrlPid &&
             HasOwnId(s, s.ctrlPid[first])
    ensures s.ctrlPid[first] in s.info && first in s.ctrlState
    ensures
      var pid := s.ctrlPid[first];
      var s' := Step(s, Log(pid, ctrl, Sockets(second, p)));
      && s'.halt == Running && s'.ctrlPid == s.ctrlPid[second := pid] && pid in s'.pidPeer && pid in s'.info
      && first in s'.ctrlState && s'.ctrlState[first] == s.ctrlState[first] && s'.list == s.list
  {
    var pid := s.ctrlPid[first];
    assert pid in s.ctrlPid.Values;
    LinkedInfo(s, pid, ctrl);
  }

  /** The messages until a control connection is finished: two for the side that does not punch, in its first phase. */
  function MessagesLeft(c: CtrlState): nat {
    if c.phase == ReceivePeer && !c.isPuncher then 2 else 1
  }

  /** Each message brings a control connection closer to its end; the last one finishes it. */
  lemma {:induction false} MessageStep(s: State, sock: Socket, peer: Address)
    requires s.halt == Running && sock in s.ctrlPid && sock in s.ctrlState
    requires s.ctrlPid[sock] in s.pidPeer && s.ctrlPid[sock] in s.info
    ensures
      var s', c := Step(s, Ctrl(sock, Received(peer, true))), s.ctrlState[sock];
      if MessagesLeft(c) == 2 then s' == s.(ctrlState := s.ctrlState[sock := CtrlState(ConnectPeer, false, peer)])
      else s' == Finish(s, sock, s.ctrlPid[sock])
  {
    hide Finish;
    FinishForgets(s, sock, s.ctrlPid[sock], CtrlState(ConnectPeer, s.ctrlState[sock].isPuncher, peer));
  }

  /**
   A second announcement while a connection is under way, in whatever phase: when the first one is
   finished, the next message on the second one finds no description any more.
   */
  lemma {:induction false} SecondAnnouncementFails(s: State, first: Socket, ctrl: Address, second: Socket, p: Socket,
                                                   peer: Address, answer: Answer)
    requires Linked(s) && s.halt == Running && first in s.ctrlPid && second !in s.ctrlPid &&
             HasOwnId(s, s.ctrlPid[first])
    ensures first in s.ctrlState
    ensures
      var again := Step(s, Log(s.ctrlPid[first], ctrl, Sockets(second, p)));
      var message := Ctrl(first, Received(peer, true));
      var finished := if MessagesLeft(s.ctrlState[first]) == 2 then Step(Step(again, message), message)
          else Step(again, message);
      Step(finished, Ctrl(second, answer)).halt == Inconsistent
  {
    hide Without, Linked, LogStep, CtrlStep;
    var pid := s.ctrlPid[first];
    var again, message := Step(s, Log(pid, ctrl, Sockets(second, p))), Ctrl(first, Received(peer, true));
    SecondDial(s, first, ctrl, second, p);
    ListedIsKnown(s, pid);
    MessageStep(again, first, peer);
    if MessagesLeft(s.ctrlState[first]) == 2 {
      MessageStep(Step(again, message), first, peer);
      OrphanFails(Step(again, message), first, second, answer);
    } else {
      OrphanFails(again, first, second, answer);
    }
  }

  /** Once a connection is finished, another one to the same peer is an orphan. */
  lemma OrphanFails(s: State, first: Socket, second: Socket, answer: Answer)
    requires s.halt == Running && first in s.ctrlPid && second in s.ctrlPid && first != second
    requires s.ctrlPid[second] == s.ctrlPid[first] && s.ctrlPid[first] in s.list
    ensures Step(Finish(s, first, s.ctrlPid[first]), Ctrl(second, answer)).halt == Inconsistent
  {
  }

  // --------------------------------------------------------------------------- The race of two servers

  /**
   The tracker's notice and the server's announcement may arrive in either order: the same tables
   result, and the control server is dialled once, with the same description.
   */
  lemma {:induction false} ArrivalRace(s: State, manifest: int, pid: Pid, session: int, ctrl: Address, unused: Net,
                                       net: Net)
    requires ListMatches(s.list, s.info) && s.halt == Running && pid !in s.list && pid !in s.unknown
    ensures
      var notice := Accept(manifest, pid, session, unused);
      var s' := Step(Step(s, notice), Log(pid, ctrl, net));
      && s' == Step(Step(s, Log(pid, ctrl, unused)), Accept(manifest, pid, session, net))
      && s'.dials == s.dials + [PeerInfo(pid, 0, manifest, session, false, ctrl)]
  {
    var info := PeerInfo(pid, 0, manifest, session, false, Address(0, 0));
    var info' := info.(ctrl := ctrl);
    var noticed := Step(s, Accept(manifest, pid, session, unused));
    assert noticed == s.(list := s.list + [pid], info := s.info[pid := info]);
    var announced := Step(s, Log(pid, ctrl, unused));
    assert announced == s.(unknown := s.unknown[pid := ctrl]);
    assert s.unknown[pid := ctrl] - {pid} == s.unknown;
    assert s.info[pid := info][pid := info'] == s.info[pid := info'];
    var both := s.(list := s.list + [pid], info := s.info[pid := info']);
    assert Step(noticed, Log(pid, ctrl, net)) == Dial(both, info', net);
    assert Step(announced, Accept(manifest, pid, session, net)) == Dial(both, info', net);
  }

  /** A punching request for a pending peer changes nothing. */
  lemma PunchOfKnown(s: State, e: Event)
    requires e.Punch? && e.pid in s.info && e.pid in s.list
    ensures Step(s, e) == s
  {
  }

  lemma KnownStays(s: State, e: Event)
    requires e.Log? && e.pid in s.info && e.pid in s.list
    ensures e.pid in Step(s, e).info && e.pid in Step(s, e).list
  {
  }

  /**
   Punching does not look for a waiting announcement: for a punching request and an announcement in
   either order the same state results exactly when the peer was pending before.
   */
  lemma {:induction false} PunchCommutesIffKnown(s: State, level: Level, manifest: int, session: int, blocked: bool,
                                                 junk: Address, reply: int, ctrl: Address, net: Net)
    requires ListMatches(s.list, s.info) && s.halt == Running
    ensures
      var punch, log := Punch(level, manifest, level.pid, session, blocked, junk, reply), Log(level.pid, ctrl, net);
      Step(Step(s, log), punch) == Step(Step(s, punch), log) <==> level.pid in s.info
  {
    var punch, log := Punch(level, manifest, level.pid, session, blocked, junk, reply), Log(level.pid, ctrl, net);
    if level.pid in s.info {
      hide Step;
      PunchOfKnown(s, punch);
      KnownStays(s, log);
      PunchOfKnown(Step(s, log), punch);
    } else {
      LateForUnknown(s, punch, log);
      EarlyForUnknown(s, punch, log);
    }
  }

  /** For a new peer, an announcement that comes first is kept waiting, or stops the program at once. */
  lemma LateForUnknown(s: State, punch: Event, log: Event)
    requires s.halt == Running && punch.Punch? && log.Log? && punch.pid == log.pid && log.pid !in s.info
    ensures
      var s' := Step(Step(s, log), punch);
      if log.pid in s.unknown then s'.halt == AnnouncedTwice else log.pid in s'.unknown
  {
  }

  /** One that comes second neither waits nor stops the program as announced twice. */
  lemma EarlyForUnknown(s: State, punch: Event, log: Event)
    requires s.halt == Running && punch.Punch? && log.Log? && punch.pid == log.pid && log.pid !in s.info &&
             log.pid !in s.list
    ensures
      var s' := Step(Step(s, punch), log);
      s'.halt != AnnouncedTwice && (log.pid !in s.unknown ==> log.pid !in s'.unknown)
  {
  }

  /**
   Arriving after the announcement, a punching request leaves it waiting and dials nobody, until the
   server announces the peer another time.
   */
  lemma {:induction false} PunchOverlooksAnnouncement(s: State, level: Level, manifest: int, session: int,
                                                      junk: Address,
                                                      ctrl: Address, net: Net, again: Address, net': Net)
    requires ListMatches(s.list, s.info) && s.halt == Running && level.pid !in s.list && level.pid !in s.unknown
    ensures
      var punch := Punch(level, manifest, level.pid, session, false, junk, 0);
      var late := Step(Step(s, Log(level.pid, ctrl, net)), punch);
      var info := PeerInfo(level.pid, level.details, manifest, session, true, ctrl);
      && late.dials == s.dials && level.pid in late.unknown && level.pid in late.info
      && Step(Step(s, punch), Log(level.pid, ctrl, net)).dials == s.dials + [info]
      && Step(late, Log(level.pid, again, net')).dials == s.dials + [info.(ctrl := again)]
  {
    assert Step(s, Log(level.pid, ctrl, net)) == s.(unknown := s.unknown[level.pid := ctrl]);
  }
}

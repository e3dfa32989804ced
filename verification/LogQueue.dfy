/**
 The log queue (logger_client.cpp): records are queued with a byte counter beside the queue, and
 handed to a non-blocking socket (network.cpp) one record to a chunk.
 */
module LogQueue {
  import opened Bytes

  const HEADER_SIZE: nat := 21          // of a log record
  const CHUNK_BUFFER_SIZE: nat := 5000

  const LOG_TIME_OUT: nat := 0x1D
  const LOG_PKT_LOSE: nat := 0x1E
  const LOG_PEER_LEAVE: nat := 0x12
  const LOG_TOPO_PEER_LEAVE: nat := 0x43

  // Sizes of the records without a body.
  const SIZE_RESCUE_TRIGGER: nat := HEADER_SIZE
  const SIZE_TIME_OUT: nat := HEADER_SIZE
  const SIZE_PKT_LOSE: nat := HEADER_SIZE

  /** A record; `length` is the field in its header that says how long the body is. */
  datatype Record = Record(cmd: nat, body: bytes, length: nat)

  /** What is logged: the record queued, and what its mode adds to the byte counter. */
  datatype LogMode = LogMode(record: Record, added: nat)

  function Zeros(n: nat): bytes {
    seq(n, _ => 0)
  }

  /** Most modes take length and addition from the size of their own record. */
  function Plain(cmd: nat, body: bytes): LogMode {
    LogMode(Record(cmd, body, HEADER_SIZE + |body| - HEADER_SIZE), HEADER_SIZE + |body|)
  }

  /** Two modes take the length from the record of another one. */
  function TimeOut(): LogMode {
    LogMode(Record(LOG_TIME_OUT, Zeros(SIZE_TIME_OUT - HEADER_SIZE), SIZE_RESCUE_TRIGGER - HEADER_SIZE), SIZE_TIME_OUT)
  }

  function PacketLose(): LogMode {
    LogMode(Record(LOG_PKT_LOSE, Zeros(SIZE_PKT_LOSE - HEADER_SIZE), SIZE_RESCUE_TRIGGER - HEADER_SIZE), SIZE_PKT_LOSE)
  }

  /** How chunks are laid out on the wire: the one holding a record, and the one holding none. */
  datatype Coding = Coding(frame: Record -> bytes, empty: bytes)

  ghost predicate ValidCoding(c: Coding) {
    c.empty != [] && forall r :: c.frame(r) != []
  }

  /** What the socket answers: it takes some bytes (one at least, all at most), would block, is closed, or fails. */
  datatype Answer = Took(n: nat) | WouldBlock | Closed | Error

  /**
   While `running`, `rest` is what remains of the chunk being sent. `crashed` stands for undefined
   behaviour of the program.
   */
  datatype State = State(queue: seq<Record>, bufferSize: int, rest: bytes, running: bool, wire: bytes,
                         restart: bool, crashed: bool)

  const START: State := State([], 0, [], false, [], false, false)

  /** The size of a record as its header tells it. */
  function SizeOf(r: Record): nat {
    r.length + HEADER_SIZE
  }

  function TotalSize(queue: seq<Record>): nat {
    if queue == [] then 0 else SizeOf(queue[0]) + TotalSize(queue[1..])
  }

  function Frames(queue: seq<Record>, c: Coding): bytes {
    if queue == [] then [] else c.frame(queue[0]) + Frames(queue[1..], c)
  }

  predicate Fits(r: Record) {
    SizeOf(r) <= CHUNK_BUFFER_SIZE
  }

  predicate AllFit(queue: seq<Record>) {
    forall i :: 0 <= i < |queue| ==> Fits(queue[i])
  }

  function TakenBytes(answer: Answer, expected: nat): (m: nat)
    ensures m <= expected
    ensures expected > 0 ==> (m > 0 <==> answer.Took?)
  {
    if answer.Took? && expected > 0 then (if answer.n == 0 then 1 else if answer.n > expected then expected
                                          else answer.n)
    else 0
  }

  /** The bytes of the current chunk still to be sent. */
  function InTransit(s: State): bytes {
    if s.running then s.rest else []
  }

  /** `nonblock_send` and what its caller makes of the result: anything but bytes taken asks for a restart. */
  function SendStep(s: State, answer: Answer): State
    requires s.rest != []
  {
    match answer
    case Took(_) =>
      var m := TakenBytes(answer, |s.rest|);
      s.(wire := s.wire + s.rest[..m], rest := s.rest[m..], running := m < |s.rest|)
    case WouldBlock => s.(running := true, restart := true)
    case Closed => s.(running := true, restart := true)
    case Error => s.(restart := true)
  }

  /** `handle_pkt_out`. */
  function OutStep(s: State, answer: Answer, c: Coding): (s': State)
    requires ValidCoding(c) && (s.running ==> s.rest != [])
    ensures s'.running ==> s'.rest != []
  {
    if s.running then SendStep(s, answer)
    else if s.bufferSize <= 0 then s
    else if s.queue == [] then s.(crashed := true)
    else
      var r := s.queue[0];
      if !Fits(r) then SendStep(s.(rest := c.empty), answer)
      else
        SendStep(s.(bufferSize := s.bufferSize - SizeOf(r), queue := s.queue[1..], rest := c.frame(r),
                    crashed := s.crashed || s.bufferSize - SizeOf(r) < 0), answer)
  }

  function PushStep(s: State, mode: LogMode): State {
    s.(queue := s.queue + [mode.record], bufferSize := s.bufferSize + mode.added)
  }

  // --------------------------------------------------------------------------- The counter

  /** The length field agrees with the size added. */
  predicate Agrees(mode: LogMode) {
    SizeOf(mode.record) == mode.added
  }

  /** The modes of the program. */
  predicate Known(mode: LogMode) {
    mode == Plain(mode.record.cmd, mode.record.body) || mode == TimeOut() || mode == PacketLose()
  }

  /** They agree, the two that borrow another record's size because all three records are bare headers. */
  lemma KnownAgrees(mode: LogMode)
    requires Known(mode)
    ensures Agrees(mode)
  {
  }

  lemma {:induction false} TotalAppend(queue: seq<Record>, r: Record)
    ensures TotalSize(queue + [r]) == TotalSize(queue) + SizeOf(r)
  {
    if queue == [] {
      assert [r][1..] == [];
    } else {
      assert (queue + [r])[1..] == queue[1..] + [r];
      TotalAppend(queue[1..], r);
    }
  }

  lemma {:induction false} FramesAppend(queue: seq<Record>, r: Record, c: Coding)
    ensures Frames(queue + [r], c) == Frames(queue, c) + c.frame(r)
  {
    if queue == [] {
      assert [r][1..] == [] && c.frame(r) + [] == c.frame(r);
    } else {
      assert (queue + [r])[1..] == queue[1..] + [r];
      FramesAppend(queue[1..], r, c);
      assert c.frame(queue[0]) + (Frames(queue[1..], c) + c.frame(r)) ==
             c.frame(queue[0]) + Frames(queue[1..], c) + c.frame(r);
    }
  }

  /** The counter is the size of the queue, and the queue was never read empty. */
  predicate CounterRight(s: State) {
    s.bufferSize == TotalSize(s.queue) && !s.crashed
  }

  predicate Good(s: State) {
    CounterRight(s) && (s.running ==> s.rest != [])
  }

  lemma {:induction false} PushKeeps(s: State, mode: LogMode, c: Coding)
    requires Good(s)
    ensures Good(PushStep(s, mode)) <==> Agrees(mode)
    ensures CounterRight(PushStep(s, mode)) <==> Agrees(mode)
    ensures Frames(PushStep(s, mode).queue, c) == Frames(s.queue, c) + c.frame(mode.record)
  {
    TotalAppend(s.queue, mode.record);
    FramesAppend(s.queue, mode.record, c);
  }

  /** The counter stays right whatever the socket answers. */
  lemma OutKeeps(s: State, answer: Answer, c: Coding)
    requires Good(s) && ValidCoding(c)
    ensures Good(OutStep(s, answer, c))
  {
  }

  // --------------------------------------------------------------------------- Runs

  datatype Event = Push(mode: LogMode) | Out(answer: Answer)

  function Step(s: State, e: Event, c: Coding): (s': State)
    requires ValidCoding(c) && (s.running ==> s.rest != [])
    ensures s'.running ==> s'.rest != []
  {
    match e
    case Push(mode) => PushStep(s, mode)
    case Out(answer) => OutStep(s, answer, c)
  }

  /** Sends that block or fail ask for a restart, but the dispatcher may call again before it looks. */
  function Run(events: seq<Event>, c: Coding): (s: State)
    requires ValidCoding(c)
    ensures s.running ==> s.rest != []
  {
    if events == [] then START else Step(Run(events[..|events| - 1], c), events[|events| - 1], c)
  }

  predicate AllAgree(events: seq<Event>) {
    forall i :: 0 <= i < |events| && events[i].Push? ==> Agrees(events[i].mode)
  }

  lemma {:induction false} AgreeingRun(events: seq<Event>, c: Coding)
    requires ValidCoding(c) && AllAgree(events)
    ensures Good(Run(events, c))
    decreases |events|
  {
    hide OutStep, PushStep, Agrees;
    if events != [] {
      var front, last := events[..|events| - 1], events[|events| - 1];
      AgreeingRun(front, c);
      if last.Push? {
        PushKeeps(Run(front, c), last.mode, c);
      } else {
        OutKeeps(Run(front, c), last.answer, c);
      }
    }
  }

  /**
   In every run, whatever the socket answers, the counter is right all the way (the queue is never read
   empty, the counter never negative) exactly when every mode logged agrees, as the program's modes do.
   */
  lemma {:induction false} CounterIsRight(events: seq<Event>, c: Coding)
    requires ValidCoding(c)
    ensures (forall k :: 0 <= k <= |events| ==> CounterRight(Run(events[..k], c))) <==> AllAgree(events)
    ensures (forall i :: 0 <= i < |events| && events[i].Push? ==> Known(events[i].mode)) ==> AllAgree(events)
  {
    forall i | 0 <= i < |events| && events[i].Push? && Known(events[i].mode) ensures Agrees(events[i].mode) {
      KnownAgrees(events[i].mode);
    }
    hide Agrees, CounterRight, Step;
    if AllAgree(events) {
      forall k | 0 <= k <= |events| ensures CounterRight(Run(events[..k], c)) {
        AgreeingRun(events[..k], c);
      }
    }
    if forall k :: 0 <= k <= |events| ==> CounterRight(Run(events[..k], c)) {
      forall i | 0 <= i < |events| && events[i].Push? ensures Agrees(events[i].mode) {
        RightAfterPush(events[..i], events[i].mode, c);
        assert events[..i + 1] == events[..i] + [events[i]];
      }
    }
  }

  /** Whether a call of `handle_pkt_out` sends something. */
  predicate Sends(s: State) {
    s.running || (s.bufferSize > 0 && s.queue != [])
  }

  /** The event is a send of which the socket takes nothing. */
  ghost predicate FailsAt(events: seq<Event>, i: nat, c: Coding)
    requires ValidCoding(c) && i < |events|
  {
    events[i].Out? && Sends(Run(events[..i], c)) && !events[i].answer.Took?
  }

  lemma {:induction false} RestartStep(s: State, e: Event, c: Coding)
    requires ValidCoding(c) && (s.running ==> s.rest != [])
    ensures Step(s, e, c).restart <==> s.restart || (e.Out? && Sends(s) && !e.answer.Took?)
  {
  }

  /** A restart is asked for exactly when some send was not taken: it blocked, found the socket closed, or failed. */
  lemma {:induction false} RestartIffNotTaken(events: seq<Event>, c: Coding)
    requires ValidCoding(c)
    ensures Run(events, c).restart <==> exists i :: 0 <= i < |events| && FailsAt(events, i, c)
    decreases |events|
  {
    hide Step, Sends;
    if events != [] {
      var n := |events| - 1;
      var front, last := events[..n], events[n];
      RestartIffNotTaken(front, c);
      RestartStep(Run(front, c), last, c);
      forall i | 0 <= i < n ensures FailsAt(events, i, c) <==> FailsAt(front, i, c) {
        assert front[..i] == events[..i];
      }
      if Run(events, c).restart && !FailsAt(events, n, c) {
        var i :| 0 <= i < n && FailsAt(front, i, c);
        assert FailsAt(events, i, c);
      }
    }
  }

  lemma {:induction false} RightAfterPush(front: seq<Event>, mode: LogMode, c: Coding)
    requires ValidCoding(c) && CounterRight(Run(front, c))
    ensures CounterRight(Run(front + [Push(mode)], c)) <==> Agrees(mode)
  {
    assert (front + [Push(mode)])[..|front|] == front;
    PushKeeps(Run(front, c), mode, c);
  }

  // --------------------------------------------------------------------------- Nothing lost

  /** The bytes accounted for: sent, in transit, and queued. */
  function Accounted(s: State, c: Coding): bytes {
    s.wire + InTransit(s) + Frames(s.queue, c)
  }

  /** The records pushed, in order. */
  function Pushed(events: seq<Event>): seq<Record> {
    if events == [] then []
    else
      var last := events[|events| - 1];
      Pushed(events[..|events| - 1]) + if last.Push? then [last.mode.record] else []
  }

  /** The first send of a chunk fails: the record has left the queue, and the chunk is given up. */
  predicate LosesChunk(s: State, e: Event) {
    e == Out(Error) && !s.running && s.queue != []
  }

  lemma {:induction false} SendConserves(s: State, answer: Answer)
    requires s.rest != []
    ensures
      var s' := SendStep(s, answer);
      && s'.queue == s.queue && s'.bufferSize == s.bufferSize && s'.crashed == s.crashed
      && (answer != Error || s.running ==> s'.wire + InTransit(s') == s.wire + s.rest)
      && (answer.Took? ==> |InTransit(s')| < |s.rest| && s'.restart == s.restart)
      && s.wire <= s'.wire
  {
    var m := TakenBytes(answer, |s.rest|);
    assert s.wire + s.rest == s.wire + s.rest[..m] + s.rest[m..];
  }

  /** Starting a chunk, as `handle_pkt_out` does before it sends. */
  function Started(s: State, c: Coding): State
    requires s.queue != []
  {
    var r := s.queue[0];
    s.(bufferSize := s.bufferSize - SizeOf(r), queue := s.queue[1..], rest := c.frame(r))
  }

  lemma OutStarts(s: State, answer: Answer, c: Coding)
    requires Good(s) && ValidCoding(c) && !s.running && s.queue != [] && Fits(s.queue[0])
    ensures OutStep(s, answer, c) == SendStep(Started(s, c), answer)
  {
  }

  /** A call moves bytes from the queue to the wire; it loses some exactly when the first send of a chunk fails. */
  lemma {:induction false} OutDelivers(s: State, answer: Answer, c: Coding)
    requires Good(s) && ValidCoding(c) && (s.queue == [] || Fits(s.queue[0]))
    ensures
      var s' := OutStep(s, answer, c);
      && (!LosesChunk(s, Out(answer)) ==> Accounted(s', c) == Accounted(s, c))
      && (LosesChunk(s, Out(answer)) ==> |Accounted(s', c)| < |Accounted(s, c)|)
  {
    hide SendStep;
    if s.running {
      SendConserves(s, answer);
    } else if s.queue != [] {
      OutStarts(s, answer, c);
      var s1 := Started(s, c);
      SendConserves(s1, answer);
      assert s.wire + [] + (s1.rest + Frames(s1.queue, c)) == s.wire + s1.rest + Frames(s1.queue, c);
      if answer == Error {
        FailedStart(s1);
      }
    }
  }

  lemma FailedStart(s: State)
    requires s.rest != [] && !s.running
    ensures SendStep(s, Error).wire == s.wire && !SendStep(s, Error).running
  {
  }

  predicate Fitting(e: Event) {
    e.Push? ==> Agrees(e.mode) && Fits(e.mode.record)
  }

  predicate LossFree(events: seq<Event>, c: Coding)
    requires ValidCoding(c)
  {
    forall k :: 0 <= k < |events| ==> !LosesChunk(Run(events[..k], c), events[k])
  }

  lemma {:induction false} QueueFits(events: seq<Event>, c: Coding)
    requires ValidCoding(c) && forall i :: 0 <= i < |events| ==> Fitting(events[i])
    ensures Good(Run(events, c)) && AllFit(Run(events, c).queue)
    decreases |events|
  {
    AgreeingRun(events, c);
    if events != [] {
      var front, last := events[..|events| - 1], events[|events| - 1];
      assert Fitting(last);
      QueueFits(front, c);
      hide Good;
    }
  }

  /**
   For records that fit a chunk, the bytes on the wire, those in transit and those still queued are
   together the chunks of all records in the order they were logged, whether sends block, take part of a
   chunk or fail, exactly when no send that starts a chunk has failed.
   */
  lemma {:induction false} NothingLost(events: seq<Event>, c: Coding)
    requires ValidCoding(c) && forall i :: 0 <= i < |events| ==> Fitting(events[i])
    ensures |Accounted(Run(events, c), c)| <= |Frames(Pushed(events), c)|
    ensures Accounted(Run(events, c), c) == Frames(Pushed(events), c) <==> LossFree(events, c)
    ensures !LossFree(events, c) ==> |Accounted(Run(events, c), c)| < |Frames(Pushed(events), c)|
    decreases |events|
  {
    hide OutStep, Frames, LosesChunk, Good, AllFit;
    if events == [] {
      assert Frames([], c) == [] by {
        NoFrames([], c);
      }
    } else {
      var front, last := events[..|events| - 1], events[|events| - 1];
      NothingLost(front, c);
      QueueFits(front, c);
      LossFreeStep(events, c);
      if last.Push? {
        PushAccounted(Run(front, c), last.mode, Pushed(front), c);
      } else {
        assert Pushed(events) == Pushed(front) + [] == Pushed(front);
        FrontFits(Run(front, c).queue);
        OutDelivers(Run(front, c), last.answer, c);
      }
    }
  }

  lemma FrontFits(queue: seq<Record>)
    requires AllFit(queue)
    ensures queue == [] || Fits(queue[0])
  {
  }

  lemma {:induction false} PushAccounted(s: State, mode: LogMode, pushed: seq<Record>, c: Coding)
    requires Good(s)
    ensures Accounted(PushStep(s, mode), c) == Accounted(s, c) + c.frame(mode.record)
    ensures Frames(pushed + [mode.record], c) == Frames(pushed, c) + c.frame(mode.record)
    ensures !LosesChunk(s, Push(mode))
  {
    PushKeeps(s, mode, c);
    FramesAppend(pushed, mode.record, c);
    assert s.wire + InTransit(s) + (Frames(s.queue, c) + c.frame(mode.record)) ==
           s.wire + InTransit(s) + Frames(s.queue, c) + c.frame(mode.record);
  }

  lemma {:induction false} LossFreeStep(events: seq<Event>, c: Coding)
    requires ValidCoding(c) && events != []
    ensures
      var front, last := events[..|events| - 1], events[|events| - 1];
      LossFree(events, c) <==> LossFree(front, c) && !LosesChunk(Run(front, c), last)
  {
    hide Run, LosesChunk;
    var front := events[..|events| - 1];
    forall k | 0 <= k < |front| ensures front[..k] == events[..k] && front[k] == events[k] {
    }
    if LossFree(front, c) && !LosesChunk(Run(front, c), events[|front|]) {
      forall k | 0 <= k < |events| ensures !LosesChunk(Run(events[..k], c), events[k]) {
        assert k < |front| ==> !LosesChunk(Run(front[..k], c), front[k]);
      }
    }
    if LossFree(events, c) {
      forall k | 0 <= k < |front| ensures !LosesChunk(Run(front[..k], c), front[k]) {
        assert !LosesChunk(Run(events[..k], c), events[k]);
      }
    }
  }

  lemma {:induction false} NoFrames(queue: seq<Record>, c: Coding)
    requires ValidCoding(c)
    ensures Frames(queue, c) == [] <==> queue == []
  {
    if queue != [] {
      assert |Frames(queue, c)| == |c.frame(queue[0])| + |Frames(queue[1..], c)|;
    }
  }

  // --------------------------------------------------------------------------- Draining

  /** Calls of `handle_pkt_out`, one after the other. */
  function Calls(s: State, answers: seq<Answer>, c: Coding): State
    requires ValidCoding(c) && (s.running ==> s.rest != [])
    decreases |answers|
  {
    if answers == [] then s else Calls(OutStep(s, answers[0], c), answers[1..], c)
  }

  /** A record that does not fit a chunk stays at the front for ever, whatever the socket answers. */
  lemma {:induction false} OversizedBlocks(s: State, answers: seq<Answer>, c: Coding)
    requires ValidCoding(c) && Good(s) && s.queue != [] && !Fits(s.queue[0])
    ensures var s' := Calls(s, answers, c); s'.queue == s.queue && s'.bufferSize == s.bufferSize && s.wire <= s'.wire
    decreases |answers|
  {
    hide CounterRight;
    if answers != [] {
      OversizedStep(s, answers[0], c);
      OutKeeps(s, answers[0], c);
      OversizedBlocks(OutStep(s, answers[0], c), answers[1..], c);
    }
  }

  /** In its place an empty chunk goes out. */
  lemma {:induction false} OversizedStep(s: State, answer: Answer, c: Coding)
    requires ValidCoding(c) && Good(s) && s.queue != [] && !Fits(s.queue[0])
    ensures
      var s' := OutStep(s, answer, c);
      && s'.queue == s.queue && s'.bufferSize == s.bufferSize && s.wire <= s'.wire
      && (!s.running && answer != Error ==> s'.wire + InTransit(s') == s.wire + c.empty)
  {
    hide SendStep;
    if s.running {
      SendConserves(s, answer);
    } else {
      SendConserves(s.(rest := c.empty), answer);
    }
  }

  /** How many records stand before the first that does not fit. */
  function Passing(queue: seq<Record>): (n: nat)
    ensures n <= |queue| && AllFit(queue[..n]) && (n < |queue| ==> !Fits(queue[n]))
    ensures n == |queue| <==> AllFit(queue)
  {
    if queue == [] || !Fits(queue[0]) then 0
    else
      assert forall i :: 0 < i < |queue| ==> queue[i] == queue[1..][i - 1];
      1 + Passing(queue[1..])
  }

  lemma {:induction false} PassingStep(queue: seq<Record>, c: Coding)
    requires queue != [] && Fits(queue[0])
    ensures Passing(queue) == 1 + Passing(queue[1..])
    ensures Frames(queue[..Passing(queue)], c) == c.frame(queue[0]) + Frames(queue[1..][..Passing(queue[1..])], c)
    ensures queue[Passing(queue)..] == queue[1..][Passing(queue[1..])..]
  {
    assert queue[..Passing(queue)][1..] == queue[1..][..Passing(queue[1..])];
  }

  /**
   As many successful calls as there are bytes outstanding send every record before the first that does
   not fit a chunk, and nothing behind it.
   */
  lemma {:induction false} DrainsUpToOversized(s: State, answers: seq<Answer>, c: Coding)
    requires ValidCoding(c) && Good(s) && forall i :: 0 <= i < |answers| ==> answers[i].Took?
    requires |answers| >= |InTransit(s)| + |Frames(s.queue[..Passing(s.queue)], c)|
    ensures
      var s', n := Calls(s, answers, c), Passing(s.queue);
      && s'.queue == s.queue[n..]
      && s.wire + InTransit(s) + Frames(s.queue[..n], c) <= s'.wire
      && (AllFit(s.queue) ==> s'.wire == s.wire + InTransit(s) + Frames(s.queue[..n], c) && !s'.running)
    decreases |answers|
  {
    hide CounterRight, AllFit, Frames, OutStep, Passing, SendStep;
    var n := Passing(s.queue);
    NoFrames(s.queue[..n], c);
    if !s.running && n == 0 {
      NothingPasses(s, answers, c);
    } else if s.running {
      OutKeeps(s, answers[0], c);
      RunningCall(s, answers[0], c);
      DrainsUpToOversized(OutStep(s, answers[0], c), answers[1..], c);
    } else {
      OutKeeps(s, answers[0], c);
      StartingCall(s, answers[0], c);
      DrainsUpToOversized(OutStep(s, answers[0], c), answers[1..], c);
    }
  }

  lemma {:induction false} RunningCall(s: State, answer: Answer, c: Coding)
    requires ValidCoding(c) && Good(s) && s.running && answer.Took?
    ensures
      var s' := OutStep(s, answer, c);
      s'.queue == s.queue && s'.wire + InTransit(s') == s.wire + InTransit(s) && |InTransit(s')| < |InTransit(s)|
  {
    SendConserves(s, answer);
  }

  lemma {:induction false} StartingCall(s: State, answer: Answer, c: Coding)
    requires ValidCoding(c) && Good(s) && !s.running && Passing(s.queue) > 0 && answer.Took?
    ensures
      var s', n := OutStep(s, answer, c), Passing(s.queue);
      && s'.queue == s.queue[1..] && n == 1 + Passing(s'.queue) && s.queue[n..] == s'.queue[n - 1..]
      && (AllFit(s.queue) <==> AllFit(s'.queue))
      && s'.wire + InTransit(s') + Frames(s'.queue[..n - 1], c) == s.wire + InTransit(s) + Frames(s.queue[..n], c)
      && |InTransit(s')| + |Frames(s'.queue[..n - 1], c)| < |InTransit(s)| + |Frames(s.queue[..n], c)|
  {
    hide Frames, SendStep, OutStep, CounterRight, Passing;
    var queue := s.queue;
    assert Fits(queue[0]);
    PassingStep(queue, c);
    OutStarts(s, answer, c);
    var s1, s' := Started(s, c), OutStep(s, answer, c);
    SendConserves(s1, answer);
    var later := Frames(queue[1..][..Passing(queue[1..])], c);
    calc {
      s'.wire + InTransit(s') + later;
      s.wire + s1.rest + later;
      s.wire + [] + (s1.rest + later);
      s.wire + InTransit(s) + Frames(queue[..Passing(queue)], c);
    }
  }

  lemma {:induction false} NothingPasses(s: State, answers: seq<Answer>, c: Coding)
    requires ValidCoding(c) && Good(s) && !s.running && Passing(s.queue) == 0
    ensures
      var s' := Calls(s, answers, c);
      && s'.queue == s.queue[0..] && s.wire + InTransit(s) + Frames(s.queue[..0], c) <= s'.wire
      && (AllFit(s.queue) ==> s'.wire == s.wire + InTransit(s) + Frames(s.queue[..0], c) && !s'.running)
    decreases |answers|
  {
    assert Frames(s.queue[..0], c) == [] && s.wire + [] + [] == s.wire;
    if s.queue != [] {
      OversizedBlocks(s, answers, c);
    } else if answers != [] {
      assert OutStep(s, answers[0], c) == s;
      NothingPasses(s, answers[1..], c);
    }
  }

  /** A record fits when its header of 21 bytes and its body are no longer than 5000 bytes. */
  lemma FitsMeans(queue: seq<Record>)
    ensures AllFit(queue) <==> forall i :: 0 <= i < |queue| ==> 21 + queue[i].length <= 5000
  {
  }

  /** As many successful calls as bytes are outstanding empty the queue exactly when every record fits a chunk. */
  lemma {:induction false} DrainsIffAllFit(s: State, answers: seq<Answer>, c: Coding)
    requires ValidCoding(c) && Good(s) && forall i :: 0 <= i < |answers| ==> answers[i].Took?
    requires |answers| >= |InTransit(s)| + |Frames(s.queue, c)|
    ensures
      var s' := Calls(s, answers, c);
      && (s'.queue == [] <==> forall i :: 0 <= i < |s.queue| ==> 21 + s.queue[i].length <= 5000)
      && (AllFit(s.queue) ==> !s'.running && s'.wire == s.wire + InTransit(s) + Frames(s.queue, c))
  {
    FitsMeans(s.queue);
    hide Good, AllFit, Calls;
    var n := Passing(s.queue);
    FramesOfFront(s.queue, n, c);
    DrainsUpToOversized(s, answers, c);
    assert s.queue[..|s.queue|] == s.queue;
  }

  lemma {:induction false} FramesOfFront(queue: seq<Record>, n: nat, c: Coding)
    requires n <= |queue|
    ensures |Frames(queue[..n], c)| <= |Frames(queue, c)|
    decreases n
  {
    if n > 0 {
      assert queue[..n][1..] == queue[1..][..n - 1];
      FramesOfFront(queue[1..], n - 1, c);
    }
  }

  // --------------------------------------------------------------------------- Leaving

  /**
   How many sends the rest of a chunk uses up, the k-th send being answered by `socket(k)`, and whether
   it gets through.
   */
  function FinishSends(left: nat, socket: nat -> Answer, k: nat): (nat, bool)
    decreases left
  {
    if left == 0 then (0, true)
    else if !socket(k).Took? then (1, false)
    else
      var r := FinishSends(left - TakenBytes(socket(k), left), socket, k + 1);
      (1 + r.0, r.1)
  }

  /** How a drain ends; `Overran` is a record copied past the end of the chunk. */
  datatype DrainEnd = Emptied | SendFailed | Overran

  datatype Drained = Drained(sent: bytes, left: seq<Record>, end: DrainEnd)

  /** The last drain: one send for each record, and a short one is not repeated. */
  function DrainOf(queue: seq<Record>, socket: nat -> Answer, k: nat, c: Coding): Drained {
    if queue == [] then Drained([], [], Emptied)
    else if !Fits(queue[0]) then Drained([], queue, Overran)
    else
      var chunk := c.frame(queue[0]);
      var m := TakenBytes(socket(k), |chunk|);
      if m == 0 then Drained([], queue[1..], SendFailed)
      else
        var d := DrainOf(queue[1..], socket, k + 1, c);
        d.(sent := chunk[..m] + d.sent)
  }

  /** From the k-th on, each send takes the whole chunk of its record. */
  predicate AllTaken(queue: seq<Record>, socket: nat -> Answer, k: nat, c: Coding) {
    forall i :: 0 <= i < |queue| ==> TakenBytes(socket(k + i), |c.frame(queue[i])|) == |c.frame(queue[i])|
  }

  /** Everything is sent exactly when every record fits and every send takes its whole chunk. */
  lemma {:induction false} DrainIsComplete(queue: seq<Record>, socket: nat -> Answer, k: nat, c: Coding)
    requires ValidCoding(c)
    ensures
      var d := DrainOf(queue, socket, k, c);
      && |d.sent| <= |Frames(queue, c)|
      && (d.sent == Frames(queue, c) <==> AllFit(queue) && AllTaken(queue, socket, k, c))
      && (|d.sent| == |Frames(queue, c)| ==> d.sent == Frames(queue, c) && d.left == [] && d.end == Emptied)
    decreases |queue|
  {
    hide AllFit, AllTaken;
    if queue == [] {
      assert AllFit(queue) && AllTaken(queue, socket, k, c) by {
        SplitFirst(queue, socket, k, c);
      }
    } else {
      var chunk, rest := c.frame(queue[0]), queue[1..];
      var m := TakenBytes(socket(k), |chunk|);
      DrainIsComplete(rest, socket, k + 1, c);
      SplitFirst(queue, socket, k, c);
      assert |Frames(queue, c)| == |chunk| + |Frames(rest, c)|;
      var d := DrainOf(rest, socket, k + 1, c);
      if m == |chunk| {
        assert chunk[..m] == chunk;
        assert chunk + d.sent == chunk + Frames(rest, c) ==> d.sent == Frames(rest, c) by {
          assert (chunk + d.sent)[|chunk|..] == d.sent && (chunk + Frames(rest, c))[|chunk|..] == Frames(rest, c);
        }
      }
    }
  }

  lemma {:induction false} SplitFirst(queue: seq<Record>, socket: nat -> Answer, k: nat, c: Coding)
    ensures queue == [] ==> AllFit(queue) && AllTaken(queue, socket, k, c)
    ensures queue != [] ==> (AllFit(queue) <==> Fits(queue[0]) && AllFit(queue[1..]))
    ensures
      queue != [] ==>
        (AllTaken(queue, socket, k, c) <==>
         TakenBytes(socket(k), |c.frame(queue[0])|) == |c.frame(queue[0])| && AllTaken(queue[1..], socket, k + 1, c))
  {
    if queue != [] {
      var rest := queue[1..];
      assert forall i :: 0 <= i < |rest| ==> rest[i] == queue[i + 1] && k + 1 + i == k + (i + 1);
      if AllTaken(queue, socket, k, c) {
        assert socket(k + 0) == socket(k);
        forall i | 0 <= i < |rest|
          ensures TakenBytes(socket(k + 1 + i), |c.frame(rest[i])|) == |c.frame(rest[i])|
        {
          assert TakenBytes(socket(k + (i + 1)), |c.frame(queue[i + 1])|) == |c.frame(queue[i + 1])|;
        }
      }
      if TakenBytes(socket(k), |c.frame(queue[0])|) == |c.frame(queue[0])| && AllTaken(rest, socket, k + 1, c) {
        forall i | 0 <= i < |queue|
          ensures TakenBytes(socket(k + i), |c.frame(queue[i])|) == |c.frame(queue[i])|
        {
          if i > 0 {
            assert TakenBytes(socket(k + 1 + (i - 1)), |c.frame(rest[i - 1])|) == |c.frame(rest[i - 1])|;
          }
        }
      }
    }
  }

  // --------------------------------------------------------------------------- The client

  class LoggerClient {
    const coding: Coding
    var logBuffer: seq<Record>
    var bufferSize: int
    var rest: bytes
    var running: bool
    var wire: bytes
    var restart: bool

    function Current(): State
      reads this
    {
      State(logBuffer, bufferSize, rest, running, wire, restart, false)
    }

    constructor (coding: Coding)
      ensures this.coding == coding && Current() == START
    {
      this.coding := coding;
      logBuffer, bufferSize, rest, running, wire, restart := [], 0, [], false, [], false;
    }

    method LogToServer(mode: LogMode)
      modifies this
      ensures Current() == PushStep(old(Current()), mode)
    {
      logBuffer := logBuffer + [mode.record];
      bufferSize := bufferSize + mode.added;
    }

    /** The number of bytes sent, 0 when the socket would block, negative on errors. */
    method NonblockSend(answer: Answer) returns (sent: int)
      requires rest != []
      modifies this`rest, this`running, this`wire
      ensures Current().(restart := old(restart) || sent <= 0) == SendStep(old(Current()), answer)
      ensures answer.Took? <==> sent > 0
    {
      match answer {
        case Took(_) =>
          var m := TakenBytes(answer, |rest|);
          wire := wire + rest[..m];
          running := m < |rest|;
          rest := rest[m..];
          sent := m;
        case WouldBlock =>
          running := true;
          sent := 0;
        case Closed =>
          running := true;
          sent := -2;
        case Error =>
          sent := -2;
      }
    }

    method HandlePktOut(answer: Answer)
      requires Good(Current()) && ValidCoding(coding)
      modifies this
      ensures Current() == OutStep(old(Current()), answer, coding)
    {
      var sent := 1;
      if !running {
        if bufferSize > 0 {
          var element := logBuffer[0];
          var structSize := element.length + HEADER_SIZE;
          if structSize > CHUNK_BUFFER_SIZE {
            rest := coding.empty;
          } else {
            bufferSize := bufferSize - structSize;
            rest := coding.frame(element);
            logBuffer := logBuffer[1..];
          }
          sent := NonblockSend(answer);
        }
      } else {
        sent := NonblockSend(answer);
      }
      if sent <= 0 {
        restart := true;
      }
    }

    /** The chunk in transit, as `log_exit` finishes it; `k` answers are used up. */
    method FinishChunk(socket: nat -> Answer) returns (halted: bool, k: nat)
      requires Good(Current())
      modifies this`rest, this`running, this`wire, this`restart
      ensures Good(Current())
      ensures wire + InTransit(Current()) == old(wire) + InTransit(old(Current()))
      ensures halted <==> !FinishSends(|InTransit(old(Current()))|, socket, 0).1
      ensures halted ==> restart
      ensures !halted ==> k == FinishSends(|InTransit(old(Current()))|, socket, 0).0
      ensures !halted ==> !running && restart == old(restart)
    {
      hide SendStep, TotalSize, TakenBytes;
      halted, k := false, 0;
      ghost var transit := InTransit(Current());
      while running
        invariant Good(Current()) && logBuffer == old(logBuffer) && restart == old(restart)
        invariant wire + InTransit(Current()) == old(wire) + transit
        invariant FinishSends(|transit|, socket, 0) ==
                  (k + FinishSends(|InTransit(Current())|, socket, k).0,
                   FinishSends(|InTransit(Current())|, socket, k).1)
        decreases |InTransit(Current())|
      {
        SendConserves(Current(), socket(k));
        SendTakes(Current(), socket(k));
        var sent := NonblockSend(socket(k));
        k := k + 1;
        if sent <= 0 {
          restart := true;
          return true, k;
        }
      }
    }

    /**
     `log_exit`, the socket answering the k-th send with `socket(k)`: finishes the chunk in transit,
     logs the departure, and drains the queue. `halted` reports the stop on a send of the chunk in
     transit that fails, `overran` a record too long for its chunk. Everything reaches the wire exactly
     when all records fit and each send of the drain takes its whole chunk.
     */
    method LogExit(socket: nat -> Answer, leave: bytes, topology: bytes) returns (halted: bool, overran: bool)
      requires Good(Current()) && ValidCoding(coding)
      modifies this
      ensures halted <==> !FinishSends(|InTransit(old(Current()))|, socket, 0).1
      ensures halted ==> restart && logBuffer == old(logBuffer)
      ensures halted ==> wire + InTransit(Current()) == old(wire) + InTransit(old(Current()))
      ensures
        !halted ==>
          var all := old(logBuffer) + [Plain(LOG_PEER_LEAVE, leave).record,
                                       Plain(LOG_TOPO_PEER_LEAVE, topology).record];
          var k := FinishSends(|InTransit(old(Current()))|, socket, 0).0;
          var d := DrainOf(all, socket, k, coding);
          && wire == old(wire) + InTransit(old(Current())) + d.sent && logBuffer == d.left
          && restart == (old(restart) || d.end == SendFailed) && (overran <==> d.end == Overran)
          && (wire == old(wire) + InTransit(old(Current())) + Frames(all, coding) <==>
              AllFit(all) && AllTaken(all, socket, k, coding))
    {
      hide DrainOf, Frames, AllFit, AllTaken, FinishSends, TotalSize;
      overran := false;
      var k;
      halted, k := FinishChunk(socket);
      if halted {
        return;
      }
      assert wire + [] == wire;
      ghost var before := wire;
      var a, b := Plain(LOG_PEER_LEAVE, leave), Plain(LOG_TOPO_PEER_LEAVE, topology);
      PushKeeps(Current(), a, coding);
      LogToServer(a);
      PushKeeps(Current(), b, coding);
      LogToServer(b);
      ghost var all := logBuffer;
      assert all == old(logBuffer) + [a.record, b.record];
      overran := SendAll(socket, k);
      DrainIsComplete(all, socket, k, coding);
      SameTail(before, DrainOf(all, socket, k, coding).sent, Frames(all, coding));
    }

    /** The drain of `log_exit`. */
    method SendAll(socket: nat -> Answer, start: nat) returns (overran: bool)
      requires CounterRight(Current()) && ValidCoding(coding) && !running
      modifies this
      ensures
        var d := DrainOf(old(logBuffer), socket, start, coding);
        && wire == old(wire) + d.sent && logBuffer == d.left
        && restart == (old(restart) || d.end == SendFailed) && (overran <==> d.end == Overran)
        && (d.end != Overran ==> bufferSize == TotalSize(logBuffer))
    {
      hide DrainOf, TotalSize, TakenBytes;
      ghost var d := DrainOf(logBuffer, socket, start, coding);
      var k := start;
      assert wire + d.sent == old(wire) + d.sent;
      while bufferSize > 0
        invariant CounterRight(Current()) && restart == old(restart) && start <= k
        invariant
          var d' := DrainOf(logBuffer, socket, k, coding);
          wire + d'.sent == old(wire) + d.sent && d'.left == d.left && d'.end == d.end
        decreases |logBuffer|
      {
        EmptyTotal(logBuffer);
        FirstOfDrain(logBuffer, socket, k, coding);
        var element := logBuffer[0];
        if element.length + HEADER_SIZE > CHUNK_BUFFER_SIZE {
          assert wire + [] == wire;
          return true;
        }
        var chunk := coding.frame(element);
        bufferSize := bufferSize - (element.length + HEADER_SIZE);
        logBuffer := logBuffer[1..];
        var m := TakenBytes(socket(k), |chunk|);
        ghost var later := DrainOf(logBuffer, socket, k + 1, coding).sent;
        assert wire + chunk[..m] + later == wire + (chunk[..m] + later);
        assert wire + [] == wire && wire + chunk[..0] == wire;
        wire := wire + chunk[..m];
        k := k + 1;
        if m == 0 {
          restart := true;
          return false;
        }
      }
      EmptyTotal(logBuffer);
      EmptyDrain(socket, k, coding);
      assert wire + [] == wire;
      overran := false;
    }
  }

  lemma EmptyDrain(socket: nat -> Answer, k: nat, c: Coding)
    ensures DrainOf([], socket, k, c) == Drained([], [], Emptied)
  {
  }

  /** The first record of a drain. */
  lemma FirstOfDrain(queue: seq<Record>, socket: nat -> Answer, k: nat, c: Coding)
    requires queue != []
    ensures
      var chunk, d := c.frame(queue[0]), DrainOf(queue[1..], socket, k + 1, c);
      var m := TakenBytes(socket(k), |chunk|);
      DrainOf(queue, socket, k, c) ==
      if queue[0].length + HEADER_SIZE > CHUNK_BUFFER_SIZE then Drained([], queue, Overran)
      else if m == 0 then Drained([], queue[1..], SendFailed)
      else Drained(chunk[..m] + d.sent, d.left, d.end)
    ensures TotalSize(queue) == queue[0].length + HEADER_SIZE + TotalSize(queue[1..])
  {
  }

  lemma {:induction false} SameTail(a: bytes, b: bytes, c: bytes)
    ensures a + b == a + c <==> b == c
  {
    assert (a + b)[|a|..] == b && (a + c)[|a|..] == c;
  }

  /** A send of a chunk in transit, as the finishing loop sees it. */
  lemma SendTakes(s: State, answer: Answer)
    requires s.rest != [] && s.running
    ensures
      var s' := SendStep(s, answer);
      && (answer.Took? ==> |InTransit(s')| == |s.rest| - TakenBytes(answer, |s.rest|))
      && (s'.running ==> s'.rest != [])
  {
  }

  lemma EmptyTotal(queue: seq<Record>)
    ensures TotalSize(queue) > 0 <==> queue != []
  {
  }
}

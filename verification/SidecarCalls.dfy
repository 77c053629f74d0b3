/**
 What every event does to every call: which calls are entered, exactly which
 event ends a pending one and how, and what that means for starts and for the
 restart delay, told from the events of a run.
 */
module SidecarCalls {
  import opened Text
  import opened Transport
  import opened SidecarSpec
  import opened SidecarProofs

  //// Which calls are entered.

  /**
   While a process runs, an ordinary call that is not too large is entered: it
   waits, unsettled, under a new id, with a timer one window ahead.
   */
  lemma CallIsEntered(cfg: Config, now: nat, events: seq<Event>)
    ensures var s, t := Run(cfg, Initial(now), events), Run(cfg, Initial(now), events + [Call(true)]);
            s.child.Some? ==>
              && s.nextId !in s.pending && s.nextId !in t.settled
              && s.nextId in t.pending && t.pending[s.nextId] == Pending(s.now, Caller)
              && s.nextId in t.timers && t.timers[s.nextId] == s.now + cfg.idle
              && t == s.(nextId := s.nextId + 1, pending := t.pending, timers := t.timers)
              && t.pending - {s.nextId} == s.pending && t.timers - {s.nextId} == s.timers
  {
    hide Run, TimingOk, BackoffOk, Issued;
    ReachableStates(cfg, now, events);
    FreshId(cfg, now, events);
    RunStep(cfg, Initial(now), events, Call(true));
    var s := Run(cfg, Initial(now), events);
    assert s.pending[s.nextId := Pending(s.now, Caller)] - {s.nextId} == s.pending;
    assert s.nextId !in s.timers && s.timers[s.nextId := s.now + cfg.idle] - {s.nextId} == s.timers;
  }

  /** A call that is too large is settled at once under its own id; without a process no id is spent. */
  lemma CallIsRefused(cfg: Config, now: nat, events: seq<Event>)
    ensures var s, t := Run(cfg, Initial(now), events), Run(cfg, Initial(now), events + [Call(false)]);
            s.child.Some? ==>
              && t.pending == s.pending && t.timers == s.timers && t.nextId == s.nextId + 1
              && s.nextId !in s.settled && t.settled == s.settled[s.nextId := TooLarge]
    ensures var s := Run(cfg, Initial(now), events);
            s.child.None? ==> forall fits :: Run(cfg, Initial(now), events + [Call(fits)]) == s
  {
    hide Run, TimingOk, BackoffOk, Issued;
    FreshId(cfg, now, events);
    RunStep(cfg, Initial(now), events, Call(false));
    RunStep(cfg, Initial(now), events, Call(true));
  }

  /** A call made while a process runs gets the first reply that the next output brings for it. */
  lemma CallIsAnswered(cfg: Config, now: nat, events: seq<Event>, text: string)
    ensures var s := Run(cfg, Initial(now), events);
            var t := Run(cfg, Initial(now), events + [Call(true)] + [Chunk(text)]);
            var reply := FirstReply(cfg, Reached(cfg, NewLines(cfg.cap, s.stream, text)), s.nextId);
            s.child.Some? && reply.Some? ==>
              s.nextId in t.settled && t.settled[s.nextId] == Answered(reply.value) && s.nextId !in t.pending
  {
    hide Run, Apply, BackoffOk, TimingOk, Issued, NewLines, Reached, FirstReply;
    var s, t := Run(cfg, Initial(now), events), Run(cfg, Initial(now), events + [Call(true)]);
    CallIsEntered(cfg, now, events);
    ChildWasSpawned(cfg, now, events);
    ReachableStates(cfg, now, events + [Call(true)]);
    RunStep(cfg, Initial(now), events + [Call(true)], Chunk(text));
    if s.child.Some? {
      ChunkAnswersExactly(cfg, t, text, s.nextId);
    }
  }

  //// What ends a pending call.

  /** The outcome that an event gives a pending call, if any. */
  ghost function OutcomeOf(cfg: Config, s: State, e: Event, id: nat): Option<Outcome> {
    if !Enabled(s, e) then
      None
    else
      match e
      case Chunk(text) =>
        var reply :- FirstReply(cfg, Reached(cfg, NewLines(cfg.cap, s.stream, text)), id);
        Some(Answered(reply))
      case TimerFires(j) => if j == id && s.now >= s.lastActivityAt + cfg.idle then Some(TimedOut) else None
      case WriteError(j) => if j == id then Some(WriteFailed) else None
      case Exit => Some(Crashed)
      case Stop => Some(Stopped)
      case _ => None
  }

  /** When the timer of a call that goes on waiting is due. */
  ghost function DueAfter(cfg: Config, s: State, e: Event, id: nat): nat
    requires id in s.timers
  {
    if Enabled(s, e) && e == TimerFires(id) then s.lastActivityAt + cfg.idle else s.timers[id]
  }

  ghost predicate Ends(t: State, id: nat, outcome: Outcome) {
    id !in t.pending && id !in t.timers && id in t.settled && t.settled[id] == outcome
  }

  ghost predicate Waits(s: State, t: State, id: nat, due: nat)
    requires id in s.pending
  {
    && id in t.pending && t.pending[id] == s.pending[id] && id !in t.settled
    && id in t.timers && t.timers[id] == due
  }

  /** How a pending call stands after an event. */
  ghost predicate StandsAfter(cfg: Config, s: State, e: Event, t: State, id: nat)
    requires id in s.pending && id in s.timers
  {
    match OutcomeOf(cfg, s, e, id)
    case Some(outcome) => Ends(t, id, outcome)
    case None => Waits(s, t, id, DueAfter(cfg, s, e, id))
  }

  lemma CallLeavesOthers(cfg: Config, s: State, waiter: Waiter, fits: bool, id: nat)
    requires TableOk(s) && id in s.pending
    ensures Waits(s, OnCall(cfg, s, waiter, fits), id, s.timers[id])
  {
    hide Issued, Continue;
    IssuedBelow(s.nextId, s.nextId);
    ContinueKeepsTable(s, waiter, Crashed);
    ContinueKeepsTable(s.(nextId := s.nextId + 1, settled := Settled(s.settled, s.nextId, TooLarge)), waiter, TooLarge);
    CallSettlesNobody(cfg, s, waiter, fits);
  }

  lemma StartOnceLeavesOthers(cfg: Config, s: State, waiter: Waiter, present: bool, id: nat)
    requires TableOk(s) && id in s.pending
    ensures Waits(s, OnStartOnce(cfg, s, waiter, present), id, s.timers[id])
  {
    hide Issued, Continue, OnCall;
    ContinueKeepsTable(s, waiter, Crashed);
    var t := s.(stopped := false, child := Some(s.spawned), spawned := s.spawned + 1);
    CallLeavesOthers(cfg, t, waiter, true, id);
  }

  lemma FinishLeavesOthers(s: State, j: nat, outcome: Outcome, id: nat)
    requires TableOk(s) && j in s.pending && id in s.pending
    ensures if j == id then Ends(Finish(s, j, outcome), id, outcome)
            else Waits(s, Finish(s, j, outcome), id, s.timers[id])
  {
    hide Issued, Finish;
    FinishKeepsTable(s, j, outcome);
    FinishTimers(s, j, outcome);
  }

  lemma FinishTimers(s: State, j: nat, outcome: Outcome)
    requires j in s.pending
    ensures Finish(s, j, outcome).timers == s.timers - {j}
  {
    hide Continue;
    var t := s.(pending := s.pending - {j}, timers := s.timers - {j}, settled := Settled(s.settled, j, outcome));
    ContinueKeepsTable(t, s.pending[j].waiter, outcome);
  }

  lemma TimerEnds(cfg: Config, s: State, j: nat, id: nat)
    requires TableOk(s) && id in s.pending && Enabled(s, TimerFires(j))
    ensures StandsAfter(cfg, s, TimerFires(j), OnTimer(cfg, s, j), id)
  {
    hide Issued, Finish;
    FiredThenFinished(s, j, TimedOut);
    FinishLeavesOthers(s, j, TimedOut, id);
  }

  lemma WriteErrorEnds(cfg: Config, s: State, j: nat, id: nat)
    requires TableOk(s) && id in s.pending && Enabled(s, WriteError(j))
    ensures StandsAfter(cfg, s, WriteError(j), OnWriteError(s, j), id)
  {
    hide Issued, Finish;
    if j in s.pending {
      FinishLeavesOthers(s, j, WriteFailed, id);
    }
  }

  lemma AllEnd(s: State, outcome: Outcome, id: nat)
    requires TableOk(s) && id in s.pending
    ensures Ends(FinishAll(s, outcome), id, outcome)
  {
    hide Issued;
  }

  lemma ExitEnds(cfg: Config, s: State, id: nat)
    requires TableOk(s) && id in s.pending && Enabled(s, Exit)
    ensures StandsAfter(cfg, s, Exit, OnExit(s), id)
  {
    hide Issued, FinishAll;
    WithoutChild(s, Crashed);
    AllEnd(s, Crashed, id);
  }

  lemma StopEnds(cfg: Config, s: State, id: nat)
    requires TableOk(s) && id in s.pending
    ensures StandsAfter(cfg, s, Stop, OnStop(s), id)
  {
    hide Issued, FinishAll;
    WithoutChild(s, Stopped);
    AllEnd(s, Stopped, id);
  }

  lemma WithoutChild(s: State, outcome: Outcome)
    ensures var t, u := FinishAll(s, outcome), FinishAll(s.(child := None), outcome);
            && t.pending == u.pending && t.timers == u.timers && t.settled == u.settled
    ensures var t, u := FinishAll(s, outcome), FinishAll(s.(stopped := true, child := None), outcome);
            && t.pending == u.pending && t.timers == u.timers && t.settled == u.settled
  {
  }

  lemma ChunkEnds(cfg: Config, s: State, text: string, id: nat)
    requires TableOk(s) && id in s.pending && Enabled(s, Chunk(text))
    ensures StandsAfter(cfg, s, Chunk(text), OnData(cfg, s, text), id)
  {
    hide Issued, OnData, NewLines, Reached, FirstReply;
    ChunkAnswersExactly(cfg, s, text, id);
    DataKeepsTable(cfg, s, text);
  }

  /**
   Exactly what every event does to every pending call: it is answered by its
   first response, times out when its timer fires after a silent window, fails
   with its own write error, ends with the process or with stop; any other
   event leaves it waiting with its timer, which its own firing moves to one
   window past the last output.
   */
  lemma PendingCallAfter(cfg: Config, s: State, e: Event, id: nat)
    requires TableOk(s) && id in s.pending
    ensures StandsAfter(cfg, s, e, Apply(cfg, s, e), id)
  {
    hide OnStartOnce, OnCall, OnData, OnTimer, OnWriteError, OnExit, OnStop, Issued, StandsAfter;
    if !Enabled(s, e) {
      LeftWaiting(cfg, s, e, s, id);
    } else {
      match e
      case Tick(elapsed) => LeftWaiting(cfg, s, e, s.(now := s.now + elapsed), id);
      case Start(present) =>
        StartOnceLeavesOthers(cfg, s.(starting := true), StartCheck, present, id);
        LeftWaiting(cfg, s, e, Apply(cfg, s, e), id);
      case Call(fits) =>
        CallLeavesOthers(cfg, s, Caller, fits, id);
        LeftWaiting(cfg, s, e, Apply(cfg, s, e), id);
      case Chunk(text) => ChunkEnds(cfg, s, text, id);
      case TimerFires(j) => TimerEnds(cfg, s, j, id);
      case WriteError(j) => WriteErrorEnds(cfg, s, j, id);
      case Exit => ExitEnds(cfg, s, id);
      case RestartFires(k, present) =>
        StartOnceLeavesOthers(cfg, s.(restarts := s.restarts[..k] + s.restarts[k + 1..]), RestartCheck, present, id);
        LeftWaiting(cfg, s, e, Apply(cfg, s, e), id);
      case Stop => StopEnds(cfg, s, id);
    }
  }

  lemma LeftWaiting(cfg: Config, s: State, e: Event, t: State, id: nat)
    requires TableOk(s) && id in s.pending
    requires Enabled(s, e) ==> e.Tick? || e.Start? || e.Call? || e.RestartFires?
    requires id in t.pending && t.pending[id] == s.pending[id] && id !in t.settled
    requires id in t.timers && t.timers[id] == s.timers[id]
    ensures StandsAfter(cfg, s, e, t, id)
  {
    hide Enabled, Issued;
  }

  //// Spawning.

  /** What a spawn changes: a new process with its health check as a new call; stop is forgotten. */
  ghost predicate Spawned(cfg: Config, s: State, t: State, waiter: Waiter) {
    && t.spawned == s.spawned + 1 && t.child == Some(s.spawned) && !t.stopped
    && t.nextId == s.nextId + 1
    && t.pending == s.pending[s.nextId := Pending(s.now, waiter)]
    && t.timers == s.timers[s.nextId := s.now + cfg.idle]
    && t.settled == s.settled && t.stream == s.stream && t.restartDelay == s.restartDelay && t.exits == s.exits
  }

  /** A start while another is in progress or has succeeded does nothing; without a binary nothing remains of it. */
  lemma StartSpawnsOnce(cfg: Config, s: State, present: bool)
    ensures var t := Apply(cfg, s, Start(present));
            if s.starting || !present then t == s
            else Spawned(cfg, s, t, StartCheck) && t.starting && t.restarts == s.restarts
  {
  }

  /** A due restart timer is used up and spawns, if the binary exists; the other timers stay. */
  lemma RestartSpawns(cfg: Config, s: State, k: nat, present: bool)
    requires Enabled(s, RestartFires(k, present))
    ensures var t := Apply(cfg, s, RestartFires(k, present));
            && t.starting == s.starting
            && multiset(s.restarts) == multiset(t.restarts) + multiset{s.restarts[k]}
            && if present then Spawned(cfg, s, t, RestartCheck) else t == s.(restarts := t.restarts)
  {
    assert s.restarts == s.restarts[..k] + [s.restarts[k]] + s.restarts[k + 1..];
  }

  /** A health check that is answered well; it ends the wait for its process. */
  ghost predicate GoodCheck(cfg: Config, s: State, e: Event) {
    exists id :: id in s.pending && !s.pending[id].waiter.Caller? && GoodOutcome(OutcomeOf(cfg, s, e, id))
  }

  predicate GoodOutcome(outcome: Option<Outcome>) {
    outcome.Some? && outcome.value.Answered? && outcome.value.reply.Result?
  }

  /** The health check of a start ends otherwise than well. */
  ghost predicate FailedStart(cfg: Config, s: State, e: Event) {
    exists id :: id in s.pending && s.pending[id].waiter.StartCheck? &&
      OutcomeOf(cfg, s, e, id).Some? && !GoodOutcome(OutcomeOf(cfg, s, e, id))
  }

  //// The restart delay, from the events alone.

  /** Exits, while not stopped, since the last good answer to a health check. */
  ghost function ExitsSinceGoodCheck(cfg: Config, now: nat, events: seq<Event>): nat {
    if events == [] then
      0
    else
      var front, e := events[..|events| - 1], events[|events| - 1];
      var s := Run(cfg, Initial(now), front);
      if GoodCheck(cfg, s, e) then 0
      else if e.Exit? && s.spawned > 0 && !s.stopped then ExitsSinceGoodCheck(cfg, now, front) + 1
      else ExitsSinceGoodCheck(cfg, now, front)
  }

  /** Some reached line among these is a good answer to a pending health check. */
  ghost predicate GoodLines(cfg: Config, s: State, lines: seq<string>) {
    exists id :: id in s.pending && !s.pending[id].waiter.Caller? && GoodReply(FirstReply(cfg, Reached(cfg, lines), id))
  }

  /** Some reached line is an error in answer to the health check of a start. */
  ghost predicate BadLines(cfg: Config, s: State, lines: seq<string>) {
    exists id :: id in s.pending && s.pending[id].waiter.StartCheck? &&
      BadReply(FirstReply(cfg, Reached(cfg, lines), id))
  }

  predicate BadReply(reply: Option<Reply>) {
    reply.Some? && reply.value.Error?
  }

  predicate GoodReply(reply: Option<Reply>) {
    reply.Some? && reply.value.Result?
  }

  lemma {:induction false} MessagesResume(cfg: Config, s: State, lines: seq<string>)
    requires TableOk(s)
    ensures OnMessages(cfg, s, lines).exits == if GoodLines(cfg, s, lines) then 0 else s.exits
    ensures OnMessages(cfg, s, lines).starting == (s.starting && !BadLines(cfg, s, lines))
    decreases |lines|
  {
    hide Meaning, TableOk, Reached, FirstReply, OnMessage;
    if lines == [] || Meaning(cfg, lines[0]).Null? {
      NothingReached(cfg, lines);
    } else {
      var m := Meaning(cfg, lines[0]);
      var u := OnMessage(s, m);
      OneMessageResumes(s, m);
      MessagesResume(cfg, u, lines[1..]);
      forall id | id in s.pending
        ensures FirstReply(cfg, Reached(cfg, lines), id) ==
                if Answers(m, id) then Some(m.reply) else FirstReply(cfg, Reached(cfg, lines[1..]), id)
      {
        FirstReplyStep(cfg, lines, id);
      }
    }
  }

  lemma NothingReached(cfg: Config, lines: seq<string>)
    requires lines == [] || Meaning(cfg, lines[0]).Null?
    ensures forall id: nat :: FirstReply(cfg, Reached(cfg, lines), id).None?
  {
    hide Meaning;
  }

  lemma FirstReplyStep(cfg: Config, lines: seq<string>, id: nat)
    requires lines != [] && !Meaning(cfg, lines[0]).Null?
    ensures var m := Meaning(cfg, lines[0]);
            FirstReply(cfg, Reached(cfg, lines), id) ==
            if Answers(m, id) then Some(m.reply) else FirstReply(cfg, Reached(cfg, lines[1..]), id)
  {
    hide Meaning;
    assert Reached(cfg, lines)[1..] == Reached(cfg, lines[1..]);
  }

  /** One message: it removes the call it answers, and what awaits a health check goes on. */
  lemma OneMessageResumes(s: State, m: Message)
    requires TableOk(s)
    ensures var u := OnMessage(s, m);
            && TableOk(u)
            && u.exits == (if m.Response? && m.id >= 0 && m.id in s.pending && !s.pending[m.id].waiter.Caller? &&
                           m.reply.Result? then 0 else s.exits)
            && u.starting == (s.starting && !(m.Response? && m.id >= 0 && m.id in s.pending &&
                              s.pending[m.id].waiter.StartCheck? && m.reply.Error?))
            && (forall id :: id in u.pending <==> id in s.pending && !Answers(m, id))
            && (forall id :: id in u.pending ==> u.pending[id] == s.pending[id])
  {
    hide Issued;
    if m.Response? && m.id >= 0 && m.id in s.pending {
      FinishKeepsTable(s, m.id, Answered(m.reply));
    }
  }

  lemma ChunkResumes(cfg: Config, s: State, text: string)
    requires TableOk(s) && Enabled(s, Chunk(text))
    ensures var t := OnData(cfg, s, text);
            && t.exits == (if GoodCheck(cfg, s, Chunk(text)) then 0 else s.exits)
            && t.starting == (s.starting && !FailedStart(cfg, s, Chunk(text)))
  {
    hide TableOk, NewLines, Reached, FirstReply, OnMessages, OutcomeOf, GoodOutcome, GoodReply, BadReply;
    var u := s.(lastActivityAt := s.now, stream := s.stream + text);
    var lines := NewLines(cfg.cap, s.stream, text);
    SameTableOk(s, u);
    MessagesResume(cfg, u, lines);
    forall id: nat
      ensures var reply, outcome := FirstReply(cfg, Reached(cfg, lines), id), OutcomeOf(cfg, s, Chunk(text), id);
              && (GoodReply(reply) <==> GoodOutcome(outcome))
              && (BadReply(reply) <==> outcome.Some? && !GoodOutcome(outcome))
    {
      OutcomeOfChunk(cfg, s, text, id);
    }
  }

  lemma OutcomeOfChunk(cfg: Config, s: State, text: string, id: nat)
    requires Enabled(s, Chunk(text))
    ensures var reply := FirstReply(cfg, Reached(cfg, NewLines(cfg.cap, s.stream, text)), id);
            var outcome := OutcomeOf(cfg, s, Chunk(text), id);
            && (GoodReply(reply) <==> GoodOutcome(outcome))
            && (BadReply(reply) <==> outcome.Some? && !GoodOutcome(outcome))
  {
    hide NewLines, Reached, FirstReply;
  }

  lemma SameTableOk(s: State, t: State)
    requires TableOk(s) && t == s.(lastActivityAt := t.lastActivityAt, stream := t.stream)
    ensures TableOk(t)
  {
    hide Issued;
  }

  lemma OnlyChunksAreGood(cfg: Config, s: State, e: Event)
    requires !e.Chunk?
    ensures !GoodCheck(cfg, s, e)
  {
    hide Enabled;
  }

  /** The count goes up with an exit while not stopped, back to zero with a good check, and else stays. */
  lemma ExitsStep(cfg: Config, s: State, e: Event)
    requires TableOk(s)
    ensures Apply(cfg, s, e).exits ==
            if GoodCheck(cfg, s, e) then 0
            else if e.Exit? && s.spawned > 0 && !s.stopped then s.exits + 1
            else s.exits
  {
    hide TableOk, OnData, FinishAll, GoodCheck;
    if !e.Chunk? {
      OnlyChunksAreGood(cfg, s, e);
    }
    match e
    case Chunk(text) =>
      if Enabled(s, e) {
        ChunkResumes(cfg, s, text);
      } else {
        NotEnabledNotGood(cfg, s, e);
      }
    case Exit => FinishAllRest(s.(child := None), Crashed);
    case Stop => FinishAllRest(s.(stopped := true, child := None), Stopped);
    case _ =>
  }

  lemma NotEnabledNotGood(cfg: Config, s: State, e: Event)
    requires !Enabled(s, e)
    ensures !GoodCheck(cfg, s, e)
  {
    hide Enabled;
  }

  /**
   In every reachable state the next restart waits 500 milliseconds doubled for
   every exit since the last good health check, at most 8000; and a crash
   schedules exactly one restart after that delay, none when stopped.
   */
  lemma RestartDelayFromHistory(cfg: Config, now: nat, events: seq<Event>)
    ensures var s, t := Run(cfg, Initial(now), events), Run(cfg, Initial(now), events + [Exit]);
            var delay := Min(500 * Power2(ExitsSinceGoodCheck(cfg, now, events)), 8000);
            && s.restartDelay == delay
            && (s.spawned > 0 ==> t.restarts == if s.stopped then s.restarts else s.restarts + [s.now + delay])
  {
    hide Run, Apply, TableOk, TimingOk, Power2, ExitsSinceGoodCheck;
    ExitsAreCounted(cfg, now, events);
    ReachableStates(cfg, now, events);
    CrashSchedulesRestart(cfg, now, events);
  }

  lemma {:induction false} ExitsAreCounted(cfg: Config, now: nat, events: seq<Event>)
    ensures Run(cfg, Initial(now), events).exits == ExitsSinceGoodCheck(cfg, now, events)
    decreases |events|
  {
    hide Apply, Invariant, GoodCheck;
    if events != [] {
      var front := events[..|events| - 1];
      var s := Run(cfg, Initial(now), front);
      ExitsAreCounted(cfg, now, front);
      ReachableStates(cfg, now, front);
      InvariantParts(cfg, s);
      ExitsStep(cfg, s, events[|events| - 1]);
    }
  }

  //// One start at a time.

  /** A failed health check of a start allows the next one; a present binary begins one. */
  lemma StartingStep(cfg: Config, s: State, e: Event)
    requires TableOk(s)
    ensures Apply(cfg, s, e).starting ==
            if e.Start? && !s.starting then e.present else s.starting && !FailedStart(cfg, s, e)
  {
    hide TableOk, OnData, OnTimer, OnWriteError, OnExit, OnStop, FailedStart;
    if !Enabled(s, e) {
      NothingEnds(cfg, s, e);
    } else {
      match e
      case Tick(elapsed) => NothingEnds(cfg, s, e);
      case Start(present) => NothingEnds(cfg, s, e);
      case Call(fits) => NothingEnds(cfg, s, e);
      case Chunk(text) => ChunkResumes(cfg, s, text);
      case TimerFires(id) => TimerResumes(cfg, s, id);
      case WriteError(id) => WriteErrorResumes(cfg, s, id);
      case Exit => AllResume(cfg, s);
      case RestartFires(k, present) => NothingEnds(cfg, s, e);
      case Stop => AllResume(cfg, s);
    }
  }

  lemma NothingEnds(cfg: Config, s: State, e: Event)
    requires Enabled(s, e) ==> e.Tick? || e.Start? || e.Call? || e.RestartFires?
    ensures !FailedStart(cfg, s, e)
  {
    hide Enabled;
  }

  lemma TimerResumes(cfg: Config, s: State, j: nat)
    requires TableOk(s) && Enabled(s, TimerFires(j))
    ensures OnTimer(cfg, s, j).starting == (s.starting && !FailedStart(cfg, s, TimerFires(j)))
  {
    hide Issued;
    assert j in s.pending;
    var e := TimerFires(j);
    assert OutcomeOf(cfg, s, e, j) == if s.now >= s.lastActivityAt + cfg.idle then Some(TimedOut) else None;
    assert forall id :: id != j ==> OutcomeOf(cfg, s, e, id).None?;
  }

  lemma WriteErrorResumes(cfg: Config, s: State, j: nat)
    requires TableOk(s) && Enabled(s, WriteError(j))
    ensures OnWriteError(s, j).starting == (s.starting && !FailedStart(cfg, s, WriteError(j)))
  {
    hide Issued;
    var e := WriteError(j);
    assert OutcomeOf(cfg, s, e, j) == Some(WriteFailed);
    assert forall id :: id != j ==> OutcomeOf(cfg, s, e, id).None?;
  }

  lemma AllResume(cfg: Config, s: State)
    requires TableOk(s)
    ensures Enabled(s, Exit) ==> OnExit(s).starting == (s.starting && !FailedStart(cfg, s, Exit))
    ensures OnStop(s).starting == (s.starting && !FailedStart(cfg, s, Stop))
  {
    hide Issued;
    assert Enabled(s, Exit) ==> forall id :: OutcomeOf(cfg, s, Exit, id) == Some(Crashed);
    assert forall id :: OutcomeOf(cfg, s, Stop, id) == Some(Stopped);
  }

  /** A start whose health check is pending is the only one, and no other can begin. */
  predicate OneStart(s: State) {
    && (forall id :: id in s.pending && s.pending[id].waiter.StartCheck? ==> s.starting)
    && (forall a, b | a in s.pending && b in s.pending ::
          s.pending[a].waiter.StartCheck? && s.pending[b].waiter.StartCheck? ==> a == b)
  }

  /** Whatever is pending was pending before, or is the call this event entered. */
  lemma NewlyPending(cfg: Config, s: State, e: Event, id: nat)
    requires TableOk(s) && id in Apply(cfg, s, e).pending && id !in s.pending
    ensures id == s.nextId && (e.Call? || (e.Start? && !s.starting && e.present) || e.RestartFires?)
    ensures Apply(cfg, s, e).pending[id] ==
            Pending(s.now, if e.Call? then Caller else if e.Start? then StartCheck else RestartCheck)
  {
    hide Issued, OnMessages, OnCall, OnStartOnce, OnTimer, OnWriteError;
    match e
    case Start(present) =>
      StartOnceEnters(cfg, s.(starting := true), StartCheck, present);
    case Call(fits) =>
      CallEnters(cfg, s, Caller, fits);
    case RestartFires(k, present) =>
      if Enabled(s, e) {
        StartOnceEnters(cfg, s.(restarts := s.restarts[..k] + s.restarts[k + 1..]), RestartCheck, present);
      }
    case Chunk(text) =>
      MessagesFewer(cfg, s.(lastActivityAt := s.now, stream := s.stream + text), NewLines(cfg.cap, s.stream, text));
    case TimerFires(j) =>
      if Enabled(s, e) {
        TimerEntersNone(cfg, s, j);
      }
    case WriteError(j) => WriteErrorEntersNone(s, j);
    case _ =>
  }

  /** No entries but those of s, and perhaps one under the next id. */
  predicate EntersAtMost(s: State, t: State, waiter: Waiter) {
    forall id :: id in t.pending && id !in s.pending ==> id == s.nextId && t.pending[id] == Pending(s.now, waiter)
  }

  lemma CallEnters(cfg: Config, s: State, waiter: Waiter, fits: bool)
    ensures EntersAtMost(s, OnCall(cfg, s, waiter, fits), waiter)
  {
    hide Continue;
    ContinueKeepsTable(s, waiter, Crashed);
    ContinueKeepsTable(s.(nextId := s.nextId + 1, settled := Settled(s.settled, s.nextId, TooLarge)), waiter, TooLarge);
  }

  lemma StartOnceEnters(cfg: Config, s: State, waiter: Waiter, present: bool)
    ensures EntersAtMost(s, OnStartOnce(cfg, s, waiter, present), waiter)
    ensures !present ==> OnStartOnce(cfg, s, waiter, present).pending == s.pending
  {
    hide Continue, OnCall;
    ContinueKeepsTable(s, waiter, Crashed);
    CallEnters(cfg, s.(stopped := false, child := Some(s.spawned), spawned := s.spawned + 1), waiter, true);
  }

  lemma TimerEntersNone(cfg: Config, s: State, j: nat)
    requires TableOk(s) && j in s.timers
    ensures OnTimer(cfg, s, j).pending.Keys <= s.pending.Keys
  {
    hide Issued, Finish;
    FiredThenFinished(s, j, TimedOut);
    FinishFewer(s, j, TimedOut);
  }

  lemma WriteErrorEntersNone(s: State, j: nat)
    ensures OnWriteError(s, j).pending.Keys <= s.pending.Keys
  {
    hide Finish;
    if j in s.pending {
      FinishFewer(s, j, WriteFailed);
    }
  }

  lemma OldStartCheck(cfg: Config, s: State, e: Event, id: nat)
    requires TableOk(s) && OneStart(s) && id in s.pending && id in Apply(cfg, s, e).pending
    ensures Apply(cfg, s, e).pending[id] == s.pending[id]
    ensures s.pending[id].waiter.StartCheck? ==> s.starting && Apply(cfg, s, e).starting
  {
    hide Apply, Issued, OutcomeOf;
    PendingCallAfter(cfg, s, e, id);
    StartingStep(cfg, s, e);
  }

  lemma OneStartStep(cfg: Config, s: State, e: Event)
    requires TableOk(s) && OneStart(s)
    ensures OneStart(Apply(cfg, s, e))
  {
    hide Apply, TableOk;
    var t := Apply(cfg, s, e);
    StartingStep(cfg, s, e);
    forall id | id in t.pending && t.pending[id].waiter.StartCheck?
      ensures t.starting
      ensures if id in s.pending then s.starting && s.pending[id] == t.pending[id] else id == s.nextId && !s.starting
    {
      if id in s.pending {
        OldStartCheck(cfg, s, e, id);
      } else {
        NewlyPending(cfg, s, e, id);
      }
    }
  }

  /** In every reachable state at most one health check of a start is pending, and then no other start begins. */
  lemma {:induction false} OneStartAtATime(cfg: Config, now: nat, events: seq<Event>)
    ensures OneStart(Run(cfg, Initial(now), events))
    decreases |events|
  {
    hide Apply, Invariant, OneStart;
    if events == [] {
      NoStartYet(now);
    } else {
      var s := Run(cfg, Initial(now), events[..|events| - 1]);
      OneStartAtATime(cfg, now, events[..|events| - 1]);
      ReachableStates(cfg, now, events[..|events| - 1]);
      InvariantParts(cfg, s);
      OneStartStep(cfg, s, events[|events| - 1]);
    }
  }

  lemma NoStartYet(now: nat)
    ensures OneStart(Initial(now))
  {
  }

  /** A child was spawned. */
  lemma {:induction false} ChildWasSpawned(cfg: Config, now: nat, events: seq<Event>)
    ensures var s := Run(cfg, Initial(now), events); s.child.Some? ==> s.spawned > 0
    decreases |events|
  {
    hide Apply;
    if events != [] {
      ChildWasSpawned(cfg, now, events[..|events| - 1]);
      SpawnedStep(cfg, Run(cfg, Initial(now), events[..|events| - 1]), events[|events| - 1]);
    }
  }

  lemma SpawnedStep(cfg: Config, s: State, e: Event)
    requires s.child.Some? ==> s.spawned > 0
    ensures var t := Apply(cfg, s, e); t.child.Some? ==> t.spawned > 0
  {
    hide OnMessages;
    if e.Chunk? {
      MessagesKeepChild(cfg, s.(lastActivityAt := s.now, stream := s.stream + e.text),
                        NewLines(cfg.cap, s.stream, e.text));
    }
  }

  //// The process and its flags.

  /** Whether the event spawns a process. */
  predicate Spawns(s: State, e: Event) {
    Enabled(s, e) && ((e.Start? && e.present && !s.starting) || (e.RestartFires? && e.present))
  }

  /**
   What every event does to the process, the clock and the restart timers: an
   exit or stop leaves no process to call, only stop sets the flag and only a
   spawn clears it, and a crash while not stopped adds one timer.
   */
  lemma ProcessAfter(cfg: Config, s: State, e: Event)
    ensures var t := Apply(cfg, s, e);
            && t.child == (if Spawns(s, e) then Some(s.spawned)
                           else if e.Stop? || (e.Exit? && s.spawned > 0) then None
                           else s.child)
            && t.spawned == (if Spawns(s, e) then s.spawned + 1 else s.spawned)
            && t.stopped == (if Spawns(s, e) then false else s.stopped || e.Stop?)
            && t.now == (if e.Tick? then s.now + e.elapsed else s.now)
            && t.lastActivityAt == (if e.Chunk? && s.spawned > 0 then s.now else s.lastActivityAt)
            && |t.restarts| == (if e.Exit? && s.spawned > 0 && !s.stopped then |s.restarts| + 1
                                else if e.RestartFires? && Enabled(s, e) then |s.restarts| - 1
                                else |s.restarts|)
  {
    hide OnMessages, Finish, FinishAll;
    match e
    case Chunk(text) =>
      var u := s.(lastActivityAt := s.now, stream := s.stream + text);
      MessagesKeepChild(cfg, u, NewLines(cfg.cap, s.stream, text));
      MessagesFewer(cfg, u, NewLines(cfg.cap, s.stream, text));
    case TimerFires(id) =>
      if Enabled(s, e) {
        TimerKeepsProcess(cfg, s, id);
      }
    case WriteError(id) => WriteErrorKeepsProcess(s, id);
    case Exit => FinishAllRest(s.(child := None), Crashed);
    case Stop => FinishAllRest(s.(stopped := true, child := None), Stopped);
    case _ =>
  }

  /** The part of the state that settling a call leaves alone. */
  predicate SameProcess(s: State, t: State) {
    && t.child == s.child && t.spawned == s.spawned && t.stopped == s.stopped
    && t.now == s.now && t.lastActivityAt == s.lastActivityAt && t.restarts == s.restarts
  }

  lemma TimerKeepsProcess(cfg: Config, s: State, id: nat)
    requires id in s.timers
    ensures SameProcess(s, OnTimer(cfg, s, id))
  {
  }

  lemma WriteErrorKeepsProcess(s: State, id: nat)
    ensures SameProcess(s, OnWriteError(s, id))
  {
  }
}

/**
 What every run of the sidecar supervisor keeps, and what can settle a call.
 */
module SidecarProofs {
  import opened Text
  import opened Transport
  import opened SidecarSpec

  //// The request table.

  /** The ids given out when `nextId` comes next. */
  function Issued(nextId: nat): set<nat> {
    if nextId <= 1 then {} else Issued(nextId - 1) + {nextId - 1}
  }

  lemma {:induction false} IssuedBelow(nextId: nat, id: nat)
    ensures id in Issued(nextId) <==> 1 <= id < nextId
  {
    if nextId > 1 {
      IssuedBelow(nextId - 1, id);
    }
  }

  /**
   Every issued id is either pending or settled, never both; the armed timers
   are exactly the pending ids; without a child nothing is pending.
   */
  predicate TableOk(s: State) {
    && s.nextId >= 1
    && s.timers.Keys == s.pending.Keys
    && s.pending.Keys !! s.settled.Keys
    && s.pending.Keys + s.settled.Keys == Issued(s.nextId)
    && (s.child.None? ==> s.pending.Keys == {})
  }

  lemma ContinueKeepsTable(s: State, waiter: Waiter, outcome: Outcome)
    ensures var t := Continue(s, waiter, outcome);
            && t == s.(restartDelay := t.restartDelay, exits := t.exits, starting := t.starting)
            && ((t.restartDelay == s.restartDelay && t.exits == s.exits) ||
                (t.restartDelay == RESTART_BASE_MS && t.exits == 0))
  {
  }

  lemma FinishKeepsTable(s: State, id: nat, outcome: Outcome)
    requires TableOk(s) && id in s.pending
    ensures TableOk(Finish(s, id, outcome))
    ensures Finish(s, id, outcome).settled == s.settled[id := outcome]
    ensures Finish(s, id, outcome).pending == s.pending - {id}
  {
    hide Continue, Issued;
    var t := s.(pending := s.pending - {id}, timers := s.timers - {id}, settled := Settled(s.settled, id, outcome));
    ContinueKeepsTable(t, s.pending[id].waiter, outcome);
    assert t.pending.Keys == s.pending.Keys - {id};
    assert t.settled.Keys == s.settled.Keys + {id};
    assert t.timers.Keys == s.timers.Keys - {id};
  }

  lemma FinishAllKeepsTable(s: State, outcome: Outcome)
    requires TableOk(s.(child := Some(0)))
    ensures TableOk(FinishAll(s, outcome))
    ensures FinishAll(s, outcome).settled ==
            map id | id in s.settled.Keys + s.pending.Keys :: if id in s.settled then s.settled[id] else outcome
  {
    hide Issued;
    var t := FinishAll(s, outcome);
    assert t.timers.Keys == {};
    assert t.settled.Keys == s.settled.Keys + s.pending.Keys;
  }

  lemma IssueNext(n: nat)
    requires n >= 1
    ensures Issued(n + 1) == Issued(n) + {n} && n !in Issued(n)
  {
    IssuedBelow(n, n);
  }

  lemma CallKeepsTable(cfg: Config, s: State, waiter: Waiter, fits: bool)
    requires TableOk(s)
    ensures TableOk(OnCall(cfg, s, waiter, fits))
  {
    hide Issued, Continue;
    IssueNext(s.nextId);
    var t := OnCall(cfg, s, waiter, fits);
    if s.child.None? {
      ContinueKeepsTable(s, waiter, Crashed);
    } else if !fits {
      var u := s.(nextId := s.nextId + 1, settled := Settled(s.settled, s.nextId, TooLarge));
      assert u.settled.Keys == s.settled.Keys + {s.nextId};
      ContinueKeepsTable(u, waiter, TooLarge);
    } else {
      assert t.pending.Keys == s.pending.Keys + {s.nextId};
      assert t.timers.Keys == s.timers.Keys + {s.nextId};
    }
  }

  lemma StartOnceKeepsTable(cfg: Config, s: State, waiter: Waiter, present: bool)
    requires TableOk(s)
    ensures TableOk(OnStartOnce(cfg, s, waiter, present))
  {
    hide Issued, Continue, OnCall;
    if present {
      CallKeepsTable(cfg, s.(stopped := false, child := Some(s.spawned), spawned := s.spawned + 1), waiter, true);
    } else {
      ContinueKeepsTable(s, waiter, Crashed);
    }
  }

  lemma {:induction false} MessagesKeepTable(cfg: Config, s: State, lines: seq<string>)
    requires TableOk(s)
    ensures TableOk(OnMessages(cfg, s, lines))
    decreases |lines|
  {
    hide TableOk, Finish;
    if lines != [] {
      var m := Meaning(cfg, lines[0]);
      if m.Response? && m.id >= 0 && m.id in s.pending {
        FinishKeepsTable(s, m.id, Answered(m.reply));
      }
      MessagesKeepTable(cfg, OnMessage(s, m), lines[1..]);
    }
  }

  lemma TimerKeepsTable(cfg: Config, s: State, id: nat)
    requires TableOk(s) && id in s.timers
    ensures TableOk(OnTimer(cfg, s, id))
  {
    hide Issued, Finish;
    var t := OnTimer(cfg, s, id);
    var remaining := cfg.idle - (s.now - s.lastActivityAt);
    if remaining > 0 {
      assert t.timers.Keys == s.timers.Keys + {id} == s.timers.Keys;
    } else {
      FiredThenFinished(s, id, TimedOut);
      FinishKeepsTable(s, id, TimedOut);
    }
  }

  lemma FiredThenFinished(s: State, id: nat, outcome: Outcome)
    requires id in s.pending
    ensures Finish(s.(timers := s.timers - {id}), id, outcome) == Finish(s, id, outcome)
  {
    assert s.timers - {id} - {id} == s.timers - {id};
  }

  lemma DataKeepsTable(cfg: Config, s: State, text: string)
    requires TableOk(s)
    ensures TableOk(OnData(cfg, s, text))
  {
    hide Issued, OnMessages, NewLines;
    MessagesKeepTable(cfg, s.(lastActivityAt := s.now, stream := s.stream + text), NewLines(cfg.cap, s.stream, text));
  }

  lemma WriteErrorKeepsTable(s: State, id: nat)
    requires TableOk(s)
    ensures TableOk(OnWriteError(s, id))
  {
    hide Issued, Finish;
    if id in s.pending {
      FinishKeepsTable(s, id, WriteFailed);
    } else {
      assert s.timers - {id} == s.timers;
    }
  }

  lemma ExitKeepsTable(s: State)
    requires TableOk(s)
    ensures TableOk(OnExit(s))
  {
    hide Issued, FinishAll;
    FinishAllKeepsTable(s.(child := None), Crashed);
  }

  lemma StopKeepsTable(s: State)
    requires TableOk(s)
    ensures TableOk(OnStop(s))
  {
    hide Issued, FinishAll;
    if s.child.Some? {
      FinishAllKeepsTable(s.(stopped := true, child := None), Stopped);
    }
  }

  /** What the table does not depend on. */
  lemma TableIgnores(s: State, t: State)
    requires TableOk(s) && t == s.(now := t.now, starting := t.starting, restarts := t.restarts)
    ensures TableOk(t)
  {
    hide Issued;
  }

  /** Every step of every run keeps the request table consistent. */
  lemma TableKept(cfg: Config, s: State, e: Event)
    requires TableOk(s)
    ensures TableOk(Apply(cfg, s, e))
  {
    hide TableOk, OnStartOnce, OnCall, OnData, OnTimer, OnWriteError, OnExit, OnStop;
    if Enabled(s, e) {
      match e
      case Tick(elapsed) => TableIgnores(s, s.(now := s.now + elapsed));
      case Start(present) =>
        TableIgnores(s, s.(starting := true));
        StartOnceKeepsTable(cfg, s.(starting := true), StartCheck, present);
      case Call(fits) => CallKeepsTable(cfg, s, Caller, fits);
      case Chunk(text) => DataKeepsTable(cfg, s, text);
      case TimerFires(id) => TimerKeepsTable(cfg, s, id);
      case WriteError(id) => WriteErrorKeepsTable(s, id);
      case Exit => ExitKeepsTable(s);
      case RestartFires(k, present) =>
        var t := s.(restarts := s.restarts[..k] + s.restarts[k + 1..]);
        TableIgnores(s, t);
        StartOnceKeepsTable(cfg, t, RestartCheck, present);
      case Stop => StopKeepsTable(s);
    }
  }

  //// Idle deadlines.

  /** Each timer fires a full window after the call, and no later than a window after the last sign of life. */
  ghost predicate TimingOk(cfg: Config, s: State) {
    && s.lastActivityAt <= s.now
    && (forall id :: id in s.pending ==> s.pending[id].calledAt <= s.now)
    && (forall id :: id in s.pending && id in s.timers ==>
          s.pending[id].calledAt + cfg.idle <= s.timers[id] <= Max(s.pending[id].calledAt, s.lastActivityAt) + cfg.idle)
  }

  /** The table entries and timers of t are those of s, possibly fewer. */
  ghost predicate Fewer(s: State, t: State) {
    && t.now == s.now && t.lastActivityAt == s.lastActivityAt
    && (forall id :: id in t.pending ==> id in s.pending && t.pending[id] == s.pending[id])
    && (forall id :: id in t.timers ==> id in s.timers && t.timers[id] == s.timers[id])
  }

  lemma FewerKeepsTiming(cfg: Config, s: State, t: State)
    requires TimingOk(cfg, s) && Fewer(s, t)
    ensures TimingOk(cfg, t)
  {
  }

  lemma FinishFewer(s: State, id: nat, outcome: Outcome)
    requires id in s.pending
    ensures Fewer(s, Finish(s, id, outcome))
  {
    hide Continue;
    var t := s.(pending := s.pending - {id}, timers := s.timers - {id}, settled := Settled(s.settled, id, outcome));
    ContinueKeepsTable(t, s.pending[id].waiter, outcome);
  }

  lemma {:induction false} MessagesFewer(cfg: Config, s: State, lines: seq<string>)
    ensures Fewer(s, OnMessages(cfg, s, lines))
    decreases |lines|
  {
    hide Finish;
    if lines != [] {
      var m := Meaning(cfg, lines[0]);
      if m.Response? && m.id >= 0 && m.id in s.pending {
        FinishFewer(s, m.id, Answered(m.reply));
      }
      MessagesFewer(cfg, OnMessage(s, m), lines[1..]);
    }
  }

  lemma CallKeepsTiming(cfg: Config, s: State, waiter: Waiter, fits: bool)
    requires TableOk(s) && TimingOk(cfg, s)
    ensures TimingOk(cfg, OnCall(cfg, s, waiter, fits))
  {
    hide Issued, Continue, TimingOk;
    var t := OnCall(cfg, s, waiter, fits);
    if s.child.None? {
      ContinueKeepsTable(s, waiter, Crashed);
      FewerKeepsTiming(cfg, s, t);
    } else if !fits {
      ContinueKeepsTable(s.(nextId := s.nextId + 1, settled := Settled(s.settled, s.nextId, TooLarge)), waiter,
                         TooLarge);
      FewerKeepsTiming(cfg, s, t);
    } else {
      NewTimer(cfg, s, waiter);
    }
  }

  lemma NewTimer(cfg: Config, s: State, waiter: Waiter)
    requires TimingOk(cfg, s)
    ensures TimingOk(cfg, s.(nextId := s.nextId + 1, timers := s.timers[s.nextId := s.now + cfg.idle],
                             pending := s.pending[s.nextId := Pending(s.now, waiter)]))
  {
  }

  lemma StartOnceKeepsTiming(cfg: Config, s: State, waiter: Waiter, present: bool)
    requires TableOk(s) && TimingOk(cfg, s)
    ensures TimingOk(cfg, OnStartOnce(cfg, s, waiter, present))
  {
    hide Issued, Continue, OnCall;
    if present {
      CallKeepsTiming(cfg, s.(stopped := false, child := Some(s.spawned), spawned := s.spawned + 1), waiter, true);
    } else {
      ContinueKeepsTable(s, waiter, Crashed);
    }
  }

  lemma TimerKeepsTiming(cfg: Config, s: State, id: nat)
    requires TableOk(s) && TimingOk(cfg, s) && id in s.timers && s.timers[id] <= s.now
    ensures TimingOk(cfg, OnTimer(cfg, s, id))
  {
    hide Finish, Issued;
    if cfg.idle - (s.now - s.lastActivityAt) <= 0 {
      FiredThenFinished(s, id, TimedOut);
      FinishFewer(s, id, TimedOut);
      FewerKeepsTiming(cfg, s, Finish(s, id, TimedOut));
    }
  }

  lemma DataKeepsTiming(cfg: Config, s: State, text: string)
    requires TimingOk(cfg, s)
    ensures TimingOk(cfg, OnData(cfg, s, text))
  {
    hide OnMessages, NewLines;
    var t := s.(lastActivityAt := s.now, stream := s.stream + text);
    var lines := NewLines(cfg.cap, s.stream, text);
    MessagesFewer(cfg, t, lines);
    FewerKeepsTiming(cfg, t, OnMessages(cfg, t, lines));
  }

  lemma WriteErrorKeepsTiming(cfg: Config, s: State, id: nat)
    requires TimingOk(cfg, s)
    ensures TimingOk(cfg, OnWriteError(s, id))
  {
    hide Finish;
    if id in s.pending {
      FinishFewer(s, id, WriteFailed);
      FewerKeepsTiming(cfg, s, Finish(s, id, WriteFailed));
    }
  }

  /** Without pending calls there is nothing to time. */
  lemma NothingTimed(cfg: Config, s: State, t: State)
    requires TimingOk(cfg, s) && t.now == s.now && t.lastActivityAt == s.lastActivityAt && t.pending == map[]
    ensures TimingOk(cfg, t)
  {
  }

  lemma ExitKeepsTiming(cfg: Config, s: State)
    requires TimingOk(cfg, s)
    ensures TimingOk(cfg, OnExit(s))
  {
    hide FinishAll, TimingOk;
    FinishAllEmpties(s.(child := None), Crashed);
    FinishAllRest(s.(child := None), Crashed);
    NothingTimed(cfg, s, OnExit(s));
  }

  lemma StopKeepsTiming(cfg: Config, s: State)
    requires TimingOk(cfg, s)
    ensures TimingOk(cfg, OnStop(s))
  {
    hide FinishAll;
    var t := s.(stopped := true, child := None);
    FinishAllEmpties(t, Stopped);
    FinishAllRest(t, Stopped);
    NothingTimed(cfg, s, FinishAll(t, Stopped));
  }

  /** What the timers do not depend on; and time passing changes no bound. */
  lemma TimingIgnores(cfg: Config, s: State, t: State)
    requires TimingOk(cfg, s) && t == s.(now := t.now, starting := t.starting, restarts := t.restarts) && s.now <= t.now
    ensures TimingOk(cfg, t)
  {
  }

  lemma TimingKept(cfg: Config, s: State, e: Event)
    requires TableOk(s) && TimingOk(cfg, s)
    ensures TimingOk(cfg, Apply(cfg, s, e))
  {
    hide TableOk, TimingOk, OnStartOnce, OnCall, OnData, OnTimer, OnWriteError, OnExit, OnStop;
    if Enabled(s, e) {
      match e
      case Tick(elapsed) => TimingIgnores(cfg, s, s.(now := s.now + elapsed));
      case Start(present) =>
        TableIgnores(s, s.(starting := true));
        TimingIgnores(cfg, s, s.(starting := true));
        StartOnceKeepsTiming(cfg, s.(starting := true), StartCheck, present);
      case Call(fits) => CallKeepsTiming(cfg, s, Caller, fits);
      case Chunk(text) => DataKeepsTiming(cfg, s, text);
      case TimerFires(id) => TimerKeepsTiming(cfg, s, id);
      case WriteError(id) => WriteErrorKeepsTiming(cfg, s, id);
      case Exit => ExitKeepsTiming(cfg, s);
      case RestartFires(k, present) =>
        var t := s.(restarts := s.restarts[..k] + s.restarts[k + 1..]);
        TableIgnores(s, t);
        TimingIgnores(cfg, s, t);
        StartOnceKeepsTiming(cfg, t, RestartCheck, present);
      case Stop => StopKeepsTiming(cfg, s);
    }
  }

  //// Backoff.

  /** The closed form of the restart delay after k consecutive exits. */
  function Backoff(k: nat): nat {
    Min(RESTART_BASE_MS * Power2(k), RESTART_MAX_MS)
  }

  predicate BackoffOk(s: State) {
    s.restartDelay == Backoff(s.exits)
  }

  lemma BackoffDoubles(k: nat)
    ensures Min(Backoff(k) * 2, RESTART_MAX_MS) == Backoff(k + 1)
  {
  }

  lemma {:induction false} MessagesKeepBackoff(cfg: Config, s: State, lines: seq<string>)
    requires BackoffOk(s)
    ensures BackoffOk(OnMessages(cfg, s, lines))
    decreases |lines|
  {
    hide Backoff;
    assert Backoff(0) == RESTART_BASE_MS by {
      FirstBackoff();
    }
    if lines != [] {
      MessagesKeepBackoff(cfg, OnMessage(s, Meaning(cfg, lines[0])), lines[1..]);
    }
  }

  lemma FirstBackoff()
    ensures Backoff(0) == RESTART_BASE_MS
  {
  }

  lemma DataKeepsBackoff(cfg: Config, s: State, text: string)
    requires BackoffOk(s)
    ensures BackoffOk(OnData(cfg, s, text))
  {
    hide OnMessages, Backoff, NewLines;
    MessagesKeepBackoff(cfg, s.(lastActivityAt := s.now, stream := s.stream + text), NewLines(cfg.cap, s.stream, text));
  }

  lemma ExitKeepsBackoff(s: State)
    requires BackoffOk(s)
    ensures BackoffOk(OnExit(s))
  {
    hide FinishAll, Backoff;
    FinishAllRest(s.(child := None), Crashed);
    BackoffDoubles(s.exits);
  }

  /** The delay is always min(500 * 2^k, 8000) for the k exits since the last good health check. */
  lemma BackoffKept(cfg: Config, s: State, e: Event)
    requires BackoffOk(s)
    ensures BackoffOk(Apply(cfg, s, e))
  {
    hide OnData, OnExit, FinishAll, Backoff;
    FirstBackoff();
    if Enabled(s, e) {
      match e
      case Chunk(text) => DataKeepsBackoff(cfg, s, text);
      case Exit => ExitKeepsBackoff(s);
      case Stop => FinishAllRest(s.(stopped := true, child := None), Stopped);
      case _ =>
    }
  }

  //// What settles a call.

  /** The lines of a chunk that are handled: those before the first `null`. */
  function Reached(cfg: Config, lines: seq<string>): (r: seq<string>)
    ensures r <= lines && (forall line :: line in r ==> !Meaning(cfg, line).Null?)
    ensures |r| < |lines| ==> Meaning(cfg, lines[|r|]).Null?
  {
    if lines == [] || Meaning(cfg, lines[0]).Null? then [] else [lines[0]] + Reached(cfg, lines[1..])
  }

  /** Some line among these is the response to call `id`. */
  ghost predicate AnsweredBy(cfg: Config, lines: seq<string>, id: nat, reply: Reply) {
    exists line :: line in lines && Meaning(cfg, line) == Response(id, reply)
  }

  /** The cause of an outcome given to a pending call by event e in state s. */
  ghost predicate CausedBy(cfg: Config, s: State, e: Event, id: nat, outcome: Outcome)
    requires id in s.pending
  {
    match outcome
    case Answered(reply) => e.Chunk? && AnsweredBy(cfg, Reached(cfg, NewLines(cfg.cap, s.stream, e.text)), id, reply)
    case TimedOut =>
      e == TimerFires(id) && s.now >= s.pending[id].calledAt + cfg.idle && s.now >= s.lastActivityAt + cfg.idle
    case Crashed => e.Exit?
    case Stopped => e.Stop?
    case WriteFailed => e == WriteError(id)
    case TooLarge => false
  }

  /** Only pending calls get outcomes, apart from requests refused for their size. */
  ghost predicate NobodyElse(s: State, t: State) {
    forall id :: id in t.settled ==> id in s.settled || id in s.pending || t.settled[id] == TooLarge
  }

  /** Outcomes are only added, and every new one of a pending call has its cause. */
  ghost predicate SettledProperly(cfg: Config, s: State, e: Event, t: State) {
    && NobodyElse(s, t)
    && (forall id :: id in s.settled ==> id in t.settled && t.settled[id] == s.settled[id])
    && (forall id :: id in s.pending ==>
          (id in t.pending && t.pending[id] == s.pending[id] && id !in t.settled) ||
          (id !in t.pending && id in t.settled && CausedBy(cfg, s, e, id, t.settled[id])))
  }

  /** The effect of handling some response lines, relative to the state before. */
  ghost predicate AnsweredProperly(cfg: Config, s: State, lines: seq<string>, t: State) {
    && NobodyElse(s, t)
    && (forall id :: id in s.settled ==> id in t.settled && t.settled[id] == s.settled[id])
    && (forall id :: id in s.pending ==>
          (id in t.pending && t.pending[id] == s.pending[id] && id !in t.settled) ||
          (id !in t.pending && id in t.settled && t.settled[id].Answered? &&
           AnsweredBy(cfg, Reached(cfg, lines), id, t.settled[id].reply)))
  }

  /** One message of a chunk. */
  lemma MessageAnswers(s: State, m: Message)
    requires TableOk(s)
    ensures var u := OnMessage(s, m);
            && TableOk(u) && NobodyElse(s, u) && u.pending.Keys <= s.pending.Keys
            && (forall id :: id in s.settled ==> id in u.settled && u.settled[id] == s.settled[id])
            && (forall id :: id in s.pending ==>
                  (id in u.pending && u.pending[id] == s.pending[id]) ||
                  (id in u.settled && u.settled[id].Answered? && m == Response(id, u.settled[id].reply)))
  {
    hide Finish, Issued;
    if m.Response? && m.id >= 0 && m.id in s.pending {
      FinishKeepsTable(s, m.id, Answered(m.reply));
    }
  }

  lemma {:induction false} MessagesAnswer(cfg: Config, s: State, lines: seq<string>)
    requires TableOk(s)
    ensures AnsweredProperly(cfg, s, lines, OnMessages(cfg, s, lines))
    decreases |lines|
  {
    hide OnMessage, TableOk, Meaning;
    if Reached(cfg, lines) != [] {
      var u := OnMessage(s, Meaning(cfg, lines[0]));
      MessageAnswers(s, Meaning(cfg, lines[0]));
      MessagesAnswer(cfg, u, lines[1..]);
      MessagesKeepTable(cfg, u, lines[1..]);
      FirstAnswers(cfg, s, lines, u, OnMessages(cfg, u, lines[1..]));
    } else {
      NothingSettled(cfg, s, lines);
    }
  }

  lemma NothingSettled(cfg: Config, s: State, lines: seq<string>)
    requires TableOk(s)
    ensures AnsweredProperly(cfg, s, lines, s)
  {
    hide Issued;
  }

  /** The first line's effect, then that of the others. */
  lemma FirstAnswers(cfg: Config, s: State, lines: seq<string>, u: State, t: State)
    requires Reached(cfg, lines) != [] && TableOk(s) && TableOk(t)
    requires u == OnMessage(s, Meaning(cfg, lines[0])) && AnsweredProperly(cfg, u, lines[1..], t)
    ensures AnsweredProperly(cfg, s, lines, t)
  {
    hide OnMessage, Issued, Meaning, AnsweredBy;
    MessageAnswers(s, Meaning(cfg, lines[0]));
    forall id | id in s.pending
      ensures (id in t.pending && t.pending[id] == s.pending[id] && id !in t.settled) ||
              (id !in t.pending && id in t.settled && t.settled[id].Answered? &&
               AnsweredBy(cfg, Reached(cfg, lines), id, t.settled[id].reply))
    {
      if id in u.settled {
        AnsweredFirstOrLater(cfg, lines, id, u.settled[id].reply);
      } else if id in t.settled {
        AnsweredFirstOrLater(cfg, lines, id, t.settled[id].reply);
      }
    }
  }

  lemma AnsweredFirstOrLater(cfg: Config, lines: seq<string>, id: nat, reply: Reply)
    requires Reached(cfg, lines) != []
    requires Meaning(cfg, lines[0]) == Response(id, reply) || AnsweredBy(cfg, Reached(cfg, lines[1..]), id, reply)
    ensures AnsweredBy(cfg, Reached(cfg, lines), id, reply)
  {
    hide Meaning;
    assert Reached(cfg, lines)[0] == lines[0] && Reached(cfg, lines)[1..] == Reached(cfg, lines[1..]);
  }

  lemma NoAnswerNoEffect(s: State, m: Message)
    ensures !m.Response? ==> OnMessage(s, m) == s
  {
  }

  predicate Answers(m: Message, id: nat) {
    m.Response? && m.id == id
  }

  /** The reply of the first response to call `id` among these lines. */
  function FirstReply(cfg: Config, lines: seq<string>, id: nat): (r: Option<Reply>)
    ensures r.None? ==> forall k :: 0 <= k < |lines| ==> !Answers(Meaning(cfg, lines[k]), id)
    ensures r.Some? ==> exists k: nat :: FirstAt(cfg, lines, id, k, r.value)
  {
    if lines == [] then None
    else
      var m := Meaning(cfg, lines[0]);
      if Answers(m, id) then
        assert FirstAt(cfg, lines, id, 0, m.reply);
        Some(m.reply)
      else
        var r := FirstReply(cfg, lines[1..], id);
        assert r.Some? ==> exists k: nat :: FirstAt(cfg, lines, id, k, r.value) by {
          if r.Some? {
            LaterReply(cfg, lines, id, r.value);
          }
        }
        r
  }

  predicate FirstAt(cfg: Config, lines: seq<string>, id: nat, k: nat, reply: Reply) {
    && k < |lines| && Meaning(cfg, lines[k]) == Response(id, reply)
    && forall j :: 0 <= j < k ==> !Answers(Meaning(cfg, lines[j]), id)
  }

  lemma LaterReply(cfg: Config, lines: seq<string>, id: nat, r: Reply)
    requires lines != [] && !Answers(Meaning(cfg, lines[0]), id)
    requires exists k: nat :: FirstAt(cfg, lines[1..], id, k, r)
    ensures exists k: nat :: FirstAt(cfg, lines, id, k, r)
  {
    hide Meaning;
    var k: nat :| FirstAt(cfg, lines[1..], id, k, r);
    assert FirstAt(cfg, lines, id, k + 1, r);
  }

  /** A pending call after a chunk: settled by its first response before any `null`, or exactly as it was. */
  ghost predicate AnsweredFirst(s: State, t: State, id: nat, reply: Option<Reply>)
    requires id in s.pending && id in s.timers
  {
    match reply
    case Some(r) => id !in t.pending && id in t.settled && t.settled[id] == Answered(r)
    case None =>
      && id in t.pending && t.pending[id] == s.pending[id]
      && id in t.timers && t.timers[id] == s.timers[id] && id !in t.settled
  }

  lemma {:induction false} MessagesAnswerFirst(cfg: Config, s: State, lines: seq<string>, id: nat)
    requires TableOk(s) && id in s.pending
    ensures AnsweredFirst(s, OnMessages(cfg, s, lines), id, FirstReply(cfg, Reached(cfg, lines), id))
    decreases |lines|
  {
    hide Issued, Meaning, Continue;
    var reached := Reached(cfg, lines);
    if reached != [] {
      var m := Meaning(cfg, lines[0]);
      var u := OnMessage(s, m);
      if m.Response? && m.id >= 0 && m.id in s.pending {
        FinishKeepsTable(s, m.id, Answered(m.reply));
        FinishFewer(s, m.id, Answered(m.reply));
      }
      assert reached[1..] == Reached(cfg, lines[1..]);
      if Answers(m, id) {
        MessagesAnswer(cfg, u, lines[1..]);
        MessagesKeepTable(cfg, u, lines[1..]);
      } else {
        MessagesAnswerFirst(cfg, u, lines[1..], id);
      }
    }
  }

  /** The clock of the last output and the stream are no part of how a call stands. */
  lemma SameCallsAfter(s: State, u: State, id: nat)
    requires id in s.pending && id in s.timers && u.pending == s.pending && u.timers == s.timers
    ensures forall t, reply :: AnsweredFirst(u, t, id, reply) == AnsweredFirst(s, t, id, reply)
  {
  }

  /**
   Exactly which chunks answer a pending call: those with a response to it
   before the first `null`, and the first such response is its outcome.
   */
  lemma ChunkAnswersExactly(cfg: Config, s: State, text: string, id: nat)
    requires TableOk(s) && s.spawned > 0 && id in s.pending
    ensures AnsweredFirst(s, Apply(cfg, s, Chunk(text)), id,
                          FirstReply(cfg, Reached(cfg, NewLines(cfg.cap, s.stream, text)), id))
  {
    hide Issued, NewLines, OnMessages, FirstReply, Reached, AnsweredFirst;
    SameCallsAfter(s, s.(lastActivityAt := s.now, stream := s.stream + text), id);
    MessagesAnswerFirst(cfg, s.(lastActivityAt := s.now, stream := s.stream + text),
                        NewLines(cfg.cap, s.stream, text), id);
  }

  lemma CallSettlesNobody(cfg: Config, s: State, waiter: Waiter, fits: bool)
    requires TableOk(s)
    ensures var t := OnCall(cfg, s, waiter, fits);
            && NobodyElse(s, t)
            && (forall id :: id in s.settled ==> id in t.settled && t.settled[id] == s.settled[id])
            && (forall id :: id in s.pending ==> id in t.pending && t.pending[id] == s.pending[id] && id !in t.settled)
  {
    hide Issued, Continue;
    IssuedBelow(s.nextId, s.nextId);
    if s.child.None? {
      ContinueKeepsTable(s, waiter, Crashed);
    } else if !fits {
      ContinueKeepsTable(s.(nextId := s.nextId + 1, settled := Settled(s.settled, s.nextId, TooLarge)), waiter,
                         TooLarge);
    }
  }

  lemma StartOnceSettlesNobody(cfg: Config, s: State, waiter: Waiter, present: bool)
    requires TableOk(s)
    ensures var t := OnStartOnce(cfg, s, waiter, present);
            && NobodyElse(s, t)
            && (forall id :: id in s.settled ==> id in t.settled && t.settled[id] == s.settled[id])
            && (forall id :: id in s.pending ==> id in t.pending && t.pending[id] == s.pending[id] && id !in t.settled)
  {
    hide Issued, Continue, OnCall;
    if present {
      CallSettlesNobody(cfg, s.(stopped := false, child := Some(s.spawned), spawned := s.spawned + 1), waiter, true);
    } else {
      ContinueKeepsTable(s, waiter, Crashed);
    }
  }

  lemma TimerSettles(cfg: Config, s: State, id: nat)
    requires TableOk(s) && TimingOk(cfg, s) && Enabled(s, TimerFires(id))
    ensures SettledProperly(cfg, s, TimerFires(id), OnTimer(cfg, s, id))
  {
    hide Finish, Issued, Continue;
    FiredThenFinished(s, id, TimedOut);
    FinishKeepsTable(s, id, TimedOut);
  }

  lemma AllSettle(cfg: Config, s: State, e: Event, u: State, outcome: Outcome)
    requires TableOk(s) && TableOk(u.(child := Some(0)))
    requires u.pending == s.pending && u.settled == s.settled
    requires (e.Exit? && outcome == Crashed) || (e.Stop? && outcome == Stopped)
    ensures SettledProperly(cfg, s, e, FinishAll(u, outcome))
  {
    hide Issued, FinishAll;
    FinishAllKeepsTable(u, outcome);
    assert FinishAll(u, outcome).pending == map[] by {
      FinishAllEmpties(u, outcome);
    }
  }

  lemma FinishAllEmpties(s: State, outcome: Outcome)
    ensures FinishAll(s, outcome).pending == map[]
  {
  }

  lemma OthersSettleNobody(cfg: Config, s: State, e: Event, t: State)
    requires TableOk(s) && NobodyElse(s, t)
    requires forall id :: id in s.settled ==> id in t.settled && t.settled[id] == s.settled[id]
    requires forall id :: id in s.pending ==> id in t.pending && t.pending[id] == s.pending[id] && id !in t.settled
    ensures SettledProperly(cfg, s, e, t)
  {
    hide CausedBy;
  }

  /**
   One step at a time: a settled call keeps its outcome for good, and a pending
   call leaves the table only with an outcome whose cause is this very event:
   its own response line, its own timer after a silent window, its own write
   error, the child's exit, or stop.
   */
  lemma SettlingHasItsCause(cfg: Config, s: State, e: Event)
    requires TableOk(s) && TimingOk(cfg, s)
    ensures SettledProperly(cfg, s, e, Apply(cfg, s, e))
  {
    hide OnStartOnce, OnCall, OnMessages, OnTimer, Finish, FinishAll, Issued, Continue, TimingOk, SettledProperly;
    var t := Apply(cfg, s, e);
    if !Enabled(s, e) {
      OthersSettleNobody(cfg, s, e, t);
    } else {
      match e
      case Start(present) =>
        StartOnceSettlesNobody(cfg, s.(starting := true), StartCheck, present);
        OthersSettleNobody(cfg, s, e, t);
      case Call(fits) =>
        CallSettlesNobody(cfg, s, Caller, fits);
        OthersSettleNobody(cfg, s, e, t);
      case Chunk(text) => ChunkSettles(cfg, s, text);
      case TimerFires(id) => TimerSettles(cfg, s, id);
      case WriteError(id) =>
        if id in s.pending {
          FinishKeepsTable(s, id, WriteFailed);
          WriteErrorSettles(cfg, s, id);
        } else {
          OthersSettleNobody(cfg, s, e, t);
        }
      case Exit =>
        var u := s.(child := None);
        AllSettle(cfg, s, e, u, Crashed);
        SameTable(cfg, s, e, FinishAll(u, Crashed), t);
      case RestartFires(k, present) =>
        StartOnceSettlesNobody(cfg, s.(restarts := s.restarts[..k] + s.restarts[k + 1..]), RestartCheck, present);
        OthersSettleNobody(cfg, s, e, t);
      case Stop =>
        if s.child.Some? {
          AllSettle(cfg, s, e, s.(stopped := true, child := None), Stopped);
        } else {
          OthersSettleNobody(cfg, s, e, t);
        }
      case Tick(_) => OthersSettleNobody(cfg, s, e, t);
    }
  }

  lemma ChunkSettles(cfg: Config, s: State, text: string)
    requires TableOk(s)
    ensures SettledProperly(cfg, s, Chunk(text), OnData(cfg, s, text))
  {
    hide OnMessages, Issued, NewLines;
    MessagesAnswer(cfg, s.(lastActivityAt := s.now, stream := s.stream + text), NewLines(cfg.cap, s.stream, text));
  }

  lemma WriteErrorSettles(cfg: Config, s: State, id: nat)
    requires TableOk(s) && id in s.pending
    ensures SettledProperly(cfg, s, WriteError(id), Finish(s, id, WriteFailed))
  {
    hide Finish, Issued;
    FinishKeepsTable(s, id, WriteFailed);
  }

  lemma SameTable(cfg: Config, s: State, e: Event, t: State, t': State)
    requires SettledProperly(cfg, s, e, t) && t'.pending == t.pending && t'.settled == t.settled
    ensures SettledProperly(cfg, s, e, t')
  {
    hide CausedBy;
  }

  //// Whole runs.

  ghost predicate Invariant(cfg: Config, s: State) {
    TableOk(s) && TimingOk(cfg, s) && BackoffOk(s)
  }

  //// What each handler keeps, enabled or not.

  lemma StepKeeps(cfg: Config, s: State, e: Event)
    requires Invariant(cfg, s)
    ensures Invariant(cfg, Apply(cfg, s, e))
  {
    hide Apply, TableOk, TimingOk, BackoffOk;
    TableKept(cfg, s, e);
    TimingKept(cfg, s, e);
    BackoffKept(cfg, s, e);
  }

  /** The flags, the histories and the scheduled restarts are free; a child may appear. */
  lemma RestIsFree(cfg: Config, s: State, t: State)
    requires Invariant(cfg, s) && (s.child.Some? ==> t.child.Some?)
    requires t == s.(child := t.child, spawned := t.spawned, starting := t.starting, stopped := t.stopped,
                     restarts := t.restarts, stream := t.stream)
    ensures Invariant(cfg, t)
  {
    hide Issued, Backoff;
  }

  lemma CallKeeps(cfg: Config, s: State, waiter: Waiter, fits: bool)
    requires Invariant(cfg, s)
    ensures Invariant(cfg, OnCall(cfg, s, waiter, fits))
  {
    hide TableOk, TimingOk, Backoff;
    CallKeepsTable(cfg, s, waiter, fits);
    CallKeepsTiming(cfg, s, waiter, fits);
  }

  lemma StartOnceKeeps(cfg: Config, s: State, waiter: Waiter, present: bool)
    requires Invariant(cfg, s)
    ensures Invariant(cfg, OnStartOnce(cfg, s, waiter, present))
  {
    hide TableOk, TimingOk, Backoff;
    StartOnceKeepsTable(cfg, s, waiter, present);
    StartOnceKeepsTiming(cfg, s, waiter, present);
  }

  lemma DataKeeps(cfg: Config, s: State, text: string)
    requires Invariant(cfg, s)
    ensures Invariant(cfg, OnData(cfg, s, text))
  {
    hide TableOk, TimingOk, BackoffOk, OnData;
    DataKeepsTable(cfg, s, text);
    DataKeepsTiming(cfg, s, text);
    DataKeepsBackoff(cfg, s, text);
  }

  lemma ExitKeeps(cfg: Config, s: State)
    requires Invariant(cfg, s)
    ensures Invariant(cfg, OnExit(s))
  {
    hide TableOk, TimingOk, BackoffOk, OnExit;
    ExitKeepsTable(s);
    ExitKeepsTiming(cfg, s);
    ExitKeepsBackoff(s);
  }

  lemma WriteErrorKeeps(cfg: Config, s: State, id: nat)
    requires Invariant(cfg, s)
    ensures Invariant(cfg, OnWriteError(s, id))
  {
    hide TableOk, TimingOk, Backoff;
    WriteErrorKeepsTable(s, id);
    WriteErrorKeepsTiming(cfg, s, id);
  }

  /** Every reachable state satisfies the table, timing and backoff invariants. */
  lemma {:induction false} ReachableStates(cfg: Config, now: nat, events: seq<Event>)
    ensures Invariant(cfg, Run(cfg, Initial(now), events))
    decreases |events|
  {
    hide Apply, TableOk, TimingOk, BackoffOk;
    if events == [] {
      InitialOk(cfg, now);
    } else {
      var front := events[..|events| - 1];
      var s := Run(cfg, Initial(now), front);
      ReachableStates(cfg, now, front);
      TableKept(cfg, s, events[|events| - 1]);
      TimingKept(cfg, s, events[|events| - 1]);
      BackoffKept(cfg, s, events[|events| - 1]);
    }
  }

  lemma InitialOk(cfg: Config, now: nat)
    ensures TableOk(Initial(now)) && TimingOk(cfg, Initial(now)) && BackoffOk(Initial(now))
  {
    FirstBackoff();
  }

  /**
   In every reachable state a crash schedules exactly one restart, after the
   closed-form delay for the exits since the last good health check; none when
   stopped.
   */
  lemma CrashSchedulesRestart(cfg: Config, now: nat, events: seq<Event>)
    ensures var s, t := Run(cfg, Initial(now), events), Run(cfg, Initial(now), events + [Exit]);
            s.spawned > 0 ==>
              t.restarts == if s.stopped then s.restarts else s.restarts + [s.now + Backoff(s.exits)]
  {
    hide Run, TableOk, TimingOk, FinishAll, Backoff;
    ReachableStates(cfg, now, events);
    RunStep(cfg, Initial(now), events, Exit);
    var s := Run(cfg, Initial(now), events);
    FinishAllRest(s.(child := None), Crashed);
  }

  lemma RunStep(cfg: Config, s: State, events: seq<Event>, e: Event)
    ensures Run(cfg, s, events + [e]) == Apply(cfg, Run(cfg, s, events), e)
  {
    hide Apply;
    assert (events + [e])[..|events|] == events;
  }

  lemma {:induction false} RunAppend(cfg: Config, s: State, a: seq<Event>, b: seq<Event>)
    ensures Run(cfg, s, a + b) == Run(cfg, Run(cfg, s, a), b)
    decreases |b|
  {
    hide Apply;
    if b == [] {
      assert a + b == a;
    } else {
      var n := |b| - 1;
      RunAppend(cfg, s, a, b[..n]);
      assert a + b == (a + b[..n]) + [b[n]];
      RunStep(cfg, s, a + b[..n], b[n]);
    }
  }

  lemma RunOne(cfg: Config, s: State, e: Event)
    ensures Run(cfg, s, [e]) == Apply(cfg, s, e)
  {
    hide Apply;
    RunStep(cfg, s, [], e);
    assert [] + [e] == [e];
  }

  /** A chunk whose handled lines answer only calls no longer pending changes neither table nor outcomes. */
  lemma LateResponsesAreIgnored(cfg: Config, now: nat, events: seq<Event>, text: string)
    requires forall line :: line in Reached(cfg, NewLines(cfg.cap, Run(cfg, Initial(now), events).stream, text)) ==>
               Late(Run(cfg, Initial(now), events), Meaning(cfg, line))
    ensures var s, t := Run(cfg, Initial(now), events), Run(cfg, Initial(now), events + [Chunk(text)]);
            s.spawned > 0 ==> t == s.(lastActivityAt := s.now, stream := s.stream + text)
  {
    hide Run, TimingOk, BackoffOk, NewLines, Issued, OnMessages, Reached, Meaning;
    ReachableStates(cfg, now, events);
    RunStep(cfg, Initial(now), events, Chunk(text));
    var s := Run(cfg, Initial(now), events);
    NobodyPendingAnswered(cfg, s.(lastActivityAt := s.now, stream := s.stream + text),
                          NewLines(cfg.cap, s.stream, text));
  }

  /** A message that is no answer, or an answer to a call already settled. */
  predicate Late(s: State, m: Message) {
    m.Response? ==> m.id >= 0 && m.id in s.settled
  }

  lemma {:induction false} NobodyPendingAnswered(cfg: Config, s: State, lines: seq<string>)
    requires s.pending.Keys !! s.settled.Keys
    requires forall line :: line in Reached(cfg, lines) ==> Late(s, Meaning(cfg, line))
    ensures OnMessages(cfg, s, lines) == s
    decreases |lines|
  {
    hide Finish, Meaning;
    var reached := Reached(cfg, lines);
    if reached != [] {
      assert reached[0] in reached && Late(s, Meaning(cfg, lines[0]));
      assert reached[1..] == Reached(cfg, lines[1..]);
      NobodyPendingAnswered(cfg, s, lines[1..]);
    }
  }

  /** An outcome, once given, is the outcome for the rest of the run. */
  lemma {:induction false} OutcomesAreForever(cfg: Config, s: State, events: seq<Event>, id: nat)
    requires Invariant(cfg, s) && id in s.settled
    ensures var t := Run(cfg, s, events);
            Invariant(cfg, t) && id in t.settled && t.settled[id] == s.settled[id] && id !in t.pending
    decreases |events|
  {
    hide Apply, TimingOk, BackoffOk, Issued, SettledProperly;
    if events != [] {
      var t := Run(cfg, s, events[..|events| - 1]);
      var e := events[|events| - 1];
      OutcomesAreForever(cfg, s, events[..|events| - 1], id);
      TableKept(cfg, t, e);
      TimingKept(cfg, t, e);
      BackoffKept(cfg, t, e);
      SettlingHasItsCause(cfg, t, e);
      assert id in Apply(cfg, t, e).settled && Apply(cfg, t, e).settled[id] == t.settled[id] by {
        KeepsOutcome(cfg, t, e, Apply(cfg, t, e), id);
      }
    }
  }

  lemma KeepsOutcome(cfg: Config, s: State, e: Event, t: State, id: nat)
    requires SettledProperly(cfg, s, e, t) && id in s.settled
    ensures id in t.settled && t.settled[id] == s.settled[id]
  {
  }

  /** A new call gets an id no call has had before, in this process or an earlier one. */
  lemma FreshId(cfg: Config, now: nat, events: seq<Event>)
    ensures var s := Run(cfg, Initial(now), events);
            s.nextId !in s.pending && s.nextId !in s.settled
  {
    hide Run, TimingOk, BackoffOk, Issued;
    ReachableStates(cfg, now, events);
    var s := Run(cfg, Initial(now), events);
    IssuedBelow(s.nextId, s.nextId);
  }

  /** Every answered call was answered by a line of the received output that carries its own id. */
  ghost predicate Provenance(cfg: Config, s: State) {
    forall id :: id in s.settled && s.settled[id].Answered? ==>
      AnsweredBy(cfg, Kept(cfg.cap, s.stream), id, s.settled[id].reply)
  }

  lemma {:induction false} AnswersComeFromOwnLines(cfg: Config, now: nat, events: seq<Event>)
    ensures Provenance(cfg, Run(cfg, Initial(now), events))
    decreases |events|
  {
    hide Apply, Invariant, Provenance;
    if events == [] {
      NothingAnswered(cfg, now);
    } else {
      var front, e := events[..|events| - 1], events[|events| - 1];
      var s := Run(cfg, Initial(now), front);
      AnswersComeFromOwnLines(cfg, now, front);
      ReachableStates(cfg, now, front);
      ProvenanceKept(cfg, s, e);
    }
  }

  lemma NothingAnswered(cfg: Config, now: nat)
    ensures Provenance(cfg, Initial(now))
  {
  }

  lemma ProvenanceKept(cfg: Config, s: State, e: Event)
    requires Invariant(cfg, s) && Provenance(cfg, s)
    ensures Provenance(cfg, Apply(cfg, s, e))
  {
    hide Apply, TableOk, TimingOk, BackoffOk, AnsweredBy, Kept, NewLines;
    var t := Apply(cfg, s, e);
    SettlingHasItsCause(cfg, s, e);
    StreamGrows(cfg, s, e);
    forall id | id in t.settled && t.settled[id].Answered?
      ensures AnsweredBy(cfg, Kept(cfg.cap, t.stream), id, t.settled[id].reply)
    {
      var reply := t.settled[id].reply;
      if id in s.settled {
        StillAnswered(cfg, s.stream, t.stream, id, reply);
      } else {
        assert id in s.pending && CausedBy(cfg, s, e, id, t.settled[id]);
        AnsweredAmongMore(cfg, NewLines(cfg.cap, s.stream, e.text), id, reply);
        NewlyAnswered(cfg, s.stream, e.text, id, reply);
        assert t.stream == s.stream + e.text;
      }
    }
  }

  lemma AnsweredAmongMore(cfg: Config, lines: seq<string>, id: nat, reply: Reply)
    requires AnsweredBy(cfg, Reached(cfg, lines), id, reply)
    ensures AnsweredBy(cfg, lines, id, reply)
  {
    hide Meaning;
  }

  lemma {:induction false} MessagesKeepStream(cfg: Config, s: State, lines: seq<string>)
    ensures OnMessages(cfg, s, lines).stream == s.stream
    decreases |lines|
  {
    if lines != [] {
      MessagesKeepStream(cfg, OnMessage(s, Meaning(cfg, lines[0])), lines[1..]);
    }
  }

  /** Only output extends the stream; output arrives only from a process that was spawned. */
  lemma StreamGrows(cfg: Config, s: State, e: Event)
    ensures Apply(cfg, s, e).stream ==
            if e.Chunk? && Enabled(s, e) then s.stream + e.text else s.stream
    ensures e.Chunk? && !Enabled(s, e) ==> Apply(cfg, s, e) == s
  {
    hide OnMessages;
    if e.Chunk? {
      MessagesKeepStream(cfg, s.(lastActivityAt := s.now, stream := s.stream + e.text),
                         NewLines(cfg.cap, s.stream, e.text));
    }
  }

  lemma StillAnswered(cfg: Config, stream: string, stream': string, id: nat, reply: Reply)
    requires AnsweredBy(cfg, Kept(cfg.cap, stream), id, reply)
    requires stream <= stream'
    ensures AnsweredBy(cfg, Kept(cfg.cap, stream'), id, reply)
  {
    hide Kept, NewLines;
    assert stream' == stream + stream'[|stream|..];
    var _ := NewLines(cfg.cap, stream, stream'[|stream|..]);
  }

  lemma NewlyAnswered(cfg: Config, stream: string, chunk: string, id: nat, reply: Reply)
    requires AnsweredBy(cfg, NewLines(cfg.cap, stream, chunk), id, reply)
    ensures AnsweredBy(cfg, Kept(cfg.cap, stream + chunk), id, reply)
  {
    hide Kept, NewLines;
  }

  //// Deadlines, the other way: with punctual timers nobody waits past a silent window.

  /** The clock never runs past an armed timer before that timer has fired. */
  predicate Punctual(s: State, e: Event) {
    e.Tick? ==> forall id :: id in s.timers ==> s.now + e.elapsed <= s.timers[id]
  }

  predicate PunctualRun(cfg: Config, s: State, events: seq<Event>) {
    events == [] ||
    (PunctualRun(cfg, s, events[..|events| - 1]) &&
     Punctual(Run(cfg, s, events[..|events| - 1]), events[|events| - 1]))
  }

  predicate NoTimerOverdue(s: State) {
    forall id :: id in s.timers ==> s.now <= s.timers[id]
  }

  lemma CallNotOverdue(cfg: Config, s: State, waiter: Waiter, fits: bool)
    requires NoTimerOverdue(s)
    ensures NoTimerOverdue(OnCall(cfg, s, waiter, fits))
  {
    hide Continue;
    if s.child.None? {
      ContinueKeepsTable(s, waiter, Crashed);
    } else if !fits {
      ContinueKeepsTable(s.(nextId := s.nextId + 1, settled := Settled(s.settled, s.nextId, TooLarge)), waiter,
                         TooLarge);
    }
  }

  lemma StartOnceNotOverdue(cfg: Config, s: State, waiter: Waiter, present: bool)
    requires NoTimerOverdue(s)
    ensures NoTimerOverdue(OnStartOnce(cfg, s, waiter, present))
  {
    hide Continue, OnCall;
    if present {
      CallNotOverdue(cfg, s.(stopped := false, child := Some(s.spawned), spawned := s.spawned + 1), waiter, true);
    } else {
      ContinueKeepsTable(s, waiter, Crashed);
    }
  }

  lemma PunctualStep(cfg: Config, s: State, e: Event)
    requires TableOk(s) && NoTimerOverdue(s) && Punctual(s, e)
    ensures NoTimerOverdue(Apply(cfg, s, e))
  {
    hide OnStartOnce, OnCall, OnMessages, Finish, Issued, Continue;
    if Enabled(s, e) {
      match e
      case Start(present) => StartOnceNotOverdue(cfg, s.(starting := true), StartCheck, present);
      case Call(fits) => CallNotOverdue(cfg, s, Caller, fits);
      case Chunk(text) =>
        MessagesFewer(cfg, s.(lastActivityAt := s.now, stream := s.stream + text), NewLines(cfg.cap, s.stream, text));
      case TimerFires(id) =>
        FiredThenFinished(s, id, TimedOut);
        FinishFewer(s, id, TimedOut);
      case WriteError(id) =>
        if id in s.pending {
          FinishFewer(s, id, WriteFailed);
        }
      case RestartFires(k, present) =>
        StartOnceNotOverdue(cfg, s.(restarts := s.restarts[..k] + s.restarts[k + 1..]), RestartCheck, present);
      case _ =>
    }
  }

  lemma {:induction false} PunctualRunNotOverdue(cfg: Config, now: nat, events: seq<Event>)
    requires PunctualRun(cfg, Initial(now), events)
    ensures NoTimerOverdue(Run(cfg, Initial(now), events))
    decreases |events|
  {
    hide Apply, Invariant, Punctual;
    if events != [] {
      var front, e := events[..|events| - 1], events[|events| - 1];
      PunctualRunNotOverdue(cfg, now, front);
      ReachableStates(cfg, now, front);
      assert TableOk(Run(cfg, Initial(now), front)) by {
        InvariantParts(cfg, Run(cfg, Initial(now), front));
      }
      PunctualStep(cfg, Run(cfg, Initial(now), front), e);
    }
  }

  lemma InvariantParts(cfg: Config, s: State)
    requires Invariant(cfg, s)
    ensures TableOk(s) && TimingOk(cfg, s) && BackoffOk(s)
  {
  }

  /** No call is left waiting longer than one window past its start or the last output, whichever is later. */
  lemma NobodyWaitsPastTheWindow(cfg: Config, now: nat, events: seq<Event>)
    requires PunctualRun(cfg, Initial(now), events)
    ensures var s := Run(cfg, Initial(now), events);
            forall id :: id in s.pending ==> s.now <= Max(s.pending[id].calledAt, s.lastActivityAt) + cfg.idle
  {
    hide Run, BackoffOk, Issued, PunctualRun;
    ReachableStates(cfg, now, events);
    PunctualRunNotOverdue(cfg, now, events);
    var s := Run(cfg, Initial(now), events);
    assert s.timers.Keys == s.pending.Keys;
  }

  //// Stop.

  predicate NoStart(events: seq<Event>) {
    forall e :: e in events ==> !e.Start?
  }

  predicate Halted(s: State) {
    s.stopped && s.child.None? && s.restarts == []
  }

  lemma HaltedStays(cfg: Config, s: State, e: Event)
    requires TableOk(s) && Halted(s) && !e.Start?
    ensures Halted(Apply(cfg, s, e)) && Apply(cfg, s, e).spawned == s.spawned
  {
    hide OnMessages, Issued, TimingOk;
    if Enabled(s, e) && e.Chunk? {
      var t := s.(lastActivityAt := s.now, stream := s.stream + e.text);
      NoPendingNoEffect(cfg, t, NewLines(cfg.cap, s.stream, e.text));
    }
  }

  lemma {:induction false} NoPendingNoEffect(cfg: Config, s: State, lines: seq<string>)
    requires s.pending.Keys == {}
    ensures OnMessages(cfg, s, lines) == s
    decreases |lines|
  {
    if lines != [] {
      NoPendingNoEffect(cfg, s, lines[1..]);
    }
  }

  lemma {:induction false} NoSpawnAfterStop(cfg: Config, s: State, events: seq<Event>)
    requires TableOk(s) && Halted(s) && NoStart(events)
    ensures var t := Run(cfg, s, events);
            TableOk(t) && Halted(t) && t.spawned == s.spawned
    decreases |events|
  {
    hide Apply, TableOk, Halted;
    if events != [] {
      var front := events[..|events| - 1];
      assert forall e :: e in front ==> e in events;
      NoSpawnAfterStop(cfg, s, front);
      assert events[|events| - 1] in events;
      TableKept(cfg, Run(cfg, s, front), events[|events| - 1]);
      HaltedStays(cfg, Run(cfg, s, front), events[|events| - 1]);
    }
  }

  /** Letting the first outstanding restart timer fire. */
  function Revival(s: State): seq<Event>
    requires s.restarts != []
  {
    [Tick(s.restarts[0]), RestartFires(0, true)]
  }

  /** A restart timer set before stop still fires, clears the stop flag and spawns. */
  lemma RestartOutlivesStop(cfg: Config, s: State)
    requires s.restarts != []
    ensures var t := Run(cfg, OnStop(s), Revival(s));
            NoStart(Revival(s)) && t.spawned == s.spawned + 1 && !t.stopped && t.child.Some?
  {
    hide Run, FinishAll;
    var u := OnStop(s);
    FinishAllRest(s.(stopped := true, child := None), Stopped);
    RunOne(cfg, u, Tick(s.restarts[0]));
    RunStep(cfg, u, [Tick(s.restarts[0])], RestartFires(0, true));
    assert [Tick(s.restarts[0])] + [RestartFires(0, true)] == Revival(s);
  }

  /** Such a timer is outstanding after the very first crash, so stop can be undone in a run from the beginning. */
  lemma StopIsUndoneAfterACrash(cfg: Config, now: nat)
    ensures var s := Run(cfg, Initial(now), [Start(true), Exit]);
            && s.restarts == [now + RESTART_BASE_MS] && s.spawned == 1
            && NoStart(Revival(s))
            && var t := Run(cfg, OnStop(s), Revival(s));
               t.spawned == 2 && !t.stopped && t.child.Some?
  {
    hide Run;
    RunOne(cfg, Initial(now), Start(true));
    RunStep(cfg, Initial(now), [Start(true)], Exit);
    assert [Start(true)] + [Exit] == [Start(true), Exit];
    RestartOutlivesStop(cfg, Run(cfg, Initial(now), [Start(true), Exit]));
  }

  /**
   Stop terminates the service for good if and only if no restart timer is
   outstanding when it is called.
   */
  lemma StopIsFinalExactlyWithoutRestartTimer(cfg: Config, s: State)
    requires TableOk(s)
    ensures (forall events :: NoStart(events) ==> Run(cfg, OnStop(s), events).spawned == s.spawned)
            <==> s.restarts == []
  {
    hide Run, TableOk;
    if s.restarts == [] {
      StopHalts(s);
      forall events | NoStart(events)
        ensures Run(cfg, OnStop(s), events).spawned == s.spawned
      {
        NoSpawnAfterStop(cfg, OnStop(s), events);
      }
    } else {
      RestartOutlivesStop(cfg, s);
    }
  }

  lemma StopHalts(s: State)
    requires TableOk(s) && s.restarts == []
    ensures TableOk(OnStop(s)) && Halted(OnStop(s)) && OnStop(s).spawned == s.spawned
  {
    hide Issued, FinishAll;
    if s.child.Some? {
      FinishAllKeepsTable(s.(stopped := true, child := None), Stopped);
      FinishAllRest(s.(stopped := true, child := None), Stopped);
    }
  }

  lemma FinishAllRest(s: State, outcome: Outcome)
    ensures var t := FinishAll(s, outcome);
            t == s.(pending := t.pending, timers := t.timers, settled := t.settled, starting := t.starting)
  {
  }

  //// Supervision.

  /** A crashed sidecar that was not stopped always has a restart coming. */
  predicate Supervised(s: State) {
    s.spawned > 0 && !s.stopped && s.child.None? ==> s.restarts != []
  }

  predicate BinaryPresent(e: Event) {
    (e.Start? ==> e.present) && (e.RestartFires? ==> e.present)
  }

  lemma {:induction false} MessagesKeepChild(cfg: Config, s: State, lines: seq<string>)
    ensures var t := OnMessages(cfg, s, lines);
            t.child == s.child && t.spawned == s.spawned && t.stopped == s.stopped && t.restarts == s.restarts
    decreases |lines|
  {
    if lines != [] {
      MessagesKeepChild(cfg, OnMessage(s, Meaning(cfg, lines[0])), lines[1..]);
    }
  }

  lemma SupervisedStep(cfg: Config, s: State, e: Event)
    requires Supervised(s) && BinaryPresent(e)
    ensures Supervised(Apply(cfg, s, e))
  {
    hide OnMessages;
    if e.Chunk? {
      MessagesKeepChild(cfg, s.(lastActivityAt := s.now, stream := s.stream + e.text),
                        NewLines(cfg.cap, s.stream, e.text));
    }
  }

  lemma {:induction false} SupervisedRuns(cfg: Config, now: nat, events: seq<Event>)
    requires forall e :: e in events ==> BinaryPresent(e)
    ensures Supervised(Run(cfg, Initial(now), events))
    decreases |events|
  {
    hide Apply, Supervised, BinaryPresent;
    if events == [] {
      assert Supervised(Initial(now)) by {
        NotStartedYet(now);
      }
    } else {
      var front := events[..|events| - 1];
      assert forall e :: e in front ==> e in events;
      SupervisedRuns(cfg, now, front);
      assert events[|events| - 1] in events;
      SupervisedStep(cfg, Run(cfg, Initial(now), front), events[|events| - 1]);
    }
  }

  lemma NotStartedYet(now: nat)
    ensures Supervised(Initial(now))
  {
  }
}

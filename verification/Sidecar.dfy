/**
 The sidecar supervisor as the object it is: fields updated by handlers. Each
 handler makes exactly the transition of the specification, and keeps the
 invariants of its reachable states as the object's own.

 The time is a parameter of every handler and never runs back; timers that the
 runtime keeps are fields.
 */
module SidecarObject {
  import opened Text
  import opened Transport
  import opened SidecarSpec
  import opened SidecarProofs

  /** Midway through rejecting: the calls in `done` are settled and their timers cleared. */
  ghost function Partial(s: State, done: set<nat>, outcome: Outcome): (t: State)
    requires done <= s.pending.Keys
    ensures t.pending == s.pending
  {
    s.(timers := s.timers - done, settled := SettleEach(s.settled, done, outcome),
       starting := s.starting && !(exists id :: id in done && s.pending[id].waiter.StartCheck?))
  }

  lemma PartialNone(s: State, outcome: Outcome)
    ensures Partial(s, {}, outcome) == s
  {
    assert s.timers - {} == s.timers;
    assert SettleEach(s.settled, {}, outcome) == s.settled;
  }

  lemma PartialStep(s: State, done: set<nat>, id: nat, outcome: Outcome)
    requires done <= s.pending.Keys && id in s.pending && id !in done && !outcome.Answered?
    ensures var t := Partial(s, done, outcome);
            Continue(t.(timers := t.timers - {id}, settled := Settled(t.settled, id, outcome)),
                     s.pending[id].waiter, outcome) == Partial(s, done + {id}, outcome)
  {
    var t := Partial(s, done, outcome);
    assert t.timers - {id} == s.timers - (done + {id});
    assert Settled(t.settled, id, outcome) == SettleEach(s.settled, done + {id}, outcome);
  }

  lemma PartialAll(s: State, outcome: Outcome)
    ensures Partial(s, s.pending.Keys, outcome).(pending := map[]) == FinishAll(s, outcome)
  {
  }

  class Sidecar {
    const cfg: Config
    const lines: LineBuffer
    var child: Option<nat>
    var pending: map<nat, Pending>
    var timers: map<nat, nat>
    var nextId: nat
    var stopped: bool
    var starting: bool
    var restartDelay: nat
    var restarts: seq<nat>
    var lastActivityAt: nat
    var spawned: nat
    ghost var settled: map<nat, Outcome>
    ghost var exits: nat
    ghost var clock: nat

    /** The line buffer's part of validity, which holds also in the middle of a handler. */
    ghost predicate Framed()
      reads this, lines
    {
      lines.Valid() && lines.maxLineLength == cfg.cap
    }

    /** Between handlers: request table, timers and backoff are as in every reachable state. */
    ghost predicate Valid()
      reads this, lines
    {
      Framed() && Invariant(cfg, View(clock))
    }

    /** The object's abstract state at time `now`. */
    ghost function View(now: nat): State
      reads this, lines
    {
      State(now, child, spawned, starting, stopped, pending, timers, nextId, settled,
            restartDelay, restarts, exits, lastActivityAt, lines.stream)
    }

    constructor (cfg: Config, now: nat)
      ensures Valid() && fresh(lines) && clock == now
      ensures this.cfg == cfg && View(now) == Initial(now)
    {
      this.cfg := cfg;
      lines := new LineBuffer(cfg.cap);
      child, pending, timers, nextId := None, map[], map[], 1;
      stopped, starting, restartDelay, restarts := false, false, RESTART_BASE_MS, [];
      lastActivityAt, spawned := now, 0;
      settled, exits, clock := map[], 0, now;
      new;
      InitialOk(cfg, now);
    }

    /** Time passes. */
    ghost method Advance(now: nat)
      requires Valid() && clock <= now
      modifies this`clock
      ensures Valid() && clock == now
      ensures View(now) == old(View(now))
    {
      hide Invariant;
      StepKeeps(cfg, View(clock), Tick(now - clock));
      assert Apply(cfg, View(clock), Tick(now - clock)) == View(now);
      clock := now;
    }

    /** Settles a promise, then runs the code that awaits it. */
    method Settle(id: nat, waiter: Waiter, outcome: Outcome, ghost now: nat)
      modifies this
      ensures clock == old(clock)
      ensures View(now) ==
              Continue(old(View(now)).(settled := Settled(old(settled), id, outcome)), waiter, outcome)
    {
      settled := Settled(settled, id, outcome);
      Resume(waiter, outcome, now);
    }

    method Resume(waiter: Waiter, outcome: Outcome, ghost now: nat)
      modifies this
      ensures clock == old(clock)
      ensures View(now) == Continue(old(View(now)), waiter, outcome)
    {
      if waiter.Caller? {
        return;
      }
      if outcome.Answered? && outcome.reply.Result? {
        restartDelay := RESTART_BASE_MS;
        exits := 0;
      } else if waiter.StartCheck? {
        starting := false;
      }
    }

    method Call(waiter: Waiter, fits: bool, now: nat)
      requires Valid() && clock <= now
      modifies this
      ensures Valid() && clock == now
      ensures View(now) == OnCall(cfg, old(View(now)), waiter, fits)
    {
      hide Invariant;
      Advance(now);
      CallKeeps(cfg, View(now), waiter, fits);
      if child.None? {
        Resume(waiter, Crashed, now);
        return;
      }
      var id := nextId;
      nextId := nextId + 1;
      if !fits {
        Settle(id, waiter, TooLarge, now);
        return;
      }
      timers := timers[id := now + cfg.idle];
      pending := pending[id := Pending(now, waiter)];
    }

    method StartOnce(waiter: Waiter, present: bool, now: nat)
      requires Valid() && clock <= now
      modifies this
      ensures Valid() && clock == now
      ensures View(now) == OnStartOnce(cfg, old(View(now)), waiter, present)
    {
      hide Invariant, OnCall;
      Advance(now);
      StartOnceKeeps(cfg, View(now), waiter, present);
      if !present {
        Resume(waiter, Crashed, now);
        return;
      }
      ghost var before := View(now);
      stopped := false;
      child := Some(spawned);
      spawned := spawned + 1;
      RestIsFree(cfg, before, View(now));
      Call(waiter, true, now);
    }

    method Start(present: bool, now: nat)
      requires Valid() && clock <= now
      modifies this
      ensures Valid() && clock == now
      ensures View(now) == OnStart(cfg, old(View(now)), present)
    {
      hide Invariant, OnStartOnce;
      Advance(now);
      if !starting {
        ghost var before := View(now);
        starting := true;
        RestIsFree(cfg, before, View(now));
        StartOnce(StartCheck, present, now);
      }
    }

    /** One trimmed line; whether handling it throws. */
    method HandleLine(line: string, now: nat) returns (threw: bool)
      requires Framed()
      modifies this
      ensures Framed() && clock == old(clock)
      ensures View(now) == OnMessage(old(View(now)), cfg.decode(line))
      ensures threw == cfg.decode(line).Null?
    {
      var m := cfg.decode(line);
      threw := m.Null?;
      if m.Response? && m.id >= 0 && m.id in pending {
        var p := pending[m.id];
        pending := pending - {m.id};
        timers := timers - {m.id};
        Settle(m.id, p.waiter, Answered(m.reply), now);
      }
    }

    method HandleData(chunk: string, now: nat)
      requires Valid() && clock <= now
      modifies this, lines
      ensures Valid() && clock == now
      ensures View(now) == OnData(cfg, old(View(now)), chunk)
    {
      hide OnMessage, Invariant, NewLines, Trim;
      Advance(now);
      DataKeeps(cfg, View(now), chunk);
      lastActivityAt := now;
      var complete := lines.Push(chunk);
      ghost var goal := OnMessages(cfg, View(now), complete);
      for i := 0 to |complete|
        invariant Framed() && clock == now
        invariant OnMessages(cfg, View(now), complete[i..]) == goal
      {
        assert complete[i..][0] == complete[i] && complete[i..][1..] == complete[i + 1..];
        var trimmed := Trim(complete[i]);
        NoAnswerNoEffect(View(now), Meaning(cfg, complete[i]));
        if trimmed != "" {
          var threw := HandleLine(trimmed, now);
          if threw {
            return;
          }
        }
      }
    }

    /** Rejects every pending call and empties the table. */
    method RejectAll(outcome: Outcome, ghost now: nat)
      requires Framed() && !outcome.Answered?
      modifies this
      ensures Framed() && clock == old(clock)
      ensures View(now) == FinishAll(old(View(now)), outcome)
    {
      hide Partial, Continue;
      ghost var before := View(now);
      var ids := pending.Keys;
      ghost var done: set<nat> := {};
      PartialNone(before, outcome);
      while ids != {}
        invariant Framed() && clock == old(clock) && ids + done == before.pending.Keys && ids !! done
        invariant View(now) == Partial(before, done, outcome)
        invariant pending == before.pending
        decreases ids
      {
        var id :| id in ids;
        PartialStep(before, done, id, outcome);
        timers := timers - {id};
        Settle(id, pending[id].waiter, outcome, now);
        ids, done := ids - {id}, done + {id};
      }
      PartialAll(before, outcome);
      pending := map[];
    }

    method HandleExit(now: nat)
      requires Valid() && clock <= now
      modifies this
      ensures Valid() && clock == now
      ensures View(now) == OnExit(old(View(now)))
    {
      hide Invariant, FinishAll, Scheduled;
      Advance(now);
      ExitKeeps(cfg, View(now));
      child := None;
      FinishAllRest(View(now), Crashed);
      RejectAll(Crashed, now);
      if !stopped {
        ScheduleRestart(now);
      }
    }

    method ScheduleRestart(now: nat)
      modifies this
      ensures clock == old(clock)
      ensures View(now) == Scheduled(old(View(now)))
    {
      restarts := restarts + [now + restartDelay];
      restartDelay := Min(restartDelay * 2, RESTART_MAX_MS);
      exits := exits + 1;
    }

    method Stop(now: nat)
      requires Valid() && clock <= now
      modifies this
      ensures Valid() && clock == now
      ensures View(now) == OnStop(old(View(now)))
    {
      hide Invariant, FinishAll;
      Advance(now);
      StepKeeps(cfg, View(now), SidecarSpec.Stop);
      stopped := true;
      var was := child;
      child := None;
      if was.Some? {
        RejectAll(Stopped, now);
      }
    }

    /** The timer of call `id` fires: re-arm it while the sidecar shows life, else give the call up. */
    method CheckIdle(id: nat, now: nat)
      requires Valid() && clock <= now && id in timers && timers[id] <= now
      modifies this
      ensures Valid() && clock == now
      ensures View(now) == OnTimer(cfg, old(View(now)), id)
    {
      hide Invariant, Continue;
      Advance(now);
      StepKeeps(cfg, View(now), TimerFires(id));
      var idleFor: int := now - lastActivityAt;
      var remaining := cfg.idle - idleFor;
      if remaining > 0 {
        timers := timers[id := now + remaining];
        return;
      }
      timers := timers - {id};
      if id in pending {
        var p := pending[id];
        pending := pending - {id};
        assert timers - {id} == timers;
        Settle(id, p.waiter, TimedOut, now);
      }
    }

    method HandleWriteError(id: nat, now: nat)
      requires Valid() && clock <= now
      modifies this
      ensures Valid() && clock == now
      ensures View(now) == OnWriteError(old(View(now)), id)
    {
      hide Invariant, Continue;
      Advance(now);
      WriteErrorKeeps(cfg, View(now), id);
      timers := timers - {id};
      if id in pending {
        var p := pending[id];
        pending := pending - {id};
        Settle(id, p.waiter, WriteFailed, now);
      }
    }

    method HandleRestart(k: nat, present: bool, now: nat)
      requires Valid() && clock <= now && k < |restarts|
      modifies this
      ensures Valid() && clock == now
      ensures View(now) == OnRestart(cfg, old(View(now)), k, present)
    {
      hide Invariant, OnStartOnce;
      Advance(now);
      ghost var before := View(now);
      restarts := restarts[..k] + restarts[k + 1..];
      RestIsFree(cfg, before, View(now));
      StartOnce(RestartCheck, present, now);
    }
  }
}

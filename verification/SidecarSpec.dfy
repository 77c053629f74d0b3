/**
 The sidecar supervisor as a transition system: a request table with idle
 timers, newline-framed responses, crashes, restarts with backoff, and stop.
 The environment may deliver any event at any time; an event that is not
 enabled changes nothing.
 */
module SidecarSpec {
  import opened Text
  import opened Transport

  const RESTART_BASE_MS: nat := 500
  const RESTART_MAX_MS: nat := 8_000

  datatype Reply = Result(value: string) | Error(code: int)

  /** What JSON parsing makes of one trimmed line. A line `null` makes the handler throw. */
  datatype Message = Response(id: int, reply: Reply) | Notice | Undecodable | Null

  datatype Outcome = Answered(reply: Reply) | TimedOut | Crashed | Stopped | WriteFailed | TooLarge

  /** Who awaits the call: an ordinary caller, or the health check of a start or of a restart. */
  datatype Waiter = Caller | StartCheck | RestartCheck

  datatype Pending = Pending(calledAt: nat, waiter: Waiter)

  /** The idle window, the line cap, and the decoder for trimmed lines. */
  datatype Config = Config(idle: nat, cap: nat, decode: string -> Message)

  /**
   `timers` maps a call to the due time of its armed timer; `restarts` holds the
   due times of restart timers. `spawned`, `settled`, `exits` and `stream` are
   histories: processes started, promises settled, crashes since the last good
   health check, and all output received.
   */
  datatype State = State(
    now: nat, child: Option<nat>, spawned: nat, starting: bool, stopped: bool,
    pending: map<nat, Pending>, timers: map<nat, nat>, nextId: nat, settled: map<nat, Outcome>,
    restartDelay: nat, restarts: seq<nat>, exits: nat, lastActivityAt: nat, stream: string)

  function Initial(now: nat): State {
    State(now, None, 0, false, false, map[], map[], 1, map[], RESTART_BASE_MS, [], 0, now, "")
  }

  //// Settling promises.

  /** A promise keeps its first outcome. */
  function Settled(settled: map<nat, Outcome>, id: nat, outcome: Outcome): map<nat, Outcome> {
    if id in settled then settled else settled[id := outcome]
  }

  /** What the awaiting code does next: a good health check resets the backoff, a failed start may be retried. */
  function Continue(s: State, waiter: Waiter, outcome: Outcome): State {
    if waiter.Caller? then s
    else if outcome.Answered? && outcome.reply.Result? then s.(restartDelay := RESTART_BASE_MS, exits := 0)
    else if waiter.StartCheck? then s.(starting := false)
    else s
  }

  /** Removes call `id` from the table with its timer and settles its promise. */
  function Finish(s: State, id: nat, outcome: Outcome): State
    requires id in s.pending
  {
    Continue(
      s.(pending := s.pending - {id}, timers := s.timers - {id}, settled := Settled(s.settled, id, outcome)),
      s.pending[id].waiter, outcome)
  }

  function SettleEach(settled: map<nat, Outcome>, ids: set<nat>, outcome: Outcome): map<nat, Outcome> {
    map id | id in settled.Keys + ids :: if id in settled then settled[id] else outcome
  }

  /** Rejects every pending call. */
  function FinishAll(s: State, outcome: Outcome): State {
    s.(pending := map[], timers := s.timers - s.pending.Keys,
       settled := SettleEach(s.settled, s.pending.Keys, outcome),
       starting := s.starting && !(exists id :: id in s.pending && s.pending[id].waiter.StartCheck?))
  }

  //// The handlers.

  /** One call; None when the request was refused outright. */
  function OnCall(cfg: Config, s: State, waiter: Waiter, fits: bool): State {
    if s.child.None? then
      Continue(s, waiter, Crashed)
    else if !fits then
      Continue(s.(nextId := s.nextId + 1, settled := Settled(s.settled, s.nextId, TooLarge)), waiter, TooLarge)
    else
      s.(nextId := s.nextId + 1,
         timers := s.timers[s.nextId := s.now + cfg.idle],
         pending := s.pending[s.nextId := Pending(s.now, waiter)])
  }

  /** Spawns a process and sends it a health check, if the binary exists. */
  function OnStartOnce(cfg: Config, s: State, waiter: Waiter, present: bool): State {
    if !present then
      Continue(s, waiter, Crashed)
    else
      OnCall(cfg, s.(stopped := false, child := Some(s.spawned), spawned := s.spawned + 1), waiter, true)
  }

  function OnStart(cfg: Config, s: State, present: bool): State {
    if s.starting then s else OnStartOnce(cfg, s.(starting := true), StartCheck, present)
  }

  function OnMessage(s: State, m: Message): State {
    if m.Response? && m.id >= 0 && m.id in s.pending then Finish(s, m.id, Answered(m.reply)) else s
  }

  /** What a line of output says: it is decoded trimmed, and a blank one is skipped. */
  function Meaning(cfg: Config, line: string): Message {
    if Trim(line) == "" then Notice else cfg.decode(Trim(line))
  }

  /** The lines of a chunk one after the other; a `null` ends the loop, and the lines after it are lost. */
  function OnMessages(cfg: Config, s: State, lines: seq<string>): State
    decreases |lines|
  {
    if lines == [] || Meaning(cfg, lines[0]).Null? then s
    else OnMessages(cfg, OnMessage(s, Meaning(cfg, lines[0])), lines[1..])
  }

  function OnData(cfg: Config, s: State, chunk: string): State {
    OnMessages(cfg, s.(lastActivityAt := s.now, stream := s.stream + chunk), NewLines(cfg.cap, s.stream, chunk))
  }

  function OnExit(s: State): State {
    var t := FinishAll(s.(child := None), Crashed);
    if s.stopped then t else Scheduled(t)
  }

  /** A restart after the current delay; the next delay is twice as long, up to the limit. */
  function Scheduled(s: State): State {
    s.(restarts := s.restarts + [s.now + s.restartDelay],
       restartDelay := Min(s.restartDelay * 2, RESTART_MAX_MS),
       exits := s.exits + 1)
  }

  function OnStop(s: State): State {
    var t := s.(stopped := true, child := None);
    if s.child.None? then t else FinishAll(t, Stopped)
  }

  /** The idle check of call `id`, run when its timer fires. */
  function OnTimer(cfg: Config, s: State, id: nat): State
    requires id in s.timers
  {
    var idleFor: int := s.now - s.lastActivityAt;
    var remaining := cfg.idle - idleFor;
    if remaining > 0 then
      s.(timers := s.timers[id := s.now + remaining])
    else
      var fired := s.(timers := s.timers - {id});
      if id in s.pending then Finish(fired, id, TimedOut) else fired
  }

  function OnWriteError(s: State, id: nat): State {
    if id in s.pending then Finish(s, id, WriteFailed)
    else s.(timers := s.timers - {id})
  }

  function OnRestart(cfg: Config, s: State, k: nat, present: bool): State
    requires k < |s.restarts|
  {
    OnStartOnce(cfg, s.(restarts := s.restarts[..k] + s.restarts[k + 1..]), RestartCheck, present)
  }

  //// Runs.

  datatype Event =
    | Tick(elapsed: nat)
    | Start(present: bool)
    | Call(fits: bool)
    | Chunk(text: string)
    | TimerFires(id: nat)
    | WriteError(id: nat)
    | Exit
    | RestartFires(k: nat, present: bool)
    | Stop

  predicate Enabled(s: State, e: Event) {
    match e
    case TimerFires(id) => id in s.timers && s.timers[id] <= s.now
    case WriteError(id) => 1 <= id < s.nextId
    case RestartFires(k, _) => k < |s.restarts| && s.restarts[k] <= s.now
    case Exit => s.spawned > 0
    case Chunk(_) => s.spawned > 0
    case _ => true
  }

  function Apply(cfg: Config, s: State, e: Event): State {
    if !Enabled(s, e) then s
    else
      match e
      case Tick(elapsed) => s.(now := s.now + elapsed)
      case Start(present) => OnStart(cfg, s, present)
      case Call(fits) => OnCall(cfg, s, Caller, fits)
      case Chunk(text) => OnData(cfg, s, text)
      case TimerFires(id) => OnTimer(cfg, s, id)
      case WriteError(id) => OnWriteError(s, id)
      case Exit => OnExit(s)
      case RestartFires(k, present) => OnRestart(cfg, s, k, present)
      case Stop => OnStop(s)
  }

  function Run(cfg: Config, s: State, events: seq<Event>): State {
    if events == [] then s
    else Apply(cfg, Run(cfg, s, events[..|events| - 1]), events[|events| - 1])
  }
}

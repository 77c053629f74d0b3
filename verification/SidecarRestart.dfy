/**
 When an answer is heard: a new process on the old line buffer, and a line
 behind another one in the same chunk.
 */
module SidecarRestart {
  import opened Text
  import opened Transport
  import opened SidecarSpec
  import opened SidecarProofs

  /** What the buffer makes of one whole line that arrives in one chunk. */
  lemma OneLine(cap: nat, before: string, line: string)
    requires NewlineAt(line) == -1
    ensures NewLines(cap, before, line + "\n") ==
            if |Tail(before) + line| <= cap then [Tail(before) + line] else []
  {
    hide NewlineAt, Kept, Tail, NewLines;
    NewlineAtIs(line, "\n");
    OneNewline();
    FirstLineIsGlued(cap, before, line + "\n");
    assert (line + "\n")[..|line|] == line && (line + "\n")[|line| + 1..] == "";
    NothingKept(cap, "");
  }

  /**
   A line sent to a pending call settles it exactly if that line, with whatever
   was left over in front of it, is within the cap and, trimmed, decodes to its answer.
   */
  lemma OneLineAnswers(cfg: Config, s: State, line: string, id: nat)
    requires TableOk(s) && s.spawned > 0 && id in s.pending && NewlineAt(line) == -1
    ensures var seen := Tail(s.stream) + line;
            var t := Apply(cfg, s, Chunk(line + "\n"));
            if |seen| <= cfg.cap && Answers(Meaning(cfg, seen), id) then
              id !in t.pending && id in t.settled && t.settled[id] == Answered(Meaning(cfg, seen).reply)
            else
              id in t.pending && t.pending[id] == s.pending[id] && id in t.timers && t.timers[id] == s.timers[id]
  {
    hide NewlineAt, Tail, NewLines, Issued, Meaning;
    OneLine(cfg.cap, s.stream, line);
    var u := s.(lastActivityAt := s.now, stream := s.stream + (line + "\n"));
    var seen := Tail(s.stream) + line;
    if |seen| <= cfg.cap {
      OneMessage(cfg, u, seen);
    }
  }

  lemma OneMessage(cfg: Config, s: State, line: string)
    ensures OnMessages(cfg, s, [line]) == OnMessage(s, Meaning(cfg, line))
  {
    NoAnswerNoEffect(s, Meaning(cfg, line));
    hide OnMessage, Meaning;
    assert [line][1..] == [];
  }

  //// The health check of a restart.

  /** The new process sends `line`, the answer to its health check; whether that settles the check. */
  ghost predicate CheckAnswered(cfg: Config, s: State, k: nat, line: string, reply: Reply) {
    var t := Run(cfg, s, [RestartFires(k, true), Chunk(line + "\n")]);
    s.nextId in t.settled && t.settled[s.nextId] == Answered(reply)
  }

  lemma Restarted(cfg: Config, s: State, k: nat)
    requires TableOk(s) && Enabled(s, RestartFires(k, true))
    ensures var t := Apply(cfg, s, RestartFires(k, true));
            && TableOk(t) && t.spawned > 0 && t.stream == s.stream && t.now == s.now
            && t.pending == s.pending[s.nextId := Pending(s.now, RestartCheck)]
            && t.timers == s.timers[s.nextId := s.now + cfg.idle]
  {
    hide Issued;
    TableKept(cfg, s, RestartFires(k, true));
  }

  /**
   The answer of a restarted process to its health check settles that check,
   whatever the encoding of answers, if and only if the old process left nothing
   but white space of an unfinished line behind, and that with the answer is
   within the cap.
   */
  lemma CheckIsHeardExactlyAfterACleanEnd(cfg: Config, s: State, k: nat, line: string, reply: Reply)
    requires TableOk(s) && Enabled(s, RestartFires(k, true)) && NewlineAt(line) == -1
    ensures (forall decode: string -> Message ::
               decode(Trim(line)) == Response(s.nextId, reply) ==>
                 CheckAnswered(cfg.(decode := decode), s, k, line, reply))
            <==> Trim(line) != "" && AllBlank(Tail(s.stream)) && |Tail(s.stream)| + |line| <= cfg.cap
  {
    hide NewlineAt, Tail, TableOk, Run, Apply, Enabled, Trim, IsBlank, AllBlank;
    var rest, id := Tail(s.stream), s.nextId;
    forall decode: string -> Message
      ensures CheckAnswered(cfg.(decode := decode), s, k, line, reply) <==>
              |rest + line| <= cfg.cap && Meaning(cfg.(decode := decode), rest + line) == Response(id, reply)
    {
      CheckIsAnswered(cfg.(decode := decode), s, k, line, reply);
    }
    TrimWithFront(rest, line);
    if !(Trim(line) != "" && AllBlank(rest) && |rest + line| <= cfg.cap) {
      var decode := (text: string) => if text == Trim(line) then Response(id, reply) else Undecodable;
      assert decode(Trim(line)) == Response(id, reply);
      assert !CheckAnswered(cfg.(decode := decode), s, k, line, reply);
    }
  }

  /** A text that is not blank trims to itself behind another text exactly if that one is blank. */
  lemma TrimWithFront(front: string, s: string)
    ensures Trim(s) != "" ==> (Trim(front + s) == Trim(s) <==> AllBlank(front))
  {
    hide IsBlank, AllBlank, Trim;
    TrimIsEmpty(s);
    if AllBlank(front) {
      TrimDropsBlanks(front, s);
    } else if Trim(s) != "" {
      TrimKeepsText(front, s);
    }
  }

  lemma CheckIsAnswered(cfg: Config, s: State, k: nat, line: string, reply: Reply)
    requires TableOk(s) && Enabled(s, RestartFires(k, true)) && NewlineAt(line) == -1
    ensures var seen := Tail(s.stream) + line;
            CheckAnswered(cfg, s, k, line, reply) <==>
            |seen| <= cfg.cap && Meaning(cfg, seen) == Response(s.nextId, reply)
  {
    hide NewlineAt, Tail, Run, Apply, Meaning;
    var t := Apply(cfg, s, RestartFires(k, true));
    Restarted(cfg, s, k);
    RunOne(cfg, s, RestartFires(k, true));
    RunStep(cfg, s, [RestartFires(k, true)], Chunk(line + "\n"));
    assert [RestartFires(k, true)] + [Chunk(line + "\n")] == [RestartFires(k, true), Chunk(line + "\n")];
    OneLineAnswers(cfg, t, line, s.nextId);
    TableKept(cfg, t, Chunk(line + "\n"));
  }

  /** Unheard, the check times out a window later, though the process answered at once. */
  lemma UnheardCheckTimesOut(cfg: Config, s: State, k: nat, line: string)
    requires TableOk(s) && Enabled(s, RestartFires(k, true)) && NewlineAt(line) == -1
    requires var seen := Tail(s.stream) + line; |seen| > cfg.cap || !Answers(Meaning(cfg, seen), s.nextId)
    ensures var events := [RestartFires(k, true), Chunk(line + "\n"), Tick(cfg.idle), TimerFires(s.nextId)];
            var t := Run(cfg, s, events);
            s.nextId in t.settled && t.settled[s.nextId] == TimedOut
  {
    hide NewlineAt, Tail, Run, Apply, Meaning;
    var id := s.nextId;
    var a, b, c, d := RestartFires(k, true), Chunk(line + "\n"), Tick(cfg.idle), TimerFires(id);
    var t := Apply(cfg, s, a);
    var u := Apply(cfg, t, b);
    var v := Apply(cfg, u, c);
    Restarted(cfg, s, k);
    OneLineAnswers(cfg, t, line, id);
    TableKept(cfg, t, b);
    ChunkKeepsTheRest(cfg, t, line + "\n");
    WindowPasses(cfg, u, id);
    RunOne(cfg, s, a);
    RunStep(cfg, s, [a], b);
    RunStep(cfg, s, [a] + [b], c);
    RunStep(cfg, s, [a] + [b] + [c], d);
    assert [a] + [b] + [c] + [d] == [a, b, c, d];
  }

  lemma ChunkKeepsTheRest(cfg: Config, s: State, text: string)
    requires s.spawned > 0
    ensures var t := Apply(cfg, s, Chunk(text)); t.lastActivityAt == t.now == s.now && t.spawned == s.spawned
  {
    hide NewLines;
    MessagesKeepChild(cfg, s.(lastActivityAt := s.now, stream := s.stream + text),
                      NewLines(cfg.cap, s.stream, text));
    MessagesFewer(cfg, s.(lastActivityAt := s.now, stream := s.stream + text), NewLines(cfg.cap, s.stream, text));
  }

  /** A pending call whose timer is due after one window of silence times out. */
  lemma WindowPasses(cfg: Config, s: State, id: nat)
    requires TableOk(s) && id in s.pending && s.timers[id] <= s.now + cfg.idle && s.lastActivityAt <= s.now
    ensures var t := Apply(cfg, Apply(cfg, s, Tick(cfg.idle)), TimerFires(id));
            id in t.settled && t.settled[id] == TimedOut
  {
    hide Issued, Continue;
    var u := Apply(cfg, s, Tick(cfg.idle));
    FiredThenFinished(u, id, TimedOut);
    FinishKeepsTable(u, id, TimedOut);
  }

  //// A line that ends the loop over its chunk.

  /** The lines of two chunks are those of both in one. */
  lemma NewLinesAppend(cap: nat, before: string, a: string, b: string)
    ensures NewLines(cap, before, a + b) == NewLines(cap, before, a) + NewLines(cap, before + a, b)
  {
    hide Kept, NewLines;
    var all := NewLines(cap, before, a + b);
    var first, second := NewLines(cap, before, a), NewLines(cap, before + a, b);
    Assoc(before, a, b);
    assert Kept(cap, before) + all == (Kept(cap, before) + first) + second;
    assert (Kept(cap, before) + all)[|Kept(cap, before)|..] == all;
    assert ((Kept(cap, before) + first) + second)[|Kept(cap, before)|..] == first + second;
  }

  /**
   The same output settles a call or not, as it is cut: an answer behind a line
   that makes the handler throw is lost in the same chunk and heard in the next.
   */
  lemma AnswerBehindNullIsHeardOnlyApart(cfg: Config, s: State, bad: string, line: string, id: nat)
    requires TableOk(s) && s.spawned > 0 && id in s.pending && NewlineAt(bad) == -1 && NewlineAt(line) == -1
    requires |Tail(s.stream) + bad| <= cfg.cap && Meaning(cfg, Tail(s.stream) + bad).Null?
    requires |line| <= cfg.cap && Answers(Meaning(cfg, line), id)
    ensures var t := Run(cfg, s, [Chunk((bad + "\n") + (line + "\n"))]);
            id in t.pending && t.pending[id] == s.pending[id]
    ensures var t := Run(cfg, s, [Chunk(bad + "\n"), Chunk(line + "\n")]);
            id !in t.pending && id in t.settled && t.settled[id] == Answered(Meaning(cfg, line).reply)
  {
    hide NewlineAt, Tail, Run, Apply, Meaning, NewLines, TableOk;
    var a, b := bad + "\n", line + "\n";
    BothLines(cfg.cap, s.stream, bad, line);
    ChunkAnswersExactly(cfg, s, a + b, id);
    RunOne(cfg, s, Chunk(a + b));
    RunOne(cfg, s, Chunk(a));
    RunStep(cfg, s, [Chunk(a)], Chunk(b));
    assert [Chunk(a)] + [Chunk(b)] == [Chunk(a), Chunk(b)];
    OneLineAnswers(cfg, s, bad, id);
    var t := Apply(cfg, s, Chunk(a));
    TableKept(cfg, s, Chunk(a));
    StreamGrows(cfg, s, Chunk(a));
    ChunkKeepsTheRest(cfg, s, a);
    assert "" + line == line;
    OneLineAnswers(cfg, t, line, id);
  }

  /** No line of the chunk makes the handler throw. */
  ghost predicate AllReached(cfg: Config, before: string, chunk: string) {
    Reached(cfg, NewLines(cfg.cap, before, chunk)) == NewLines(cfg.cap, before, chunk)
  }

  /** No line of the chunk that is reached answers a call still pending. */
  ghost predicate AnswersNobody(cfg: Config, s: State, chunk: string) {
    forall id :: id in s.pending ==> FirstReply(cfg, Reached(cfg, NewLines(cfg.cap, s.stream, chunk)), id).None?
  }

  /**
   Exactly when it makes no difference whether output arrives in one chunk or
   in two at the same time: when no line of the first makes the handler throw,
   or no line of the second answers a call still pending.
   */
  lemma ChunksMayBeJoinedExactlyWhen(cfg: Config, s: State, a: string, b: string)
    requires TableOk(s) && s.spawned > 0
    ensures Run(cfg, s, [Chunk(a + b)]) == Run(cfg, s, [Chunk(a), Chunk(b)]) <==>
            AllReached(cfg, s.stream, a) || AnswersNobody(cfg, Run(cfg, s, [Chunk(a)]), b)
  {
    hide Run, Apply, NewLines, TableOk, Reached, FirstReply, OnMessages, Meaning;
    var t := Apply(cfg, s, Chunk(a));
    var first, second := NewLines(cfg.cap, s.stream, a), NewLines(cfg.cap, s.stream + a, b);
    RunOne(cfg, s, Chunk(a + b));
    RunOne(cfg, s, Chunk(a));
    RunStep(cfg, s, [Chunk(a)], Chunk(b));
    assert [Chunk(a)] + [Chunk(b)] == [Chunk(a), Chunk(b)];
    TableKept(cfg, s, Chunk(a));
    BothChunks(cfg, s, a, b);
    if AllReached(cfg, s.stream, a) {
      OnMessagesAppend(cfg, s.(lastActivityAt := s.now, stream := s.stream + (a + b)), first, second);
    } else {
      OnMessagesStop(cfg, s.(lastActivityAt := s.now, stream := s.stream + (a + b)), first, second);
      var u := t.(stream := s.stream + (a + b));
      if AnswersNobody(cfg, t, b) {
        NobodyAnswered(cfg, u, second);
      } else {
        var id :| id in t.pending && FirstReply(cfg, Reached(cfg, second), id).Some?;
        ChunkAnswersExactly(cfg, t, b, id);
      }
    }
  }

  /** What one chunk and two do, line by line. */
  lemma BothChunks(cfg: Config, s: State, a: string, b: string)
    requires s.spawned > 0
    ensures var u := s.(lastActivityAt := s.now, stream := s.stream + (a + b));
            var first, second := NewLines(cfg.cap, s.stream, a), NewLines(cfg.cap, s.stream + a, b);
            var t := Apply(cfg, s, Chunk(a));
            && Apply(cfg, s, Chunk(a + b)) == OnMessages(cfg, u, first + second)
            && t.(stream := s.stream + (a + b)) == OnMessages(cfg, u, first)
            && t.stream == s.stream + a && t.spawned == s.spawned
            && Apply(cfg, t, Chunk(b)) == OnMessages(cfg, t.(stream := s.stream + (a + b)), second)
  {
    hide NewLines, OnMessages;
    NewLinesAppend(cfg.cap, s.stream, a, b);
    Assoc(s.stream, a, b);
    var first := NewLines(cfg.cap, s.stream, a);
    ChunkKeepsTheRest(cfg, s, a);
    MessagesKeepStream(cfg, s.(lastActivityAt := s.now, stream := s.stream + a), first);
    StreamIsFree(cfg, s.(lastActivityAt := s.now, stream := s.stream + a), first, s.stream + (a + b));
  }

  /** Handling lines does not look at the stream. */
  lemma {:induction false} StreamIsFree(cfg: Config, s: State, lines: seq<string>, stream: string)
    ensures OnMessages(cfg, s.(stream := stream), lines) == OnMessages(cfg, s, lines).(stream := stream)
    decreases |lines|
  {
    hide Meaning;
    if lines != [] {
      StreamIsFree(cfg, OnMessage(s, Meaning(cfg, lines[0])), lines[1..], stream);
    }
  }

  lemma {:induction false} OnMessagesAppend(cfg: Config, s: State, a: seq<string>, b: seq<string>)
    requires Reached(cfg, a) == a
    ensures OnMessages(cfg, s, a + b) == OnMessages(cfg, OnMessages(cfg, s, a), b)
    decreases |a|
  {
    hide Meaning, OnMessage;
    if a == [] {
      assert a + b == b;
    } else {
      assert (a + b)[1..] == a[1..] + b;
      assert Reached(cfg, a)[1..] == Reached(cfg, a[1..]);
      OnMessagesAppend(cfg, OnMessage(s, Meaning(cfg, a[0])), a[1..], b);
    }
  }

  lemma {:induction false} OnMessagesStop(cfg: Config, s: State, a: seq<string>, b: seq<string>)
    requires Reached(cfg, a) != a
    ensures OnMessages(cfg, s, a + b) == OnMessages(cfg, s, a)
    decreases |a|
  {
    hide Meaning, OnMessage;
    if !Meaning(cfg, a[0]).Null? {
      assert (a + b)[1..] == a[1..] + b;
      assert a == [a[0]] + a[1..];
      OnMessagesStop(cfg, OnMessage(s, Meaning(cfg, a[0])), a[1..], b);
    }
  }

  lemma {:induction false} NobodyAnswered(cfg: Config, s: State, lines: seq<string>)
    requires forall id :: id in s.pending ==> FirstReply(cfg, Reached(cfg, lines), id).None?
    ensures OnMessages(cfg, s, lines) == s
    decreases |lines|
  {
    hide Meaning, Finish;
    var reached := Reached(cfg, lines);
    if reached != [] {
      assert reached[1..] == Reached(cfg, lines[1..]);
      NobodyAnswered(cfg, s, lines[1..]);
    }
  }

  lemma BothLines(cap: nat, before: string, bad: string, line: string)
    requires NewlineAt(bad) == -1 && NewlineAt(line) == -1 && |Tail(before) + bad| <= cap && |line| <= cap
    ensures NewLines(cap, before, (bad + "\n") + (line + "\n")) == [Tail(before) + bad, line]
    ensures Tail(before + (bad + "\n")) == ""
  {
    hide NewlineAt, Tail, NewLines;
    var a := bad + "\n";
    NewLinesAppend(cap, before, a, line + "\n");
    OneLine(cap, before, bad);
    TailIsEmpty(before + a);
    assert (before + a)[|before + a| - 1] == '\n';
    OneLine(cap, before + a, line);
    assert "" + line == line;
  }

  //// Such a run, from the beginning.

  /** The first process stops in the middle of a line; the second one's answer "ok" is read as "xok". */
  const CRASH_IN_A_LINE: seq<Event> := [Start(true), Chunk("x"), Exit, Tick(500)]

  const ANSWER_AND_WAIT: seq<Event> := [RestartFires(0, true), Chunk("ok\n"), Tick(60_000), TimerFires(2)]

  function OkAnswersTwo(line: string): Message {
    if line == "ok" then Response(2, Result("")) else Undecodable
  }

  /** The restart's health check is call 2; its answer arrives at once, and it times out. */
  lemma AnswerIsLostToAPartialLine(cap: nat)
    requires cap >= 3
    ensures var cfg := Config(60_000, cap, OkAnswersTwo);
            var s := Run(cfg, Initial(0), CRASH_IN_A_LINE);
            var t := Run(cfg, Initial(0), CRASH_IN_A_LINE + ANSWER_AND_WAIT);
            && s.nextId == 2 && Meaning(cfg, "ok") == Response(2, Result(""))
            && 2 in t.settled && t.settled[2] == TimedOut
  {
    hide Run;
    var cfg := Config(60_000, cap, OkAnswersTwo);
    var s := Run(cfg, Initial(0), CRASH_IN_A_LINE);
    AfterTheCrash(cfg);
    ReachableStates(cfg, 0, CRASH_IN_A_LINE);
    assert NewlineAt("ok") == -1 && "ok" + "\n" == "ok\n" && "x" + "ok" == "xok";
    assert "xok"[0] != "ok"[0];
    UnheardCheckTimesOut(cfg, s, 0, "ok");
    RunAppend(cfg, Initial(0), CRASH_IN_A_LINE, ANSWER_AND_WAIT);
  }

  lemma AfterTheCrash(cfg: Config)
    requires cfg.idle == 60_000
    ensures var s := Run(cfg, Initial(0), CRASH_IN_A_LINE);
            && s.restarts == [500] && s.now == 500 && s.nextId == 2 && s.spawned == 1
            && s.stream == "x" && Tail(s.stream) == "x"
  {
    hide Run, Apply;
    var a, b, c, d := Start(true), Chunk("x"), Exit, Tick(500);
    var s1 := Apply(cfg, Initial(0), a);
    var s2 := Apply(cfg, s1, b);
    var s3 := Apply(cfg, s2, c);
    RunOne(cfg, Initial(0), a);
    RunStep(cfg, Initial(0), [a], b);
    RunStep(cfg, Initial(0), [a] + [b], c);
    RunStep(cfg, Initial(0), [a] + [b] + [c], d);
    assert [a] + [b] + [c] + [d] == CRASH_IN_A_LINE;
    CrashSteps(cfg);
  }

  lemma CrashSteps(cfg: Config)
    ensures var s := Apply(cfg, Apply(cfg, Apply(cfg, Apply(cfg, Initial(0), Start(true)), Chunk("x")), Exit),
                           Tick(500));
            && s.restarts == [500] && s.now == 500 && s.nextId == 2 && s.spawned == 1
            && s.stream == "x" && Tail(s.stream) == "x"
  {
    hide Apply, Tail;
    var s1 := Apply(cfg, Initial(0), Start(true));
    var s2 := Apply(cfg, s1, Chunk("x"));
    Started(cfg);
    HalfALine(cfg, s1);
    Crashed500(cfg, s2);
    assert Tail("x") == "x" by {
      NoNewlineInX();
      NoNewline("x");
    }
  }

  lemma NoNewlineInX()
    ensures NewlineAt("x") == -1
  {
  }

  /** What the run has fixed so far. */
  predicate Stands(s: State, stream: string) {
    && s.now == 0 && s.nextId == 2 && s.spawned == 1 && s.restarts == [] && !s.stopped
    && s.restartDelay == RESTART_BASE_MS && s.stream == stream
  }

  lemma Started(cfg: Config)
    ensures Stands(Apply(cfg, Initial(0), Start(true)), "")
  {
  }

  lemma HalfALine(cfg: Config, s: State)
    requires Stands(s, "")
    ensures Stands(Apply(cfg, s, Chunk("x")), "x")
  {
    hide OnMessages, NewLines;
    Unfinished(cfg.cap);
    NothingSent(cfg, s.(lastActivityAt := s.now, stream := "x"));
    assert "" + "x" == "x";
  }

  lemma Crashed500(cfg: Config, s: State)
    requires Stands(s, "x")
    ensures var t := Apply(cfg, Apply(cfg, s, Exit), Tick(500));
            t.restarts == [500] && t.now == 500 && t.nextId == 2 && t.spawned == 1 && t.stream == "x"
  {
    hide FinishAll;
    FinishAllRest(s.(child := None), Crashed);
  }

  lemma Unfinished(cap: nat)
    ensures NewLines(cap, "", "x") == []
  {
  }

  lemma NothingSent(cfg: Config, s: State)
    ensures OnMessages(cfg, s, []) == s
  {
  }
}

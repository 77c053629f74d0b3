/**
 Newline framing of the sidecar channel: an incremental line buffer with a
 per-line cap, against the plain specification "split the whole stream at
 newlines and drop the lines that are too long".

 Lengths count string elements, as the program's own comparisons do.
 */
module Transport {
  import opened Text

  //// The specification, over the whole stream.

  function NewlineAt(s: string): (n: int)
    ensures -1 <= n < |s|
  {
    IndexOf(s, '\n')
  }

  /** The newline-terminated lines of s, in order. */
  function Lines(s: string): seq<string> {
    var n := NewlineAt(s);
    if n == -1 then [] else [s[..n]] + Lines(s[n + 1..])
  }

  /** What follows the last newline of s. */
  function Tail(s: string): string {
    var n := NewlineAt(s);
    if n == -1 then s else Tail(s[n + 1..])
  }

  function WithinCap(cap: nat, lines: seq<string>): seq<string> {
    if lines == [] then []
    else (if |lines[0]| <= cap then [lines[0]] else []) + WithinCap(cap, lines[1..])
  }

  /** The complete lines of a stream that are no longer than the cap. */
  function Kept(cap: nat, stream: string): seq<string> {
    WithinCap(cap, Lines(stream))
  }

  /** The lines a chunk completes when it arrives after `stream`. */
  function NewLines(cap: nat, stream: string, chunk: string): (lines: seq<string>)
    ensures Kept(cap, stream + chunk) == Kept(cap, stream) + lines
  {
    KeptAppend(cap, stream, chunk);
    Kept(cap, Tail(stream) + chunk)
  }

  //// Facts about splitting.

  lemma {:induction false} TailHasNoNewline(s: string)
    ensures NewlineAt(Tail(s)) == -1
    decreases |s|
  {
    if NewlineAt(s) >= 0 {
      TailHasNoNewline(s[NewlineAt(s) + 1..]);
    }
  }

  lemma NewlineIsThere(s: string)
    requires NewlineAt(s) >= 0
    ensures s[NewlineAt(s)] == '\n'
  {
  }

  lemma NewlineAtIs(a: string, b: string)
    requires NewlineAt(a) == -1
    ensures NewlineAt(a + b) == if NewlineAt(b) == -1 then -1 else |a| + NewlineAt(b)
  {
    IndexOfAppend(a, b, '\n');
  }

  lemma FirstNewlineStays(a: string, b: string)
    requires NewlineAt(a) >= 0
    ensures NewlineAt(a + b) == NewlineAt(a)
  {
    IndexOfAppend(a, b, '\n');
  }

  lemma {:induction false} LinesAppend(a: string, b: string)
    ensures Lines(a + b) == Lines(a) + Lines(Tail(a) + b)
    ensures Tail(a + b) == Tail(Tail(a) + b)
    decreases |a|
  {
    hide NewlineAt, Lines, Tail;
    var n := NewlineAt(a);
    if n >= 0 {
      FirstNewlineStays(a, b);
      assert (a + b)[..n] == a[..n] && (a + b)[n + 1..] == a[n + 1..] + b;
      LinesFirst(a);
      LinesFirst(a + b);
      TailAfterNewline(a);
      TailAfterNewline(a + b);
      LinesAppend(a[n + 1..], b);
    } else {
      NoNewline(a);
    }
  }

  lemma {:induction false} WithinCapAppend(cap: nat, a: seq<string>, b: seq<string>)
    ensures WithinCap(cap, a + b) == WithinCap(cap, a) + WithinCap(cap, b)
  {
    if a == [] {
      assert a + b == b;
    } else {
      assert (a + b)[1..] == a[1..] + b;
      WithinCapAppend(cap, a[1..], b);
    }
  }

  lemma KeptAppend(cap: nat, stream: string, chunk: string)
    ensures Kept(cap, stream + chunk) == Kept(cap, stream) + Kept(cap, Tail(stream) + chunk)
  {
    LinesAppend(stream, chunk);
    WithinCapAppend(cap, Lines(stream), Lines(Tail(stream) + chunk));
  }

  /** Exactly the complete lines within the cap are kept, in stream order. */
  lemma {:induction false} KeptIsFilter(cap: nat, lines: seq<string>, line: string)
    ensures multiset(WithinCap(cap, lines))[line] == if |line| <= cap then multiset(lines)[line] else 0
  {
    if lines != [] {
      KeptIsFilter(cap, lines[1..], line);
      var first := if |lines[0]| <= cap then [lines[0]] else [];
      assert WithinCap(cap, lines) == first + WithinCap(cap, lines[1..]);
      assert lines == [lines[0]] + lines[1..];
    }
  }

  function JoinLines(lines: seq<string>): string {
    if lines == [] then "" else lines[0] + "\n" + JoinLines(lines[1..])
  }

  /** Splitting loses nothing: the lines, each with its newline, and the tail are the stream. */
  lemma {:induction false} SplitIsLossless(s: string)
    ensures JoinLines(Lines(s)) + Tail(s) == s
    decreases |s|
  {
    hide NewlineAt, Tail;
    var n := NewlineAt(s);
    if n >= 0 {
      var rest := s[n + 1..];
      SplitIsLossless(rest);
      assert s[n] == '\n' by {
        NewlineIsThere(s);
      }
      JoinFirst(s[..n], Lines(rest));
      TailAfterNewline(s);
      Reassemble(s, n, JoinLines(Lines(rest)), Tail(rest));
    } else {
      NoNewline(s);
    }
  }

  lemma JoinFirst(line: string, rest: seq<string>)
    ensures JoinLines([line] + rest) == line + "\n" + JoinLines(rest)
  {
    assert ([line] + rest)[1..] == rest;
  }

  lemma Reassemble(s: string, n: nat, a: string, b: string)
    requires n < |s| && s[n] == '\n' && a + b == s[n + 1..]
    ensures s[..n] + "\n" + a + b == s
  {
    assert s[..n] + "\n" + a + b == s[..n] + "\n" + (a + b);
  }

  lemma NoNewline(s: string)
    requires NewlineAt(s) == -1
    ensures Lines(s) == [] && Tail(s) == s
  {
  }

  lemma TailAfterNewline(s: string)
    requires NewlineAt(s) >= 0
    ensures Tail(s) == Tail(s[NewlineAt(s) + 1..])
  {
  }

  //// The buffer.

  /** The first over-cap line swallows everything up to its newline. */
  function Pending(cap: nat, overflowing: bool, buffer: string): seq<string> {
    if !overflowing then Kept(cap, buffer)
    else if NewlineAt(buffer) == -1 then []
    else Kept(cap, buffer[NewlineAt(buffer) + 1..])
  }

  /** How the unterminated line of the stream shows in the buffer's state. */
  ghost predicate TailShows(cap: nat, tail: string, overflowing: bool, buffer: string) {
    if !overflowing || NewlineAt(buffer) >= 0 then
      tail == Tail(buffer)
    else
      |tail| > cap && |buffer| <= |tail| && buffer == tail[|tail| - |buffer|..]
  }

  class LineBuffer {
    const maxLineLength: nat
    var buffer: string
    var overflowing: bool
    ghost var stream: string

    /**
     Between calls: the buffer holds no newline and at most the cap;
     `overflowing` holds exactly when the current line is already over the cap,
     and otherwise the buffer is that line.
     */
    ghost predicate Valid()
      reads this
    {
      && NewlineAt(buffer) == -1
      && |buffer| <= maxLineLength
      && (overflowing <==> |Tail(stream)| > maxLineLength)
      && TailShows(maxLineLength, Tail(stream), overflowing, buffer)
    }

    constructor (maxLineLength: nat)
      ensures Valid() && this.maxLineLength == maxLineLength && stream == ""
    {
      this.maxLineLength := maxLineLength;
      buffer, overflowing, stream := "", false, "";
    }

    /** Appends a chunk; returns the complete lines it finished. */
    method Push(chunk: string) returns (lines: seq<string>)
      requires Valid()
      modifies this
      ensures Valid() && stream == old(stream) + chunk
      ensures lines == NewLines(maxLineLength, old(stream), chunk)
    {
      hide NewLines, TailShows, Tail, NewlineAt, Draining, Kept, IndexOf;
      ghost var cap, expected := maxLineLength, NewLines(maxLineLength, stream, chunk);
      ghost var tail := Tail(stream + chunk);
      StartPush(cap, stream, chunk, overflowing, buffer);
      stream := stream + chunk;
      buffer := buffer + chunk;
      lines := [];
      while true
        invariant stream == old(stream) + chunk
        invariant Draining(cap, tail, expected, lines, overflowing, buffer)
        decreases |buffer|
      {
        var newline := NewlineAt(buffer);
        if overflowing {
          if newline == -1 {
            StopOverflowing(cap, tail, expected, lines, buffer);
            if |buffer| > maxLineLength {
              buffer := "";
            }
            return;
          }
          DropOverflow(cap, tail, expected, lines, buffer);
          buffer := buffer[newline + 1..];
          overflowing := false;
        } else {
          if newline == -1 {
            StopInLine(cap, tail, expected, lines, buffer);
            if |buffer| > maxLineLength {
              buffer := "";
              overflowing := true;
            }
            return;
          }
          TakeLine(cap, tail, expected, lines, buffer);
          var line := buffer[..newline];
          buffer := buffer[newline + 1..];
          if |line| > maxLineLength {
            continue;
          }
          lines := lines + [line];
        }
      }
    }
  }

  /** Midway through a push: what is still owed, and what the tail will be. */
  ghost predicate Draining(cap: nat, tail: string, expected: seq<string>, lines: seq<string>,
                           overflowing: bool, buffer: string) {
    lines + Pending(cap, overflowing, buffer) == expected && TailShows(cap, tail, overflowing, buffer)
  }

  //// One turn of the loop.

  lemma KeptFirst(cap: nat, s: string)
    requires NewlineAt(s) >= 0
    ensures var n := NewlineAt(s);
            Kept(cap, s) == (if n <= cap then [s[..n]] else []) + Kept(cap, s[n + 1..])
  {
    hide NewlineAt, Lines, WithinCap;
    var n := NewlineAt(s);
    LinesFirst(s);
    WithinCapFirst(cap, s[..n], Lines(s[n + 1..]));
  }

  lemma LinesFirst(s: string)
    requires NewlineAt(s) >= 0
    ensures Lines(s) == [s[..NewlineAt(s)]] + Lines(s[NewlineAt(s) + 1..])
  {
    hide NewlineAt;
  }

  lemma WithinCapFirst(cap: nat, line: string, rest: seq<string>)
    ensures WithinCap(cap, [line] + rest) == (if |line| <= cap then [line] else []) + WithinCap(cap, rest)
  {
    assert ([line] + rest)[1..] == rest;
  }

  lemma TakeLine(cap: nat, tail: string, expected: seq<string>, lines: seq<string>, buffer: string)
    requires NewlineAt(buffer) >= 0 && Draining(cap, tail, expected, lines, false, buffer)
    ensures var n := NewlineAt(buffer);
            Draining(cap, tail, expected, if n > cap then lines else lines + [buffer[..n]], false, buffer[n + 1..])
  {
    hide NewlineAt, Kept, Tail;
    var n := NewlineAt(buffer);
    KeptFirst(cap, buffer);
    TailAfterNewline(buffer);
    Assoc(lines, if n <= cap then [buffer[..n]] else [], Kept(cap, buffer[n + 1..]));
  }

  lemma DropOverflow(cap: nat, tail: string, expected: seq<string>, lines: seq<string>, buffer: string)
    requires NewlineAt(buffer) >= 0 && Draining(cap, tail, expected, lines, true, buffer)
    ensures Draining(cap, tail, expected, lines, false, buffer[NewlineAt(buffer) + 1..])
  {
    hide NewlineAt, Kept, Tail;
    TailAfterNewline(buffer);
  }

  lemma StopOverflowing(cap: nat, tail: string, expected: seq<string>, lines: seq<string>, buffer: string)
    requires NewlineAt(buffer) == -1 && Draining(cap, tail, expected, lines, true, buffer)
    ensures lines == expected && |tail| > cap
    ensures TailShows(cap, tail, true, "") && TailShows(cap, tail, true, buffer) && NewlineAt("") == -1
  {
    hide Kept, Tail;
    NothingAdded(lines);
  }

  lemma StopInLine(cap: nat, tail: string, expected: seq<string>, lines: seq<string>, buffer: string)
    requires NewlineAt(buffer) == -1 && Draining(cap, tail, expected, lines, false, buffer)
    ensures lines == expected && tail == buffer && NewlineAt("") == -1
    ensures TailShows(cap, tail, false, buffer)
    ensures |buffer| > cap ==> TailShows(cap, tail, true, "")
  {
    NoNewline(buffer);
    NothingKept(cap, buffer);
    NothingAdded(lines);
    hide Kept, Tail;
  }

  /** The state left by the previous call, with the chunk appended, owes exactly the new lines. */
  lemma StartPush(cap: nat, stream: string, chunk: string, overflowing: bool, buffer: string)
    requires NewlineAt(buffer) == -1
    requires TailShows(cap, Tail(stream), overflowing, buffer)
    ensures Draining(cap, Tail(stream + chunk), NewLines(cap, stream, chunk), [], overflowing, buffer + chunk)
  {
    hide NewlineAt, Kept, Tail, Lines, WithinCap;
    TailHasNoNewline(stream);
    LinesAppend(stream, chunk);
    NewlineAtIs(buffer, chunk);
    if !overflowing {
      NoNewline(buffer);
    } else if NewlineAt(chunk) >= 0 {
      OverflowEnds(cap, Tail(stream), buffer, chunk);
    } else {
      OverflowGoesOn(cap, Tail(stream), chunk);
      SuffixGrows(Tail(stream), buffer, chunk);
    }
  }

  /** The newline that ends an over-cap line is the first one of the chunk. */
  lemma OverflowEnds(cap: nat, tail: string, buffer: string, chunk: string)
    requires NewlineAt(tail) == NewlineAt(buffer) == -1 && |tail| > cap && NewlineAt(chunk) >= 0
    ensures NewlineAt(buffer + chunk) == |buffer| + NewlineAt(chunk)
    ensures Kept(cap, tail + chunk) == Kept(cap, (buffer + chunk)[NewlineAt(buffer + chunk) + 1..])
    ensures Tail(tail + chunk) == Tail(buffer + chunk)
  {
    hide NewlineAt, Kept, Tail;
    NewlineAtIs(buffer, chunk);
    OverflowIsDropped(cap, tail, chunk);
    AfterFirstNewline(tail, chunk);
    AfterFirstNewline(buffer, chunk);
  }

  /** An over-cap line contributes nothing. */
  lemma OverflowIsDropped(cap: nat, tail: string, chunk: string)
    requires NewlineAt(tail) == -1 && |tail| > cap && NewlineAt(chunk) >= 0
    ensures Kept(cap, tail + chunk) == Kept(cap, chunk[NewlineAt(chunk) + 1..])
  {
    hide NewlineAt, Kept, Tail;
    NewlineAtIs(tail, chunk);
    KeptFirst(cap, tail + chunk);
    DropInto(tail, chunk, NewlineAt(chunk) + 1);
  }

  /** What follows the first newline of a chunk does not depend on the line it ends. */
  lemma AfterFirstNewline(line: string, chunk: string)
    requires NewlineAt(line) == -1 && NewlineAt(chunk) >= 0
    ensures (line + chunk)[NewlineAt(line + chunk) + 1..] == chunk[NewlineAt(chunk) + 1..]
    ensures Tail(line + chunk) == Tail(chunk[NewlineAt(chunk) + 1..])
  {
    hide NewlineAt, Tail;
    NewlineAtIs(line, chunk);
    DropInto(line, chunk, NewlineAt(chunk) + 1);
    TailAfterNewline(line + chunk);
  }

  lemma DropInto(a: string, b: string, k: nat)
    requires k <= |b|
    ensures (a + b)[|a| + k..] == b[k..]
  {
  }

  /** Without a newline in the chunk the line goes on. */
  lemma OverflowGoesOn(cap: nat, tail: string, chunk: string)
    requires NewlineAt(tail) == -1 && NewlineAt(chunk) == -1
    ensures Kept(cap, tail + chunk) == [] && Tail(tail + chunk) == tail + chunk
  {
    hide NewlineAt, Kept, Tail;
    NewlineAtIs(tail, chunk);
    NothingKept(cap, tail + chunk);
    NoNewline(tail + chunk);
  }

  lemma SuffixGrows(tail: string, buffer: string, chunk: string)
    requires |buffer| <= |tail| && buffer == tail[|tail| - |buffer|..]
    ensures buffer + chunk == (tail + chunk)[|tail + chunk| - |buffer + chunk|..]
  {
  }

  lemma NothingKept(cap: nat, s: string)
    requires NewlineAt(s) == -1
    ensures Kept(cap, s) == []
  {
  }

  //// Any way of cutting the stream into chunks.

  function Flatten(chunks: seq<string>): string {
    if chunks == [] then "" else Flatten(chunks[..|chunks| - 1]) + chunks[|chunks| - 1]
  }

  /** All lines returned by successive pushes onto a fresh buffer. */
  function AllReturned(cap: nat, chunks: seq<string>): seq<string> {
    if chunks == [] then
      []
    else
      var front := chunks[..|chunks| - 1];
      AllReturned(cap, front) + NewLines(cap, Flatten(front), chunks[|chunks| - 1])
  }

  /** Chunk boundaries do not matter: the pushes return the lines of the whole stream. */
  lemma {:induction false} ChunkingIndependence(cap: nat, chunks: seq<string>)
    ensures AllReturned(cap, chunks) == Kept(cap, Flatten(chunks))
  {
    if chunks != [] {
      ChunkingIndependence(cap, chunks[..|chunks| - 1]);
    }
  }

  lemma SameStreamSameLines(cap: nat, chunks: seq<string>, chunks': seq<string>)
    requires Flatten(chunks) == Flatten(chunks')
    ensures AllReturned(cap, chunks) == AllReturned(cap, chunks')
  {
    ChunkingIndependence(cap, chunks);
    ChunkingIndependence(cap, chunks');
  }

  /** The buffer itself, fed chunk by chunk, returns the lines of the whole stream. */
  method PushAll(cap: nat, chunks: seq<string>) returns (lines: seq<string>)
    ensures lines == Kept(cap, Flatten(chunks))
  {
    hide NewLines, Kept, NewlineAt;
    var buffer := new LineBuffer(cap);
    lines := [];
    assert Kept(cap, "") == [] by {
      NothingKept(cap, "");
    }
    for i := 0 to |chunks|
      invariant buffer.Valid() && fresh(buffer) && buffer.maxLineLength == cap
      invariant buffer.stream == Flatten(chunks[..i]) && lines == Kept(cap, buffer.stream)
    {
      assert chunks[..i + 1][..i] == chunks[..i];
      var more := buffer.Push(chunks[i]);
      lines := lines + more;
    }
    assert chunks[..|chunks|] == chunks;
  }

  //// A stream continued by another process.

  /** Nothing is left over exactly when the stream is empty or ends in a newline. */
  lemma {:induction false} TailIsEmpty(s: string)
    ensures Tail(s) == "" <==> s == "" || s[|s| - 1] == '\n'
    decreases |s|
  {
    hide NewlineAt, Tail;
    var n := NewlineAt(s);
    if n >= 0 {
      NewlineIsThere(s);
      TailAfterNewline(s);
      TailIsEmpty(s[n + 1..]);
    } else {
      NoNewline(s);
      NoneAtTheEnd(s);
    }
  }

  lemma NoneAtTheEnd(s: string)
    requires NewlineAt(s) == -1
    ensures s != "" ==> s[|s| - 1] != '\n'
  {
    IndexOfIsFirst(s, '\n');
  }

  /** The first line of a chunk is returned with what was left over in front of it, or lost with it. */
  lemma FirstLineIsGlued(cap: nat, before: string, chunk: string)
    requires NewlineAt(chunk) >= 0
    ensures var n, rest := NewlineAt(chunk), Tail(before);
            NewLines(cap, before, chunk) ==
            (if |rest| + n <= cap then [rest + chunk[..n]] else []) + Kept(cap, chunk[n + 1..])
  {
    hide NewlineAt, Kept, Tail;
    var n, rest := NewlineAt(chunk), Tail(before);
    TailHasNoNewline(before);
    NewlineAtIs(rest, chunk);
    KeptFirst(cap, rest + chunk);
    DropInto(rest, chunk, n + 1);
    assert (rest + chunk)[..|rest| + n] == rest + chunk[..n];
  }

  /**
   The buffer is not emptied when a new process takes over the stream. The new
   one's output is framed as if it stood alone, however it goes on, if and only
   if nothing of the old one's was left over.
   */
  lemma FramingStartsAfresh(cap: nat, before: string)
    ensures (forall chunk :: NewLines(cap, before, chunk) == Kept(cap, chunk)) <==> Tail(before) == ""
  {
    hide NewlineAt, Kept, Tail;
    var rest := Tail(before);
    if rest == "" {
      forall chunk
        ensures NewLines(cap, before, chunk) == Kept(cap, chunk)
      {
        assert rest + chunk == chunk;
      }
    } else {
      OneNewline();
      FirstLineIsGlued(cap, before, "\n");
      KeptFirst(cap, "\n");
      NothingKept(cap, "");
      assert "\n"[1..] == "" && rest + "\n"[..0] == rest;
      assert NewLines(cap, before, "\n") == if |rest| <= cap then [rest] else [];
      assert Kept(cap, "\n") == [""];
    }
  }

  lemma OneNewline()
    ensures NewlineAt("\n") == 0 && NewlineAt("") == -1
  {
  }
}

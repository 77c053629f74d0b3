/**
 Ranged byte serving: the Range header parser and the two servers that use it,
 against RFC 9110 sections 14.1.2, 14.4, 15.3.7 and 15.5.17.

 A body is a sequence of bytes; base64 and MIME tables are not modelled.
 */
module RangeServing {
  import opened Text

  const MAX_SAFE_INTEGER: nat := 9_007_199_254_740_991

  /** The largest integer below which none is lost in a JavaScript number is 2^53 - 1. */
  lemma MaxIsPower()
    ensures MAX_SAFE_INTEGER + 1 == Power2(53)
  {
    EightMore(5);
    EightMore(13);
    EightMore(21);
    EightMore(29);
    EightMore(37);
    EightMore(45);
  }

  lemma EightMore(k: nat)
    ensures Power2(k + 8) == 256 * Power2(k)
    ensures k == 5 ==> Power2(k) == 32
  {
    assert Power2(k + 4) == 16 * Power2(k) by {
      assert Power2(k + 2) == 4 * Power2(k);
    }
    assert Power2(k + 6) == 4 * Power2(k + 4);
  }

  //// The header parser.

  datatype RangeParse = NoRange | Invalid | Range(start: Option<nat>, end: Option<nat>)

  /** The two digit strings of `bytes=<digits>-<digits>`, if s has exactly that form. */
  function MatchRange(s: string): Option<(string, string)> {
    var r0 :- Expect(s, "bytes=");
    var n := RunLength(IsDigit, r0);
    var r1 :- Expect(r0[n..], "-");
    if AllDigits(r1) then Some((r0[..n], r1)) else None
  }

  /** `Number(digits)`, absent for an empty group. */
  function NumberOf(digits: string): Option<nat>
    requires AllDigits(digits)
  {
    if digits == [] then None else Some(DecimalValue(digits))
  }

  predicate Unsafe(n: Option<nat>) {
    n.Some? && n.value > MAX_SAFE_INTEGER
  }

  function ParseRangeHeader(header: Option<string>): RangeParse {
    if header.None? || header.value == "" then
      NoRange
    else
      match MatchRange(Trim(header.value))
      case None => Invalid
      case Some((rawStart, rawEnd)) =>
        assert AllDigits(rawStart) && AllDigits(rawEnd) by {
          MatchedDigits(Trim(header.value));
        }
        Judged(NumberOf(rawStart), NumberOf(rawEnd))
  }

  /** The two numbers of a header of the right form. */
  function Judged(start: Option<nat>, end: Option<nat>): RangeParse {
    if start.None? && end.None? then Invalid
    else if Unsafe(start) || Unsafe(end) then Invalid
    else if start.Some? && end.Some? && end.value < start.value then Invalid
    else Range(start, end)
  }

  /** Only the two-group form matches. */
  lemma MatchedDigits(s: string)
    requires MatchRange(s).Some?
    ensures var (a, b) := MatchRange(s).value;
            AllDigits(a) && AllDigits(b) && s == "bytes=" + a + "-" + b
  {
    var r0 := Expect(s, "bytes=").value;
    var n := RunLength(IsDigit, r0);
    assert r0 == r0[..n] + r0[n..];
    TwoGroups(r0[..n], MatchRange(s).value.1);
  }

  lemma TwoGroups(a: string, b: string)
    ensures "bytes=" + a + "-" + b == "bytes=" + (a + ("-" + b))
  {
    Assoc("bytes=" + a, "-", b);
    Assoc("bytes=", a, "-" + b);
  }

  /** The two-group form always matches, with exactly these groups. */
  lemma MatchRangeBack(a: string, b: string)
    requires AllDigits(a) && AllDigits(b)
    ensures MatchRange("bytes=" + a + "-" + b) == Some((a, b))
  {
    var r0 := a + ("-" + b);
    TwoGroups(a, b);
    ExpectBack("bytes=", r0);
    RunIs(IsDigit, a, "-" + b);
    AfterPrefix(a, "-" + b);
    ExpectBack("-", b);
  }

  /** A header is a usable range exactly when its trimmed text has the form with two groups that make sense. */
  lemma ParseIsGrammar(header: string, start: Option<nat>, end: Option<nat>)
    requires header != ""
    ensures ParseRangeHeader(Some(header)) == Range(start, end) <==>
            exists a, b :: GroupsMean(Trim(header), a, b, start, end)
  {
    hide Power2, Trim, MatchRange, NumberOf, Judged, AllDigits;
    if ParseRangeHeader(Some(header)) == Range(start, end) {
      MatchedDigits(Trim(header));
      var (a, b) := MatchRange(Trim(header)).value;
      JudgedIs(NumberOf(a), NumberOf(b), start, end);
      assert GroupsMean(Trim(header), a, b, start, end);
    }
    if exists a, b :: GroupsMean(Trim(header), a, b, start, end) {
      var a, b :| GroupsMean(Trim(header), a, b, start, end);
      MatchRangeBack(a, b);
      assert MatchRange(Trim(header)) == Some((a, b));
      JudgedIs(NumberOf(a), NumberOf(b), start, end);
    }
  }

  lemma JudgedIs(x: Option<nat>, y: Option<nat>, start: Option<nat>, end: Option<nat>)
    ensures Judged(x, y) == Range(start, end) <==>
            && start == x && end == y && (start.Some? || end.Some?)
            && (start.Some? ==> start.value < Power2(53)) && (end.Some? ==> end.value < Power2(53))
            && (start.Some? && end.Some? ==> start.value <= end.value)
  {
    MaxIsPower();
    hide Power2;
  }

  predicate GroupsMean(s: string, a: string, b: string, start: Option<nat>, end: Option<nat>) {
    && AllDigits(a) && AllDigits(b) && s == "bytes=" + a + "-" + b
    && start == NumberOf(a) && end == NumberOf(b)
    && (start.Some? || end.Some?)
    && (start.Some? ==> start.value < Power2(53)) && (end.Some? ==> end.value < Power2(53))
    && (start.Some? && end.Some? ==> start.value <= end.value)
  }

  //// The servers.

  datatype Payload = Payload(data: seq<Octet>, offset: nat, total: nat)

  datatype Failure = NotFound | Status(code: nat) | Other

  datatype SourceResult = Got(payload: Payload) | Failed(failure: Failure)

  /** A byte source: asked for an offset and a length, or for everything. */
  type Source = (Option<(nat, nat)>) -> SourceResult

  datatype Response = Response(status: nat, body: seq<Octet>, contentRange: Option<string>)

  function ErrorResponse(f: Failure): Response {
    match f
    case NotFound => Response(404, [], None)
    case Status(code) => Response(code, [], None)
    case Other => Response(500, [], None)
  }

  function Unsatisfied(total: nat): string {
    "bytes */" + Decimal(total)
  }

  function ContentRange(p: Payload): string {
    "bytes " + Decimal(p.offset) + "-" + IntText(p.offset + |p.data| - 1) + "/" + Decimal(p.total)
  }

  /** The length asked for when the header names a start. */
  function WindowLength(start: nat, end: Option<nat>): int {
    (if end.Some? then end.value else MAX_SAFE_INTEGER) - start + 1
  }

  /** Every accepted range asks for at least one byte, and for no more than 2^53. */
  lemma WindowIsSane(header: Option<string>)
    requires ParseRangeHeader(header).Range? && ParseRangeHeader(header).start.Some?
    ensures var r := ParseRangeHeader(header);
            1 <= WindowLength(r.start.value, r.end) <= Power2(53)
  {
    MaxIsPower();
  }

  /** `serveBookBytes`: the ranged branch asks for the window, the other for the whole book. */
  function ServeBookBytes(header: Option<string>, source: Source): Response {
    var range := ParseRangeHeader(header);
    if range.Invalid? then
      Response(416, [], None)
    else if range.Range? && range.start.Some? then
      WindowIsSane(header);
      var start := range.start.value;
      match source(Some((start, WindowLength(start, range.end))))
      case Failed(f) => ErrorResponse(f)
      case Got(p) =>
        if start >= p.total then Response(416, [], Some(Unsatisfied(p.total)))
        else Response(206, p.data, Some(ContentRange(p)))
    else
      match source(None)
      case Failed(f) => ErrorResponse(f)
      case Got(p) => Response(200, p.data, None)
  }

  /** `serveBookResource`: one request to the source, with or without a window. */
  function ServeBookResource(header: Option<string>, source: Source): Response {
    var range := ParseRangeHeader(header);
    if range.Invalid? then
      Response(416, [], None)
    else
      var start := if range.Range? then range.start else None;
      var end := if range.Range? then range.end else None;
      var request := if start.Some? then
                       WindowIsSane(header);
                       Some((start.value, WindowLength(start.value, end) as nat))
                     else None;
      match source(request)
      case Failed(f) => ErrorResponse(f)
      case Got(p) =>
        if start.Some? && start.value >= p.total then Response(416, [], Some(Unsatisfied(p.total)))
        else Response(if start.Some? then 206 else 200, p.data, if start.Some? then Some(ContentRange(p)) else None)
  }

  /** The two servers answer alike, for every header and whatever the source does. */
  lemma ServersAgree(header: Option<string>, source: Source)
    ensures ServeBookBytes(header, source) == ServeBookResource(header, source)
  {
  }

  /** What either server answers when its source fails, whatever is asked of it. */
  lemma FailureIsAnswered(header: Option<string>, source: Source, failure: Failure)
    requires forall request :: source(request) == Failed(failure)
    ensures var answer := ServeBookBytes(header, source);
            && answer.body == [] && answer.contentRange == None
            && answer == ServeBookResource(header, source)
            && answer.status == if ParseRangeHeader(header).Invalid? then 416
                                else if failure.NotFound? then 404
                                else if failure.Status? then failure.code
                                else 500
  {
    ServersAgree(header, source);
    if NamesStart(ParseRangeHeader(header)) {
      WindowIsSane(header);
    }
    hide ParseRangeHeader;
  }

  //// With an honest source.

  /** A source that returns the requested window of one file. */
  function Honest(file: seq<Octet>): Source {
    (request: Option<(nat, nat)>) =>
      match request
      case None => Got(Payload(file, 0, |file|))
      case Some((offset, length)) =>
        var from := Min(offset, |file|);
        Got(Payload(file[from..Min(offset + length, |file|)], offset, |file|))
  }

  /** The text a client sends for bytes start to end, or from start on. */
  function RangeText(start: nat, end: Option<nat>): string {
    "bytes=" + Decimal(start) + "-" + (if end.Some? then Decimal(end.value) else "")
  }

  lemma RangeTextIsTrim(a: string, b: string)
    requires AllDigits(a) && AllDigits(b)
    ensures Trim("bytes=" + a + "-" + b) == "bytes=" + a + "-" + b
  {
    var front := "bytes=" + a + "-";
    var s := front + b;
    assert s[0] == 'b';
    if b == [] {
      assert s[|s| - 1] == front[|front| - 1] == '-';
    } else {
      assert s[|s| - 1] == b[|b| - 1];
    }
  }

  lemma RangeTextParses(start: nat, end: Option<nat>)
    requires start < Power2(53) && (end.Some? ==> start <= end.value < Power2(53))
    ensures ParseRangeHeader(Some(RangeText(start, end))) == Range(Some(start), end)
  {
    var a, b := Decimal(start), if end.Some? then Decimal(end.value) else "";
    var s := RangeText(start, end);
    DecimalBack(start);
    if end.Some? {
      DecimalBack(end.value);
    }
    MatchRangeBack(a, b);
    RangeTextIsTrim(a, b);
    assert GroupsMean(s, a, b, Some(start), end);
    ParseIsGrammar(s, Some(start), end);
  }

  /** The Content-Range value for bytes a to b of `total` (section 14.4). */
  function Declared(a: nat, b: nat, total: nat): string {
    "bytes " + Decimal(a) + "-" + Decimal(b) + "/" + Decimal(total)
  }

  /** What section 14 asks of a server of `file` for bytes start to last. */
  function Expected(file: seq<Octet>, start: nat, last: nat): Response
    requires start <= last
  {
    if start >= |file| then
      Response(416, [], Some("bytes */" + Decimal(|file|)))
    else
      var end := Min(last, |file| - 1);
      Response(206, file[start..end + 1], Some(Declared(start, end, |file|)))
  }

  function LastByte(end: Option<nat>): nat {
    if end.Some? then end.value else MAX_SAFE_INTEGER
  }

  /**
   A range that starts inside the file is answered 206 with exactly the bytes
   from start to the requested end or the end of the file, and a Content-Range
   that says so; one that starts past the end is answered 416 with the length.
   */
  lemma RangeIsServed(header: Option<string>, file: seq<Octet>)
    requires ParseRangeHeader(header).Range? && ParseRangeHeader(header).start.Some?
    ensures var r := ParseRangeHeader(header);
            && r.start.value <= LastByte(r.end)
            && ServeBookBytes(header, Honest(file)) == Expected(file, r.start.value, LastByte(r.end))
  {
    hide Power2;
    var r := ParseRangeHeader(header);
    WindowIsSane(header);
    RangeIsOrdered(header);
    HonestWindow(file, r.start.value, WindowLength(r.start.value, r.end));
    hide ParseRangeHeader, Decimal, Honest, IntText, Declared, ContentRange, IsBlank;
    var start, last := r.start.value, LastByte(r.end);
    if start < |file| {
      var end := Min(last, |file| - 1);
      ContentRangeIs(Payload(file[start..end + 1], start, |file|), end);
    }
  }

  /** An accepted range does not end before it starts. */
  lemma RangeIsOrdered(header: Option<string>)
    requires ParseRangeHeader(header).Range? && ParseRangeHeader(header).start.Some?
    ensures var r := ParseRangeHeader(header); r.start.value <= LastByte(r.end)
  {
  }

  lemma HonestWindow(file: seq<Octet>, start: nat, length: nat)
    requires length >= 1
    ensures Honest(file)(Some((start, length))).Got?
    ensures var p := Honest(file)(Some((start, length))).payload;
            && p.total == |file| && p.offset == start
            && (start < |file| ==> p.data == file[start..Min(start + length - 1, |file| - 1) + 1])
  {
  }

  lemma ContentRangeIs(p: Payload, end: nat)
    requires p.offset + |p.data| == end + 1
    ensures ContentRange(p) == Declared(p.offset, end, p.total)
  {
  }

  /** Whether the header names a first byte. */
  predicate NamesStart(r: RangeParse) {
    r.Range? && r.start.Some?
  }

  /** Bytes a to b of the file, declared as such. */
  predicate IsPart(answer: Response, file: seq<Octet>, a: nat, b: nat) {
    a <= b < |file| && answer == Response(206, file[a..b + 1], Some(Declared(a, b, |file|)))
  }

  /**
   Whatever the header, the status tells what was sent: the whole file, a part
   that is declared truly, or nothing; and the header and the file's length tell
   the status.
   */
  lemma EveryHeaderIsAnswered(header: Option<string>, file: seq<Octet>)
    ensures var r, answer := ParseRangeHeader(header), ServeBookBytes(header, Honest(file));
            && (answer.status == 206 <==> NamesStart(r) && r.start.value < |file|)
            && (answer.status == 416 <==> r.Invalid? || (NamesStart(r) && r.start.value >= |file|))
            && (answer.status == 206 ==> exists b: nat :: IsPart(answer, file, r.start.value, b))
            && (answer.status == 416 ==> answer.body == [])
            && (answer.status !in {206, 416} ==> answer == Response(200, file, None))
  {
    var r := ParseRangeHeader(header);
    if NamesStart(r) {
      RangeIsServed(header, file);
      hide ParseRangeHeader, Honest, ServeBookBytes, Declared;
      if r.start.value < |file| {
        assert IsPart(ServeBookBytes(header, Honest(file)), file, r.start.value, Min(LastByte(r.end), |file| - 1));
      }
    }
  }

  //// What a client makes of the answer.

  /** Reads `bytes a-b/total` back. */
  function ReadContentRange(s: string): Option<(nat, nat, nat)> {
    var r0 :- Expect(s, "bytes ");
    var (a, r1) :- ReadNat(r0);
    var r2 :- Expect(r1, "-");
    var (b, r3) :- ReadNat(r2);
    var r4 :- Expect(r3, "/");
    var (total, r5) :- ReadNat(r4);
    if r5 == [] then Some((a, b, total)) else None
  }

  lemma ContentRangeBack(a: nat, b: nat, total: nat)
    ensures ReadContentRange(Declared(a, b, total)) == Some((a, b, total))
  {
    hide Decimal, ReadNat;
    var s5 := Decimal(total) + "";
    var s4 := "/" + s5;
    var s3 := Decimal(b) + s4;
    var s2 := "-" + s3;
    var s1 := Decimal(a) + s2;
    assert Declared(a, b, total) == "bytes " + s1;
    ExpectBack("bytes ", s1);
    ReadNatBack(a, s2);
    ExpectBack("-", s3);
    ReadNatBack(b, s4);
    ExpectBack("/", s5);
    ReadNatBack(total, "");
  }

  /** The declared positions are inside the file, in order, and match the body's length. */
  lemma ContentRangeIsTrue(header: Option<string>, file: seq<Octet>)
    ensures var r := ServeBookBytes(header, Honest(file));
            r.status == 206 ==>
              && r.contentRange.Some?
              && ReadContentRange(r.contentRange.value).Some?
              && var (a, b, total) := ReadContentRange(r.contentRange.value).value;
                 a <= b < total == |file| && r.body == file[a..b + 1]
  {
    hide ServeBookBytes, ParseRangeHeader, Honest, ReadContentRange, Declared;
    var range := ParseRangeHeader(header);
    if ServeBookBytes(header, Honest(file)).status == 206 {
      OnlyRangesArePartial(header, file);
      RangeIsServed(header, file);
      ContentRangeBack(range.start.value, Min(LastByte(range.end), |file| - 1), |file|);
    }
  }

  lemma OnlyRangesArePartial(header: Option<string>, file: seq<Octet>)
    requires ServeBookBytes(header, Honest(file)).status == 206
    ensures ParseRangeHeader(header).Range? && ParseRangeHeader(header).start.Some?
    ensures ParseRangeHeader(header).start.value < |file|
  {
    hide ParseRangeHeader, ContentRange;
  }

  //// Reassembly.

  /** Cut points of a file: strictly increasing, from the start to the end. */
  predicate Cuts(cuts: seq<nat>, length: nat) {
    && |cuts| >= 2 && cuts[0] == 0 && cuts[|cuts| - 1] == length
    && forall i :: 0 <= i < |cuts| - 1 ==> cuts[i] < cuts[i + 1]
  }

  /** The bodies of the first n windows, requested one after the other by header text. */
  function Fetched(cuts: seq<nat>, n: nat, source: Source): seq<Octet>
    requires n < |cuts| && forall i :: 0 <= i < |cuts| - 1 ==> cuts[i] < cuts[i + 1]
  {
    if n == 0 then []
    else
      Fetched(cuts, n - 1, source)
      + ServeBookBytes(Some(RangeText(cuts[n - 1], Some(cuts[n] - 1))), source).body
  }

  /** One window inside the file brings exactly its bytes. */
  lemma OneWindow(start: nat, next: nat, file: seq<Octet>)
    requires start < next <= |file| <= Power2(53)
    ensures ServeBookBytes(Some(RangeText(start, Some(next - 1))), Honest(file)).body == file[start..next]
  {
    hide ServeBookBytes, Honest, ParseRangeHeader, RangeText;
    RangeTextParses(start, Some(next - 1));
    RangeIsServed(Some(RangeText(start, Some(next - 1))), file);
  }

  lemma Joined(file: seq<Octet>, a: nat, b: nat)
    requires a <= b <= |file|
    ensures file[..a] + file[a..b] == file[..b]
  {
  }

  lemma {:induction false} FetchedSoFar(cuts: seq<nat>, n: nat, file: seq<Octet>)
    requires Cuts(cuts, |file|) && n < |cuts| && |file| <= Power2(53)
    requires forall i :: 0 <= i < |cuts| ==> cuts[i] <= |file|
    ensures Fetched(cuts, n, Honest(file)) == file[..cuts[n]]
  {
    hide ServeBookBytes, Honest, RangeText;
    if n > 0 {
      FetchedSoFar(cuts, n - 1, file);
      OneWindow(cuts[n - 1], cuts[n], file);
      Joined(file, cuts[n - 1], cuts[n]);
    }
  }

  lemma {:induction false} CutsStayInside(cuts: seq<nat>, length: nat, i: nat)
    requires Cuts(cuts, length) && i < |cuts|
    ensures cuts[i] <= length
    decreases |cuts| - i
  {
    if i < |cuts| - 1 {
      CutsStayInside(cuts, length, i + 1);
    }
  }

  /** However a client cuts the file into windows, the bodies put together are the file. */
  lemma WindowsReassemble(cuts: seq<nat>, file: seq<Octet>)
    requires Cuts(cuts, |file|) && |file| <= Power2(53)
    ensures Fetched(cuts, |cuts| - 1, Honest(file)) == file
  {
    forall i | 0 <= i < |cuts|
      ensures cuts[i] <= |file|
    {
      CutsStayInside(cuts, |file|, i);
    }
    FetchedSoFar(cuts, |cuts| - 1, file);
    assert file[..|file|] == file;
  }
}

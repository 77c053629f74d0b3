/**
 The page content the fixture writer draws by default, and an interpreter of
 page content that tells what is painted where (sections 8.5.2, 8.5.3, 8.6.8
 and 9.4 of ISO 32000-1; the default coordinate system of section 8.3.2.3).
 */
module PdfDrawing {
  import opened Text
  import opened PdfSyntax

  //// The writer.

  function FillLine(height: int): string {
    "72 " + IntText(height - 192) + " 216 144 re f"
  }

  function TextLine(size: string, y: int, text: string): string {
    "BT /F1 " + size + " Tf 72 " + IntText(y) + " Td " + PdfString(text) + " Tj ET"
  }

  /** A filled rectangle and two lines of text. */
  function DefaultPageStream(text: string, height: int): string {
    "0.20 0.47 0.79 rg" + "\n"
    + FillLine(height) + "\n"
    + "0 0 0 rg" + "\n"
    + TextLine("40", height - 272, "Tuxbooks PDF Fixture") + "\n"
    + TextLine("28", height - 332, text)
  }

  //// Reading page content as words and strings.

  datatype Token = Word(text: string) | Text(text: string)

  predicate IsBreak(c: char) {
    c == ' ' || c == '\n'
  }

  predicate IsWordChar(c: char) {
    '!' <= c <= '~' && c !in "()<>[]{}%"
  }

  function ReadTokens(s: string): (r: Option<seq<Token>>)
    ensures r.Some? ==> forall t :: t in r.value && t.Text? ==> '\r' !in t.text
    decreases |s|
  {
    if s == [] then
      Some([])
    else if IsBreak(s[0]) then
      ReadTokens(s[1..])
    else if s[0] == '(' then
      var (text, rest) :- ReadString(s[1..]);
      var ts :- ReadTokens(rest);
      Some([Text(text)] + ts)
    else
      var n := RunLength(IsWordChar, s);
      if n == 0 then
        None
      else
        var ts :- ReadTokens(s[n..]);
        Some([Word(s[..n])] + ts)
  }

  //// What is painted.

  /** The graphics state: fill colour, a rectangle not yet painted, font, text position. */
  datatype Graphics = Graphics(fill: seq<string>, path: seq<int>, font: string, size: int, inText: bool, x: int, y: int)

  datatype Mark =
    | Filled(color: seq<string>, x: int, y: int, width: int, height: int)
    | Shown(color: seq<string>, font: string, size: int, x: int, y: int, text: string)

  const START: Graphics := Graphics([], [], "", 0, false, 0, 0)

  function ReadInt(s: string): Option<int> {
    if s == [] || s == "-" then None
    else if s[0] == '-' && AllDigits(s[1..]) then
      var n: int := DecimalValue(s[1..]);
      Some(-n)
    else if AllDigits(s) then Some(DecimalValue(s))
    else None
  }

  function ReadInts(ts: seq<Token>): (r: Option<seq<int>>)
    ensures r.Some? ==> |r.value| == |ts|
  {
    if ts == [] then
      Some([])
    else if ts[0].Text? then
      None
    else
      var n :- ReadInt(ts[0].text);
      var ns :- ReadInts(ts[1..]);
      Some([n] + ns)
  }

  /** A number, a name or a string; anything else is an operator. */
  predicate IsOperand(t: Token) {
    t.Text? || (t.text != "" && (IsNumChar(t.text[0]) || t.text[0] == '/'))
  }

  /** One operator on its operands: the new state and what it paints. */
  function Execute(op: string, ts: seq<Token>, g: Graphics): Option<(Graphics, seq<Mark>)> {
    if op == "rg" && |ts| == 3 && ts[0].Word? && ts[1].Word? && ts[2].Word? then
      Some((g.(fill := [ts[0].text, ts[1].text, ts[2].text]), []))
    else if op == "re" && |ts| == 4 then
      var path :- ReadInts(ts);
      Some((g.(path := path), []))
    else if op == "f" && ts == [] && |g.path| == 4 then
      Some((g.(path := []), [Filled(g.fill, g.path[0], g.path[1], g.path[2], g.path[3])]))
    else if op == "BT" && ts == [] && !g.inText then
      Some((g.(inText := true, x := 0, y := 0), []))
    else if op == "Tf" && |ts| == 2 && "/" <= ts[0].text && g.inText then
      var size :- ReadInts(ts[1..]);
      Some((g.(font := ts[0].text[1..], size := size[0]), []))
    else if op == "Td" && |ts| == 2 && g.inText then
      var step :- ReadInts(ts);
      Some((g.(x := g.x + step[0], y := g.y + step[1]), []))
    else if op == "Tj" && |ts| == 1 && ts[0].Text? && g.inText then
      Some((g, [Shown(g.fill, g.font, g.size, g.x, g.y, ts[0].text)]))
    else if op == "ET" && ts == [] && g.inText then
      Some((g.(inText := false), []))
    else
      None
  }

  function Draw(ts: seq<Token>, operands: seq<Token>, g: Graphics): Option<seq<Mark>>
    decreases |ts|
  {
    if ts == [] then
      if operands == [] && !g.inText then Some([]) else None
    else if IsOperand(ts[0]) then
      Draw(ts[1..], operands + [ts[0]], g)
    else
      var done :- Execute(ts[0].text, operands, g);
      var more :- Draw(ts[1..], [], done.0);
      Some(done.1 + more)
  }

  /** What page content paints from a state on. */
  function Painted(s: string, g: Graphics): Option<seq<Mark>> {
    var ts :- ReadTokens(s);
    Draw(ts, [], g)
  }

  //// Operators read back.

  /** The text of a token. */
  function Printed(t: Token): string {
    if t.Text? then PdfString(t.text) else t.text
  }

  predicate CleanToken(t: Token) {
    if t.Text? then '\r' !in t.text else t.text != "" && forall i :: 0 <= i < |t.text| ==> IsWordChar(t.text[i])
  }

  function Operands(ts: seq<Token>, tail: string): string {
    if ts == [] then tail else Printed(ts[0]) + (" " + Operands(ts[1..], tail))
  }

  predicate Ended(rest: string) {
    rest == [] || IsBreak(rest[0])
  }

  lemma TokenRead(t: Token, rest: string)
    requires CleanToken(t) && Ended(rest)
    ensures ReadTokens(Printed(t) + rest) ==
            match ReadTokens(rest)
            case None => None
            case Some(ts) => Some([t] + ts)
  {
    if t.Text? {
      StringRead(t.text, rest);
    } else {
      WordRead(t.text, rest);
    }
  }

  lemma WordRead(w: string, rest: string)
    requires CleanToken(Word(w)) && Ended(rest)
    ensures ReadTokens(w + rest) ==
            match ReadTokens(rest)
            case None => None
            case Some(ts) => Some([Word(w)] + ts)
  {
    RunIs(IsWordChar, w, rest);
    AfterPrefix(w, rest);
    assert (w + rest)[0] == w[0];
  }

  lemma StringRead(text: string, rest: string)
    requires '\r' !in text
    ensures ReadTokens(PdfString(text) + rest) ==
            match ReadTokens(rest)
            case None => None
            case Some(ts) => Some([Text(text)] + ts)
  {
    hide EscapeEach, Escaped, ReadTokens;
    ThreePassesEscapeEach(text);
    Assoc("(", EscapeEach(text) + ")", rest);
    Assoc("(", EscapeEach(text), ")");
    ReadEscaped(text, rest);
    OpenString(EscapeEach(text) + ")" + rest, text, rest);
  }

  lemma OpenString(s: string, text: string, rest: string)
    requires ReadString(s) == Some((text, rest))
    ensures ReadTokens("(" + s) ==
            match ReadTokens(rest)
            case None => None
            case Some(ts) => Some([Text(text)] + ts)
  {
    hide ReadString;
    assert ("(" + s)[0] == '(' && ("(" + s)[1..] == s;
  }

  lemma BreakRead(c: char, rest: string)
    requires IsBreak(c)
    ensures ReadTokens([c] + rest) == ReadTokens(rest)
  {
    assert ([c] + rest)[1..] == rest;
  }

  lemma {:induction false} OperandsRead(ts: seq<Token>, tail: string)
    requires forall t :: t in ts ==> CleanToken(t)
    ensures ReadTokens(Operands(ts, tail)) ==
            match ReadTokens(tail)
            case None => None
            case Some(more) => Some(ts + more)
    decreases |ts|
  {
    hide ReadTokens, Printed, CleanToken;
    if ts == [] {
      assert forall more: seq<Token> :: ts + more == more;
    } else {
      var rest := Operands(ts[1..], tail);
      OperandsRead(ts[1..], tail);
      BreakRead(' ', rest);
      TokenRead(ts[0], " " + rest);
      assert forall more: seq<Token> :: [ts[0]] + (ts[1..] + more) == ts + more;
    }
  }

  lemma {:induction false} OperandsWait(ts: seq<Token>, operands: seq<Token>, more: seq<Token>, g: Graphics)
    requires forall t :: t in ts ==> IsOperand(t)
    ensures Draw(ts + more, operands, g) == Draw(more, operands + ts, g)
    decreases |ts|
  {
    hide IsOperand;
    if ts == [] {
      assert ts + more == more && operands + ts == operands;
    } else {
      assert (ts + more)[0] == ts[0] && (ts + more)[1..] == ts[1..] + more;
      OperandsWait(ts[1..], operands + [ts[0]], more, g);
      assert operands + [ts[0]] + ts[1..] == operands + ts;
    }
  }

  /** One operator with its operands: it is executed, and what follows is painted from there on. */
  lemma OperatorPaints(ts: seq<Token>, op: string, rest: string, g: Graphics)
    requires forall t :: t in ts ==> CleanToken(t) && IsOperand(t)
    requires CleanToken(Word(op)) && !IsOperand(Word(op)) && Ended(rest)
    ensures Painted(Operands(ts, op + rest), g) ==
            match Execute(op, ts, g)
            case None => None
            case Some(done) =>
              match Painted(rest, done.0)
              case None => None
              case Some(more) => Some(done.1 + more)
  {
    hide ReadTokens, CleanToken, IsOperand, Execute;
    OperandsRead(ts, op + rest);
    TokenRead(Word(op), rest);
    if ReadTokens(rest).Some? {
      var more := [Word(op)] + ReadTokens(rest).value;
      OperandsWait(ts, [], more, g);
      assert [] + ts == ts && more[1..] == ReadTokens(rest).value;
    }
  }

  lemma BreakPaints(c: char, rest: string, g: Graphics)
    requires IsBreak(c)
    ensures Painted([c] + rest, g) == Painted(rest, g)
  {
    hide ReadTokens;
    BreakRead(c, rest);
  }

  //// The default stream read back.

  lemma IntRead(n: int)
    ensures ReadInt(IntText(n)) == Some(n)
    ensures CleanToken(Word(IntText(n))) && IsOperand(Word(IntText(n)))
  {
    hide Decimal;
    if n < 0 {
      DecimalBack(-n);
      assert ("-" + Decimal(-n))[1..] == Decimal(-n);
    } else {
      DecimalBack(n);
      assert IsDigit(Decimal(n)[0]);
    }
  }

  lemma NumeralRead(s: string)
    requires s != [] && AllDigits(s)
    ensures ReadInt(s) == Some(DecimalValue(s)) && CleanToken(Word(s)) && IsOperand(Word(s))
  {
  }

  lemma SmallNumerals()
    ensures DecimalValue("72") == 72 && DecimalValue("216") == 216 && DecimalValue("144") == 144
    ensures DecimalValue("40") == 40 && DecimalValue("28") == 28
  {
    DecimalOf(72, "72");
    DecimalOf(216, "216");
    DecimalOf(144, "144");
    DecimalOf(40, "40");
    DecimalOf(28, "28");
  }

  lemma DecimalOf(n: nat, s: string)
    requires n < 1000
    requires Decimal(n) == s
    ensures AllDigits(s) && DecimalValue(s) == n
  {
    DecimalBack(n);
  }

  lemma ReadOne(a: Token, x: int)
    requires a.Word? && ReadInt(a.text) == Some(x)
    ensures ReadInts([a]) == Some([x])
  {
    hide ReadInt;
    assert [a][1..] == [];
    assert ReadInts([]) == Some([]) && [x] + [] == [x];
  }

  lemma ReadTwo(a: Token, b: Token, x: int, y: int)
    requires a.Word? && ReadInt(a.text) == Some(x) && b.Word? && ReadInt(b.text) == Some(y)
    ensures ReadInts([a, b]) == Some([x, y])
  {
    hide ReadInt;
    ReadOne(b, y);
    assert [a, b][1..] == [b] && [x] + [y] == [x, y];
  }

  lemma ReadFour(a: Token, b: Token, c: Token, d: Token, x: int, y: int, z: int, u: int)
    requires a.Word? && ReadInt(a.text) == Some(x) && b.Word? && ReadInt(b.text) == Some(y)
    requires c.Word? && ReadInt(c.text) == Some(z) && d.Word? && ReadInt(d.text) == Some(u)
    ensures ReadInts([a, b, c, d]) == Some([x, y, z, u])
  {
    hide ReadInt;
    ReadTwo(c, d, z, u);
    assert [a, b, c, d][1..] == [b, c, d] && [b, c, d][1..] == [c, d];
    assert [y] + [z, u] == [y, z, u] && [x] + [y, z, u] == [x, y, z, u];
  }

  lemma NoOperands(tail: string)
    ensures Operands([], tail) == tail
  {
  }

  lemma OneOperand(a: Token, tail: string)
    ensures Operands([a], tail) == Printed(a) + (" " + tail)
  {
    hide Printed;
    assert [a][1..] == [];
  }

  lemma TwoOperands(a: Token, b: Token, tail: string)
    ensures Operands([a, b], tail) == Printed(a) + (" " + (Printed(b) + (" " + tail)))
  {
    hide Printed;
    assert [a, b][1..] == [b];
    OneOperand(b, tail);
  }

  lemma ThreeOperands(a: Token, b: Token, c: Token, tail: string)
    ensures Operands([a, b, c], tail) == Printed(a) + (" " + (Printed(b) + (" " + (Printed(c) + (" " + tail)))))
  {
    hide Printed;
    assert [a, b, c][1..] == [b, c];
    TwoOperands(b, c, tail);
  }

  lemma FourOperands(a: Token, b: Token, c: Token, d: Token, tail: string)
    ensures Operands([a, b, c, d], tail) ==
            Printed(a) + (" " + (Printed(b) + (" " + (Printed(c) + (" " + (Printed(d) + (" " + tail)))))))
  {
    hide Printed;
    assert [a, b, c, d][1..] == [b, c, d];
    ThreeOperands(b, c, d, tail);
  }

  /** The names of the operators are no operands. */
  predicate IsOperator(op: string) {
    CleanToken(Word(op)) && !IsOperand(Word(op))
  }

  lemma OperatorNames()
    ensures IsOperator("rg") && IsOperator("re") && IsOperator("f")
  {
  }

  lemma TextOperatorNames()
    ensures IsOperator("BT") && IsOperator("ET")
  {
  }

  lemma ShowOperatorNames()
    ensures IsOperator("Tf") && IsOperator("Td") && IsOperator("Tj")
  {
  }

  /** A set colour line, in front of any further content. */
  lemma ColorPaints(a: string, b: string, c: string, rest: string, g: Graphics)
    requires CleanToken(Word(a)) && CleanToken(Word(b)) && CleanToken(Word(c))
    requires IsOperand(Word(a)) && IsOperand(Word(b)) && IsOperand(Word(c)) && Ended(rest)
    ensures Painted(a + " " + b + " " + c + " rg" + rest, g) == Painted(rest, g.(fill := [a, b, c]))
  {
    hide Painted, CleanToken, IsOperand;
    OperatorNames();
    var ts := [Word(a), Word(b), Word(c)];
    ThreeOperands(ts[0], ts[1], ts[2], "rg" + rest);
    assert a + " " + b + " " + c + " rg" + rest == a + (" " + (b + (" " + (c + (" " + ("rg" + rest))))));
    OperatorPaints(ts, "rg", rest, g);
    NothingInFront(Painted(rest, g.(fill := [a, b, c])));
  }

  lemma NothingInFront(more: Option<seq<Mark>>)
    ensures more.Some? ==> [] + more.value == more.value
  {
  }

  lemma FillPaints(height: int, rest: string, g: Graphics)
    requires Ended(rest)
    ensures Painted(FillLine(height) + rest, g) ==
            match Painted(rest, g.(path := []))
            case None => None
            case Some(more) => Some([Filled(g.fill, 72, height - 192, 216, 144)] + more)
  {
    hide Painted, CleanToken, IsOperand, ReadInt, IntText;
    OperatorNames();
    SmallNumerals();
    NumeralRead("72");
    NumeralRead("216");
    NumeralRead("144");
    IntRead(height - 192);
    var y := IntText(height - 192);
    var ts := [Word("72"), Word(y), Word("216"), Word("144")];
    ReadFour(ts[0], ts[1], ts[2], ts[3], 72, height - 192, 216, 144);
    FourOperands(ts[0], ts[1], ts[2], ts[3], "re" + (" " + ("f" + rest)));
    FillText(y, rest);
    var next := g.(path := [72, height - 192, 216, 144]);
    OperatorPaints(ts, "re", " " + ("f" + rest), g);
    BreakPaints(' ', "f" + rest, next);
    NoOperands("f" + rest);
    OperatorPaints([], "f", rest, next);
    NothingInFront(Painted("f" + rest, next));
  }

  lemma FillText(y: string, rest: string)
    ensures "72 " + y + " 216 144 re f" + rest ==
            "72" + (" " + (y + (" " + ("216" + (" " + ("144" + (" " + ("re" + (" " + ("f" + rest))))))))))
  {
    var tail := "216" + (" " + ("144" + (" " + ("re" + (" " + "f")))));
    assert " 216 144 re f" == " " + tail;
    assert "72 " == "72" + " ";
    assert "72 " + y + " 216 144 re f" + rest == "72" + (" " + (y + (" " + (tail + rest))));
    assert tail + rest == "216" + (" " + ("144" + (" " + ("re" + (" " + ("f" + rest))))));
  }

  lemma FontTokens()
    ensures CleanToken(Word("/F1")) && IsOperand(Word("/F1")) && "/" <= "/F1" && "/F1"[1..] == "F1"
  {
  }

  /** The state in which a line of text is shown. */
  function Placed(g: Graphics, size: int, y: int): Graphics {
    g.(inText := true, font := "F1", size := size, x := 72, y := y)
  }

  /** A text object that shows one string, in front of any further content. */
  lemma TextPaints(size: string, y: int, text: string, rest: string, g: Graphics)
    requires size != [] && AllDigits(size) && '\r' !in text && Ended(rest) && !g.inText
    ensures var shown := Placed(g, DecimalValue(size), y);
            Painted(TextLine(size, y, text) + rest, g) ==
            match Painted(rest, shown.(inText := false))
            case None => None
            case Some(more) => Some([Shown(g.fill, "F1", DecimalValue(size), 72, y, text)] + more)
  {
    hide Painted, CleanToken, IsOperand, ReadInt, IntText, PdfString;
    TextOperatorNames();
    ShowOperatorNames();
    FontTokens();
    SmallNumerals();
    NumeralRead("72");
    NumeralRead(size);
    IntRead(y);
    var s4 := "ET" + rest;
    var s3 := Operands([Text(text)], "Tj" + (" " + s4));
    var s2 := Operands([Word("72"), Word(IntText(y))], "Td" + (" " + s3));
    var s1 := Operands([Word("/F1"), Word(size)], "Tf" + (" " + s2));
    TextParts(size, IntText(y), text, rest);
    var begun := g.(inText := true, x := 0, y := 0);
    var sized := begun.(font := "F1", size := DecimalValue(size));
    var placed := Placed(g, DecimalValue(size), y);
    BeginPaints(s1, g);
    FontPaints(size, s2, begun);
    MovePaints(y, s3, sized);
    ShowPaints(text, rest, placed);
  }

  lemma TextParts(size: string, y: string, text: string, rest: string)
    ensures "BT /F1 " + size + " Tf 72 " + y + " Td " + PdfString(text) + " Tj ET" + rest ==
            "BT" + (" " + Operands([Word("/F1"), Word(size)],
            "Tf" + (" " + Operands([Word("72"), Word(y)],
            "Td" + (" " + Operands([Text(text)], "Tj" + (" " + ("ET" + rest))))))))
  {
    hide PdfString;
    var t := PdfString(text);
    OneOperand(Text(text), "Tj" + (" " + ("ET" + rest)));
    var a := t + (" " + ("Tj" + (" " + ("ET" + rest))));
    TwoOperands(Word("72"), Word(y), "Td" + (" " + a));
    var b := "72" + (" " + (y + (" " + ("Td" + (" " + a)))));
    TwoOperands(Word("/F1"), Word(size), "Tf" + (" " + b));
    hide Operands;
    assert t + " Tj ET" + rest == a;
    assert " Tf 72 " + y + " Td " + a == " " + ("Tf" + (" " + b));
    assert "BT /F1 " + size + (" " + ("Tf" + (" " + b))) == "BT"
           + (" " + ("/F1" + (" " + (size + (" " + ("Tf" + (" " + b)))))));
  }

  lemma BeginPaints(rest: string, g: Graphics)
    requires !g.inText
    ensures Painted("BT" + (" " + rest), g) == Painted(rest, g.(inText := true, x := 0, y := 0))
  {
    hide Painted, CleanToken, IsOperand;
    TextOperatorNames();
    var next := g.(inText := true, x := 0, y := 0);
    NoOperands("BT" + (" " + rest));
    OperatorPaints([], "BT", " " + rest, g);
    BreakPaints(' ', rest, next);
    NothingInFront(Painted(rest, next));
  }

  lemma FontPaints(size: string, rest: string, g: Graphics)
    requires size != [] && AllDigits(size) && g.inText
    ensures Painted(Operands([Word("/F1"), Word(size)], "Tf" + (" " + rest)), g) ==
            Painted(rest, g.(font := "F1", size := DecimalValue(size)))
  {
    hide Painted, CleanToken, IsOperand, ReadInt, Operands;
    ShowOperatorNames();
    FontTokens();
    NumeralRead(size);
    var ts := [Word("/F1"), Word(size)];
    assert ts[1..] == [Word(size)];
    ReadOne(Word(size), DecimalValue(size));
    var next := g.(font := "F1", size := DecimalValue(size));
    OperatorPaints(ts, "Tf", " " + rest, g);
    BreakPaints(' ', rest, next);
    NothingInFront(Painted(rest, next));
  }

  lemma MovePaints(y: int, rest: string, g: Graphics)
    requires g.inText && g.x == 0 && g.y == 0
    ensures Painted(Operands([Word("72"), Word(IntText(y))], "Td" + (" " + rest)), g) ==
            Painted(rest, g.(x := 72, y := y))
  {
    hide Painted, CleanToken, IsOperand, ReadInt, Operands, IntText;
    ShowOperatorNames();
    SmallNumerals();
    NumeralRead("72");
    IntRead(y);
    var ts := [Word("72"), Word(IntText(y))];
    ReadTwo(ts[0], ts[1], 72, y);
    var next := g.(x := 72, y := y);
    OperatorPaints(ts, "Td", " " + rest, g);
    BreakPaints(' ', rest, next);
    NothingInFront(Painted(rest, next));
  }

  lemma ShowPaints(text: string, rest: string, g: Graphics)
    requires g.inText && '\r' !in text && Ended(rest)
    ensures Painted(Operands([Text(text)], "Tj" + (" " + ("ET" + rest))), g) ==
            match Painted(rest, g.(inText := false))
            case None => None
            case Some(more) => Some([Shown(g.fill, g.font, g.size, g.x, g.y, text)] + more)
  {
    hide Painted, CleanToken, IsOperand, Operands;
    ShowOperatorNames();
    TextOperatorNames();
    StringTokens(text);
    var s := "ET" + rest;
    OperatorPaints([Text(text)], "Tj", " " + s, g);
    BreakPaints(' ', s, g);
    NoOperands(s);
    OperatorPaints([], "ET", rest, g);
    NothingInFront(Painted(rest, g.(inText := false)));
  }

  lemma StringTokens(text: string)
    requires '\r' !in text
    ensures CleanToken(Text(text)) && IsOperand(Text(text))
  {
  }

  predicate NoReturns(ts: seq<Token>) {
    forall t :: t in ts && t.Text? ==> '\r' !in t.text
  }

  predicate MarksClean(marks: seq<Mark>) {
    forall m :: m in marks && m.Shown? ==> '\r' !in m.text
  }

  /** No shown string holds a carriage return, since none is read. */
  lemma {:induction false} PaintsNoReturns(ts: seq<Token>, operands: seq<Token>, g: Graphics)
    requires NoReturns(ts) && NoReturns(operands) && Draw(ts, operands, g).Some?
    ensures MarksClean(Draw(ts, operands, g).value)
    decreases |ts|
  {
    hide IsOperand, ReadInts;
    if ts != [] {
      assert NoReturns(ts[1..]);
      if IsOperand(ts[0]) {
        PaintsNoReturns(ts[1..], operands + [ts[0]], g);
      } else {
        var done := Execute(ts[0].text, operands, g).value;
        assert MarksClean(done.1);
        PaintsNoReturns(ts[1..], [], done.0);
      }
    }
  }

  const BLUE: seq<string> := ["0.20", "0.47", "0.79"]
  const BLACK: seq<string> := ["0", "0", "0"]

  /** What a default page of the given height shows: coordinates grow upwards from its lower left corner. */
  function DefaultMarks(caption: string, height: int): seq<Mark> {
    [ Filled(BLUE, 72, height - 192, 216, 144),
      Shown(BLACK, "F1", 40, 72, height - 272, "Tuxbooks PDF Fixture"),
      Shown(BLACK, "F1", 28, 72, height - 332, caption) ]
  }

  lemma BlueTokens()
    ensures CleanToken(Word("0.20")) && CleanToken(Word("0.47")) && CleanToken(Word("0.79"))
    ensures IsOperand(Word("0.20")) && IsOperand(Word("0.47")) && IsOperand(Word("0.79"))
  {
    assert IsNumText("0.20") && IsNumText("0.47") && IsNumText("0.79");
    hide IsNumText, CleanToken, IsOperand;
    NumberToken("0.20");
    NumberToken("0.47");
    NumberToken("0.79");
  }

  lemma NumberToken(w: string)
    requires IsNumText(w)
    ensures CleanToken(Word(w)) && IsOperand(Word(w))
  {
    assert forall i :: 0 <= i < |w| ==> w[i] in w && IsNumChar(w[i]);
    assert forall c :: IsNumChar(c) ==> IsWordChar(c);
  }

  lemma BlueText(rest: string)
    ensures "0.20" + " " + "0.47" + " " + "0.79" + " rg" + rest == "0.20 0.47 0.79 rg" + rest
  {
    assert "0.20" + " " + "0.47" + " " + "0.79" + " rg" == "0.20 0.47 0.79 rg";
  }

  lemma BluePaints(rest: string, g: Graphics)
    requires Ended(rest)
    ensures Painted("0.20 0.47 0.79 rg" + rest, g) == Painted(rest, g.(fill := BLUE))
  {
    hide Painted, CleanToken, IsOperand;
    BlueTokens();
    BlueText(rest);
    ColorPaints("0.20", "0.47", "0.79", rest, g);
  }

  lemma BlackPaints(rest: string, g: Graphics)
    requires Ended(rest)
    ensures Painted("0 0 0 rg" + rest, g) == Painted(rest, g.(fill := BLACK))
  {
    hide Painted;
    assert "0" + " " + "0" + " " + "0" + " rg" == "0 0 0 rg";
    ColorPaints("0", "0", "0", rest, g);
  }

  lemma StreamParts(caption: string, height: int)
    ensures DefaultPageStream(caption, height) ==
            "0.20 0.47 0.79 rg" + ("\n" + (FillLine(height) + ("\n" + ("0 0 0 rg" + ("\n" +
            (TextLine("40", height - 272, "Tuxbooks PDF Fixture") + ("\n" +
             (TextLine("28", height - 332, caption) + ""))))))))
  {
    hide FillLine, TextLine;
    var a, b := FillLine(height), TextLine("40", height - 272, "Tuxbooks PDF Fixture");
    var c := TextLine("28", height - 332, caption);
    assert c + "" == c;
    FourLines("0.20 0.47 0.79 rg", a, "0 0 0 rg", b, c);
  }

  lemma FourLines(a: string, b: string, c: string, d: string, e: string)
    ensures a + "\n" + b + "\n" + c + "\n" + d + "\n" + e == a + ("\n" + (b + ("\n" + (c + ("\n" + (d + ("\n" + e)))))))
  {
  }

  lemma HeadingIsClean()
    ensures '\r' !in "Tuxbooks PDF Fixture"
  {
  }

  /**
   The drawn stream paints the rectangle, the heading and the caption, each at
   its place below the top of the page, if and only if the caption has no
   carriage return.
   */
  lemma CaptionIsDrawn(caption: string, height: int)
    ensures Painted(DefaultPageStream(caption, height), START) == Some(DefaultMarks(caption, height)) <==>
            '\r' !in caption
  {
    hide DefaultPageStream, ReadTokens, Draw;
    if '\r' !in caption {
      DefaultPaints(caption, height);
    }
    if Painted(DefaultPageStream(caption, height), START) == Some(DefaultMarks(caption, height)) {
      var ts := ReadTokens(DefaultPageStream(caption, height)).value;
      PaintsNoReturns(ts, [], START);
      assert DefaultMarks(caption, height)[2] in DefaultMarks(caption, height);
    }
  }

  lemma DefaultPaints(caption: string, height: int)
    requires '\r' !in caption
    ensures Painted(DefaultPageStream(caption, height), START) == Some(DefaultMarks(caption, height))
  {
    hide DefaultPageStream, Painted, FillLine, TextLine, CleanToken, IsOperand, START, BLUE, BLACK;
    StreamParts(caption, height);
    SmallNumerals();
    HeadingIsClean();
    var heading := "Tuxbooks PDF Fixture";
    var s4 := TextLine("28", height - 332, caption) + "";
    var s3 := TextLine("40", height - 272, heading) + ("\n" + s4);
    var s2 := "0 0 0 rg" + ("\n" + s3);
    var s1 := FillLine(height) + ("\n" + s2);
    var g0 := START;
    var g1 := g0.(fill := BLUE);
    var g2 := g1.(path := []);
    var g3 := g2.(fill := BLACK);
    var g4 := Placed(g3, 40, height - 272).(inText := false);
    var g5 := Placed(g4, 28, height - 332).(inText := false);
    StartIsOutside();
    BluePaints("\n" + s1, g0);
    BreakPaints('\n', s1, g1);
    FillPaints(height, "\n" + s2, g1);
    BreakPaints('\n', s2, g2);
    BlackPaints("\n" + s3, g2);
    BreakPaints('\n', s3, g3);
    TextPaints("40", height - 272, heading, "\n" + s4, g3);
    BreakPaints('\n', s4, g4);
    TextPaints("28", height - 332, caption, "", g4);
    PageEnds(g5);
    var a, b := Filled(BLUE, 72, height - 192, 216, 144), Shown(BLACK, "F1", 40, 72, height - 272, heading);
    var c := Shown(BLACK, "F1", 28, 72, height - 332, caption);
    assert [a] + ([b] + ([c] + [])) == [a, b, c];
  }

  lemma StartIsOutside()
    ensures !START.inText
  {
  }

  lemma PageEnds(g: Graphics)
    requires !g.inText
    ensures Painted("", g) == Some([])
  {
  }

  /** The vertical extent of a mark; a text counts with its base line. */
  function Bottom(m: Mark): int {
    m.y
  }

  function Top(m: Mark): int {
    if m.Filled? then m.y + m.height else m.y
  }

  predicate OnPage(m: Mark, height: int) {
    0 <= Bottom(m) && Top(m) <= height
  }

  /**
   Exactly which pages show what: everything on pages at least 332 high, at
   least the rectangle on those at least 192 high, and part of it, and so
   anything at all, only on those higher than 48.
   */
  lemma PagesHighEnough(caption: string, height: int)
    ensures var marks := DefaultMarks(caption, height);
            && ((forall m :: m in marks ==> OnPage(m, height)) <==> height >= 332)
            && (OnPage(marks[0], height) <==> height >= 192)
            && ((exists m :: m in marks && Top(m) > 0) <==> height > 48)
  {
    var marks := DefaultMarks(caption, height);
    assert marks[0] in marks && marks[1] in marks && marks[2] in marks;
  }
}

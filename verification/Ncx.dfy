/**
 The NCX navigation map of the EPUB fixtures (OPF 2.0.1, section 2.4.1): nested
 navPoints with a running play order and a declared depth, and a reader that
 recovers the navigation tree from the text.
 */
module Ncx {
  import opened Text

  datatype Point = Point(id: string, caption: string, src: string, children: seq<Point>)

  //// The writer.

  function Spaces(n: nat): string {
    if n == 0 then "" else " " + Spaces(n - 1)
  }

  function Unlines(lines: seq<string>): string {
    if lines == [] then "" else lines[0] + "\n" + Unlines(lines[1..])
  }

  function OpenLine(p: Point, order: nat): string {
    "<navPoint id=\"" + p.id + "\" playOrder=\"" + Decimal(order) + "\">"
  }

  function LabelLine(p: Point): string {
    "<navLabel><text>" + p.caption + "</text></navLabel>"
  }

  function ContentLine(p: Point): string {
    "<content src=\"" + p.src + "\"/>"
  }

  /** The number of points in a subtree. */
  function Size(p: Point): (n: nat)
    ensures n > 0
  {
    1 + SizeFrom(p.children, 0)
  }

  function SizeFrom(ps: seq<Point>, i: nat): nat
    requires i <= |ps|
    decreases ps, |ps| - i
  {
    if i == |ps| then 0 else Size(ps[i]) + SizeFrom(ps, i + 1)
  }

  function PointLines(p: Point, indent: nat, order: nat): seq<string> {
    [ Spaces(indent) + OpenLine(p, order), Spaces(indent + 2) + LabelLine(p), Spaces(indent + 2) + ContentLine(p) ]
    + LinesFrom(p.children, 0, indent + 2, order + 1)
    + [Spaces(indent) + "</navPoint>"]
  }

  /** The lines of points i, i + 1, ..., numbered from `order` on. */
  function LinesFrom(ps: seq<Point>, i: nat, indent: nat, order: nat): seq<string>
    requires i <= |ps|
    decreases ps, |ps| - i
  {
    if i == |ps| then [] else PointLines(ps[i], indent, order) + LinesFrom(ps, i + 1, indent, order + Size(ps[i]))
  }

  /** The inner `emit` with its running counter. */
  method Emit(p: Point, indent: nat, counter: nat) returns (out: seq<string>, counter': nat)
    ensures out == PointLines(p, indent, counter + 1) && counter' == counter + Size(p)
    decreases p, 1
  {
    hide OpenLine, LabelLine, ContentLine, Spaces;
    counter' := counter + 1;
    var order := counter';
    out := [ Spaces(indent) + OpenLine(p, order),
             Spaces(indent + 2) + LabelLine(p),
             Spaces(indent + 2) + ContentLine(p) ];
    var inner;
    inner, counter' := EmitAll(p.children, indent + 2, counter');
    out := out + inner;
    out := out + [Spaces(indent) + "</navPoint>"];
  }

  method EmitAll(ps: seq<Point>, indent: nat, counter: nat) returns (out: seq<string>, counter': nat)
    ensures out == LinesFrom(ps, 0, indent, counter + 1) && counter' == counter + SizeFrom(ps, 0)
    decreases ps, 0
  {
    out, counter' := [], counter;
    for i := 0 to |ps|
      invariant Emitted(ps, i, indent, counter, out, counter')
    {
      var lines;
      ghost var before := counter';
      lines, counter' := Emit(ps[i], indent, counter');
      EmitStep(ps, i, indent, counter, out, before);
      out := out + lines;
    }
    assert Emitted(ps, |ps|, indent, counter, out, counter');
  }

  ghost predicate Emitted(ps: seq<Point>, i: nat, indent: nat, counter: nat, out: seq<string>, counter': nat)
    requires i <= |ps|
  {
    && out + LinesFrom(ps, i, indent, counter' + 1) == LinesFrom(ps, 0, indent, counter + 1)
    && counter' + SizeFrom(ps, i) == counter + SizeFrom(ps, 0)
  }

  lemma EmitStep(ps: seq<Point>, i: nat, indent: nat, counter: nat, out: seq<string>, counter': nat)
    requires i < |ps| && Emitted(ps, i, indent, counter, out, counter')
    ensures Emitted(ps, i + 1, indent, counter, out + PointLines(ps[i], indent, counter' + 1), counter' + Size(ps[i]))
  {
    hide PointLines;
    var a, b := PointLines(ps[i], indent, counter' + 1), LinesFrom(ps, i + 1, indent, counter' + 1 + Size(ps[i]));
    assert out + (a + b) == out + a + b;
  }

  function Measure(p: Point): nat {
    1 + DepthFrom(p.children, 0)
  }

  function DepthFrom(ps: seq<Point>, i: nat): nat
    requires i <= |ps|
    decreases ps, |ps| - i
  {
    if i == |ps| then 0 else Max(Measure(ps[i]), DepthFrom(ps, i + 1))
  }

  const PROLOGUE: seq<string> :=
    [ "<?xml version=\"1.0\" encoding=\"UTF-8\"?>",
      "<ncx xmlns=\"http://www.daisy.org/z3986/2005/ncx/\" version=\"2005-1\">",
      "  <head>" ]

  const COUNTS: seq<string> :=
    [ "    <meta name=\"dtb:totalPageCount\" content=\"0\"/>",
      "    <meta name=\"dtb:maxPageNumber\" content=\"0\"/>",
      "  </head>",
      "  <docTitle>" ]

  const NAV_MAP: seq<string> := ["  </docTitle>", "  <navMap>"]

  function UidLine(uid: string): string {
    "<meta name=\"dtb:uid\" content=\"" + uid + "\"/>"
  }

  function DepthLine(depth: nat): string {
    "<meta name=\"dtb:depth\" content=\"" + Decimal(depth) + "\"/>"
  }

  function TitleLine(title: string): string {
    "<text>" + title + "</text>"
  }

  function Head(uid: string, depth: nat, title: string): seq<string> {
    PROLOGUE + [Spaces(4) + UidLine(uid), Spaces(4) + DepthLine(depth)]
    + COUNTS + [Spaces(4) + TitleLine(title)] + NAV_MAP
  }

  const FOOT: seq<string> := ["  </navMap>", "</ncx>"]

  function NcxText(uid: string, title: string, points: seq<Point>): string {
    Unlines(Head(uid, DepthFrom(points, 0), title) + LinesFrom(points, 0, 4, 1) + FOOT)
  }

  method WriteNcx(uid: string, title: string, points: seq<Point>) returns (text: string)
    ensures text == NcxText(uid, title, points)
  {
    hide Unlines, LinesFrom, Head, FOOT;
    var depth := 0;
    for i := 0 to |points|
      invariant Max(depth, DepthFrom(points, i)) == DepthFrom(points, 0)
    {
      depth := Max(depth, Measure(points[i]));
    }
    var lines := Head(uid, depth, title);
    var body, _ := EmitAll(points, 4, 0);
    lines := lines + body;
    text := Unlines(lines + FOOT);
  }

  //// The reader.

  predicate IsSpace(c: char) {
    c == ' ' || c == '\n'
  }

  function Skip(s: string): (r: string)
    ensures |r| <= |s|
  {
    s[RunLength(IsSpace, s)..]
  }

  /** The characters an XML document may hold (section 2.2 of XML 1.0). */
  predicate IsXmlChar(c: char) {
    c in "\t\n\r" || ' ' <= c <= '\U{D7FF}' || '\U{E000}' <= c <= '\U{FFFD}' || '\U{10000}' <= c
  }

  /** Characters that stand for themselves inside an attribute value. */
  predicate IsAttributeChar(c: char) {
    IsXmlChar(c) && c !in "\"&<\n\r\t"
  }

  /** Characters that stand for themselves in element text. */
  predicate IsTextChar(c: char) {
    IsXmlChar(c) && c !in "&<\r"
  }

  /** Whether s holds the text `lit` anywhere. */
  predicate Occurs(lit: string, s: string) {
    lit <= s || (s != [] && Occurs(lit, s[1..]))
  }

  /** The end of a CDATA section, which element text must not hold (section 2.4 of XML 1.0). */
  const CDATA_END := "]]>"

  function Take(p: char -> bool, s: string): (string, string) {
    var n := RunLength(p, s);
    (s[..n], s[n..])
  }

  /** An attribute value and its closing text. */
  function ReadQuoted(s: string, before: string, after: string): (r: Option<(string, string)>)
    ensures r.Some? ==> |r.value.1| <= |s|
    ensures r.Some? ==> forall c :: c in r.value.0 ==> IsAttributeChar(c)
  {
    var r0 :- Expect(s, before);
    var (value, r1) := Take(IsAttributeChar, r0);
    var r2 :- Expect(r1, after);
    Some((value, r2))
  }

  function ReadText(s: string, before: string, after: string): (r: Option<(string, string)>)
    ensures r.Some? ==> |r.value.1| <= |s|
    ensures r.Some? ==> IsText(r.value.0)
  {
    var r0 :- Expect(s, before);
    var (value, r1) := Take(IsTextChar, r0);
    var r2 :- Expect(r1, after);
    if Occurs(CDATA_END, value) then None else Some((value, r2))
  }

  const OPEN := "<navPoint id=\""

  /** One navPoint whose play order must be `order`, with everything nested in it. */
  function ReadPoint(s: string, order: nat): (r: Option<(Point, string)>)
    ensures r.Some? ==> |r.value.1| < |s| && CleanPoint(r.value.0)
    decreases |s|, 0
  {
    var (id, r0) :- ReadQuoted(Skip(s), OPEN, "\" playOrder=\"");
    var (n, r1) :- ReadNat(r0);
    var r2 :- Expect(r1, "\">");
    var (caption, r3) :- ReadText(Skip(r2), "<navLabel><text>", "</text></navLabel>");
    var (src, r4) :- ReadQuoted(Skip(r3), "<content src=\"", "\"/>");
    var (children, r5) :- ReadPoints(r4, order + 1);
    var r6 :- Expect(Skip(r5), "</navPoint>");
    if n == order then Some((Point(id, caption, src, children), r6)) else None
  }

  /** A run of sibling navPoints, numbered from `order` on. */
  function ReadPoints(s: string, order: nat): (r: Option<(seq<Point>, string)>)
    ensures r.Some? ==> |r.value.1| <= |s| && forall p :: p in r.value.0 ==> CleanPoint(p)
    decreases |s|, 1
  {
    if OPEN <= Skip(s) then
      var (p, rest) :- ReadPoint(s, order);
      var (ps, rest') :- ReadPoints(rest, order + Size(p));
      Some(([p] + ps, rest'))
    else
      Some(([], s))
  }

  //// The fixed lines as the format has them, indented as the map is.

  const HEAD_TEXT: string :=
    "<?xml version=\"1.0\" encoding=\"UTF-8\"?>\n"
    + "<ncx xmlns=\"http://www.daisy.org/z3986/2005/ncx/\" version=\"2005-1\">\n"
    + "  <head>\n"

  const COUNTS_TEXT: string :=
    "    <meta name=\"dtb:totalPageCount\" content=\"0\"/>\n"
    + "    <meta name=\"dtb:maxPageNumber\" content=\"0\"/>\n"
    + "  </head>\n"
    + "  <docTitle>\n"

  const MAP_TEXT: string := "  </docTitle>\n" + "  <navMap>\n"

  datatype Map = Map(uid: string, depth: nat, title: string, points: seq<Point>)

  function ReadNcx(s: string): Option<Map> {
    var r0 :- Expect(s, HEAD_TEXT);
    var (uid, r1) :- ReadQuoted(Skip(r0), "<meta name=\"dtb:uid\" content=\"", "\"/>");
    var r2 :- Expect(Skip(r1), "<meta name=\"dtb:depth\" content=\"");
    var (depth, r3) :- ReadNat(r2);
    var r4 :- Expect(r3, "\"/>\n");
    var r5 :- Expect(r4, COUNTS_TEXT);
    var (title, r6) :- ReadText(Skip(r5), "<text>", "</text>");
    var r7 :- Expect(r6, "\n");
    var r8 :- Expect(r7, MAP_TEXT);
    var (points, r9) :- ReadPoints(r8, 1);
    var r10 :- Expect(Skip(r9), "</navMap>\n</ncx>\n");
    if r10 == [] then Some(Map(uid, depth, title, points)) else None
  }

  //// What reads back.

  predicate IsAttribute(s: string) {
    forall c :: c in s ==> IsAttributeChar(c)
  }

  predicate IsText(s: string) {
    (forall c :: c in s ==> IsTextChar(c)) && !Occurs(CDATA_END, s)
  }

  /** Labels, identifiers and targets need no escaping, which the writer does not do. */
  predicate CleanPoint(p: Point) {
    IsAttribute(p.id) && IsText(p.caption) && IsAttribute(p.src) && forall c :: c in p.children ==> CleanPoint(c)
  }

  //// Scanning.

  predicate White(w: string) {
    forall i :: 0 <= i < |w| ==> IsSpace(w[i])
  }

  lemma SpacesWhite(n: nat)
    ensures White(Spaces(n))
  {
  }

  lemma SkipWhite(w: string, rest: string)
    requires White(w) && rest != [] && !IsSpace(rest[0])
    ensures Skip(w + rest) == rest
  {
    RunIs(IsSpace, w, rest);
    AfterPrefix(w, rest);
  }

  lemma QuotedBack(before: string, value: string, after: string, rest: string)
    requires IsAttribute(value) && after != [] && after[0] == '"'
    ensures ReadQuoted(before + value + after + rest, before, after) == Some((value, rest))
  {
    hide IsAttributeChar;
    assert !IsAttributeChar('"') by {
      QuoteEnds();
    }
    var tail := after + rest;
    AssocRight(before, value, after, rest);
    ExpectBack(before, value + tail);
    assert forall i :: 0 <= i < |value| ==> value[i] in value;
    RunIs(IsAttributeChar, value, tail);
    AfterPrefix(value, tail);
    ExpectBack(after, rest);
  }

  lemma QuoteEnds()
    ensures !IsAttributeChar('"')
  {
    assert "\"&<\n\r\t"[0] == '"';
  }

  lemma TextBack(before: string, value: string, after: string, rest: string)
    requires IsText(value) && after != [] && after[0] == '<'
    ensures ReadText(before + value + after + rest, before, after) == Some((value, rest))
  {
    hide IsTextChar;
    assert !IsTextChar('<') by {
      TagEnds();
    }
    var tail := after + rest;
    AssocRight(before, value, after, rest);
    ExpectBack(before, value + tail);
    assert forall i :: 0 <= i < |value| ==> value[i] in value;
    RunIs(IsTextChar, value, tail);
    AfterPrefix(value, tail);
    ExpectBack(after, rest);
  }

  lemma TagEnds()
    ensures !IsTextChar('<')
  {
    assert "&<\r"[1] == '<';
  }

  lemma {:induction false} UnlinesAppend(a: seq<string>, b: seq<string>)
    ensures Unlines(a + b) == Unlines(a) + Unlines(b)
  {
    if a == [] {
      assert a + b == b;
    } else {
      assert (a + b)[1..] == a[1..] + b;
      UnlinesAppend(a[1..], b);
      Assoc(a[0] + "\n", Unlines(a[1..]), Unlines(b));
    }
  }

  lemma UnlinesOne(line: string)
    ensures Unlines([line]) == line + "\n"
  {
    assert Unlines([line][1..]) == "";
  }

  /** Skipping to a line's text: leading white space, then the indentation. */
  lemma SkipToLine(w: string, indent: nat, text: string, rest: string)
    requires White(w) && text != [] && !IsSpace(text[0])
    ensures Skip(w + (Spaces(indent) + text + "\n") + rest) == text + ("\n" + rest)
  {
    SpacesWhite(indent);
    var tail := text + ("\n" + rest);
    assert w + (Spaces(indent) + text + "\n") + rest == (w + Spaces(indent)) + tail;
    assert White(w + Spaces(indent));
    SkipWhite(w + Spaces(indent), tail);
  }

  //// Points read back.

  lemma OpenReads(p: Point, order: nat, rest: string)
    requires IsAttribute(p.id)
    ensures var s := OpenLine(p, order) + ("\n" + rest);
            && ReadQuoted(s, OPEN, "\" playOrder=\"") == Some((p.id, Decimal(order) + ("\">" + ("\n" + rest))))
            && ReadNat(Decimal(order) + ("\">" + ("\n" + rest))) == Some((order, "\">" + ("\n" + rest)))
            && Expect("\">" + ("\n" + rest), "\">") == Some("\n" + rest)
            && OpenLine(p, order)[0] == '<'
  {
    hide Decimal, ReadNat, ReadQuoted, IsAttribute;
    var tail := "\">" + ("\n" + rest);
    OpenText(p.id, Decimal(order), "\n" + rest);
    QuotedBack(OPEN, p.id, "\" playOrder=\"", Decimal(order) + tail);
    ReadNatBack(order, tail);
    ExpectBack("\">", "\n" + rest);
  }

  lemma OpenText(id: string, order: string, rest: string)
    ensures "<navPoint id=\"" + id + "\" playOrder=\"" + order + "\">" + rest ==
            OPEN + id + "\" playOrder=\"" + (order + ("\">" + rest))
  {
    Assoc(OPEN + id + "\" playOrder=\"" + order, "\">", rest);
    Assoc(OPEN + id + "\" playOrder=\"", order, "\">" + rest);
  }

  /** The text of the three opening lines. */
  function OpeningText(p: Point, indent: nat, order: nat): string {
    (Spaces(indent) + OpenLine(p, order) + "\n")
    + ((Spaces(indent + 2) + LabelLine(p) + "\n") + (Spaces(indent + 2) + ContentLine(p) + "\n"))
  }

  lemma PointText(p: Point, indent: nat, order: nat)
    ensures Unlines(PointLines(p, indent, order)) ==
            OpeningText(p, indent, order) + Unlines(LinesFrom(p.children, 0, indent + 2, order + 1))
            + (Spaces(indent) + "</navPoint>" + "\n")
  {
    hide LinesFrom, OpenLine, LabelLine, ContentLine, Spaces;
    var a := Spaces(indent) + OpenLine(p, order);
    var b, c := Spaces(indent + 2) + LabelLine(p), Spaces(indent + 2) + ContentLine(p);
    var inner := LinesFrom(p.children, 0, indent + 2, order + 1);
    var last := Spaces(indent) + "</navPoint>";
    UnlinesAppend([a, b, c] + inner, [last]);
    UnlinesAppend([a, b, c], inner);
    UnlinesOne(last);
    ThreeLines(a, b, c);
  }

  lemma ThreeLines(a: string, b: string, c: string)
    ensures Unlines([a, b, c]) == (a + "\n") + ((b + "\n") + (c + "\n"))
  {
    assert [a, b, c][1..] == [b, c] && [b, c][1..] == [c];
    UnlinesOne(c);
  }

  /** The opening of a point reads up to its children. */
  lemma OpeningReads(w: string, p: Point, indent: nat, order: nat, rest: string)
    requires White(w) && IsAttribute(p.id) && IsText(p.caption) && IsAttribute(p.src)
    ensures var s := w + OpeningText(p, indent, order) + rest;
            && OPEN <= Skip(s)
            && (ReadPoints("\n" + rest, order + 1).Some? ==>
                var (children, r5) := ReadPoints("\n" + rest, order + 1).value;
                ReadPoint(s, order) ==
                match Expect(Skip(r5), "</navPoint>")
                case None => None
                case Some(r6) => Some((Point(p.id, p.caption, p.src, children), r6)))
  {
    hide OpenLine, LabelLine, ContentLine, Spaces, ReadQuoted, ReadText, ReadNat, Decimal, Skip, IsAttribute, IsText,
         Expect;
    hide ReadPoints, OPEN;
    var b, c := Spaces(indent + 2) + LabelLine(p) + "\n", Spaces(indent + 2) + ContentLine(p) + "\n";
    var s := w + OpeningText(p, indent, order) + rest;
    OpeningParts(w, Spaces(indent) + OpenLine(p, order) + "\n", b, c, rest);
    OpenReads(p, order, b + (c + rest));
    SkipToLine(w, indent, OpenLine(p, order), b + (c + rest));
    LabelReads(p, c + rest);
    NewlineWhite();
    SkipToLine("\n", indent + 2, LabelLine(p), c + rest);
    Assoc("\n", b, c + rest);
    ContentReads(p, rest);
    SkipToLine("\n", indent + 2, ContentLine(p), rest);
    Assoc("\n", c, rest);
    OpenPrefix(p, order, "\n" + (b + (c + rest)));
  }

  lemma NewlineWhite()
    ensures White("\n")
  {
  }

  lemma OpenPrefix(p: Point, order: nat, rest: string)
    ensures OPEN <= OpenLine(p, order) + rest
  {
    OpenText(p.id, Decimal(order), rest);
    AssocRight(OPEN, p.id, "\" playOrder=\"", Decimal(order) + ("\">" + rest));
    AfterPrefix(OPEN, p.id + ("\" playOrder=\"" + (Decimal(order) + ("\">" + rest))));
  }

  lemma OpeningParts(w: string, a: string, b: string, c: string, rest: string)
    ensures w + (a + (b + c)) + rest == w + a + (b + (c + rest))
  {
    Assoc(w, a + (b + c), rest);
    Assoc(a, b + c, rest);
    Assoc(b, c, rest);
    Assoc(w, a, b + (c + rest));
  }

  lemma LabelReads(p: Point, rest: string)
    requires IsText(p.caption)
    ensures ReadText(LabelLine(p) + ("\n" + rest), "<navLabel><text>", "</text></navLabel>") ==
            Some((p.caption, "\n" + rest))
    ensures LabelLine(p) != [] && !IsSpace(LabelLine(p)[0])
  {
    TextBack("<navLabel><text>", p.caption, "</text></navLabel>", "\n" + rest);
  }

  lemma ContentReads(p: Point, rest: string)
    requires IsAttribute(p.src)
    ensures ReadQuoted(ContentLine(p) + ("\n" + rest), "<content src=\"", "\"/>") == Some((p.src, "\n" + rest))
    ensures ContentLine(p) != [] && !IsSpace(ContentLine(p)[0])
  {
    QuotedBack("<content src=\"", p.src, "\"/>", "\n" + rest);
  }

  lemma {:induction false} SkipMore(w: string, s: string)
    requires White(w)
    ensures Skip(w + s) == Skip(s)
    decreases |w|
  {
    if w == [] {
      assert w + s == s;
    } else {
      assert (w + s)[1..] == w[1..] + s && (w + s)[0] == w[0];
      SkipMore(w[1..], s);
    }
  }

  /** The closing tag is where the children end. */
  lemma ClosingReads(x: string, indent: nat, rest: string)
    requires White(x)
    ensures var closing := Spaces(indent) + "</navPoint>" + "\n";
            && Expect(Skip(x + (closing + rest)), "</navPoint>") == Some("\n" + rest)
            && !(OPEN <= Skip(closing + rest))
  {
    hide Spaces, Skip, OPEN, White, Expect;
    var closing := Spaces(indent) + "</navPoint>" + "\n";
    NothingWhite();
    ClosingTag(rest);
    SkipToLine("", indent, "</navPoint>", rest);
    NothingBefore(closing);
    SkipMore(x, closing + rest);
    ExpectBack("</navPoint>", "\n" + rest);
  }

  lemma NothingBefore(s: string)
    ensures "" + s == s
  {
  }

  lemma ClosingTag(rest: string)
    ensures !(OPEN <= "</navPoint>" + ("\n" + rest))
    ensures "</navPoint>" != [] && !IsSpace("</navPoint>"[0])
  {
    var s := "</navPoint>" + ("\n" + rest);
    assert s[1] == '/';
    NotPrefix(OPEN, s, 1);
  }

  lemma NothingWhite()
    ensures White("")
  {
  }

  /** A printed point reads back, whatever its indentation, and its play order is checked on the way. */
  lemma {:induction false} ReadPointBack(w: string, p: Point, indent: nat, order: nat, rest: string)
    requires White(w) && CleanPoint(p)
    ensures var s := w + Unlines(PointLines(p, indent, order)) + rest;
            ReadPoint(s, order) == Some((p, "\n" + rest)) && OPEN <= Skip(s)
    decreases p, 1
  {
    hide ReadPoint, ReadPoints, PointLines, LinesFrom, OpeningText, Skip, Spaces, Expect, IsAttribute, IsText, OPEN,
         Unlines, White;
    var inner := Unlines(LinesFrom(p.children, 0, indent + 2, order + 1));
    var closing := Spaces(indent) + "</navPoint>" + "\n";
    NewlineWhite();
    PointText(p, indent, order);
    ClosingReads("", indent, rest) by {
      NothingWhite();
    }
    var x := ReadPointsBack("\n", p.children, 0, indent + 2, order + 1, closing + rest);
    assert p.children[0..] == p.children;
    ClosingReads(x, indent, rest);
    Assoc("\n", inner, closing + rest);
    OpeningReads(w, p, indent, order, inner + (closing + rest));
    Outer(w, OpeningText(p, indent, order), inner, closing, rest);
  }

  lemma Outer(w: string, a: string, b: string, c: string, rest: string)
    ensures w + (a + b + c) + rest == w + a + (b + (c + rest))
  {
    Assoc(w, a + b + c, rest);
    Assoc(a + b, c, rest);
    Assoc(a, b, c + rest);
    Assoc(w, a, b + (c + rest));
  }

  /** Siblings i, i + 1, ... read back up to a rest that opens no further point. */
  lemma {:induction false} ReadPointsBack(w: string, ps: seq<Point>, i: nat, indent: nat, order: nat, rest: string)
    returns (x: string)
    requires White(w) && i <= |ps|
    requires forall p :: p in ps ==> CleanPoint(p)
    requires !(OPEN <= Skip(rest))
    ensures White(x)
    ensures ReadPoints(w + Unlines(LinesFrom(ps, i, indent, order)) + rest, order) == Some((ps[i..], x + rest))
    decreases ps, 0, |ps| - i
  {
    hide ReadPoint, PointLines, Skip, OPEN, White, CleanPoint, Unlines;
    if i == |ps| {
      x := w;
      NoLines();
      assert w + "" == w;
      SkipMore(w, rest);
      assert ps[i..] == [];
    } else {
      var later := Unlines(LinesFrom(ps, i + 1, indent, order + Size(ps[i])));
      var first := Unlines(PointLines(ps[i], indent, order));
      UnlinesAppend(PointLines(ps[i], indent, order), LinesFrom(ps, i + 1, indent, order + Size(ps[i])));
      Assoc(w, first, later);
      Assoc(w + first, later, rest);
      ReadPointBack(w, ps[i], indent, order, later + rest);
      NewlineWhite();
      Assoc("\n", later, rest);
      x := ReadPointsBack("\n", ps, i + 1, indent, order + Size(ps[i]), rest);
      assert [ps[i]] + ps[i + 1..] == ps[i..];
    }
  }

  lemma NoLines()
    ensures Unlines([]) == ""
  {
  }

  //// The whole map.

  function MapText(uid: string, depth: nat, title: string, body: string): string {
    Unlines(PROLOGUE) + ((Spaces(4) + UidLine(uid) + "\n") + ((Spaces(4) + DepthLine(depth) + "\n")
    + (Unlines(COUNTS) + ((Spaces(4) + TitleLine(title) + "\n") + (Unlines(NAV_MAP) + body)))))
  }

  lemma TextParts(uid: string, title: string, points: seq<Point>)
    ensures NcxText(uid, title, points) ==
            MapText(uid, DepthFrom(points, 0), title, Unlines(LinesFrom(points, 0, 4, 1)) + Unlines(FOOT))
  {
    hide Unlines, LinesFrom, DepthFrom, Spaces, UidLine, DepthLine, TitleLine, PROLOGUE, COUNTS, NAV_MAP, FOOT;
    var a, b, c := Spaces(4) + UidLine(uid), Spaces(4) + DepthLine(DepthFrom(points, 0)), Spaces(4) + TitleLine(title);
    var body := LinesFrom(points, 0, 4, 1);
    UnlinesAppend(PROLOGUE + [a, b] + COUNTS + [c] + NAV_MAP + body, FOOT);
    UnlinesAppend(PROLOGUE + [a, b] + COUNTS + [c] + NAV_MAP, body);
    UnlinesAppend(PROLOGUE + [a, b] + COUNTS + [c], NAV_MAP);
    UnlinesAppend(PROLOGUE + [a, b] + COUNTS, [c]);
    UnlinesAppend(PROLOGUE + [a, b], COUNTS);
    UnlinesAppend(PROLOGUE, [a, b]);
    UnlinesOne(c);
    TwoLines(a, b);
    Nest(Unlines(PROLOGUE), a + "\n", b + "\n", Unlines(COUNTS), c + "\n", Unlines(NAV_MAP), Unlines(body),
         Unlines(FOOT));
  }

  lemma TwoLines(a: string, b: string)
    ensures Unlines([a, b]) == (a + "\n") + (b + "\n")
  {
    assert [a, b][1..] == [b];
    UnlinesOne(b);
  }

  lemma Nest(p: string, a: string, b: string, q: string, c: string, n: string, body: string, foot: string)
    ensures p + (a + b) + q + c + n + body + foot == p + (a + (b + (q + (c + (n + (body + foot))))))
  {
    Assoc(p + (a + b) + q + c + n, body, foot);
    Assoc(p + (a + b) + q + c, n, body + foot);
    Assoc(p + (a + b) + q, c, n + (body + foot));
    Assoc(p + (a + b), q, c + (n + (body + foot)));
    Assoc(p, a + b, q + (c + (n + (body + foot))));
    Assoc(a, b, q + (c + (n + (body + foot))));
  }

  lemma UidReads(uid: string, rest: string)
    requires IsAttribute(uid)
    ensures ReadQuoted(UidLine(uid) + ("\n" + rest), "<meta name=\"dtb:uid\" content=\"", "\"/>") ==
            Some((uid, "\n" + rest))
    ensures UidLine(uid) != [] && !IsSpace(UidLine(uid)[0])
  {
    QuotedBack("<meta name=\"dtb:uid\" content=\"", uid, "\"/>", "\n" + rest);
  }

  lemma DepthReads(depth: nat, rest: string)
    ensures var tail := Decimal(depth) + ("\"/>\n" + rest);
            && Expect(DepthLine(depth) + ("\n" + rest), "<meta name=\"dtb:depth\" content=\"") == Some(tail)
            && ReadNat(tail) == Some((depth, "\"/>\n" + rest))
            && Expect("\"/>\n" + rest, "\"/>\n") == Some(rest)
    ensures DepthLine(depth) != [] && !IsSpace(DepthLine(depth)[0])
  {
    hide Decimal, ReadNat;
    var open, d := "<meta name=\"dtb:depth\" content=\"", Decimal(depth);
    var tail := d + ("\"/>\n" + rest);
    assert "\"/>" + ("\n" + rest) == "\"/>\n" + rest;
    AssocRight(open, d, "\"/>", "\n" + rest);
    ExpectBack(open, tail);
    ReadNatBack(depth, "\"/>\n" + rest);
    ExpectBack("\"/>\n", rest);
  }

  lemma TitleReads(title: string, rest: string)
    requires IsText(title)
    ensures ReadText(TitleLine(title) + ("\n" + rest), "<text>", "</text>") == Some((title, "\n" + rest))
    ensures TitleLine(title) != [] && !IsSpace(TitleLine(title)[0])
  {
    TextBack("<text>", title, "</text>", "\n" + rest);
  }

  lemma FootReads(x: string)
    requires White(x)
    ensures !(OPEN <= Skip(Unlines(FOOT)))
    ensures Expect(Skip(x + Unlines(FOOT)), "</navMap>\n</ncx>\n") == Some("")
  {
    hide Skip, White, Expect, Spaces;
    var close := "</navMap>\n</ncx>\n";
    FootText();
    CloseTag();
    SpacesWhite(2);
    SkipWhite(Spaces(2), close);
    SkipMore(x, Unlines(FOOT));
    ExpectBack(close, "");
    assert close + "" == close;
  }

  lemma FootText()
    ensures Unlines(FOOT) == Spaces(2) + "</navMap>\n</ncx>\n"
  {
    assert FOOT == ["  </navMap>", "</ncx>"];
    TwoLines("  </navMap>", "</ncx>");
    assert Spaces(2) == "  " by {
      assert Spaces(1) == " " + Spaces(0);
    }
  }

  lemma CloseTag()
    ensures !(OPEN <= "</navMap>\n</ncx>\n")
    ensures !IsSpace("</navMap>\n</ncx>\n"[0])
  {
    assert "</navMap>\n</ncx>\n"[1] == '/';
    NotPrefix(OPEN, "</navMap>\n</ncx>\n", 1);
  }

  /** The fixed lines are those of the format. */
  lemma FixedLines()
    ensures Unlines(PROLOGUE) == HEAD_TEXT && Unlines(COUNTS) == COUNTS_TEXT && Unlines(NAV_MAP) == MAP_TEXT
  {
    HeadLines();
    CountLines();
    TwoLines(NAV_MAP[0], NAV_MAP[1]);
    assert NAV_MAP == [NAV_MAP[0], NAV_MAP[1]];
  }

  lemma HeadLines()
    ensures Unlines(PROLOGUE) == HEAD_TEXT
  {
    ThreeLines(PROLOGUE[0], PROLOGUE[1], PROLOGUE[2]);
    assert PROLOGUE == [PROLOGUE[0], PROLOGUE[1], PROLOGUE[2]];
  }

  lemma CountLines()
    ensures Unlines(COUNTS) == COUNTS_TEXT
  {
    UnlinesAppend([COUNTS[0], COUNTS[1]], [COUNTS[2], COUNTS[3]]);
    TwoLines(COUNTS[0], COUNTS[1]);
    TwoLines(COUNTS[2], COUNTS[3]);
    assert COUNTS == [COUNTS[0], COUNTS[1]] + [COUNTS[2], COUNTS[3]];
  }

  /** The head of the map reads up to its points. */
  lemma HeadReads(uid: string, depth: nat, title: string, body: string)
    requires IsAttribute(uid) && IsText(title)
    ensures ReadNcx(MapText(uid, depth, title, body)) ==
            match ReadPoints(body, 1)
            case None => None
            case Some((points, r9)) =>
              match Expect(Skip(r9), "</navMap>\n</ncx>\n")
              case None => None
              case Some(r10) => if r10 == [] then Some(Map(uid, depth, title, points)) else None
  {
    hide UidLine, DepthLine, TitleLine, Unlines, Spaces, Skip, ReadQuoted, ReadText, ReadNat, ReadPoints, Expect,
         Decimal;
    FixedLines();
    hide PROLOGUE, COUNTS, NAV_MAP, White, IsAttribute, IsText, HEAD_TEXT, COUNTS_TEXT, MAP_TEXT;
    var s5 := Unlines(NAV_MAP) + body;
    var s4 := (Spaces(4) + TitleLine(title) + "\n") + s5;
    var s3 := Unlines(COUNTS) + s4;
    var s2 := (Spaces(4) + DepthLine(depth) + "\n") + s3;
    var s1 := (Spaces(4) + UidLine(uid) + "\n") + s2;
    ExpectBack(Unlines(PROLOGUE), s1);
    UidReads(uid, s2);
    LineAhead(UidLine(uid), s2);
    DepthReads(depth, s3);
    LineAhead(DepthLine(depth), s3);
    ExpectBack(Unlines(COUNTS), s4);
    TitleReads(title, s5);
    LineAhead(TitleLine(title), s5);
    ExpectBack("\n", s5);
    ExpectBack(Unlines(NAV_MAP), body);
  }

  lemma LineAhead(text: string, rest: string)
    requires text != [] && !IsSpace(text[0])
    ensures Skip((Spaces(4) + text + "\n") + rest) == text + ("\n" + rest)
    ensures Skip("\n" + ((Spaces(4) + text + "\n") + rest)) == text + ("\n" + rest)
  {
    NothingWhite();
    NewlineWhite();
    SkipToLine("", 4, text, rest);
    assert "" + (Spaces(4) + text + "\n") == Spaces(4) + text + "\n";
    SkipMore("\n", (Spaces(4) + text + "\n") + rest);
  }

  predicate CleanMap(uid: string, title: string, points: seq<Point>) {
    IsAttribute(uid) && IsText(title) && forall p :: p in points ==> CleanPoint(p)
  }

  lemma ReadNcxClean(s: string)
    ensures ReadNcx(s).Some? ==>
              CleanMap(ReadNcx(s).value.uid, ReadNcx(s).value.title, ReadNcx(s).value.points)
  {
    hide Skip, Expect, ReadNat, HEAD_TEXT, COUNTS_TEXT, MAP_TEXT;
  }

  /**
   The reader recovers the navigation tree, with play orders 1, 2, 3, ... in
   document order and the declared depth, if and only if no text would have
   needed escaping.
   */
  lemma NcxRoundTrip(uid: string, title: string, points: seq<Point>)
    ensures ReadNcx(NcxText(uid, title, points)) == Some(Map(uid, DepthFrom(points, 0), title, points)) <==>
            CleanMap(uid, title, points)
  {
    hide ReadNcx, NcxText, MapText, Unlines, LinesFrom, DepthFrom, FOOT, CleanPoint, IsAttribute, IsText, ReadPoints,
         White, Skip, OPEN;
    if CleanMap(uid, title, points) {
      TextParts(uid, title, points);
      var body := Unlines(LinesFrom(points, 0, 4, 1));
      HeadReads(uid, DepthFrom(points, 0), title, body + Unlines(FOOT));
      NothingWhite();
      FootReads("");
      var x := ReadPointsBack("", points, 0, 4, 1, Unlines(FOOT));
      assert "" + body == body && points[0..] == points;
      FootReads(x);
    }
    if ReadNcx(NcxText(uid, title, points)).Some? {
      ReadNcxClean(NcxText(uid, title, points));
    }
  }

  //// The declared depth is the length of the longest chain of nested points.

  /** A chain: the position of a point among its siblings, then of a point among its children, and so on. */
  predicate IsChain(ps: seq<Point>, chain: seq<nat>)
    decreases |chain|
  {
    chain == [] || (chain[0] < |ps| && IsChain(ps[chain[0]].children, chain[1..]))
  }

  lemma {:induction false} MeasureBound(ps: seq<Point>, i: nat, k: nat)
    requires i <= k < |ps|
    ensures Measure(ps[k]) <= DepthFrom(ps, i)
    decreases k - i
  {
    if i < k {
      MeasureBound(ps, i + 1, k);
    }
  }

  lemma {:induction false} ChainsAreNoLonger(ps: seq<Point>, chain: seq<nat>)
    requires IsChain(ps, chain)
    ensures |chain| <= DepthFrom(ps, 0)
    decreases |chain|
  {
    if chain != [] {
      ChainsAreNoLonger(ps[chain[0]].children, chain[1..]);
      MeasureBound(ps, 0, chain[0]);
    }
  }

  lemma {:induction false} DeepestChain(ps: seq<Point>, i: nat) returns (chain: seq<nat>)
    requires i <= |ps|
    ensures IsChain(ps, chain) && |chain| == DepthFrom(ps, i)
    decreases ps, |ps| - i
  {
    if i == |ps| {
      chain := [];
    } else if Measure(ps[i]) >= DepthFrom(ps, i + 1) {
      var below := DeepestChain(ps[i].children, 0);
      chain := [i] + below;
      assert chain[1..] == below;
    } else {
      chain := DeepestChain(ps, i + 1);
    }
  }

  lemma DepthIsLongestChain(ps: seq<Point>)
    ensures exists chain :: IsChain(ps, chain) && |chain| == DepthFrom(ps, 0)
    ensures forall chain :: IsChain(ps, chain) ==> |chain| <= DepthFrom(ps, 0)
  {
    var deepest := DeepestChain(ps, 0);
    forall chain | IsChain(ps, chain)
      ensures |chain| <= DepthFrom(ps, 0)
    {
      ChainsAreNoLonger(ps, chain);
    }
  }
}

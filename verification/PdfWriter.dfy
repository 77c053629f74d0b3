/**
 What the fixture PDF writer returns for which documents: it fails exactly when
 a text it prints is not ASCII, and what it returns reads back.
 */
module PdfWriter {
  import opened Text
  import opened PdfSyntax
  import opened PdfFile
  import opened PdfOutline
  import opened Pdf
  import opened PdfReader
  import opened PdfDrawing

  //// The input: a page has a content stream of its own, or a label the writer draws.

  datatype PageSource =
    | Raw(box: Box, stream: string, images: seq<Image>)
    | Labelled(x0: string, y0: string, width: string, height: int, caption: string, images: seq<Image>)

  datatype Source = Source(pages: seq<PageSource>, title: string, subject: string, outline: seq<Item>)

  function Rendered(p: PageSource): Page {
    match p
    case Raw(box, stream, images) => Page(box, stream, images)
    case Labelled(x0, y0, width, height, text, images) =>
      Page(Box(x0, y0, width, IntText(height)), DefaultPageStream(text, height), images)
  }

  function RenderedDocument(src: Source): (doc: Document)
    ensures |doc.pages| == |src.pages|
  {
    Document(seq(|src.pages|, i requires 0 <= i < |src.pages| => Rendered(src.pages[i])), src.title, src.subject,
             src.outline)
  }

  //// The writer.

  /** A drawn label must be ASCII; a stream of the page's own is copied as it is. */
  predicate Drawable(p: PageSource) {
    p.Labelled? ==> IsAscii(DefaultPageStream(p.caption, p.height))
  }

  function Written(src: Source): Option<string> {
    var objs := Objects(RenderedDocument(src));
    if (forall p :: p in src.pages ==> Drawable(p)) && (forall o :: o in objs ==> Encodable(o)) then
      Some(FileText(objs))
    else
      None
  }

  method RenderPages(pages: seq<PageSource>) returns (rendered: Option<seq<Page>>)
    ensures rendered.Some? <==> forall p :: p in pages ==> Drawable(p)
    ensures rendered.Some? ==> rendered.value == seq(|pages|, i requires 0 <= i < |pages| => Rendered(pages[i]))
  {
    hide Drawable, Rendered;
    var done: seq<Page> := [];
    for i := 0 to |pages|
      invariant |done| == i
      invariant forall k :: 0 <= k < i ==> Drawable(pages[k]) && done[k] == Rendered(pages[k])
    {
      if !Drawable(pages[i]) {
        return None;
      }
      done := done + [Rendered(pages[i])];
    }
    rendered := Some(done);
  }

  /** The whole writer on its own input; None where the ASCII encoder raises. */
  method Write(src: Source) returns (file: Option<string>)
    ensures file == Written(src)
  {
    hide Objects, FileText, Encodable, Drawable, Rendered;
    var pages := RenderPages(src.pages);
    if pages.None? {
      return None;
    }
    assert pages.value == RenderedDocument(src).pages;
    file := BuildPdf(Document(pages.value, src.title, src.subject, src.outline));
  }

  //// When it succeeds.

  lemma AsciiAppend(a: string, b: string)
    ensures IsAscii(a + b) <==> IsAscii(a) && IsAscii(b)
  {
    assert forall c :: c in a + b <==> c in a || c in b;
  }

  lemma DigitsAreAscii(s: string)
    requires AllDigits(s)
    ensures IsAscii(s)
  {
  }

  lemma DecimalIsAscii(n: nat)
    ensures IsAscii(Decimal(n))
  {
    hide Decimal;
    DigitsAreAscii(Decimal(n));
  }

  lemma IntIsAscii(n: int)
    ensures IsAscii(IntText(n))
  {
    hide Decimal, IsAscii;
    assert IsAscii("-") by {
      Minus();
    }
    if n < 0 {
      DecimalIsAscii(-n);
      AsciiAppend("-", Decimal(-n));
    } else {
      DecimalIsAscii(n);
    }
  }

  lemma Minus()
    ensures IsAscii("-")
  {
  }

  lemma {:induction false} EscapingKeepsAscii(s: string)
    ensures IsAscii(EscapeEach(s)) <==> IsAscii(s)
  {
    if s != [] {
      hide IsAscii;
      EscapingKeepsAscii(s[1..]);
      AsciiAppend(EscapeChar(s[0]), EscapeEach(s[1..]));
      AsciiAppend([s[0]], s[1..]);
      assert [s[0]] + s[1..] == s;
      OneEscape(s[0]);
    }
  }

  lemma OneEscape(c: char)
    ensures IsAscii(EscapeChar(c)) <==> IsAscii([c])
  {
    assert c in [c] && c in EscapeChar(c);
  }

  lemma StringIsAscii(s: string)
    ensures IsAscii(PdfString(s)) <==> IsAscii(s)
  {
    hide IsAscii, EscapeEach, Escaped;
    ThreePassesEscapeEach(s);
    EscapingKeepsAscii(s);
    AsciiAppend("(", Escaped(s));
    AsciiAppend("(" + Escaped(s), ")");
    Parentheses();
  }

  lemma Parentheses()
    ensures IsAscii("(") && IsAscii(")")
  {
  }

  /** The texts a value holds. */
  predicate AsciiValue(v: Value) {
    match v
    case Name(n) => IsAscii(n)
    case Num(t) => IsAscii(t)
    case Ref(_) => true
    case Str(t) => IsAscii(t)
    case Null => true
    case Arr(items) => forall item :: item in items ==> AsciiValue(item)
    case Dict(entries) => forall e :: e in entries ==> AsciiEntry(e)
  }

  predicate AsciiEntry(e: Entry) {
    IsAscii(e.key) && AsciiValue(e.value)
  }

  lemma Delimiters()
    ensures IsAscii("/") && IsAscii(" 0 R") && IsAscii("null") && IsAscii("[") && IsAscii("]")
    ensures IsAscii("<< ") && IsAscii(">>") && IsAscii(" ") && IsAscii("")
  {
  }

  /** A printed value is ASCII if and only if the texts in it are. */
  lemma {:induction false} PrintIsAscii(v: Value)
    ensures IsAscii(Print(v)) <==> AsciiValue(v)
    decreases v, 2
  {
    hide IsAscii, PrintItems, PrintEntries, PdfString, Decimal;
    Delimiters();
    match v
    case Name(n) => AsciiAppend("/", n);
    case Num(t) =>
    case Ref(n) =>
      DecimalIsAscii(n);
      AsciiAppend(Decimal(n), " 0 R");
    case Str(t) => StringIsAscii(t);
    case Null =>
    case Arr(items) =>
      ItemsAreAscii(items);
      AsciiAppend("[", PrintItems(items));
    case Dict(entries) =>
      EntriesAreAscii(entries);
      AsciiAppend("<< ", PrintEntries(entries));
  }

  lemma {:induction false} ItemsAreAscii(vs: seq<Value>)
    ensures IsAscii(PrintItems(vs)) <==> forall v :: v in vs ==> AsciiValue(v)
    decreases vs, 1
  {
    hide IsAscii, AsciiValue, Print;
    Delimiters();
    if vs != [] {
      PrintIsAscii(vs[0]);
      ItemsAreAscii(vs[1..]);
      var gap := if |vs| == 1 then "" else " ";
      AsciiAppend(Print(vs[0]), gap);
      AsciiAppend(Print(vs[0]) + gap, PrintItems(vs[1..]));
      assert forall v :: v in vs <==> v == vs[0] || v in vs[1..];
    }
  }

  lemma FirstAndRest(es: seq<Entry>)
    requires es != []
    ensures (forall e :: e in es ==> AsciiEntry(e)) <==> AsciiEntry(es[0]) && forall e :: e in es[1..] ==> AsciiEntry(e)
  {
    hide AsciiEntry;
    assert es == [es[0]] + es[1..];
    assert forall e :: e in es <==> e == es[0] || e in es[1..];
  }

  lemma {:induction false} EntriesAreAscii(es: seq<Entry>)
    ensures IsAscii(PrintEntries(es)) <==> forall e :: e in es ==> AsciiEntry(e)
    decreases es, 1
  {
    hide IsAscii, AsciiValue, Print;
    Delimiters();
    if es == [] {
      assert PrintEntries(es) == ">>";
    } else {
      assert AsciiEntry(es[0]) <==> IsAscii(es[0].key) && AsciiValue(es[0].value);
      var key, value := es[0].key, Print(es[0].value);
      PrintIsAscii(es[0].value);
      EntriesAreAscii(es[1..]);
      AsciiAppend("/", key);
      AsciiAppend("/" + key, " ");
      AsciiAppend("/" + key + " ", value);
      AsciiAppend("/" + key + " " + value, " ");
      AsciiAppend("/" + key + " " + value + " ", PrintEntries(es[1..]));
      assert IsAscii(PrintEntries(es)) <==> AsciiEntry(es[0]) && IsAscii(PrintEntries(es[1..]));
      FirstAndRest(es);
    }
  }

  //// Bodies without strings are ASCII anyway.

  predicate NoStrings(v: Value) {
    match v
    case Str(_) => false
    case Arr(items) => forall item :: item in items ==> NoStrings(item)
    case Dict(entries) => forall e :: e in entries ==> NoStrings(e.value)
    case _ => true
  }

  lemma NamesAreAscii(s: string)
    ensures IsNameText(s) ==> IsAscii(s)
    ensures IsNumText(s) ==> IsAscii(s)
  {
  }

  lemma {:induction false} CleanIsAscii(v: Value)
    requires Clean(v) && NoStrings(v)
    ensures AsciiValue(v)
    decreases v
  {
    hide IsAscii, IsNameText, IsNumText;
    match v
    case Name(n) => NamesAreAscii(n);
    case Num(t) => NamesAreAscii(t);
    case Arr(items) =>
      forall item | item in items
        ensures AsciiValue(item)
      {
        CleanIsAscii(item);
      }
    case Dict(entries) =>
      forall e | e in entries
        ensures AsciiEntry(e)
      {
        assert CleanEntry(e);
        NamesAreAscii(e.key);
        CleanIsAscii(e.value);
      }
    case _ =>
  }

  predicate AsciiEntries(es: seq<Entry>) {
    forall e :: e in es ==> AsciiEntry(e)
  }

  lemma AsciiConcat(a: seq<Entry>, b: seq<Entry>)
    ensures AsciiEntries(a + b) <==> AsciiEntries(a) && AsciiEntries(b)
  {
    hide AsciiEntry;
    assert forall e :: e in a + b <==> e in a || e in b;
  }

  lemma AsciiOne(key: string, v: Value)
    requires IsNameText(key)
    ensures AsciiEntries([Entry(key, v)]) <==> AsciiValue(v)
  {
    hide IsAscii, AsciiValue, IsNameText;
    NamesAreAscii(key);
    assert Entry(key, v) in [Entry(key, v)];
  }

  lemma CleanEntriesAreAscii(es: seq<Entry>)
    requires Clean(Dict(es)) && NoStrings(Dict(es))
    ensures AsciiEntries(es)
  {
    CleanIsAscii(Dict(es));
    hide AsciiEntry;
  }

  //// Which bodies encode.

  lemma ItemEncodes(node: Node, prev: Option<nat>, next: Option<nat>)
    ensures AsciiValue(ItemDict(node, prev, next, FIRST_PAGE)) <==> IsAscii(node.title)
  {
    hide IsNameText, IsAscii, Span, OptionalRef, AsciiEntry, Clean, NoStrings, Destination;
    OutlineNames();
    var a, b := [Entry("Title", Str(node.title))], [Entry("Parent", Ref(node.parent))];
    var p, n := OptionalRef("Prev", prev), OptionalRef("Next", next);
    var s := if node.children == [] then [] else Span(node.children);
    var d := [Entry("Dest", Destination(FIRST_PAGE + node.page - 1))];
    AsciiOne("Title", Str(node.title));
    PartsAreAscii(node, prev, next);
    assert [Entry("Title", Str(node.title)), Entry("Parent", Ref(node.parent))] == a + b;
    AsciiConcat(a, b);
    AsciiConcat(a + b, p);
    AsciiConcat(a + b + p, n);
    AsciiConcat(a + b + p + n, s);
    AsciiConcat(a + b + p + n + s, d);
    assert ItemDict(node, prev, next, FIRST_PAGE) == Dict(a + b + p + n + s + d);
  }

  lemma PartsAreAscii(node: Node, prev: Option<nat>, next: Option<nat>)
    ensures AsciiEntries([Entry("Parent", Ref(node.parent))])
    ensures AsciiEntries(OptionalRef("Prev", prev)) && AsciiEntries(OptionalRef("Next", next))
    ensures AsciiEntries(if node.children == [] then [] else Span(node.children))
    ensures AsciiEntries([Entry("Dest", Destination(FIRST_PAGE + node.page - 1))])
  {
    hide IsNameText, AsciiEntries, Int, CountFrom;
    OutlineNames();
    MoreOutlineNames();
    CleanOne("Parent", Ref(node.parent));
    CleanEntriesAreAscii([Entry("Parent", Ref(node.parent))]);
    OptionalRefClean("Prev", prev);
    OptionalRefClean("Next", next);
    CleanEntriesAreAscii(OptionalRef("Prev", prev));
    CleanEntriesAreAscii(OptionalRef("Next", next));
    if node.children != [] {
      SpanClean(node.children);
      SpanHasNoStrings(node.children);
      CleanEntriesAreAscii(Span(node.children));
    } else {
      NoEntries();
    }
    AsciiOne("Dest", Destination(FIRST_PAGE + node.page - 1));
    DestinationIsAscii(FIRST_PAGE + node.page - 1);
  }

  lemma DestinationIsAscii(page: nat)
    ensures AsciiValue(Destination(page))
  {
    hide IsNameText;
    MoreOutlineNames();
    assert forall v :: v in Destination(page).items ==> Clean(v) && NoStrings(v);
    CleanIsAscii(Destination(page));
  }

  lemma NoEntries()
    ensures AsciiEntries([])
  {
  }

  lemma SpanHasNoStrings(nodes: seq<Node>)
    requires nodes != []
    ensures NoStrings(Dict(Span(nodes)))
  {
    hide CountFrom, Decimal;
  }

  predicate AsciiTitles(es: seq<Item>) {
    forall e :: e in es ==> IsAscii(e.title) && AsciiTitles(e.children)
  }

  /** The same, from position i on. */
  predicate AsciiFrom(es: seq<Item>, i: nat)
    requires i <= |es|
  {
    forall k :: i <= k < |es| ==> IsAscii(es[k].title) && AsciiTitles(es[k].children)
  }

  lemma TitlesFromStart(es: seq<Item>)
    ensures AsciiTitles(es) <==> AsciiFrom(es, 0)
  {
    hide IsAscii;
    if AsciiFrom(es, 0) {
      forall e | e in es
        ensures IsAscii(e.title) && AsciiTitles(e.children)
      {
        var k :| 0 <= k < |es| && es[k] == e;
      }
    } else {
      var k :| 0 <= k < |es| && !(IsAscii(es[k].title) && AsciiTitles(es[k].children));
      assert es[k] in es;
    }
  }

  ghost predicate AllEncode(objs: seq<Obj>) {
    forall o :: o in objs ==> Encodable(o)
  }

  lemma EncodeConcat(a: seq<Obj>, b: seq<Obj>)
    ensures AllEncode(a + b) <==> AllEncode(a) && AllEncode(b)
  {
    hide Encodable;
    assert forall o :: o in a + b <==> o in a || o in b;
  }

  lemma EncodeOne(v: Value)
    ensures AllEncode([Plain(v)]) <==> AsciiValue(v)
  {
    hide IsAscii;
    PrintIsAscii(v);
    assert Plain(v) in [Plain(v)];
  }

  lemma {:induction false} EmittedEncode(es: seq<Item>, i: nat, nodes: seq<Node>, number: nat, parent: nat)
    requires i <= |es| == |nodes| && nodes[i..] == PlanFrom(es, i, number, parent)
    ensures AllEncode(EmitFrom(nodes, i, FIRST_PAGE)) <==> AsciiFrom(es, i)
    decreases es, |es| - i
  {
    hide ItemDict, IsAscii, AllEncode, AsciiValue, AsciiTitles;
    if i < |es| {
      assert nodes[i] == nodes[i..][0] == Plan(es[i], number, parent);
      assert nodes[i + 1..] == nodes[i..][1..];
      var body := [Plain(ItemDict(nodes[i], PrevOf(nodes, i), NextOf(nodes, i), FIRST_PAGE))];
      var kids := EmitFrom(nodes[i].children, 0, FIRST_PAGE);
      ItemEncodes(nodes[i], PrevOf(nodes, i), NextOf(nodes, i));
      EncodeOne(ItemDict(nodes[i], PrevOf(nodes, i), NextOf(nodes, i), FIRST_PAGE));
      assert nodes[i].children[0..] == nodes[i].children;
      EmittedEncode(es[i].children, 0, nodes[i].children, number + 1, number);
      TitlesFromStart(es[i].children);
      EmittedEncode(es, i + 1, nodes, number + Size(es[i]), parent);
      EncodeConcat(body, kids);
      EncodeConcat(body + kids, EmitFrom(nodes, i + 1, FIRST_PAGE));
    } else {
      NothingEncodes();
    }
  }

  lemma NothingEncodes()
    ensures AllEncode([])
  {
  }

  lemma InfoEncodes(title: string, subject: string)
    ensures AsciiValue(Info(title, subject)) <==> IsAscii(title) && IsAscii(subject)
  {
    hide IsNameText, IsAscii, AsciiEntry;
    OutlineNames();
    InfoNames();
    AsciiOne("Title", Str(title));
    AsciiOne("Author", Str("Grace Hopper"));
    AsciiOne("Subject", Str(subject));
    AuthorIsAscii();
    var a, b := [Entry("Title", Str(title))], [Entry("Author", Str("Grace Hopper"))];
    var c := [Entry("Subject", Str(subject))];
    AsciiConcat(a, b);
    AsciiConcat(a + b, c);
    assert Info(title, subject) == Dict(a + b + c);
  }

  lemma AuthorIsAscii()
    ensures IsAscii("Grace Hopper")
  {
  }

  /** The page's texts that are printed in its dictionary. */
  predicate AsciiPage(page: Page) {
    && IsAscii(page.box.x0) && IsAscii(page.box.y0) && IsAscii(page.box.width) && IsAscii(page.box.height)
    && forall image :: image in page.images ==> IsAscii(image.name)
  }

  lemma ImageRefsEncode(images: seq<Image>, first: nat)
    ensures AsciiEntries(ImageRefs(images, first)) <==> forall image :: image in images ==> IsAscii(image.name)
  {
    hide IsAscii;
    var refs := ImageRefs(images, first);
    if AsciiEntries(refs) {
      forall image | image in images
        ensures IsAscii(image.name)
      {
        var k :| 0 <= k < |images| && images[k] == image;
        assert refs[k] in refs && AsciiEntry(refs[k]);
      }
    } else {
      var e :| e in refs && !AsciiEntry(e);
      var k :| 0 <= k < |refs| && refs[k] == e;
      assert e == Entry(images[k].name, Ref(first + k)) && AsciiValue(Ref(first + k));
      assert images[k] in images;
    }
  }

  lemma ResourcesEncode(font: nat, images: seq<Entry>)
    ensures AsciiValue(Resources(font, images)) <==> AsciiEntries(images)
  {
    hide IsNameText, IsAscii, AsciiEntry, Clean;
    PageNames();
    MorePageNames();
    var f := Dict([Entry("F1", Ref(font))]);
    AsciiOne("F1", Ref(font));
    AsciiOne("Font", f);
    AsciiOne("XObject", Dict(images));
    AsciiConcat([Entry("Font", f)], if images == [] then [] else [Entry("XObject", Dict(images))]);
    NoEntries();
  }

  lemma BoxEncodes(box: Box)
    ensures AsciiValue(Arr([Num(box.x0), Num(box.y0), Num(box.width), Num(box.height)])) <==>
            IsAscii(box.x0) && IsAscii(box.y0) && IsAscii(box.width) && IsAscii(box.height)
  {
    hide IsAscii;
    var items := [Num(box.x0), Num(box.y0), Num(box.width), Num(box.height)];
    assert items[0] in items && items[1] in items && items[2] in items && items[3] in items;
  }

  lemma PageEncodes(page: Page, font: nat, first: nat, content: nat)
    ensures AsciiValue(PageDict(page.box, font, ImageRefs(page.images, first), content)) <==> AsciiPage(page)
  {
    hide IsNameText, IsAscii, AsciiEntry, Resources;
    var images := ImageRefs(page.images, first);
    var box := Arr([Num(page.box.x0), Num(page.box.y0), Num(page.box.width), Num(page.box.height)]);
    var a := [Entry("Type", Name("Page"))];
    var b := [Entry("Parent", Ref(2))];
    var c := [Entry("MediaBox", box)];
    var d := [Entry("Resources", Resources(font, images))];
    var e := [Entry("Contents", Ref(content))];
    PageEntriesEncode(font, images, content, box);
    ImageRefsEncode(page.images, first);
    ResourcesEncode(font, images);
    BoxEncodes(page.box);
    AsciiConcat(a, b);
    AsciiConcat(a + b, c);
    AsciiConcat(a + b + c, d);
    AsciiConcat(a + b + c + d, e);
    assert PageDict(page.box, font, images, content) == Dict(a + b + c + d + e);
  }

  lemma PageEntriesEncode(font: nat, images: seq<Entry>, content: nat, box: Value)
    ensures AsciiEntries([Entry("Type", Name("Page"))]) && AsciiEntries([Entry("Parent", Ref(2))])
    ensures AsciiEntries([Entry("MediaBox", box)]) <==> AsciiValue(box)
    ensures AsciiEntries([Entry("Resources", Resources(font, images))]) <==> AsciiValue(Resources(font, images))
    ensures AsciiEntries([Entry("Contents", Ref(content))])
  {
    hide IsNameText, IsAscii, AsciiEntries, Resources;
    OutlineNames();
    MoreOutlineNames();
    PageNames();
    MorePageNames();
    NamesAreAscii("Page");
    AsciiOne("Type", Name("Page"));
    AsciiOne("Parent", Ref(2));
    AsciiOne("MediaBox", box);
    AsciiOne("Resources", Resources(font, images));
    AsciiOne("Contents", Ref(content));
  }

  //// The whole document.

  /** Title, subject, outline titles, coordinates and image names are ASCII. */
  predicate AsciiDocument(doc: Document) {
    && IsAscii(doc.title) && IsAscii(doc.subject)
    && (forall page :: page in doc.pages ==> AsciiPage(page))
    && AsciiTitles(doc.outline)
  }

  lemma CleanEncodes(v: Value)
    requires Clean(v) && NoStrings(v)
    ensures AllEncode([Plain(v)])
  {
    CleanIsAscii(v);
    EncodeOne(v);
  }

  lemma FixedEncode(doc: Document)
    ensures AllEncode(FixedObjs(doc)) <==> IsAscii(doc.title) && IsAscii(doc.subject)
  {
    hide AllEncode, Catalog, PageTree, Info, IsAscii, AsciiValue, Clean, NoStrings;
    var root, count := OutlineRoot(doc), |doc.pages|;
    CatalogClean(root);
    PageTreeClean(count);
    CatalogHasNoStrings(root, count);
    CleanEncodes(Catalog(root));
    CleanEncodes(PageTree(count));
    InfoEncodes(doc.title, doc.subject);
    EncodeOne(Info(doc.title, doc.subject));
    var a, b, c := [Plain(Catalog(root))], [Plain(PageTree(count))], [Plain(Info(doc.title, doc.subject))];
    EncodeConcat(a, b);
    EncodeConcat(a + b, c);
    assert FixedObjs(doc) == a + b + c;
  }

  lemma CatalogHasNoStrings(root: Option<nat>, count: nat)
    ensures NoStrings(Catalog(root)) && NoStrings(PageTree(count))
  {
    hide Decimal;
    assert forall v :: v in Refs(FIRST_PAGE, count) ==> NoStrings(v);
    assert NoStrings(Arr(Refs(FIRST_PAGE, count)));
  }

  lemma PagesEncode(pages: seq<Page>)
    ensures AllEncode(PageObjs(pages)) <==> forall page :: page in pages ==> AsciiPage(page)
  {
    hide PageDict, AsciiPage, IsAscii, AsciiValue, ImageRefs;
    var objs := PageObjs(pages);
    forall i | 0 <= i < |pages|
      ensures Encodable(objs[i]) <==> AsciiPage(pages[i])
    {
      var first := FontNumber(|pages|) + 1 + ImagesBefore(pages, i);
      PageEncodes(pages[i], FontNumber(|pages|), first, FIRST_PAGE + |pages| + i);
      PrintIsAscii(objs[i].value);
    }
    if AllEncode(objs) {
      forall page | page in pages
        ensures AsciiPage(page)
      {
        var i :| 0 <= i < |pages| && pages[i] == page;
        assert objs[i] in objs;
      }
    }
  }

  lemma StreamEncodes(d: Value, data: string)
    requires Clean(d) && NoStrings(d)
    ensures Encodable(Stream(d, data))
  {
    CleanIsAscii(d);
    PrintIsAscii(d);
  }

  lemma ContentsEncode(pages: seq<Page>)
    ensures AllEncode(ContentObjs(pages))
  {
    hide Clean, IsAscii;
    forall i | 0 <= i < |pages|
      ensures Encodable(ContentObjs(pages)[i])
    {
      ContentReadable(pages[i].content);
      LengthHasNoStrings(|pages[i].content|);
      StreamEncodes(ContentObj(pages[i].content).dict, pages[i].content);
    }
  }

  lemma LengthHasNoStrings(n: nat)
    ensures NoStrings(Dict([Entry("Length", Int(n))]))
  {
    hide Decimal;
  }

  lemma ImageEncodes(image: Image)
    ensures Encodable(ImageObj(image))
  {
    hide IsAscii, Clean, NoStrings;
    ImageDictClean(image);
    ImageHasNoStrings(image);
    StreamEncodes(ImageObj(image).dict, image.stream);
  }

  lemma ImageHasNoStrings(image: Image)
    ensures NoStrings(ImageObj(image).dict)
  {
    hide Decimal;
  }

  lemma {:induction false} ImagesEncode(pages: seq<Page>, i: nat)
    requires i <= |pages|
    ensures AllEncode(ImageObjs(pages, i))
  {
    hide ImageObj, Encodable;
    if i > 0 {
      ImagesEncode(pages, i - 1);
      var images := pages[i - 1].images;
      forall k | 0 <= k < |images|
        ensures Encodable(ImageObjsOf(images)[k])
      {
        ImageEncodes(images[k]);
      }
      EncodeConcat(ImageObjs(pages, i - 1), ImageObjsOf(images));
    }
  }

  lemma OutlineEncodes(outline: seq<Item>, root: nat)
    ensures AllEncode(OutlineObjs(outline, root)) <==> AsciiTitles(outline)
  {
    hide AllEncode, RootDict, EmitFrom, IsAscii, AsciiTitles, Clean, NoStrings;
    TitlesFromStart(outline);
    if outline == [] {
      NothingEncodes();
    } else {
      var top := PlanFrom(outline, 0, root + 1, root);
      assert top[0..] == top;
      RootClean(top);
      RootHasNoStrings(top);
      CleanEncodes(RootDict(top));
      EmittedEncode(outline, 0, top, root + 1, root);
      EncodeConcat([Plain(RootDict(top))], EmitFrom(top, 0, FIRST_PAGE));
    }
  }

  lemma RootHasNoStrings(top: seq<Node>)
    requires top != []
    ensures NoStrings(RootDict(top))
  {
    hide CountFrom, Decimal;
  }

  lemma ObjectsEncode(doc: Document)
    ensures AllEncode(Objects(doc)) <==> AsciiDocument(doc)
  {
    hide AllEncode, FixedObjs, PageObjs, ContentObjs, Font, ImageObjs, OutlineObjs, IsAscii, AsciiPage, AsciiTitles;
    var a, b, c := FixedObjs(doc), PageObjs(doc.pages), ContentObjs(doc.pages);
    var d, e := [Plain(Font())], ImageObjs(doc.pages, |doc.pages|);
    var f := OutlineObjs(doc.outline, OutlineNumber(doc.pages));
    FixedEncode(doc);
    PagesEncode(doc.pages);
    ContentsEncode(doc.pages);
    FontEncodes();
    ImagesEncode(doc.pages, |doc.pages|);
    OutlineEncodes(doc.outline, OutlineNumber(doc.pages));
    EncodeConcat(a, b);
    EncodeConcat(a + b, c);
    EncodeConcat(a + b + c, d);
    EncodeConcat(a + b + c + d, e);
    EncodeConcat(a + b + c + d + e, f);
  }

  lemma FontEncodes()
    ensures AllEncode([Plain(Font())])
  {
    FontClean();
    FontHasNoStrings();
    hide Font;
    CleanEncodes(Font());
  }

  lemma FontHasNoStrings()
    ensures NoStrings(Font())
  {
  }

  //// Drawn labels.

  lemma FillLineIsAscii(height: int)
    ensures IsAscii(FillLine(height))
  {
    hide IsAscii, IntText;
    var y := IntText(height - 192);
    IntIsAscii(height - 192);
    FillWords();
    AsciiAppend("72 ", y);
    AsciiAppend("72 " + y, " 216 144 re f");
  }

  lemma FillWords()
    ensures IsAscii("72 ") && IsAscii(" 216 144 re f")
  {
  }

  /** A line of text is ASCII if its text is. */
  lemma TextLineIsAscii(size: string, y: int, text: string)
    requires IsAscii(size)
    ensures IsAscii(TextLine(size, y, text)) <==> IsAscii(text)
  {
    hide IsAscii, IntText, PdfString;
    var at, t := IntText(y), PdfString(text);
    IntIsAscii(y);
    StringIsAscii(text);
    TextWords();
    AsciiAppend("BT /F1 ", size);
    AsciiAppend("BT /F1 " + size, " Tf 72 ");
    AsciiAppend("BT /F1 " + size + " Tf 72 ", at);
    AsciiAppend("BT /F1 " + size + " Tf 72 " + at, " Td ");
    AsciiAppend("BT /F1 " + size + " Tf 72 " + at + " Td ", t);
    AsciiAppend("BT /F1 " + size + " Tf 72 " + at + " Td " + t, " Tj ET");
  }

  lemma TextWords()
    ensures IsAscii("BT /F1 ") && IsAscii(" Tf 72 ") && IsAscii(" Td ") && IsAscii(" Tj ET")
  {
  }

  lemma ColorWords()
    ensures IsAscii("0.20 0.47 0.79 rg") && IsAscii("0 0 0 rg") && IsAscii("\n")
  {
  }

  lemma SizesAndHeading()
    ensures IsAscii("40") && IsAscii("28") && IsAscii("Tuxbooks PDF Fixture")
  {
  }

  /** A page stream is drawn if and only if the caption is ASCII. */
  lemma DrawableIsAscii(caption: string, height: int)
    ensures IsAscii(DefaultPageStream(caption, height)) <==> IsAscii(caption)
  {
    hide IsAscii, FillLine, TextLine;
    var heading := "Tuxbooks PDF Fixture";
    var a, b := "0.20 0.47 0.79 rg", FillLine(height);
    var d, e := TextLine("40", height - 272, heading), TextLine("28", height - 332, caption);
    ColorWords();
    SizesAndHeading();
    FillLineIsAscii(height);
    TextLineIsAscii("40", height - 272, heading);
    TextLineIsAscii("28", height - 332, caption);
    AsciiAppend(a, "\n");
    AsciiAppend(a + "\n", b);
    AsciiAppend(a + "\n" + b, "\n");
    AsciiAppend(a + "\n" + b + "\n", "0 0 0 rg");
    AsciiAppend(a + "\n" + b + "\n" + "0 0 0 rg", "\n");
    AsciiAppend(a + "\n" + b + "\n" + "0 0 0 rg" + "\n", d);
    AsciiAppend(a + "\n" + b + "\n" + "0 0 0 rg" + "\n" + d, "\n");
    AsciiAppend(a + "\n" + b + "\n" + "0 0 0 rg" + "\n" + d + "\n", e);
  }

  //// The theorem about the file that is returned.

  /** Every printed text of the input is ASCII. */
  predicate AsciiSource(src: Source) {
    && AsciiDocument(RenderedDocument(src))
    && forall p :: p in src.pages ==> p.Labelled? ==> IsAscii(p.caption)
  }

  /**
   The writer returns a file exactly when every text it prints is ASCII; and a
   file it returns reads back as the rendered document if and only if that is
   clean and its offsets fit.
   */
  lemma WriterRoundTrip(src: Source)
    ensures Written(src).Some? <==> AsciiSource(src)
    ensures Written(src).Some? ==>
              (ReadDocument(Written(src).value) == Some(RenderedDocument(src)) <==>
               CleanDocument(RenderedDocument(src)) && OffsetsFit(Objects(RenderedDocument(src))))
  {
    hide Objects, FileText, Encodable, IsAscii, AsciiDocument, RenderedDocument, ReadDocument, OffsetsFit,
         CleanDocument;
    hide DefaultPageStream;
    var doc := RenderedDocument(src);
    ObjectsEncode(doc);
    DocumentRoundTrip(doc);
    forall p | p in src.pages
      ensures Drawable(p) <==> (p.Labelled? ==> IsAscii(p.caption))
    {
      if p.Labelled? {
        DrawableIsAscii(p.caption, p.height);
      }
    }
  }
}

/**
 Reading a document back from the bytes of a PDF file: through the
 cross-reference table to the catalog, and from there by references alone.
 */
module PdfReader {
  import opened Text
  import opened PdfSyntax
  import opened PdfFile
  import opened PdfOutline
  import opened Pdf

  //// The reader.

  function LoadStream(fetch: Fetcher, n: nat): Option<string> {
    var o :- fetch(n);
    if o.Stream? then Some(o.data) else None
  }

  function RefNumbers(items: seq<Value>): Option<seq<nat>> {
    if items == [] then Some([])
    else if items[0].Ref? then
      var rest :- RefNumbers(items[1..]);
      Some([items[0].number] + rest)
    else None
  }

  function ReadBox(v: Value): Option<Box> {
    var b :- Lookup(v, "MediaBox");
    if b.Arr? && |b.items| == 4 && b.items[0].Num? && b.items[1].Num? && b.items[2].Num? && b.items[3].Num? then
      Some(Box(b.items[0].text, b.items[1].text, b.items[2].text, b.items[3].text))
    else
      None
  }

  /** The dictionary's /Type is this name. */
  predicate HasType(v: Value, name: string) {
    Lookup(v, "Type") == Some(Name(name))
  }

  function ReadGray(v: Value): Option<bool> {
    var c :- Lookup(v, "ColorSpace");
    if c == Name("DeviceGray") then Some(true) else if c == Name("DeviceRGB") then Some(false) else None
  }

  /** An image of eight-bit samples, compressed (sections 8.9.5 and 7.4.4). */
  predicate IsDeflatedImage(v: Value) {
    && HasType(v, "XObject") && Lookup(v, "Subtype") == Some(Name("Image"))
    && LookupNat(v, "BitsPerComponent") == Some(8) && Lookup(v, "Filter") == Some(Name("FlateDecode"))
  }

  function ReadImage(fetch: Fetcher, e: Entry): Option<Image> {
    if !e.value.Ref? then
      None
    else
      var o :- fetch(e.value.number);
      if !o.Stream? || !IsDeflatedImage(o.dict) then
        None
      else
        var width :- LookupNat(o.dict, "Width");
        var height :- LookupNat(o.dict, "Height");
        var gray :- ReadGray(o.dict);
        Some(Image(e.key, width, height, gray, o.data))
  }

  function ReadImages(fetch: Fetcher, es: seq<Entry>): Option<seq<Image>> {
    if es == [] then
      Some([])
    else
      var image :- ReadImage(fetch, es[0]);
      var rest :- ReadImages(fetch, es[1..]);
      Some([image] + rest)
  }

  /** No two entries of a dictionary have the same key (section 7.3.7 of ISO 32000-1). */
  predicate DistinctKeys(es: seq<Entry>) {
    forall i, j :: 0 <= i < j < |es| ==> es[i].key != es[j].key
  }

  function ReadXObjects(fetch: Fetcher, resources: Value): Option<seq<Image>> {
    match Lookup(resources, "XObject")
    case None => Some([])
    case Some(d) => if d.Dict? && DistinctKeys(d.entries) then ReadImages(fetch, d.entries) else None
  }

  /** The page's font resource must be a Type 1 font object (section 9.6.2). */
  function ReadFont(fetch: Fetcher, resources: Value): Option<Value> {
    var fonts :- Lookup(resources, "Font");
    var number :- LookupRef(fonts, "F1");
    var font :- LoadPlain(fetch, number);
    if !HasType(font, "Font") || Lookup(font, "Subtype") != Some(Name("Type1")) ||
       Lookup(font, "Encoding") != Some(Name("WinAnsiEncoding")) then
      None
    else
      Lookup(font, "BaseFont")
  }

  function ReadPage(fetch: Fetcher, n: nat, tree: nat): Option<Page> {
    var v :- LoadPlain(fetch, n);
    var box :- ReadBox(v);
    var contentNumber :- LookupRef(v, "Contents");
    var content :- LoadStream(fetch, contentNumber);
    var resources :- Lookup(v, "Resources");
    var images :- ReadXObjects(fetch, resources);
    if HasType(v, "Page") && LookupRef(v, "Parent") == Some(tree) && ReadFont(fetch, resources) ==
      Some(Name("Helvetica")) then
      Some(Page(box, content, images))
    else
      None
  }

  function ReadPages(fetch: Fetcher, kids: seq<nat>, tree: nat): (r: Option<seq<Page>>)
    ensures r.Some? ==> |r.value| == |kids|
  {
    if kids == [] then
      Some([])
    else
      var page :- ReadPage(fetch, kids[0], tree);
      var rest :- ReadPages(fetch, kids[1..], tree);
      Some([page] + rest)
  }

  function ReadKids(tree: Value): Option<seq<nat>> {
    var kids :- Lookup(tree, "Kids");
    if HasType(tree, "Pages") && kids.Arr? && LookupNat(tree, "Count") ==
      Some(|kids.items|) then RefNumbers(kids.items) else None
  }

  function ReadOutline(fetch: Fetcher, catalog: Value, kids: seq<nat>, size: nat): Option<seq<Item>> {
    match LookupRef(catalog, "Outlines")
    case None => Some([])
    case Some(root) =>
      var v :- LoadPlain(fetch, root);
      var top :- ReadSpan(fetch, v, root, kids, size);
      if HasType(v, "Outlines") then Some(top.items) else None
  }

  /** Everything reachable from the trailer of a file of `size` objects. */
  function ReadGraph(fetch: Fetcher, trailer: Value, size: nat): Option<Document> {
    var root :- LookupRef(trailer, "Root");
    var catalog :- LoadPlain(fetch, root);
    var treeNumber :- LookupRef(catalog, "Pages");
    var tree :- LoadPlain(fetch, treeNumber);
    var kids :- ReadKids(tree);
    var pages :- ReadPages(fetch, kids, treeNumber);
    var infoNumber :- LookupRef(trailer, "Info");
    var info :- LoadPlain(fetch, infoNumber);
    var title :- LookupStr(info, "Title");
    var subject :- LookupStr(info, "Subject");
    var outline :- ReadOutline(fetch, catalog, kids, size);
    if HasType(catalog, "Catalog") then Some(Document(pages, title, subject, outline)) else None
  }

  function Fetching(file: string, table: Table): Fetcher {
    (n: nat) => Fetch(file, table, n)
  }

  function ReadDocument(file: string): Option<Document> {
    var _ :- Expect(file, "%PDF-1.4\n");
    var table :- ReadTable(file);
    ReadGraph(Fetching(file, table), table.trailer, |table.offsets|)
  }

  //// Looking entries up.

  lemma {:induction false} GetAt(es: seq<Entry>, k: nat, key: string)
    requires k < |es| && es[k].key == key
    requires forall j :: 0 <= j < k ==> es[j].key != key
    ensures Get(es, key) == Some(es[k].value)
    decreases k
  {
    if k > 0 {
      GetAt(es[1..], k - 1, key);
    }
  }

  lemma {:induction false} GetNone(es: seq<Entry>, key: string)
    requires forall j :: 0 <= j < |es| ==> es[j].key != key
    ensures Get(es, key) == None
  {
    if es != [] {
      GetNone(es[1..], key);
    }
  }

  lemma LookupNatOf(v: Value, key: string, n: nat)
    requires Lookup(v, key) == Some(Int(n))
    ensures LookupNat(v, key) == Some(n)
  {
    IntIsClean(n);
  }

  //// What each body says to the reader.

  lemma CatalogReads(root: Option<nat>)
    ensures LookupRef(Catalog(root), "Pages") == Some(2)
    ensures LookupRef(Catalog(root), "Outlines") == root
    ensures HasType(Catalog(root), "Catalog")
  {
    var a := [Entry("Type", Name("Catalog")), Entry("Pages", Ref(2))];
    var o := OptionalRef("Outlines", root);
    assert "Type" != "Pages";
    GetTwo(a[0], a[1], "Pages");
    GetTwo(a[0], a[1], "Outlines");
    GetAppend(a, o, "Type");
    GetAppend(a, o, "Pages");
    GetAppend(a, o, "Outlines");
    GetOptional("Outlines", root, "Outlines");
  }

  lemma {:induction false} RefNumbersOf(first: nat, count: nat)
    ensures RefNumbers(Refs(first, count)) == Some(PageNumbers(first, count))
    decreases count
  {
    if count > 0 {
      assert Refs(first, count)[1..] == Refs(first + 1, count - 1);
      RefNumbersOf(first + 1, count - 1);
      assert [first] + PageNumbers(first + 1, count - 1) == PageNumbers(first, count);
    }
  }

  lemma PageTreeReads(count: nat)
    ensures ReadKids(PageTree(count)) == Some(PageNumbers(FIRST_PAGE, count))
  {
    hide Int, RefNumbers;
    var es := PageTree(count).entries;
    assert "Type"[0] != "Kids"[0];
    GetAt(es, 0, "Type");
    GetAt(es, 1, "Kids");
    GetAt(es, 2, "Count");
    LookupNatOf(PageTree(count), "Count", count);
    RefNumbersOf(FIRST_PAGE, count);
  }

  lemma InfoReads(title: string, subject: string)
    ensures LookupStr(Info(title, subject), "Title") == Some(title)
    ensures LookupStr(Info(title, subject), "Subject") == Some(subject)
    ensures LookupStr(Info(title, subject), "Author") == Some("Grace Hopper")
  {
    var es := Info(title, subject).entries;
    GetAt(es, 0, "Title");
    GetAt(es, 1, "Author");
    GetAt(es, 2, "Subject");
  }

  lemma PageReads(box: Box, font: nat, images: seq<Entry>, content: nat)
    ensures var v := PageDict(box, font, images, content);
            && ReadBox(v) == Some(box)
            && LookupRef(v, "Contents") == Some(content)
            && Lookup(v, "Resources") == Some(Resources(font, images))
            && LookupRef(v, "Parent") == Some(2)
            && HasType(v, "Page")
  {
    hide Resources;
    var es := PageDict(box, font, images, content).entries;
    assert "MediaBox"[0] != "Contents"[0];
    GetAt(es, 0, "Type");
    GetAt(es, 1, "Parent");
    GetAt(es, 2, "MediaBox");
    GetAt(es, 3, "Resources");
    GetAt(es, 4, "Contents");
  }

  lemma ResourcesRead(font: nat, images: seq<Entry>)
    ensures Lookup(Resources(font, images), "Font") == Some(Dict([Entry("F1", Ref(font))]))
    ensures LookupRef(Dict([Entry("F1", Ref(font))]), "F1") == Some(font)
    ensures Lookup(Resources(font, images), "XObject") == if images == [] then None else Some(Dict(images))
  {
    var es := Resources(font, images).entries;
    GetAt(es, 0, "Font");
    GetAt([Entry("F1", Ref(font))], 0, "F1");
    if images == [] {
      GetNone(es, "XObject");
    } else {
      GetAt(es, 1, "XObject");
    }
  }

  lemma FontReads()
    ensures Lookup(Font(), "BaseFont") == Some(Name("Helvetica"))
    ensures HasType(Font(), "Font") && Lookup(Font(), "Subtype") == Some(Name("Type1"))
    ensures Lookup(Font(), "Encoding") == Some(Name("WinAnsiEncoding"))
  {
    GetAt(Font().entries, 0, "Type");
    GetAt(Font().entries, 1, "Subtype");
    GetAt(Font().entries, 3, "Encoding");
    GetAt(Font().entries, 2, "BaseFont");
  }

  lemma ImageReads(fetch: Fetcher, image: Image, n: nat)
    requires fetch(n) == Some(ImageObj(image))
    ensures ReadImage(fetch, Entry(image.name, Ref(n))) == Some(image)
  {
    hide Int, Get, LookupNat;
    var d := ImageObj(image).dict;
    ImageKeysDiffer();
    FilterKeysDiffer();
    GetAt(d.entries, 0, "Type");
    GetAt(d.entries, 1, "Subtype");
    GetAt(d.entries, 5, "BitsPerComponent");
    GetAt(d.entries, 6, "Filter");
    LookupNatOf(d, "BitsPerComponent", 8);
    GetAt(d.entries, 2, "Width");
    GetAt(d.entries, 3, "Height");
    GetAt(d.entries, 4, "ColorSpace");
    LookupNatOf(d, "Width", image.width);
    LookupNatOf(d, "Height", image.height);
  }

  lemma ImageKeysDiffer()
    ensures "Type" != "Subtype" && "Type" != "Width" && "Type" != "Height" && "Type" != "ColorSpace"
    ensures "Subtype" != "Width" && "Subtype" != "Height" && "Subtype" != "ColorSpace"
    ensures "Width" != "Height" && "Width" != "ColorSpace" && "Height" != "ColorSpace"
    ensures "DeviceGray" != "DeviceRGB"
  {
  }

  lemma FilterKeysDiffer()
    ensures "Type" != "BitsPerComponent" && "Subtype" != "BitsPerComponent" && "Width" != "BitsPerComponent"
    ensures "Height" != "BitsPerComponent" && "ColorSpace" != "BitsPerComponent"
    ensures "Type" != "Filter" && "Subtype" != "Filter" && "Width" != "Filter" && "Height" != "Filter"
    ensures "ColorSpace" != "Filter" && "BitsPerComponent" != "Filter"
  {
    assert "BitsPerComponent"[0] == 'B' && "Filter"[0] == 'F';
  }

  //// Where the plan puts things is where they are.

  /** The numbering plan: every kind of object sits at the number planned for it. */
  lemma PlannedNumbersHold(fetch: Fetcher, doc: Document)
    requires Holds(fetch, 1, Objects(doc))
    ensures fetch(1) == Some(Plain(Catalog(OutlineRoot(doc))))
    ensures fetch(2) == Some(Plain(PageTree(|doc.pages|)))
    ensures fetch(3) == Some(Plain(Info(doc.title, doc.subject)))
    ensures Holds(fetch, FIRST_PAGE, PageObjs(doc.pages))
    ensures Holds(fetch, FIRST_PAGE + |doc.pages|, ContentObjs(doc.pages))
    ensures fetch(FontNumber(|doc.pages|)) == Some(Plain(Font()))
    ensures Holds(fetch, FontNumber(|doc.pages|) + 1, ImageObjs(doc.pages, |doc.pages|))
    ensures Holds(fetch, OutlineNumber(doc.pages), OutlineObjs(doc.outline, OutlineNumber(doc.pages)))
  {
    hide Catalog, PageTree, Info, PageObjs, ContentObjs, Font, ImageObjs, OutlineObjs;
    var fixedObjs := FixedObjs(doc);
    var a := fixedObjs + PageObjs(doc.pages);
    var b := a + ContentObjs(doc.pages);
    var c := b + [Plain(Font())];
    var d := c + ImageObjs(doc.pages, |doc.pages|);
    HoldsSplit(fetch, 1, d, OutlineObjs(doc.outline, OutlineNumber(doc.pages)));
    HoldsSplit(fetch, 1, c, ImageObjs(doc.pages, |doc.pages|));
    HoldsSplit(fetch, 1, b, [Plain(Font())]);
    HoldsSplit(fetch, 1, a, ContentObjs(doc.pages));
    HoldsSplit(fetch, 1, fixedObjs, PageObjs(doc.pages));
    assert fetch(1) == Some(fixedObjs[0]) && fetch(2) == Some(fixedObjs[1]) && fetch(3) == Some(fixedObjs[2]);
    assert fetch(FontNumber(|doc.pages|)) == Some([Plain(Font())][0]);
  }

  lemma {:induction false} ImagesOfPage(fetch: Fetcher, pages: seq<Page>, n: nat, first: nat, i: nat)
    requires i < n <= |pages| && Holds(fetch, first, ImageObjs(pages, n))
    ensures Holds(fetch, first + ImagesBefore(pages, i), ImageObjsOf(pages[i].images))
  {
    hide Holds, ImageObjsOf;
    HoldsSplit(fetch, first, ImageObjs(pages, n - 1), ImageObjsOf(pages[n - 1].images));
    if i < n - 1 {
      ImagesOfPage(fetch, pages, n - 1, first, i);
    }
  }

  lemma {:induction false} ImagesRead(fetch: Fetcher, images: seq<Image>, first: nat)
    requires Holds(fetch, first, ImageObjsOf(images))
    ensures ReadImages(fetch, ImageRefs(images, first)) == Some(images)
    decreases |images|
  {
    hide ImageObj, ReadImage;
    if images != [] {
      assert ImageObjsOf(images) == [ImageObj(images[0])] + ImageObjsOf(images[1..]);
      HoldsSplit(fetch, first, [ImageObj(images[0])], ImageObjsOf(images[1..]));
      assert fetch(first) == Some(ImageObj(images[0]));
      ImageReads(fetch, images[0], first);
      assert ImageRefs(images, first)[1..] == ImageRefs(images[1..], first + 1);
      ImagesRead(fetch, images[1..], first + 1);
      assert [images[0]] + images[1..] == images;
    }
  }

  /** The objects one page refers to. */
  lemma PageParts(fetch: Fetcher, doc: Document, i: nat)
    requires Holds(fetch, 1, Objects(doc)) && i < |doc.pages|
    ensures var pages := doc.pages;
            var images := ImageRefs(pages[i].images, FontNumber(|pages|) + 1 + ImagesBefore(pages, i));
            var content := FIRST_PAGE + |pages| + i;
            && fetch(FIRST_PAGE + i) == Some(Plain(PageDict(pages[i].box, FontNumber(|pages|), images, content)))
            && LoadStream(fetch, content) == Some(pages[i].content)
            && fetch(FontNumber(|pages|)) == Some(Plain(Font()))
            && ReadImages(fetch, images) == Some(pages[i].images)
  {
    hide Holds, Objects, Font, ImageObjs, ImageObjsOf, PageDict, ImageRefs, ContentObj, ReadImages, LoadStream,
         ImagesBefore;
    var pages := doc.pages;
    var font := FontNumber(|pages|);
    PlannedNumbersHold(fetch, doc);
    HoldsAt(fetch, FIRST_PAGE, PageObjs(pages), i);
    HoldsAt(fetch, FIRST_PAGE + |pages|, ContentObjs(pages), i);
    ContentReads(fetch, FIRST_PAGE + |pages| + i, pages[i].content);
    ImagesOfPage(fetch, pages, |pages|, font + 1, i);
    ImagesRead(fetch, pages[i].images, font + 1 + ImagesBefore(pages, i));
  }

  lemma PageReadsBack(fetch: Fetcher, doc: Document, i: nat)
    requires Holds(fetch, 1, Objects(doc)) && i < |doc.pages| && DistinctNames(doc.pages[i].images)
    ensures ReadPage(fetch, FIRST_PAGE + i, 2) == Some(doc.pages[i])
  {
    hide *;
    PageParts(fetch, doc, i);
    var page, font := doc.pages[i], FontNumber(|doc.pages|);
    var images := ImageRefs(page.images, font + 1 + ImagesBefore(doc.pages, i));
    NamesAreKeys(page.images, font + 1 + ImagesBefore(doc.pages, i));
    PageAssembles(fetch, FIRST_PAGE + i, page, font, images, FIRST_PAGE + |doc.pages| + i);
  }

  /** The images of a page are told apart by name. */
  predicate DistinctNames(images: seq<Image>) {
    forall i, j :: 0 <= i < j < |images| ==> images[i].name != images[j].name
  }

  predicate NamesDiffer(pages: seq<Page>) {
    forall page :: page in pages ==> DistinctNames(page.images)
  }

  lemma NamesAreKeys(images: seq<Image>, first: nat)
    ensures DistinctKeys(ImageRefs(images, first)) <==> DistinctNames(images)
  {
    var es := ImageRefs(images, first);
    assert forall k :: 0 <= k < |images| ==> es[k].key == images[k].name;
  }

  lemma PageAssembles(fetch: Fetcher, n: nat, page: Page, font: nat, images: seq<Entry>, content: nat)
    requires fetch(n) == Some(Plain(PageDict(page.box, font, images, content)))
    requires LoadStream(fetch, content) == Some(page.content)
    requires fetch(font) == Some(Plain(Font()))
    requires |images| == |page.images| && ReadImages(fetch, images) == Some(page.images) && DistinctKeys(images)
    ensures ReadPage(fetch, n, 2) == Some(page)
  {
    hide PageDict, Font, Resources, Lookup, ReadBox, LoadStream, ReadImages, DistinctKeys;
    PageReads(page.box, font, images, content);
    ResourcesRead(font, images);
    FontReads();
  }

  lemma HoldsAt(fetch: Fetcher, n: nat, objs: seq<Obj>, k: nat)
    requires Holds(fetch, n, objs) && k < |objs|
    ensures fetch(n + k) == Some(objs[k])
  {
  }

  lemma ContentReads(fetch: Fetcher, n: nat, content: string)
    requires fetch(n) == Some(ContentObj(content))
    ensures LoadStream(fetch, n) == Some(content)
  {
  }

  lemma {:induction false} PagesReadBack(fetch: Fetcher, doc: Document, i: nat)
    requires Holds(fetch, 1, Objects(doc)) && i <= |doc.pages| && NamesDiffer(doc.pages)
    ensures ReadPages(fetch, PageNumbers(FIRST_PAGE + i, |doc.pages| - i), 2) == Some(doc.pages[i..])
    decreases |doc.pages| - i
  {
    hide Holds, ReadPage, Objects, DistinctNames;
    if i < |doc.pages| {
      var kids := PageNumbers(FIRST_PAGE + i, |doc.pages| - i);
      assert kids[1..] == PageNumbers(FIRST_PAGE + (i + 1), |doc.pages| - (i + 1));
      assert kids[0] == FIRST_PAGE + i;
      PageReadsBack(fetch, doc, i);
      PagesReadBack(fetch, doc, i + 1);
      assert [doc.pages[i]] + doc.pages[i + 1..] == doc.pages[i..];
    } else {
      assert doc.pages[i..] == [] && PageNumbers(FIRST_PAGE + i, 0) == [];
    }
  }

  lemma RootReads(top: seq<Node>)
    requires top != []
    ensures SpanIs(RootDict(top), top) && HasType(RootDict(top), "Outlines")
  {
    hide Span, Get, CountFrom;
    var a := [Entry("Type", Name("Outlines"))];
    assert "Type" != "First" && "Type" != "Count" && "Type"[0] != "Last"[0];
    GetAppend(a, Span(top), "Type");
    GetOne(a[0], "Type");
    forall key | key == "First" || key == "Last" || key == "Count"
      ensures Lookup(RootDict(top), key) == Get(Span(top), key)
    {
      GetAppend(a, Span(top), key);
      GetOne(a[0], key);
    }
    GetSpan(top, "First");
    GetSpan(top, "Last");
    GetSpan(top, "Count");
    CountReads(RootDict(top), CountFrom(top, 0));
  }

  /** The root dictionary and the entries' bodies are where the plan put them. */
  lemma RootIsFetched(fetch: Fetcher, doc: Document)
    requires Holds(fetch, 1, Objects(doc)) && doc.outline != []
    ensures var root := OutlineNumber(doc.pages);
            var top := PlanFrom(doc.outline, 0, root + 1, root);
            && top != [] && fetch(root) == Some(Plain(RootDict(top)))
            && Holds(fetch, root + 1, EmitFrom(top, 0, FIRST_PAGE))
  {
    hide Objects, RootDict, EmitFrom, PageNumbers, Catalog, PageTree, Info, PageObjs, ContentObjs, Font, ImageObjs;
    var root := OutlineNumber(doc.pages);
    var top := PlanFrom(doc.outline, 0, root + 1, root);
    PlannedNumbersHold(fetch, doc);
    HoldsSplit(fetch, root, [Plain(RootDict(top))], EmitFrom(top, 0, FIRST_PAGE));
    assert fetch(root) == Some([Plain(RootDict(top))][0]);
  }

  lemma OutlineReadsBack(fetch: Fetcher, doc: Document, size: nat)
    requires Holds(fetch, 1, Objects(doc))
    requires PagesExist(doc.outline, |doc.pages|) && size >= SizeFrom(doc.outline, 0)
    ensures ReadOutline(fetch, Catalog(OutlineRoot(doc)), PageNumbers(FIRST_PAGE, |doc.pages|), size) ==
            Some(doc.outline)
  {
    hide Objects, Catalog, RootDict, ReadSpan, SpanIs, EmitFrom, PageNumbers, Holds, SizeFrom, PagesExist, HasType;
    CatalogReads(OutlineRoot(doc));
    if doc.outline != [] {
      var es, root, n := doc.outline, OutlineNumber(doc.pages), |doc.pages|;
      var top := PlanFrom(es, 0, root + 1, root);
      RootIsFetched(fetch, doc);
      RootReads(top);
      assert top[0..] == top && es[0..] == es;
      OneBodyPerEntry(es, 0, top, root + 1, root, FIRST_PAGE);
      ReadChainBack(fetch, es, 0, top, root + 1, root, FIRST_PAGE, n, size);
      SpanReads(fetch, es, top, RootDict(top), root, PageNumbers(FIRST_PAGE, n), size);
    }
  }

  lemma TrailerReads(count: nat)
    ensures LookupRef(Trailer(count), "Root") == Some(1)
    ensures LookupRef(Trailer(count), "Info") == Some(3)
  {
    var es := Trailer(count).entries;
    assert "Size"[0] != "Root"[0] && "Size"[0] != "Info"[0] && "Root"[0] != "Info"[0];
    GetAt(es, 1, "Root");
    GetAt(es, 2, "Info");
  }

  lemma EnoughFuel(doc: Document)
    ensures |Objects(doc)| >= SizeFrom(doc.outline, 0)
  {
    hide FixedObjs, PageObjs, ContentObjs, ImageObjs, Font, EmitFrom, RootDict, PlanFrom;
    var root := OutlineNumber(doc.pages);
    var top := PlanFrom(doc.outline, 0, root + 1, root);
    if doc.outline != [] {
      assert top[0..] == top;
      OneBodyPerEntry(doc.outline, 0, top, root + 1, root, FIRST_PAGE);
    }
  }

  lemma FixedObjectsHold(fetch: Fetcher, doc: Document)
    requires Holds(fetch, 1, Objects(doc))
    ensures LoadPlain(fetch, 1) == Some(Catalog(OutlineRoot(doc)))
    ensures LoadPlain(fetch, 2) == Some(PageTree(|doc.pages|))
    ensures LoadPlain(fetch, 3) == Some(Info(doc.title, doc.subject))
  {
    hide Holds, Objects, Catalog, PageTree, Info;
    PlannedNumbersHold(fetch, doc);
  }

  /** Following references from the trailer recovers the whole document. */
  lemma GraphReadsBack(fetch: Fetcher, doc: Document)
    requires Holds(fetch, 1, Objects(doc)) && PagesExist(doc.outline, |doc.pages|) && NamesDiffer(doc.pages)
    ensures ReadGraph(fetch, Trailer(|Objects(doc)| + 1), |Objects(doc)|) == Some(doc)
  {
    hide Objects, Catalog, PageTree, Info, ReadKids, ReadPages, ReadOutline, LookupRef, LookupStr, Trailer, PageNumbers;
    hide Holds, LoadPlain, OutlineRoot, SizeFrom, PagesExist, NamesDiffer;
    TrailerReads(|Objects(doc)| + 1);
    FixedObjectsHold(fetch, doc);
    CatalogReads(OutlineRoot(doc));
    PageTreeReads(|doc.pages|);
    PagesReadBack(fetch, doc, 0);
    assert doc.pages[0..] == doc.pages;
    InfoReads(doc.title, doc.subject);
    EnoughFuel(doc);
    OutlineReadsBack(fetch, doc, |Objects(doc)|);
  }

  //// Exactly which documents read back.

  predicate TitlesClean(es: seq<Item>) {
    forall e :: e in es ==> '\r' !in e.title && TitlesClean(e.children)
  }

  predicate CleanPage(page: Page) {
    && IsNumText(page.box.x0) && IsNumText(page.box.y0) && IsNumText(page.box.width) && IsNumText(page.box.height)
    && (forall image :: image in page.images ==> IsNameText(image.name))
    && DistinctNames(page.images)
  }

  /**
   Coordinates are plain numerals, image names need no escapes and differ on
   each page, no title holds a carriage return, and every outline entry names an
   existing page.
   */
  predicate CleanDocument(doc: Document) {
    && '\r' !in doc.title && '\r' !in doc.subject
    && (forall page :: page in doc.pages ==> CleanPage(page))
    && TitlesClean(doc.outline)
    && PagesExist(doc.outline, |doc.pages|)
  }

  //// A clean document's bodies are readable.

  lemma OutlineNames()
    ensures IsNameText("Title") && IsNameText("Parent") && IsNameText("Prev")
    ensures IsNameText("Next") && IsNameText("First") && IsNameText("Last")
  {
    hide IsNameText;
    NeighbourNames();
    ChildNames();
  }

  lemma NeighbourNames()
    ensures IsNameText("Parent") && IsNameText("Prev") && IsNameText("Next")
  {
  }

  lemma ChildNames()
    ensures IsNameText("Title") && IsNameText("First") && IsNameText("Last")
  {
  }

  lemma MoreOutlineNames()
    ensures IsNameText("Count") && IsNameText("Dest") && IsNameText("XYZ")
    ensures IsNameText("Type") && IsNameText("Outlines")
  {
    hide IsNameText;
    DestinationNames();
    TypeNames();
  }

  lemma DestinationNames()
    ensures IsNameText("Count") && IsNameText("Dest") && IsNameText("XYZ")
  {
  }

  lemma TypeNames()
    ensures IsNameText("Type") && IsNameText("Outlines")
  {
  }

  lemma CatalogNames()
    ensures IsNameText("Catalog") && IsNameText("Pages") && IsNameText("Kids")
  {
  }

  lemma InfoNames()
    ensures IsNameText("Author") && IsNameText("Subject")
  {
  }

  lemma PageNames()
    ensures IsNameText("Page") && IsNameText("MediaBox") && IsNameText("Resources")
  {
  }

  lemma MorePageNames()
    ensures IsNameText("Contents") && IsNameText("Font") && IsNameText("F1")
    ensures IsNameText("XObject") && IsNameText("Length")
  {
    hide IsNameText;
    ContentNames();
    ResourceNames();
  }

  lemma ContentNames()
    ensures IsNameText("Contents") && IsNameText("Length")
  {
  }

  lemma ResourceNames()
    ensures IsNameText("Font") && IsNameText("F1") && IsNameText("XObject")
  {
  }

  lemma FontNames()
    ensures IsNameText("Subtype") && IsNameText("Type1")
  {
  }

  lemma BaseFontName()
    ensures IsNameText("BaseFont")
  {
  }

  lemma MoreFontNames()
    ensures IsNameText("Helvetica") && IsNameText("Encoding")
  {
  }

  lemma WinAnsiName()
    ensures IsNameText("WinAnsiEncoding")
  {
    var s := "WinAnsiEncoding";
    assert forall i :: 0 <= i < 8 ==> IsNameChar(s[i]);
    assert forall i :: 8 <= i < 15 ==> IsNameChar(s[i]);
  }

  lemma ImageNames()
    ensures IsNameText("Image") && IsNameText("Width") && IsNameText("Height")
  {
  }

  lemma ColorNames()
    ensures IsNameText("ColorSpace")
  {
  }

  lemma MoreImageNames()
    ensures IsNameText("DeviceGray") && IsNameText("DeviceRGB") && IsNameText("Filter")
  {
  }

  lemma FilterNames()
    ensures IsNameText("FlateDecode")
  {
    var s := "FlateDecode";
    assert forall i :: 0 <= i < 6 ==> IsNameChar(s[i]);
    assert forall i :: 6 <= i < 11 ==> IsNameChar(s[i]);
  }

  lemma LongImageNames()
    ensures IsNameText("BitsPerComponent")
  {
    var s := "BitsPerComponent";
    assert forall i :: 0 <= i < 8 ==> IsNameChar(s[i]);
    assert forall i :: 8 <= i < 16 ==> IsNameChar(s[i]);
  }

  lemma AuthorIsClean()
    ensures '\r' !in "Grace Hopper"
  {
  }

  lemma CleanOne(key: string, v: Value)
    requires IsNameText(key) && Clean(v)
    ensures Clean(Dict([Entry(key, v)]))
  {
  }

  lemma CleanDict(es: seq<Entry>)
    requires forall k :: 0 <= k < |es| ==> IsNameText(es[k].key) && Clean(es[k].value)
    ensures Clean(Dict(es))
  {
    forall e | e in es
      ensures CleanEntry(e)
    {
      var k :| 0 <= k < |es| && es[k] == e;
    }
  }

  lemma CleanConcat(a: seq<Entry>, b: seq<Entry>)
    requires Clean(Dict(a)) && Clean(Dict(b))
    ensures Clean(Dict(a + b))
  {
  }

  lemma OptionalRefClean(key: string, number: Option<nat>)
    requires IsNameText(key)
    ensures Clean(Dict(OptionalRef(key, number)))
  {
  }

  lemma SpanClean(nodes: seq<Node>)
    requires nodes != []
    ensures Clean(Dict(Span(nodes)))
  {
    hide IsNameText, Int, CountFrom;
    OutlineNames();
    MoreOutlineNames();
    IntIsClean(CountFrom(nodes, 0));
    CleanDict(Span(nodes));
  }

  lemma ItemDictClean(node: Node, prev: Option<nat>, next: Option<nat>, firstPage: nat)
    requires firstPage > 0 && '\r' !in node.title
    ensures Clean(ItemDict(node, prev, next, firstPage))
  {
    hide IsNameText, OptionalRef, Span;
    OutlineNames();
    MoreOutlineNames();
    var a := [Entry("Title", Str(node.title)), Entry("Parent", Ref(node.parent))];
    var p, n := OptionalRef("Prev", prev), OptionalRef("Next", next);
    var s := if node.children == [] then [] else Span(node.children);
    var d := [Entry("Dest", Destination(firstPage + node.page - 1))];
    OptionalRefClean("Prev", prev);
    OptionalRefClean("Next", next);
    if node.children != [] {
      SpanClean(node.children);
    }
    CleanConcat(a, p);
    CleanConcat(a + p, n);
    CleanConcat(a + p + n, s);
    assert Clean(Destination(firstPage + node.page - 1));
    CleanConcat(a + p + n + s, d);
  }

  lemma {:induction false} EmittedClean(es: seq<Item>, i: nat, nodes: seq<Node>, number: nat, parent: nat)
    requires i <= |es| == |nodes| && nodes[i..] == PlanFrom(es, i, number, parent) && TitlesClean(es)
    ensures forall o :: o in EmitFrom(nodes, i, FIRST_PAGE) ==> Readable(o)
    decreases es, |es| - i
  {
    hide ItemDict;
    if i < |es| {
      assert nodes[i] == nodes[i..][0] == Plan(es[i], number, parent);
      assert nodes[i + 1..] == nodes[i..][1..];
      ItemDictClean(nodes[i], PrevOf(nodes, i), NextOf(nodes, i), FIRST_PAGE);
      EmittedClean(es[i].children, 0, nodes[i].children, number + 1, number);
      EmittedClean(es, i + 1, nodes, number + Size(es[i]), parent);
    }
  }

  lemma FixedClean(doc: Document)
    requires CleanDocument(doc)
    ensures forall o :: o in FixedObjs(doc) ==> Readable(o)
  {
    CatalogClean(OutlineRoot(doc));
    PageTreeClean(|doc.pages|);
    InfoClean(doc.title, doc.subject);
    hide Catalog, PageTree, Info, Clean;
  }

  lemma CatalogClean(root: Option<nat>)
    ensures Clean(Catalog(root))
  {
    hide IsNameText, OptionalRef;
    OutlineNames();
    MoreOutlineNames();
    CatalogNames();
    OptionalRefClean("Outlines", root);
    CleanConcat([Entry("Type", Name("Catalog")), Entry("Pages", Ref(2))], OptionalRef("Outlines", root));
  }

  lemma PageTreeClean(count: nat)
    ensures Clean(PageTree(count))
  {
    hide IsNameText, Int;
    OutlineNames();
    MoreOutlineNames();
    CatalogNames();
    IntIsClean(count);
    assert Clean(Arr(Refs(FIRST_PAGE, count)));
  }

  lemma InfoClean(title: string, subject: string)
    requires '\r' !in title && '\r' !in subject
    ensures Clean(Info(title, subject))
  {
    hide IsNameText;
    OutlineNames();
    InfoNames();
    AuthorIsClean();
    assert Clean(Str(title)) && Clean(Str(subject)) && Clean(Str("Grace Hopper"));
    CleanDict(Info(title, subject).entries);
  }

  lemma ResourcesClean(font: nat, images: seq<Entry>)
    requires Clean(Dict(images))
    ensures Clean(Resources(font, images))
  {
    hide IsNameText;
    PageNames();
    MorePageNames();
    var f := [Entry("Font", Dict([Entry("F1", Ref(font))]))];
    CleanOne("F1", Ref(font));
    CleanOne("Font", Dict([Entry("F1", Ref(font))]));
    if images != [] {
      CleanOne("XObject", Dict(images));
      CleanConcat(f, [Entry("XObject", Dict(images))]);
    } else {
      CleanConcat(f, []);
    }
  }

  lemma PageClean(page: Page, font: nat, first: nat, content: nat)
    requires CleanPage(page)
    ensures Clean(PageDict(page.box, font, ImageRefs(page.images, first), content))
  {
    hide IsNameText, IsNumText, Resources;
    PageNames();
    MorePageNames();
    OutlineNames();
    MoreOutlineNames();
    var images := ImageRefs(page.images, first);
    CleanDict(images);
    ResourcesClean(font, images);
    var b := [Num(page.box.x0), Num(page.box.y0), Num(page.box.width), Num(page.box.height)];
    assert Clean(b[0]) && Clean(b[1]) && Clean(b[2]) && Clean(b[3]);
    assert Clean(Arr(b));
    CleanDict(PageDict(page.box, font, images, content).entries);
  }

  lemma ContentReadable(stream: string)
    ensures Readable(ContentObj(stream))
  {
    hide IsNameText, Int;
    PageNames();
    MorePageNames();
    IntIsClean(|stream|);
    CleanOne("Length", Int(|stream|));
    GetAt([Entry("Length", Int(|stream|))], 0, "Length");
  }

  lemma FontClean()
    ensures Clean(Font())
  {
    hide IsNameText;
    OutlineNames();
    MoreOutlineNames();
    PageNames();
    MorePageNames();
    FontNames();
    BaseFontName();
    MoreFontNames();
    WinAnsiName();
  }

  lemma ImageReadable(image: Image)
    ensures Readable(ImageObj(image))
  {
    ImageDictClean(image);
    ImageLength(image);
    hide Clean, LookupNat;
  }

  lemma ImageDictClean(image: Image)
    ensures Clean(ImageObj(image).dict)
  {
    hide IsNameText, Int;
    OutlineNames();
    MoreOutlineNames();
    PageNames();
    MorePageNames();
    FontNames();
    BaseFontName();
    MoreFontNames();
    WinAnsiName();
    ImageNames();
    ColorNames();
    MoreImageNames();
    LongImageNames();
    FilterNames();
    IntIsClean(image.width);
    IntIsClean(image.height);
    IntIsClean(8);
    IntIsClean(|image.stream|);
  }

  lemma ImageLength(image: Image)
    ensures LookupNat(ImageObj(image).dict, "Length") == Some(|image.stream|)
  {
    hide Int, LookupNat, Get;
    var es := ImageObj(image).dict.entries;
    assert "Length"[0] != "Height"[0] && "Length"[0] != "Filter"[0];
    GetAt(es, 7, "Length");
    LookupNatOf(ImageObj(image).dict, "Length", |image.stream|);
  }

  lemma {:induction false} ImagesReadable(pages: seq<Page>, i: nat)
    requires i <= |pages|
    ensures forall o :: o in ImageObjs(pages, i) ==> Readable(o)
  {
    hide ImageObj, Readable;
    if i > 0 {
      ImagesReadable(pages, i - 1);
      var images := pages[i - 1].images;
      forall k | 0 <= k < |images|
        ensures Readable(ImageObjsOf(images)[k])
      {
        ImageReadable(images[k]);
      }
    }
  }

  /** Every body of a clean document reads back as itself. */
  lemma ObjectsReadable(doc: Document)
    requires CleanDocument(doc)
    ensures forall o :: o in Objects(doc) ==> Readable(o)
  {
    FixedClean(doc);
    PagesReadable(doc.pages);
    ContentsReadable(doc.pages);
    FontClean();
    ImagesReadable(doc.pages, |doc.pages|);
    OutlineReadable(doc.outline, OutlineNumber(doc.pages));
    hide FixedObjs, PageObjs, ContentObjs, Font, ImageObjs, OutlineObjs, Clean;
  }

  lemma PagesReadable(pages: seq<Page>)
    requires forall page :: page in pages ==> CleanPage(page)
    ensures forall o :: o in PageObjs(pages) ==> Readable(o)
  {
    hide PageDict, Clean, CleanPage;
    forall i | 0 <= i < |pages|
      ensures Readable(PageObjs(pages)[i])
    {
      PageClean(pages[i], FontNumber(|pages|), FontNumber(|pages|) + 1 + ImagesBefore(pages, i),
                FIRST_PAGE + |pages| + i);
    }
  }

  lemma ContentsReadable(pages: seq<Page>)
    ensures forall o :: o in ContentObjs(pages) ==> Readable(o)
  {
    hide ContentObj, Readable;
    forall i | 0 <= i < |pages|
      ensures Readable(ContentObjs(pages)[i])
    {
      ContentReadable(pages[i].content);
    }
  }

  lemma OutlineReadable(outline: seq<Item>, root: nat)
    requires TitlesClean(outline)
    ensures forall o :: o in OutlineObjs(outline, root) ==> Readable(o)
  {
    hide RootDict, Clean;
    if outline != [] {
      var top := PlanFrom(outline, 0, root + 1, root);
      assert top[0..] == top;
      EmittedClean(outline, 0, top, root + 1, root);
      RootClean(top);
    }
  }

  lemma RootClean(top: seq<Node>)
    requires top != []
    ensures Clean(RootDict(top))
  {
    hide IsNameText, Span;
    OutlineNames();
    MoreOutlineNames();
    SpanClean(top);
    CleanConcat([Entry("Type", Name("Outlines"))], Span(top));
  }

  //// The reader only ever produces clean documents.

  ghost predicate FetchesClean(fetch: Fetcher) {
    forall n: nat :: fetch(n).Some? ==>
      if fetch(n).value.Plain? then Clean(fetch(n).value.value) else Clean(fetch(n).value.dict)
  }

  lemma GetClean(es: seq<Entry>, key: string)
    requires Clean(Dict(es)) && Get(es, key).Some?
    ensures Clean(Get(es, key).value)
  {
    assert CleanEntry(es[0]);
    if es[0].key != key {
      assert forall e :: e in es[1..] ==> e in es;
      GetClean(es[1..], key);
    }
  }

  lemma LookupClean(v: Value, key: string)
    requires Clean(v) && Lookup(v, key).Some?
    ensures Clean(Lookup(v, key).value)
  {
    GetClean(v.entries, key);
  }

  lemma TitleClean(v: Value, key: string)
    requires Clean(v) && LookupStr(v, key).Some?
    ensures '\r' !in LookupStr(v, key).value
  {
    LookupClean(v, key);
  }

  /** Whatever chain is read, its titles are clean and its pages exist. */
  lemma {:induction false} ChainClean(fetch: Fetcher, n: nat, parent: nat, prev: Option<nat>, pages: seq<nat>,
                                      fuel: nat)
    requires FetchesClean(fetch) && ReadChain(fetch, n, parent, prev, pages, fuel).Some?
    ensures var items := ReadChain(fetch, n, parent, prev, pages, fuel).value.items;
            TitlesClean(items) && PagesExist(items, |pages|)
    decreases fuel, 0
  {
    hide LookupStr, LookupRef, ReadDestination, Clean, ReadSpan;
    var v := LoadPlain(fetch, n).value;
    assert Clean(v) by {
      assert fetch(n).Some?;
    }
    TitleClean(v, "Title");
    SpanIsClean(fetch, v, n, pages, fuel - 1);
    match LookupRef(v, "Next")
    case None =>
    case Some(m) => ChainClean(fetch, m, parent, Some(n), pages, fuel - 1);
  }

  lemma {:induction false} SpanIsClean(fetch: Fetcher, v: Value, n: nat, pages: seq<nat>, fuel: nat)
    requires FetchesClean(fetch) && ReadSpan(fetch, v, n, pages, fuel).Some?
    ensures var items := ReadSpan(fetch, v, n, pages, fuel).value.items;
            TitlesClean(items) && PagesExist(items, |pages|)
    decreases fuel, 1
  {
    hide FetchesClean, LookupNat, ReadChain;
    match LookupRef(v, "First")
    case None =>
    case Some(first) => ChainClean(fetch, first, n, None, pages, fuel);
  }

  lemma {:induction false} ImagesClean(fetch: Fetcher, es: seq<Entry>)
    requires Clean(Dict(es)) && ReadImages(fetch, es).Some?
    ensures var images := ReadImages(fetch, es).value;
            && |images| == |es| && (forall image :: image in images ==> IsNameText(image.name))
            && forall k :: 0 <= k < |es| ==> images[k].name == es[k].key
  {
    hide IsNameText, ReadImage;
    if es != [] {
      assert CleanEntry(es[0]);
      assert forall e :: e in es[1..] ==> e in es;
      ImageKeepsName(fetch, es[0]);
      ImagesClean(fetch, es[1..]);
    }
  }

  lemma ImageKeepsName(fetch: Fetcher, e: Entry)
    requires ReadImage(fetch, e).Some?
    ensures ReadImage(fetch, e).value.name == e.key
  {
  }

  lemma BoxClean(v: Value)
    requires Clean(v) && ReadBox(v).Some?
    ensures var b := ReadBox(v).value;
            IsNumText(b.x0) && IsNumText(b.y0) && IsNumText(b.width) && IsNumText(b.height)
  {
    hide IsNumText, Lookup;
    LookupClean(v, "MediaBox");
    var b := Lookup(v, "MediaBox").value;
    assert Clean(b.items[0]) && Clean(b.items[1]) && Clean(b.items[2]) && Clean(b.items[3]);
  }

  lemma PageIsClean(fetch: Fetcher, n: nat, tree: nat)
    requires FetchesClean(fetch) && ReadPage(fetch, n, tree).Some?
    ensures CleanPage(ReadPage(fetch, n, tree).value)
  {
    hide IsNumText, IsNameText, Lookup, LookupRef, ReadBox, ReadImages, ReadFont, LoadStream;
    var v := LoadPlain(fetch, n).value;
    assert Clean(v) by {
      assert fetch(n).Some?;
    }
    BoxClean(v);
    LookupClean(v, "Resources");
    var resources := Lookup(v, "Resources").value;
    match Lookup(resources, "XObject")
    case None =>
    case Some(d) =>
      LookupClean(resources, "XObject");
      ImagesClean(fetch, d.entries);
  }

  lemma {:induction false} PagesAreClean(fetch: Fetcher, kids: seq<nat>, tree: nat)
    requires FetchesClean(fetch) && ReadPages(fetch, kids, tree).Some?
    ensures forall page :: page in ReadPages(fetch, kids, tree).value ==> CleanPage(page)
  {
    hide CleanPage, ReadPage, FetchesClean;
    if kids != [] {
      PageIsClean(fetch, kids[0], tree);
      PagesAreClean(fetch, kids[1..], tree);
    }
  }

  lemma OutlineClean(fetch: Fetcher, catalog: Value, kids: seq<nat>, size: nat)
    requires FetchesClean(fetch) && ReadOutline(fetch, catalog, kids, size).Some?
    ensures var items := ReadOutline(fetch, catalog, kids, size).value;
            TitlesClean(items) && PagesExist(items, |kids|)
  {
    hide FetchesClean, ReadSpan;
    match LookupRef(catalog, "Outlines")
    case None =>
    case Some(root) => SpanIsClean(fetch, LoadPlain(fetch, root).value, root, kids, size);
  }

  lemma GraphClean(fetch: Fetcher, trailer: Value, size: nat)
    requires FetchesClean(fetch) && ReadGraph(fetch, trailer, size).Some?
    ensures CleanDocument(ReadGraph(fetch, trailer, size).value)
  {
    hide LookupRef, LookupStr, ReadKids, ReadPages, ReadOutline, Clean, CleanPage, TitlesClean, PagesExist;
    var catalog := LoadPlain(fetch, LookupRef(trailer, "Root").value).value;
    var treeNumber := LookupRef(catalog, "Pages").value;
    var kids := ReadKids(LoadPlain(fetch, treeNumber).value).value;
    var infoNumber := LookupRef(trailer, "Info").value;
    var info := LoadPlain(fetch, infoNumber).value;
    assert Clean(info) by {
      assert fetch(infoNumber).Some?;
    }
    TitleClean(info, "Title");
    TitleClean(info, "Subject");
    PagesAreClean(fetch, kids, treeNumber);
    OutlineClean(fetch, catalog, kids, size);
  }

  lemma FileFetchesClean(file: string, table: Table)
    ensures FetchesClean(Fetching(file, table))
  {
    hide ReadObj, Clean;
  }

  //// The main theorem.

  lemma FileHolds(objs: seq<Obj>)
    requires forall o :: o in objs ==> Readable(o)
    ensures Holds(Fetching(FileText(objs), Table(OffsetSeq(objs), Trailer(|objs| + 1))), 1, objs)
  {
    hide Readable, FileText, Fetch, OffsetSeq;
    var table := Table(OffsetSeq(objs), Trailer(|objs| + 1));
    var fetch := Fetching(FileText(objs), table);
    forall m | 1 <= m < 1 + |objs|
      ensures fetch(m) == Some(objs[m - 1])
    {
      assert objs[m - 1] in objs;
      EveryObjectIsFound(objs, m);
    }
  }

  /**
   The document that went into the writer comes back out of the bytes if and
   only if it is clean and every object starts below byte 10^10, where the
   ten-digit offsets of the table end.
   */
  lemma DocumentRoundTrip(doc: Document)
    ensures ReadDocument(FileText(Objects(doc))) == Some(doc) <==>
            CleanDocument(doc) && OffsetsFit(Objects(doc))
  {
    hide Objects, FileText, ReadTable, ReadGraph, OffsetsFit, Trailer, OffsetSeq, FetchesClean, TitlesClean;
    var objs := Objects(doc);
    var file := FileText(objs);
    TableReadsBack(objs);
    StartsWithHeader(objs);
    if CleanDocument(doc) && OffsetsFit(objs) {
      ObjectsReadable(doc);
      FileHolds(objs);
      OffsetCount(objs);
      GraphReadsBack(Fetching(file, Table(OffsetSeq(objs), Trailer(|objs| + 1))), doc);
    }
    if ReadDocument(file) == Some(doc) {
      var table := ReadTable(file).value;
      FileFetchesClean(file, table);
      GraphClean(Fetching(file, table), table.trailer, |table.offsets|);
    }
  }

  lemma OffsetCount(objs: seq<Obj>)
    ensures |OffsetSeq(objs)| == |objs|
  {
  }
}

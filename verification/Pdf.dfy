/**
 The fixture PDF writer as a whole: a document goes in, object numbers are
 planned, bodies are emitted, and a reader that knows only the file format
 gets the document back out of the bytes.
 */
module Pdf {
  import opened Text
  import opened PdfSyntax
  import opened PdfFile
  import opened PdfOutline

  /** A raster image; `stream` is its compressed pixel data. */
  datatype Image = Image(name: string, width: nat, height: nat, gray: bool, stream: string)

  /** Corner coordinates and size, as numerals. */
  datatype Box = Box(x0: string, y0: string, width: string, height: string)

  datatype Page = Page(box: Box, content: string, images: seq<Image>)

  datatype Document = Document(pages: seq<Page>, title: string, subject: string, outline: seq<Item>)

  const FIRST_PAGE: nat := 4

  //// Object bodies.

  function Catalog(outlineRoot: Option<nat>): Value {
    Dict([Entry("Type", Name("Catalog")), Entry("Pages", Ref(2))] + OptionalRef("Outlines", outlineRoot))
  }

  function Refs(first: nat, count: nat): (r: seq<Value>)
    ensures |r| == count
  {
    seq(count, k requires 0 <= k < count => Ref(first + k))
  }

  function PageTree(pageCount: nat): Value {
    Dict([Entry("Type", Name("Pages")), Entry("Kids", Arr(Refs(FIRST_PAGE, pageCount))),
          Entry("Count", Int(pageCount))])
  }

  function Info(title: string, subject: string): Value {
    Dict([Entry("Title", Str(title)), Entry("Author", Str("Grace Hopper")), Entry("Subject", Str(subject))])
  }

  function ImageRefs(images: seq<Image>, first: nat): (r: seq<Entry>)
    ensures |r| == |images|
  {
    seq(|images|, k requires 0 <= k < |images| => Entry(images[k].name, Ref(first + k)))
  }

  function Resources(font: nat, images: seq<Entry>): Value {
    Dict([Entry("Font", Dict([Entry("F1", Ref(font))]))]
         + if images == [] then [] else [Entry("XObject", Dict(images))])
  }

  function PageDict(box: Box, font: nat, images: seq<Entry>, content: nat): Value {
    Dict([ Entry("Type", Name("Page")), Entry("Parent", Ref(2)),
           Entry("MediaBox", Arr([Num(box.x0), Num(box.y0), Num(box.width), Num(box.height)])),
           Entry("Resources", Resources(font, images)),
           Entry("Contents", Ref(content)) ])
  }

  function ContentObj(stream: string): Obj {
    Stream(Dict([Entry("Length", Int(|stream|))]), stream)
  }

  function Font(): Value {
    Dict([ Entry("Type", Name("Font")), Entry("Subtype", Name("Type1")), Entry("BaseFont", Name("Helvetica")),
           Entry("Encoding", Name("WinAnsiEncoding")) ])
  }

  function ImageObj(image: Image): Obj {
    Stream(
      Dict([ Entry("Type", Name("XObject")), Entry("Subtype", Name("Image")), Entry("Width", Int(image.width)),
             Entry("Height", Int(image.height)),
             Entry("ColorSpace", Name(if image.gray then "DeviceGray" else "DeviceRGB")),
             Entry("BitsPerComponent", Int(8)), Entry("Filter", Name("FlateDecode")),
             Entry("Length", Int(|image.stream|)) ]),
      image.stream)
  }

  //// The numbering plan: pages, content streams, font, images, outline.

  function FontNumber(pageCount: nat): nat {
    FIRST_PAGE + 2 * pageCount
  }

  /** The number of images on the first i pages. */
  function ImagesBefore(pages: seq<Page>, i: nat): nat
    requires i <= |pages|
  {
    if i == 0 then 0 else ImagesBefore(pages, i - 1) + |pages[i - 1].images|
  }

  function OutlineNumber(pages: seq<Page>): nat {
    FontNumber(|pages|) + 1 + ImagesBefore(pages, |pages|)
  }

  function OutlineRoot(doc: Document): Option<nat> {
    if doc.outline == [] then None else Some(OutlineNumber(doc.pages))
  }

  //// The objects in emission order.

  function PageObjs(pages: seq<Page>): (objs: seq<Obj>)
    ensures |objs| == |pages|
  {
    seq(|pages|, i requires 0 <= i < |pages| =>
      Plain(PageDict(pages[i].box, FontNumber(|pages|),
                     ImageRefs(pages[i].images, FontNumber(|pages|) + 1 + ImagesBefore(pages, i)),
                     FIRST_PAGE + |pages| + i)))
  }

  function ContentObjs(pages: seq<Page>): (objs: seq<Obj>)
    ensures |objs| == |pages|
  {
    seq(|pages|, i requires 0 <= i < |pages| => ContentObj(pages[i].content))
  }

  function ImageObjsOf(images: seq<Image>): (objs: seq<Obj>)
    ensures |objs| == |images|
  {
    seq(|images|, k requires 0 <= k < |images| => ImageObj(images[k]))
  }

  /** The images of the first i pages, page by page. */
  function ImageObjs(pages: seq<Page>, i: nat): (objs: seq<Obj>)
    requires i <= |pages|
    ensures |objs| == ImagesBefore(pages, i)
  {
    if i == 0 then [] else ImageObjs(pages, i - 1) + ImageObjsOf(pages[i - 1].images)
  }

  function OutlineObjs(outline: seq<Item>, root: nat): seq<Obj> {
    if outline == [] then
      []
    else
      var top := PlanFrom(outline, 0, root + 1, root);
      [Plain(RootDict(top))] + EmitFrom(top, 0, FIRST_PAGE)
  }

  function FixedObjs(doc: Document): seq<Obj> {
    [Plain(Catalog(OutlineRoot(doc))), Plain(PageTree(|doc.pages|)), Plain(Info(doc.title, doc.subject))]
  }

  function Objects(doc: Document): seq<Obj> {
    FixedObjs(doc) + PageObjs(doc.pages) + ContentObjs(doc.pages) + [Plain(Font())]
    + ImageObjs(doc.pages, |doc.pages|) + OutlineObjs(doc.outline, OutlineNumber(doc.pages))
  }

  //// The program.

  function RefsOf(refs: map<nat, seq<Entry>>, i: nat): seq<Entry> {
    if i in refs then refs[i] else []
  }

  /** The image entries of page i when the first image of all gets number `first`. */
  function PlannedRefs(pages: seq<Page>, i: nat, first: nat): seq<Entry>
    requires i < |pages|
  {
    ImageRefs(pages[i].images, first + ImagesBefore(pages, i))
  }

  /** Gives every image a number, page by page; only pages with images get an entry in `refs`. */
  method CollectImageObjects(pages: seq<Page>, first: nat)
    returns (objs: seq<Obj>, refs: map<nat, seq<Entry>>, next: nat)
    ensures objs == ImageObjs(pages, |pages|)
    ensures next == first + ImagesBefore(pages, |pages|)
    ensures forall i :: 0 <= i < |pages| ==> RefsOf(refs, i) == PlannedRefs(pages, i, first)
  {
    hide ImageObjsOf, ImageRefs;
    objs, refs, next := [], map[], first;
    for i := 0 to |pages|
      invariant objs == ImageObjs(pages, i)
      invariant next == first + ImagesBefore(pages, i)
      invariant forall j :: j in refs ==> j < i
      invariant forall j :: 0 <= j < i ==> RefsOf(refs, j) == PlannedRefs(pages, j, first)
    {
      var pageObjs, pageRefs;
      pageObjs, pageRefs, next := CollectPageImages(pages[i].images, next);
      objs := objs + pageObjs;
      if pageRefs != [] {
        refs := refs[i := pageRefs];
      }
    }
  }

  lemma PrefixStep<T>(s: seq<T>, k: nat)
    requires k < |s|
    ensures s[..k + 1] == s[..k] + [s[k]]
  {
  }

  method CollectPageImages(images: seq<Image>, first: nat) returns (objs: seq<Obj>, refs: seq<Entry>, next: nat)
    ensures objs == ImageObjsOf(images) && refs == ImageRefs(images, first) && next == first + |images|
  {
    hide ImageObj;
    objs, refs, next := [], [], first;
    for k := 0 to |images|
      invariant next == first + k
      invariant objs == ImageObjsOf(images)[..k]
      invariant refs == ImageRefs(images, first)[..k]
    {
      PrefixStep(ImageObjsOf(images), k);
      PrefixStep(ImageRefs(images, first), k);
      objs := objs + [ImageObj(images[k])];
      refs := refs + [Entry(images[k].name, Ref(next))];
      next := next + 1;
    }
  }

  /** The loop over the page dictionaries. */
  method EmitPages(pages: seq<Page>, imageRefs: map<nat, seq<Entry>>) returns (objs: seq<Obj>)
    requires forall i :: 0 <= i < |pages| ==> RefsOf(imageRefs, i) == PlannedRefs(pages, i, FontNumber(|pages|) + 1)
    ensures objs == PageObjs(pages)
  {
    hide PageDict, ImagesBefore;
    objs := [];
    var firstStream := FIRST_PAGE + |pages|;
    var font := firstStream + |pages|;
    for index := 0 to |pages|
      invariant objs == PageObjs(pages)[..index]
    {
      PrefixStep(PageObjs(pages), index);
      var refs := RefsOf(imageRefs, index);
      objs := objs + [Plain(PageDict(pages[index].box, font, refs, firstStream + index))];
    }
  }

  method EmitContents(pages: seq<Page>) returns (objs: seq<Obj>)
    ensures objs == ContentObjs(pages)
  {
    hide ContentObj;
    objs := [];
    for index := 0 to |pages|
      invariant objs == ContentObjs(pages)[..index]
    {
      PrefixStep(ContentObjs(pages), index);
      objs := objs + [ContentObj(pages[index].content)];
    }
  }

  method BuildObjects(doc: Document) returns (objects: seq<Obj>)
    ensures objects == Objects(doc)
  {
    hide PageDict, ContentObj, ImageObjs, EmitFrom, RootDict, PageObjs, ContentObjs, Font, Catalog, PageTree, Info;
    hide OutlineObjs, PlannedRefs, RefsOf, PlanFrom, ImagesBefore, SizeFrom;
    var pageCount := |doc.pages|;
    var imageObjs, imageRefs, afterImages := CollectImageObjects(doc.pages, FIRST_PAGE + 2 * pageCount + 1);
    var root, top, _ := AllocateOutlineTree(doc.outline, afterImages);
    objects := [Plain(Catalog(root)), Plain(PageTree(pageCount)), Plain(Info(doc.title, doc.subject))];
    var pageObjs := EmitPages(doc.pages, imageRefs);
    var contentObjs := EmitContents(doc.pages);
    objects := objects + pageObjs + contentObjs + [Plain(Font())] + imageObjs;
    OutlineObjsAre(doc.outline, afterImages);
    if root.Some? {
      Assoc(objects, [Plain(RootDict(top))], EmitFrom(top, 0, FIRST_PAGE));
      objects := objects + [Plain(RootDict(top))];
      objects := Emit(objects, top, FIRST_PAGE);
    } else {
      NothingAdded(objects);
    }
  }

  lemma OutlineObjsAre(outline: seq<Item>, root: nat)
    ensures var top := PlanFrom(outline, 0, root + 1, root);
            if outline == [] then OutlineObjs(outline, root) == []
            else OutlineObjs(outline, root) == [Plain(RootDict(top))] + EmitFrom(top, 0, FIRST_PAGE)
  {
  }

  /** The whole writer; None where Python's ASCII encoder raises. */
  method BuildPdf(doc: Document) returns (file: Option<string>)
    ensures file.Some? <==> forall o :: o in Objects(doc) ==> Encodable(o)
    ensures file.Some? ==> file.value == FileText(Objects(doc))
  {
    var objects := BuildObjects(doc);
    file := WriteFile(objects);
  }
}

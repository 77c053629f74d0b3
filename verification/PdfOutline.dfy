/**
 The outline tree of the fixture PDF writer (ISO 32000-1, section 12.3.3):
 object numbers are planned in one pass, item dictionaries are emitted in
 another, and a reader that follows the links recovers the outline.
 */
module PdfOutline {
  import opened Text
  import opened PdfSyntax
  import opened PdfFile

  /** One outline entry of the input; `page` counts from 1. */
  datatype Item = Item(title: string, page: nat, children: seq<Item>)

  /** A planned entry: its own object number and its parent's. */
  datatype Node = Node(title: string, page: nat, number: nat, parent: nat, children: seq<Node>)

  //// Planning: numbers are given out depth first.

  function Size(e: Item): (n: nat)
    ensures n > 0
  {
    1 + SizeFrom(e.children, 0)
  }

  /** The number of entries in the subtrees from position i on. */
  function SizeFrom(es: seq<Item>, i: nat): nat
    requires i <= |es|
    decreases es, |es| - i
  {
    if i == |es| then 0 else Size(es[i]) + SizeFrom(es, i + 1)
  }

  function Plan(e: Item, number: nat, parent: nat): Node {
    Node(e.title, e.page, number, parent, PlanFrom(e.children, 0, number + 1, number))
  }

  function PlanFrom(es: seq<Item>, i: nat, number: nat, parent: nat): (nodes: seq<Node>)
    requires i <= |es|
    ensures |nodes| == |es| - i
    decreases es, |es| - i
  {
    if i == |es| then []
    else [Plan(es[i], number, parent)] + PlanFrom(es, i + 1, number + Size(es[i]), parent)
  }

  /** `allocate` with its running counter. */
  method Allocate(e: Item, parent: nat, next: nat) returns (node: Node, next': nat)
    ensures node == Plan(e, next, parent)
    ensures next' == next + Size(e)
    decreases e, 1
  {
    var number := next;
    var children;
    children, next' := AllocateEach(e.children, number, next + 1);
    node := Node(e.title, e.page, number, parent, children);
  }

  method AllocateEach(es: seq<Item>, parent: nat, next: nat) returns (nodes: seq<Node>, next': nat)
    ensures nodes == PlanFrom(es, 0, next, parent)
    ensures next' == next + SizeFrom(es, 0)
    decreases es, 0
  {
    nodes, next' := [], next;
    for i := 0 to |es|
      invariant nodes + PlanFrom(es, i, next', parent) == PlanFrom(es, 0, next, parent)
      invariant next' + SizeFrom(es, i) == next + SizeFrom(es, 0)
    {
      var node;
      node, next' := Allocate(es[i], parent, next');
      nodes := nodes + [node];
    }
  }

  /** The root number (None without an outline), the planned top level, and the next free number. */
  method AllocateOutlineTree(outline: seq<Item>, first: nat)
    returns (root: Option<nat>, top: seq<Node>, next: nat)
    ensures root == if outline == [] then None else Some(first)
    ensures top == PlanFrom(outline, 0, first + 1, first)
    ensures next == if outline == [] then first else first + 1 + SizeFrom(outline, 0)
  {
    if outline == [] {
      return None, [], first;
    }
    top, next := AllocateEach(outline, first, first + 1);
    root := Some(first);
  }

  //// Emission.

  function SubtreeCount(node: Node): nat {
    1 + CountFrom(node.children, 0)
  }

  function CountFrom(nodes: seq<Node>, i: nat): nat
    requires i <= |nodes|
    decreases nodes, |nodes| - i
  {
    if i == |nodes| then 0 else SubtreeCount(nodes[i]) + CountFrom(nodes, i + 1)
  }

  function OptionalRef(key: string, number: Option<nat>): seq<Entry> {
    match number
    case None => []
    case Some(n) => [Entry(key, Ref(n))]
  }

  function Destination(page: nat): Value {
    Arr([Ref(page), Name("XYZ"), Null, Null, Null])
  }

  /** /First, /Last and /Count over a non-empty list of nodes. */
  function Span(nodes: seq<Node>): seq<Entry>
    requires nodes != []
  {
    [ Entry("First", Ref(nodes[0].number)),
      Entry("Last", Ref(nodes[|nodes| - 1].number)),
      Entry("Count", Int(CountFrom(nodes, 0))) ]
  }

  /** `outline_item_dict`; pages are numbered from object `firstPage` on. */
  function ItemDict(node: Node, prev: Option<nat>, next: Option<nat>, firstPage: nat): Value
    requires firstPage > 0
  {
    Dict(
      [Entry("Title", Str(node.title)), Entry("Parent", Ref(node.parent))]
      + OptionalRef("Prev", prev)
      + OptionalRef("Next", next)
      + (if node.children == [] then [] else Span(node.children))
      + [Entry("Dest", Destination(firstPage + node.page - 1))])
  }

  function PrevOf(nodes: seq<Node>, i: nat): Option<nat>
    requires i < |nodes|
  {
    if i > 0 then Some(nodes[i - 1].number) else None
  }

  function NextOf(nodes: seq<Node>, i: nat): Option<nat>
    requires i < |nodes|
  {
    if i + 1 < |nodes| then Some(nodes[i + 1].number) else None
  }

  /** The bodies of nodes i, i + 1, ... with their subtrees, in emission order. */
  function EmitFrom(nodes: seq<Node>, i: nat, firstPage: nat): (objs: seq<Obj>)
    requires i <= |nodes| && firstPage > 0
    decreases nodes, |nodes| - i
  {
    if i == |nodes| then
      []
    else
      [Plain(ItemDict(nodes[i], PrevOf(nodes, i), NextOf(nodes, i), firstPage))]
      + EmitFrom(nodes[i].children, 0, firstPage)
      + EmitFrom(nodes, i + 1, firstPage)
  }

  method Emit(objects: seq<Obj>, nodes: seq<Node>, firstPage: nat) returns (objects': seq<Obj>)
    requires firstPage > 0
    ensures objects' == objects + EmitFrom(nodes, 0, firstPage)
    decreases nodes
  {
    hide ItemDict;
    objects' := objects;
    for index := 0 to |nodes|
      invariant objects' + EmitFrom(nodes, index, firstPage) == objects + EmitFrom(nodes, 0, firstPage)
    {
      var node := nodes[index];
      ghost var before := objects';
      var prev := if index > 0 then Some(nodes[index - 1].number) else None;
      var next := if index < |nodes| - 1 then Some(nodes[index + 1].number) else None;
      var body := [Plain(ItemDict(node, prev, next, firstPage))];
      objects' := objects' + body;
      objects' := Emit(objects', node.children, firstPage);
      Assoc4(before, body, EmitFrom(node.children, 0, firstPage), EmitFrom(nodes, index + 1, firstPage));
    }
  }

  function RootDict(top: seq<Node>): Value
    requires top != []
  {
    Dict([Entry("Type", Name("Outlines"))] + Span(top))
  }

  //// The reader.

  /** What one chain of siblings holds: its entries, its last number, and how many items it has in all. */
  datatype Siblings = Siblings(items: seq<Item>, last: nat, count: nat)

  type Fetcher = nat -> Option<Obj>

  function LoadPlain(fetch: Fetcher, n: nat): Option<Value> {
    var o :- fetch(n);
    if o.Plain? then Some(o.value) else None
  }

  function LookupStr(v: Value, key: string): Option<string> {
    var s :- Lookup(v, key);
    if s.Str? then Some(s.text) else None
  }

  function IndexOf(numbers: seq<nat>, n: nat): (r: Option<nat>)
    ensures r.Some? ==> r.value < |numbers| && numbers[r.value] == n
    ensures r.None? ==> n !in numbers
  {
    if numbers == [] then None
    else if numbers[0] == n then Some(0)
    else
      var k :- IndexOf(numbers[1..], n);
      Some(k + 1)
  }

  /** The page number, counting from 1, an explicit destination points to. */
  function ReadDestination(v: Value, pages: seq<nat>): (r: Option<nat>)
    ensures r.Some? ==> 1 <= r.value <= |pages|
  {
    var d :- Lookup(v, "Dest");
    if d.Arr? && |d.items| == 5 && d.items[0].Ref? && d.items[1..] == [Name("XYZ"), Null, Null, Null] then
      var k :- IndexOf(pages, d.items[0].number);
      Some(k + 1)
    else
      None
  }

  /**
   The children of a dictionary, whose /Last and /Count must agree with the
   chain that starts at /First. `fuel` bounds the number of items on any path.
   */
  function ReadSpan(fetch: Fetcher, v: Value, number: nat, pages: seq<nat>, fuel: nat): Option<Siblings>
    decreases fuel, 1
  {
    match LookupRef(v, "First")
    case None =>
      if LookupRef(v, "Last").None? && LookupNat(v, "Count").None? then Some(Siblings([], 0, 0)) else None
    case Some(first) =>
      var s :- ReadChain(fetch, first, number, None, pages, fuel);
      if LookupRef(v, "Last") == Some(s.last) && LookupNat(v, "Count") == Some(s.count) then Some(s) else None
  }

  /** Item n and its later siblings; /Parent and /Prev must lead back the way the reader came. */
  function ReadChain(fetch: Fetcher, n: nat, parent: nat, prev: Option<nat>, pages: seq<nat>,
                     fuel: nat): Option<Siblings>
    decreases fuel, 0
  {
    if fuel == 0 then
      None
    else
      var v :- LoadPlain(fetch, n);
      var title :- LookupStr(v, "Title");
      var page :- ReadDestination(v, pages);
      if LookupRef(v, "Parent") != Some(parent) || LookupRef(v, "Prev") != prev then
        None
      else
        var kids :- ReadSpan(fetch, v, n, pages, fuel - 1);
        var item := Item(title, page, kids.items);
        match LookupRef(v, "Next")
        case None => Some(Siblings([item], n, 1 + kids.count))
        case Some(m) =>
          var rest :- ReadChain(fetch, m, parent, Some(n), pages, fuel - 1);
          Some(Siblings([item] + rest.items, rest.last, 1 + kids.count + rest.count))
  }

  //// What each dictionary says.

  lemma GetAppend(a: seq<Entry>, b: seq<Entry>, key: string)
    ensures Get(a + b, key) == if Get(a, key).Some? then Get(a, key) else Get(b, key)
  {
    if a == [] {
      assert a + b == b;
    } else {
      assert (a + b)[1..] == a[1..] + b;
      GetAppend(a[1..], b, key);
    }
  }

  lemma KeysDiffer()
    ensures "Title" != "Parent" && "Title" != "First" && "Title" != "Count" && "First" != "Count"
    ensures "Prev" != "Next" && "Prev" != "Last" && "Prev" != "Dest"
    ensures "Next" != "Last" && "Next" != "Dest" && "Last" != "Dest" && "Last" != "Type"
  {
    assert "Title"[0] != "First"[0] && "Title"[0] != "Count"[0] && "First"[0] != "Count"[0];
    assert "Prev"[0] != "Next"[0] && "Prev"[0] != "Last"[0] && "Prev"[0] != "Dest"[0];
    assert "Next"[0] != "Last"[0] && "Next"[0] != "Dest"[0] && "Last"[0] != "Dest"[0] && "Last"[0] != "Type"[0];
  }

  lemma GetTwo(a: Entry, b: Entry, key: string)
    ensures Get([a, b], key) == if a.key == key then Some(a.value) else if b.key == key then Some(b.value) else None
  {
    assert [a, b][1..] == [b];
    GetOne(b, key);
  }

  lemma GetOne(a: Entry, key: string)
    ensures Get([a], key) == if a.key == key then Some(a.value) else None
  {
    assert [a][1..] == [];
  }

  lemma GetOptional(name: string, number: Option<nat>, key: string)
    ensures Get(OptionalRef(name, number), key) ==
            if name == key && number.Some? then Some(Ref(number.value)) else None
  {
    match number
    case None =>
    case Some(n) => GetOne(Entry(name, Ref(n)), key);
  }

  lemma GetSpan(nodes: seq<Node>, key: string)
    requires nodes != []
    ensures Get(Span(nodes), key) ==
            if key == "First" then Some(Ref(nodes[0].number))
            else if key == "Last" then Some(Ref(nodes[|nodes| - 1].number))
            else if key == "Count" then Some(Int(CountFrom(nodes, 0)))
            else None
  {
    hide Int, CountFrom;
    var s := Span(nodes);
    assert s[1..] == [s[1], s[2]];
    GetTwo(s[1], s[2], key);
  }

  /** Each key of an item finds its own entry, whichever optional entries are present. */
  lemma ItemGet(node: Node, prev: Option<nat>, next: Option<nat>, firstPage: nat, key: string)
    requires firstPage > 0
    ensures Lookup(ItemDict(node, prev, next, firstPage), key) ==
            if key == "Title" then Some(Str(node.title))
            else if key == "Parent" then Some(Ref(node.parent))
            else if key == "Prev" && prev.Some? then Some(Ref(prev.value))
            else if key == "Next" && next.Some? then Some(Ref(next.value))
            else if node.children != [] && Get(Span(node.children), key).Some? then Get(Span(node.children), key)
            else if key == "Dest" then Some(Destination(firstPage + node.page - 1))
            else None
  {
    hide Destination, Span, OptionalRef, Get;
    KeysDiffer();
    var a := [Entry("Title", Str(node.title)), Entry("Parent", Ref(node.parent))];
    var p, n := OptionalRef("Prev", prev), OptionalRef("Next", next);
    var s := if node.children == [] then [] else Span(node.children);
    var d := [Entry("Dest", Destination(firstPage + node.page - 1))];
    GetAppend(a + p + n + s, d, key);
    GetAppend(a + p + n, s, key);
    GetAppend(a + p, n, key);
    GetAppend(a, p, key);
    GetTwo(a[0], a[1], key);
    GetOptional("Prev", prev, key);
    GetOptional("Next", next, key);
    GetOne(d[0], key);
    GetNothing(key);
    if node.children != [] {
      GetSpan(node.children, key);
    }
  }

  lemma GetNothing(key: string)
    ensures Get([], key) == None
  {
  }

  //// Following the links recovers the outline.

  /** Objects n, n + 1, ... of the file are `objs`. */
  ghost predicate Holds(fetch: Fetcher, n: nat, objs: seq<Obj>) {
    forall m :: n <= m < n + |objs| ==> fetch(m) == Some(objs[m - n])
  }

  lemma HoldsSplit(fetch: Fetcher, n: nat, a: seq<Obj>, b: seq<Obj>)
    requires Holds(fetch, n, a + b)
    ensures Holds(fetch, n, a) && Holds(fetch, n + |a|, b)
  {
    forall m | n + |a| <= m < n + |a| + |b|
      ensures fetch(m) == Some(b[m - (n + |a|)])
    {
      assert (a + b)[m - n] == b[m - n - |a|];
    }
    forall m | n <= m < n + |a|
      ensures fetch(m) == Some(a[m - n])
    {
      assert (a + b)[m - n] == a[m - n];
    }
  }

  predicate PagesExist(es: seq<Item>, pageCount: nat) {
    forall e :: e in es ==> 1 <= e.page <= pageCount && PagesExist(e.children, pageCount)
  }

  function PageNumbers(firstPage: nat, pageCount: nat): (r: seq<nat>)
    ensures |r| == pageCount
  {
    seq(pageCount, k requires 0 <= k < pageCount => firstPage + k)
  }

  lemma {:induction false} IndexOfDistinct(numbers: seq<nat>, k: nat)
    requires k < |numbers|
    requires forall i, j :: 0 <= i < j < |numbers| ==> numbers[i] != numbers[j]
    ensures IndexOf(numbers, numbers[k]) == Some(k)
    decreases |numbers|
  {
    if k > 0 {
      IndexOfDistinct(numbers[1..], k - 1);
    }
  }

  lemma ReadDestinationBack(v: Value, firstPage: nat, page: nat, pageCount: nat)
    requires 1 <= page <= pageCount && Lookup(v, "Dest") == Some(Destination(firstPage + page - 1))
    ensures ReadDestination(v, PageNumbers(firstPage, pageCount)) == Some(page)
  {
    var d := Destination(firstPage + page - 1);
    assert d.items[1..] == [Name("XYZ"), Null, Null, Null];
    IndexOfDistinct(PageNumbers(firstPage, pageCount), page - 1);
  }

  /** One body per planned node, and the emitted /Count is the number of descendants. */
  lemma {:induction false} OneBodyPerEntry(es: seq<Item>, i: nat, nodes: seq<Node>, number: nat, parent: nat,
                                           firstPage: nat)
    requires i <= |es| == |nodes| && nodes[i..] == PlanFrom(es, i, number, parent) && firstPage > 0
    ensures |EmitFrom(nodes, i, firstPage)| == SizeFrom(es, i)
    ensures CountFrom(nodes, i) == SizeFrom(es, i)
    decreases es, |es| - i
  {
    hide ItemDict;
    if i < |es| {
      assert nodes[i] == nodes[i..][0] == Plan(es[i], number, parent);
      assert nodes[i + 1..] == nodes[i..][1..];
      OneBodyPerEntry(es[i].children, 0, nodes[i].children, number + 1, number, firstPage);
      OneBodyPerEntry(es, i + 1, nodes, number + Size(es[i]), parent, firstPage);
    }
  }

  /** What the reader finds in an item dictionary. */
  lemma ItemReads(node: Node, prev: Option<nat>, next: Option<nat>, firstPage: nat, pageCount: nat)
    requires firstPage > 0 && 1 <= node.page <= pageCount
    ensures var v := ItemDict(node, prev, next, firstPage);
            && LookupStr(v, "Title") == Some(node.title)
            && ReadDestination(v, PageNumbers(firstPage, pageCount)) == Some(node.page)
            && LookupRef(v, "Parent") == Some(node.parent)
            && LookupRef(v, "Prev") == prev
            && LookupRef(v, "Next") == next
            && SpanIs(v, node.children)
  {
    hide ItemDict, Destination, ReadDestination, PageNumbers, Get, Lookup;
    var v := ItemDict(node, prev, next, firstPage);
    KeysDiffer();
    ItemGet(node, prev, next, firstPage, "Title");
    ItemGet(node, prev, next, firstPage, "Parent");
    ItemGet(node, prev, next, firstPage, "Prev");
    ItemGet(node, prev, next, firstPage, "Next");
    ItemGet(node, prev, next, firstPage, "Dest");
    ItemGet(node, prev, next, firstPage, "First");
    ItemGet(node, prev, next, firstPage, "Last");
    ItemGet(node, prev, next, firstPage, "Count");
    if node.children != [] {
      GetSpan(node.children, "First");
      GetSpan(node.children, "Last");
      GetSpan(node.children, "Count");
      GetSpan(node.children, "Dest");
      GetSpan(node.children, "Prev");
      GetSpan(node.children, "Next");
      CountReads(v, CountFrom(node.children, 0));
    }
    ReadDestinationBack(v, firstPage, node.page, pageCount);
  }

  lemma CountReads(v: Value, n: nat)
    ensures Lookup(v, "Count") == Some(Int(n)) ==> LookupNat(v, "Count") == Some(n)
  {
    IntIsClean(n);
  }

  /** The dictionary names the ends and the size of this list of nodes. */
  predicate SpanIs(v: Value, nodes: seq<Node>) {
    if nodes == [] then
      LookupRef(v, "First").None? && LookupRef(v, "Last").None? && LookupNat(v, "Count").None?
    else
      && LookupRef(v, "First") == Some(nodes[0].number)
      && LookupRef(v, "Last") == Some(nodes[|nodes| - 1].number)
      && LookupNat(v, "Count") == Some(CountFrom(nodes, 0))
  }

  /** The chain under a dictionary reads back if the chain at its first node does. */
  lemma SpanReads(fetch: Fetcher, es: seq<Item>, nodes: seq<Node>, v: Value, number: nat, pages: seq<nat>, fuel: nat)
    requires |es| == |nodes| && SpanIs(v, nodes) && CountFrom(nodes, 0) == SizeFrom(es, 0)
    requires es != [] ==> ReadChain(fetch, nodes[0].number, number, None, pages, fuel) ==
                          Some(Siblings(es, nodes[|nodes| - 1].number, SizeFrom(es, 0)))
    ensures var last := if es == [] then 0 else nodes[|nodes| - 1].number;
            ReadSpan(fetch, v, number, pages, fuel) == Some(Siblings(es, last, SizeFrom(es, 0)))
  {
    hide ReadChain, LookupRef, LookupNat;
  }

  /** One step of the reader, given what the item says and what its two chains hold. */
  lemma ReadChainStep(fetch: Fetcher, v: Value, n: nat, parent: nat, prev: Option<nat>, pages: seq<nat>, fuel: nat,
                      item: Item, kids: Siblings, rest: Option<Siblings>)
    requires fuel > 0 && fetch(n) == Some(Plain(v))
    requires LookupStr(v, "Title") == Some(item.title) && ReadDestination(v, pages) == Some(item.page)
    requires LookupRef(v, "Parent") == Some(parent) && LookupRef(v, "Prev") == prev
    requires ReadSpan(fetch, v, n, pages, fuel - 1) == Some(kids) && kids.items == item.children
    requires match LookupRef(v, "Next")
             case None => rest.None?
             case Some(m) => rest.Some? && ReadChain(fetch, m, parent, Some(n), pages, fuel - 1) == rest
    ensures ReadChain(fetch, n, parent, prev, pages, fuel) ==
            match rest
            case None => Some(Siblings([item], n, 1 + kids.count))
            case Some(r) => Some(Siblings([item] + r.items, r.last, 1 + kids.count + r.count))
  {
    hide LookupStr, ReadDestination, LookupRef, ReadSpan;
  }

  /** Where node i, its children and its later siblings lie in the file. */
  lemma ChainParts(fetch: Fetcher, es: seq<Item>, i: nat, nodes: seq<Node>, number: nat, parent: nat, firstPage: nat)
    requires i < |es| == |nodes| && nodes[i..] == PlanFrom(es, i, number, parent) && firstPage > 0
    requires Holds(fetch, number, EmitFrom(nodes, i, firstPage))
    ensures nodes[i] == Plan(es[i], number, parent)
    ensures nodes[i + 1..] == PlanFrom(es, i + 1, number + Size(es[i]), parent)
    ensures fetch(number) == Some(Plain(ItemDict(nodes[i], PrevOf(nodes, i), NextOf(nodes, i), firstPage)))
    ensures Holds(fetch, number + 1, EmitFrom(nodes[i].children, 0, firstPage))
    ensures Holds(fetch, number + Size(es[i]), EmitFrom(nodes, i + 1, firstPage))
    ensures CountFrom(nodes[i].children, 0) == SizeFrom(es[i].children, 0)
  {
    hide ItemDict;
    var node := nodes[i];
    var v := ItemDict(node, PrevOf(nodes, i), NextOf(nodes, i), firstPage);
    var kids, later := EmitFrom(node.children, 0, firstPage), EmitFrom(nodes, i + 1, firstPage);
    assert node == nodes[i..][0] == Plan(es[i], number, parent);
    assert nodes[i + 1..] == nodes[i..][1..];
    OneBodyPerEntry(es[i].children, 0, node.children, number + 1, number, firstPage);
    HoldsSplit(fetch, number, [Plain(v)] + kids, later);
    HoldsSplit(fetch, number, [Plain(v)], kids);
    assert fetch(number) == Some(Plain(v));
  }

  /**
   Reading the links of the emitted bodies from entry i on gives back the
   entries: their titles, pages and children, in order.
   */
  lemma {:induction false} ReadChainBack(fetch: Fetcher, es: seq<Item>, i: nat, nodes: seq<Node>, number: nat,
                                         parent: nat, firstPage: nat, pageCount: nat, fuel: nat)
    requires i < |es| == |nodes| && nodes[i..] == PlanFrom(es, i, number, parent) && firstPage > 0
    requires Holds(fetch, number, EmitFrom(nodes, i, firstPage))
    requires PagesExist(es, pageCount) && fuel >= SizeFrom(es, i)
    ensures ReadChain(fetch, number, parent, PrevOf(nodes, i), PageNumbers(firstPage, pageCount), fuel) ==
            Some(Siblings(es[i..], nodes[|nodes| - 1].number, SizeFrom(es, i)))
    decreases es, |es| - i
  {
    hide ItemDict, PageNumbers, ReadDestination, Holds, EmitFrom, CountFrom, SpanIs, LookupStr, LookupRef, ReadSpan,
         ReadChain;
    var node, pages := nodes[i], PageNumbers(firstPage, pageCount);
    var v := ItemDict(node, PrevOf(nodes, i), NextOf(nodes, i), firstPage);
    ChainParts(fetch, es, i, nodes, number, parent, firstPage);
    ItemReads(node, PrevOf(nodes, i), NextOf(nodes, i), firstPage, pageCount);
    var inner := es[i].children;
    if inner != [] {
      ReadChainBack(fetch, inner, 0, node.children, number + 1, number, firstPage, pageCount, fuel - 1);
      assert inner[0..] == inner;
    }
    SpanReads(fetch, inner, node.children, v, number, pages, fuel - 1);
    var kids := Siblings(inner, if inner == [] then 0 else node.children[|inner| - 1].number, SizeFrom(inner, 0));
    var rest := None;
    if i + 1 < |es| {
      ReadChainBack(fetch, es, i + 1, nodes, number + Size(es[i]), parent, firstPage, pageCount, fuel - 1);
      assert nodes[i + 1] == nodes[i + 1..][0];
      rest := Some(Siblings(es[i + 1..], nodes[|nodes| - 1].number, SizeFrom(es, i + 1)));
      assert es[i..] == [es[i]] + es[i + 1..];
    } else {
      assert es[i..] == [es[i]];
    }
    ReadChainStep(fetch, v, number, parent, PrevOf(nodes, i), pages, fuel, es[i], kids, rest);
  }
}

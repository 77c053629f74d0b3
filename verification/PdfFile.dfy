/**
 The file layer of the fixture PDF writer: numbered object bodies, the
 cross-reference table of byte offsets (ISO 32000-1, section 7.5.4), and a
 reader that finds objects by seeking.
 */
module PdfFile {
  import opened Text
  import opened PdfSyntax

  /** An object body: a plain value, or a dictionary with stream bytes. */
  datatype Obj = Plain(value: Value) | Stream(dict: Value, data: string)

  const HEADER := "%PDF-1.4\n"
  const FREE_ROW := "0000000000 65535 f \n"
  const ROW_TAIL := " 00000 n \n"
  const EOF_MARK := "\n%%EOF\n"
  const MAX_OFFSET: nat := 10_000_000_000

  //// The writer's text.

  function Body(o: Obj): string {
    match o
    case Plain(v) => Print(v) + "\nendobj\n"
    case Stream(d, data) => Print(d) + "\nstream\n" + data + "\nendstream\nendobj\n"
  }

  function ObjText(n: nat, o: Obj): string {
    Decimal(n) + " 0 obj\n" + Body(o)
  }

  /** The file up to and including the last of `objs`. */
  function Front(objs: seq<Obj>): (s: string)
    ensures HEADER <= s
  {
    if objs == [] then
      HEADER
    else
      Front(objs[..|objs| - 1]) + ObjText(|objs|, objs[|objs| - 1])
  }

  /** The byte position of object n. */
  function Offset(objs: seq<Obj>, n: nat): nat
    requires 1 <= n <= |objs|
  {
    |Front(objs[..n - 1])|
  }

  /** The table row of object n. */
  function Row(objs: seq<Obj>, n: nat): string
    requires 1 <= n <= |objs|
  {
    Padded(Offset(objs, n), 10) + ROW_TAIL
  }

  /** The first k in-use rows of the cross-reference table. */
  function Rows(objs: seq<Obj>, k: nat): string
    requires k <= |objs|
  {
    if k == 0 then "" else Rows(objs, k - 1) + Row(objs, k)
  }

  function TableHead(count: nat): string {
    "xref\n0 " + Decimal(count) + "\n"
  }

  function Trailer(count: nat): Value {
    Dict([Entry("Size", Int(count)), Entry("Root", Ref(1)), Entry("Info", Ref(3))])
  }

  function Tail(count: nat, xref: nat): string {
    "trailer\n" + Print(Trailer(count)) + "\nstartxref\n" + Decimal(xref) + EOF_MARK
  }

  function FileText(objs: seq<Obj>): string {
    Front(objs) + TableHead(|objs| + 1) + FREE_ROW + Rows(objs, |objs|) + Tail(|objs| + 1, |Front(objs)|)
  }

  /** The text parts of an object encode as ASCII; stream bytes are copied as they are. */
  predicate Encodable(o: Obj) {
    match o
    case Plain(v) => IsAscii(Print(v))
    case Stream(d, _) => IsAscii(Print(d))
  }

  method AppendObject(pdf: string, index: nat, body: Obj) returns (result: string)
    ensures result == pdf + ObjText(index, body)
  {
    hide Decimal, Print;
    var head := Decimal(index) + " 0 obj\n";
    result := pdf + head;
    Assoc(pdf, head, Body(body));
    match body {
      case Plain(v) =>
        result := result + (Print(v) + "\nendobj\n");
      case Stream(dict, data) =>
        Assoc4(result, Print(dict) + "\nstream\n", data, "\nendstream\nendobj\n");
        result := result + (Print(dict) + "\nstream\n");
        result := result + data;
        result := result + "\nendstream\nendobj\n";
    }
  }

  lemma FrontOfNothing()
    ensures Front([]) == HEADER
  {
  }

  lemma FrontStep(objs: seq<Obj>, index: nat)
    requires index < |objs|
    ensures Front(objs[..index + 1]) == Front(objs[..index]) + ObjText(index + 1, objs[index])
  {
    hide ObjText;
    assert objs[..index + 1][..index] == objs[..index];
  }

  /**
   The emission loop: appends each body, remembers where it began, then writes
   the table. A body that is not ASCII makes the encoder raise; the result is
   then None.
   */
  method WriteFile(objs: seq<Obj>) returns (result: Option<string>)
    ensures result.Some? <==> forall o :: o in objs ==> Encodable(o)
    ensures result.Some? ==> result.value == FileText(objs)
  {
    hide ObjText, Encodable, Tail, TableHead, Front, Rows;
    var pdf := HEADER;
    FrontOfNothing();
    var offsets: seq<nat> := [];
    for index := 0 to |objs|
      invariant pdf == Front(objs[..index])
      invariant |offsets| == index
      invariant forall k :: 0 <= k < index ==> offsets[k] == Offset(objs, k + 1)
      invariant forall k :: 0 <= k < index ==> Encodable(objs[k])
    {
      var body := objs[index];
      if !Encodable(body) {
        return None;
      }
      FrontStep(objs, index);
      offsets := offsets + [|pdf|];
      pdf := AppendObject(pdf, index + 1, body);
    }
    assert objs[..|objs|] == objs;
    var table := WriteTable(objs, offsets);
    result := Some(pdf + table + Tail(|objs| + 1, |pdf|));
  }

  method WriteTable(ghost objs: seq<Obj>, offsets: seq<nat>) returns (table: string)
    requires |offsets| == |objs|
    requires forall k :: 0 <= k < |objs| ==> offsets[k] == Offset(objs, k + 1)
    ensures table == TableHead(|objs| + 1) + FREE_ROW + Rows(objs, |objs|)
  {
    hide TableHead, Row;
    var head := TableHead(|offsets| + 1) + FREE_ROW;
    var rows := "";
    for k := 0 to |offsets|
      invariant rows == Rows(objs, k)
    {
      RowIs(objs, k + 1);
      rows := rows + (Padded(offsets[k], 10) + ROW_TAIL);
    }
    table := head + rows;
  }

  lemma RowIs(objs: seq<Obj>, n: nat)
    requires 1 <= n <= |objs|
    ensures Row(objs, n) == Padded(Offset(objs, n), 10) + ROW_TAIL
  {
  }

  //// The reader.

  datatype Table = Table(offsets: seq<nat>, trailer: Value)

  function Get(entries: seq<Entry>, key: string): Option<Value> {
    if entries == [] then None
    else if entries[0].key == key then Some(entries[0].value)
    else Get(entries[1..], key)
  }

  function Lookup(v: Value, key: string): Option<Value> {
    if v.Dict? then Get(v.entries, key) else None
  }

  function LookupNat(v: Value, key: string): Option<nat> {
    var n :- Lookup(v, key);
    if n.Num? && n.text != [] && AllDigits(n.text) then Some(DecimalValue(n.text)) else None
  }

  function LookupRef(v: Value, key: string): Option<nat> {
    var n :- Lookup(v, key);
    if n.Ref? then Some(n.number) else None
  }

  /** The number of digits at the end of s. */
  function DigitsAtEnd(s: string): (n: nat)
    ensures n <= |s|
  {
    if s == [] || !IsDigit(s[|s| - 1]) then 0 else DigitsAtEnd(s[..|s| - 1]) + 1
  }

  /** The position named after "startxref" at the very end of the file. */
  function ReadStartxref(file: string): Option<nat> {
    var m := |file| - 7;
    if m < 0 || file[m..] != "\n%%EOF\n" then
      None
    else
      var start := m - DigitsAtEnd(file[..m]);
      var digits := file[start..m];
      if digits == [] || !AllDigits(digits) || start < 11 || file[start - 11..start] != "\nstartxref\n" then None
      else Some(DecimalValue(digits))
  }

  /** The offset in one twenty-byte row. */
  function ReadRow(s: string): Option<nat> {
    if |s| == 20 && AllDigits(s[..10]) && s[10..] == " 00000 n \n" then Some(DecimalValue(s[..10])) else None
  }

  /** Row n of a table whose rows start at `base`, found by arithmetic alone. */
  function RowAt(file: string, base: nat, n: nat): string
    requires base + 20 * n + 20 <= |file|
  {
    file[base + 20 * n..][..20]
  }

  function ReadTable(file: string): Option<Table> {
    var xref :- ReadStartxref(file);
    if xref > |file| then
      None
    else
      var r0 :- Expect(file[xref..], "xref\n0 ");
      var (count, r1) :- ReadNat(r0);
      var r2 :- Expect(r1, "\n");
      var base := |file| - |r2|;
      ReadRows(file, base, count)
  }

  function ReadRows(file: string, base: nat, count: nat): Option<Table> {
    if count == 0 || base + 20 * count > |file| || RowAt(file, base, 0) != "0000000000 65535 f \n" then
      None
    else if exists n :: 1 <= n < count && ReadRow(RowAt(file, base, n)).None? then
      None
    else
      var offsets := seq(count - 1, k requires 0 <= k < count - 1 => ReadRow(RowAt(file, base, k + 1)).value);
      var r :- Expect(file[base + 20 * count..], "trailer\n");
      var (trailer, _) :- ReadValue(r);
      var size :- LookupNat(trailer, "Size");
      if size == count then Some(Table(offsets, trailer)) else None
  }

  lemma StartsWithHeader(objs: seq<Obj>)
    ensures Expect(FileText(objs), "%PDF-1.4\n").Some?
  {
    hide Front, TableHead, Rows, Tail;
    assert Front(objs) <= FileText(objs);
  }

  /** Seeks to object n and reads its body. */
  function Fetch(file: string, table: Table, n: nat): Option<Obj> {
    if n == 0 || n > |table.offsets| || table.offsets[n - 1] > |file| then
      None
    else
      ReadObj(file[table.offsets[n - 1]..], n)
  }

  function ReadObj(s: string, n: nat): (r: Option<Obj>)
    ensures r.Some? && r.value.Plain? ==> Clean(r.value.value)
    ensures r.Some? && r.value.Stream? ==> Clean(r.value.dict)
  {
    var (number, r0) :- ReadNat(s);
    var r1 :- Expect(r0, " 0 obj\n");
    var (v, r2) :- ReadValue(r1);
    if number != n then
      None
    else if "\nendobj\n" <= r2 then
      Some(Plain(v))
    else
      var r3 :- Expect(r2, "\nstream\n");
      var length :- LookupNat(v, "Length");
      if length > |r3| then
        None
      else
        var _ :- Expect(r3[length..], "\nendstream\nendobj\n");
        Some(Stream(v, r3[..length]))
  }

  //// Objects read back.

  /** What a reader of one object relies on: clean values and a true /Length. */
  predicate Readable(o: Obj) {
    match o
    case Plain(v) => Clean(v)
    case Stream(d, data) => Clean(d) && LookupNat(d, "Length") == Some(|data|)
  }

  lemma LineEndDelimits(word: string, rest: string)
    ensures Delimits("\n" + word + rest)
  {
    NotPrefix(" 0 R", "\n" + word + rest, 0);
  }

  lemma ReadObjBack(n: nat, o: Obj, rest: string)
    requires Readable(o)
    ensures ReadObj(ObjText(n, o) + rest, n) == Some(o)
  {
    match o
    case Plain(v) => ReadPlainBack(n, v, rest);
    case Stream(d, data) => ReadStreamBack(n, d, data, rest);
  }

  /** The shared front of both kinds of object. */
  lemma ReadObjFront(n: nat, v: Value, word: string, rest: string)
    requires Clean(v)
    ensures var after := "\n" + word + rest;
            var s := Decimal(n) + (" 0 obj\n" + (Print(v) + after));
            && ReadNat(s) == Some((n, " 0 obj\n" + (Print(v) + after)))
            && Expect(" 0 obj\n" + (Print(v) + after), " 0 obj\n") == Some(Print(v) + after)
            && ReadValue(Print(v) + after) == Some((v, after))
  {
    hide ReadValue, ReadNat, Clean, Print, Delimits, Decimal;
    var after := "\n" + word + rest;
    ReadNatBack(n, " 0 obj\n" + (Print(v) + after));
    ExpectBack(" 0 obj\n", Print(v) + after);
    LineEndDelimits(word, rest);
    ReadValueBack(v, after);
  }

  lemma ReadPlainBack(n: nat, v: Value, rest: string)
    requires Clean(v)
    ensures ReadObj(ObjText(n, Plain(v)) + rest, n) == Some(Plain(v))
  {
    hide ReadValue, ReadNat, Clean, Print, Decimal, LookupNat;
    var after := "\n" + "endobj\n" + rest;
    ReadObjFront(n, v, "endobj\n", rest);
    assert ObjText(n, Plain(v)) + rest == Decimal(n) + (" 0 obj\n" + (Print(v) + after));
    assert "\nendobj\n" <= after;
  }

  lemma ReadStreamBack(n: nat, d: Value, data: string, rest: string)
    requires Readable(Stream(d, data))
    ensures ReadObj(ObjText(n, Stream(d, data)) + rest, n) == Some(Stream(d, data))
  {
    hide ReadValue, ReadNat, Clean, Print, Decimal, LookupNat, Body, ObjText, Expect, ReadObj;
    var end := "\nendstream\nendobj\n" + rest;
    var after := "\n" + "stream\n" + (data + end);
    ReadObjFront(n, d, "stream\n", data + end);
    StreamText(n, d, data, rest);
    StreamTail(data, rest);
    StreamObjIs(Decimal(n) + (" 0 obj\n" + (Print(d) + after)), n, d, " 0 obj\n" + (Print(d) + after),
                Print(d) + after, after, data + end, data, rest);
  }

  /** The steps of reading a stream object, put together. */
  lemma StreamObjIs(s: string, n: nat, d: Value, r0: string, r1: string, r2: string, r3: string, data: string,
                    rest: string)
    requires ReadNat(s) == Some((n, r0)) && Expect(r0, " 0 obj\n") == Some(r1) && ReadValue(r1) == Some((d, r2))
    requires !("\nendobj\n" <= r2) && Expect(r2, "\nstream\n") == Some(r3)
    requires LookupNat(d, "Length") == Some(|data|) && |data| <= |r3| && r3[..|data|] == data
    requires Expect(r3[|data|..], "\nendstream\nendobj\n") == Some(rest)
    ensures ReadObj(s, n) == Some(Stream(d, data))
  {
    hide ReadValue, ReadNat, LookupNat, Expect, Clean;
  }

  lemma StreamText(n: nat, d: Value, data: string, rest: string)
    ensures ObjText(n, Stream(d, data)) + rest ==
            Decimal(n) + (" 0 obj\n" + (Print(d) + ("\n" + "stream\n" + (data + ("\nendstream\nendobj\n" + rest)))))
  {
    hide Decimal, Print;
  }

  lemma StreamTail(data: string, rest: string)
    ensures var end := "\nendstream\nendobj\n" + rest;
            var after := "\n" + "stream\n" + (data + end);
            && !("\nendobj\n" <= after)
            && Expect(after, "\nstream\n") == Some(data + end)
            && |data| <= |data + end| && (data + end)[..|data|] == data
            && Expect((data + end)[|data|..], "\nendstream\nendobj\n") == Some(rest)
  {
    var end := "\nendstream\nendobj\n" + rest;
    var after := "\n" + "stream\n" + (data + end);
    assert after[1] == 's';
    NotPrefix("\nendobj\n", after, 1);
    assert after == "\nstream\n" + (data + end);
    ExpectBack("\nstream\n", data + end);
    AfterPrefix(data, end);
    ExpectBack("\nendstream\nendobj\n", rest);
  }

  /** Object n's text begins exactly at its offset. */
  lemma {:induction false} ObjectStartsAtOffset(objs: seq<Obj>, n: nat) returns (after: string)
    requires 1 <= n <= |objs|
    ensures Front(objs) == Front(objs[..n - 1]) + ObjText(n, objs[n - 1]) + after
    ensures Offset(objs, n) + |ObjText(n, objs[n - 1])| <= |Front(objs)|
    decreases |objs|
  {
    var init := objs[..|objs| - 1];
    if n == |objs| {
      after := "";
    } else {
      var rest := ObjectStartsAtOffset(init, n);
      assert init[..n - 1] == objs[..n - 1] && init[n - 1] == objs[n - 1];
      after := rest + ObjText(|objs|, objs[|objs| - 1]);
    }
  }

  lemma OffsetsIncrease(objs: seq<Obj>, m: nat, n: nat)
    requires 1 <= m < n <= |objs|
    ensures Offset(objs, m) < Offset(objs, n)
  {
    var front := objs[..n - 1];
    assert front[..m - 1] == objs[..m - 1] && front[m - 1] == objs[m - 1];
    var _ := ObjectStartsAtOffset(front, m);
  }

  lemma FetchBack(objs: seq<Obj>, n: nat, after: string, table: Table)
    requires 1 <= n <= |objs| && Readable(objs[n - 1])
    requires |table.offsets| == |objs| && table.offsets[n - 1] == Offset(objs, n)
    ensures Fetch(Front(objs) + after, table, n) == Some(objs[n - 1])
  {
    hide ObjText, ReadObj, Readable, Front;
    var rest := ObjectStartsAtOffset(objs, n);
    var file, text := Front(objs) + after, ObjText(n, objs[n - 1]);
    assert file == Front(objs[..n - 1]) + (text + (rest + after));
    assert file[Offset(objs, n)..] == text + (rest + after);
    ReadObjBack(n, objs[n - 1], rest + after);
  }

  //// The table reads back.

  /** Every offset fits the ten digits of its row. */
  predicate OffsetsFit(objs: seq<Obj>) {
    forall n :: 1 <= n <= |objs| ==> Offset(objs, n) < MAX_OFFSET
  }

  lemma TenDigits(n: nat)
    ensures |Padded(n, 10)| == 10 <==> n < MAX_OFFSET
  {
    DecimalLength(n, 10);
    assert Power10(2) == 100 && Power10(4) == 100 * Power10(2);
    assert Power10(6) == 100 * Power10(4) && Power10(8) == 100 * Power10(6);
    assert Power10(10) == 100 * Power10(8);
  }

  /** Row n is twenty bytes long, provided the rows up to n fit. */
  lemma {:induction false} RowsAreTwentyBytes(objs: seq<Obj>, k: nat)
    requires k <= |objs|
    requires forall n :: 1 <= n <= k ==> Offset(objs, n) < MAX_OFFSET
    ensures |Rows(objs, k)| == 20 * k
  {
    if k > 0 {
      RowsAreTwentyBytes(objs, k - 1);
      TenDigits(Offset(objs, k));
    }
  }

  lemma {:induction false} RowsSplit(objs: seq<Obj>, n: nat, k: nat) returns (after: string)
    requires 1 <= n <= k <= |objs|
    ensures Rows(objs, k) == Rows(objs, n - 1) + Row(objs, n) + after
    decreases k
  {
    hide Row;
    if n == k {
      after := "";
    } else {
      var rest := RowsSplit(objs, n, k - 1);
      after := rest + Row(objs, k);
    }
  }

  /** With the preceding rows twenty bytes each, arithmetic lands on row n. */
  lemma RowPosition(objs: seq<Obj>, n: nat, front: string, after: string)
    requires 1 <= n <= |objs|
    requires forall m :: 1 <= m < n ==> Offset(objs, m) < MAX_OFFSET
    ensures var file := front + FREE_ROW + Rows(objs, |objs|) + after;
            && |front| + 20 * n + 20 <= |file|
            && RowAt(file, |front|, n) == Row(objs, n)[..20]
  {
    hide Rows, Row;
    RowsAreTwentyBytes(objs, n - 1);
    var rest := RowsSplit(objs, n, |objs|);
    RowLength(objs, n);
    SliceInside(front, FREE_ROW, Rows(objs, n - 1), Row(objs, n), rest, after);
  }

  lemma RowLength(objs: seq<Obj>, n: nat)
    requires 1 <= n <= |objs|
    ensures |Row(objs, n)| >= 20
  {
  }

  lemma SliceInside(a: string, b: string, c: string, row: string, rest: string, after: string)
    requires |row| >= 20
    ensures var file := a + b + (c + row + rest) + after;
            && |a| + |b| + |c| + 20 <= |file|
            && file[|a| + |b| + |c|..][..20] == row[..20]
  {
    var file := a + b + (c + row + rest) + after;
    assert file[|a| + |b| + |c|..] == row + rest + after;
  }

  lemma DigitsAtEndIs(front: string, d: string)
    requires AllDigits(d) && front != [] && !IsDigit(front[|front| - 1])
    ensures DigitsAtEnd(front + d) == |d|
    decreases |d|
  {
    if d != [] {
      assert (front + d)[..|front + d| - 1] == front + d[..|d| - 1];
      DigitsAtEndIs(front, d[..|d| - 1]);
    }
  }

  lemma StartxrefBack(front: string, xref: nat)
    ensures ReadStartxref(front + "\nstartxref\n" + Decimal(xref) + EOF_MARK) == Some(xref)
  {
    var before := front + "\nstartxref\n";
    var file := before + Decimal(xref) + EOF_MARK;
    var m := |file| - |EOF_MARK|;
    assert file[m..] == EOF_MARK && file[..m] == before + Decimal(xref);
    assert before[|before| - 1] == '\n';
    DigitsAtEndIs(before, Decimal(xref));
    assert (before + Decimal(xref))[|before|..] == Decimal(xref);
    DecimalBack(xref);
  }

  function OffsetSeq(objs: seq<Obj>): (r: seq<nat>)
    ensures |r| == |objs|
  {
    seq(|objs|, k requires 0 <= k < |objs| => Offset(objs, k + 1))
  }

  lemma IntIsClean(n: nat)
    ensures Clean(Int(n))
    ensures Int(n).Num? && Int(n).text != [] && AllDigits(Int(n).text) && DecimalValue(Int(n).text) == n
  {
    DigitsAreNumChars(Decimal(n));
    DecimalBack(n);
  }

  lemma TrailerNames()
    ensures IsNameText("Size") && IsNameText("Root") && IsNameText("Info")
  {
  }

  lemma TrailerIsClean(count: nat)
    ensures Clean(Trailer(count)) && LookupNat(Trailer(count), "Size") == Some(count)
  {
    hide Int, IsNameText, DecimalValue;
    TrailerNames();
    IntIsClean(count);
  }

  lemma TrailerBack(count: nat, xref: nat)
    ensures ReadValue(Print(Trailer(count)) + ("\nstartxref\n" + Decimal(xref) + EOF_MARK)) ==
            Some((Trailer(count), "\nstartxref\n" + Decimal(xref) + EOF_MARK))
  {
    hide Trailer, Clean, ReadValue, Print, Delimits, Decimal;
    TrailerIsClean(count);
    var rest := "\nstartxref\n" + Decimal(xref) + EOF_MARK;
    assert rest == "\n" + "startxref\n" + (Decimal(xref) + EOF_MARK);
    LineEndDelimits("startxref\n", Decimal(xref) + EOF_MARK);
    ReadValueBack(Trailer(count), rest);
  }

  /** The head of the table reads back wherever the table starts. */
  lemma HeadBack(front: string, count: nat, rows: string)
    ensures var file := front + TableHead(count) + rows;
            && |front| <= |file|
            && Expect(file[|front|..], "xref\n0 ") == Some(Decimal(count) + ("\n" + rows))
            && ReadNat(Decimal(count) + ("\n" + rows)) == Some((count, "\n" + rows))
            && Expect("\n" + rows, "\n") == Some(rows)
  {
    hide Decimal, ReadNat;
    var file := front + TableHead(count) + rows;
    assert file == front + ("xref\n0 " + (Decimal(count) + ("\n" + rows)));
    AfterPrefix(front, "xref\n0 " + (Decimal(count) + ("\n" + rows)));
    ExpectBack("xref\n0 ", Decimal(count) + ("\n" + rows));
    ReadNatBack(count, "\n" + rows);
    ExpectBack("\n", rows);
  }

  lemma ReadTableIsReadRows(front: string, count: nat, rows: string)
    requires ReadStartxref(front + TableHead(count) + rows) == Some(|front|)
    ensures ReadTable(front + TableHead(count) + rows) ==
            ReadRows(front + TableHead(count) + rows, |front + TableHead(count)|, count)
  {
    HeadBack(front, count, rows);
    hide ReadStartxref, TableHead, Expect, ReadNat, ReadRows, Decimal;
  }

  function AfterHead(objs: seq<Obj>): string {
    FREE_ROW + Rows(objs, |objs|) + Tail(|objs| + 1, |Front(objs)|)
  }

  lemma FileParts(objs: seq<Obj>)
    ensures FileText(objs) == Front(objs) + TableHead(|objs| + 1) + AfterHead(objs)
    ensures ReadStartxref(FileText(objs)) == Some(|Front(objs)|)
  {
    hide Front, TableHead, Rows, ReadStartxref, Print;
    var lead := Front(objs) + TableHead(|objs| + 1) + FREE_ROW + Rows(objs, |objs|);
    var t := Print(Trailer(|objs| + 1));
    TailText(lead, t, Decimal(|Front(objs)|));
    StartxrefBack(lead + "trailer\n" + t, |Front(objs)|);
    Assoc4(Front(objs) + TableHead(|objs| + 1), FREE_ROW, Rows(objs, |objs|), Tail(|objs| + 1, |Front(objs)|));
  }

  lemma TailText(lead: string, t: string, d: string)
    ensures lead + ("trailer\n" + t + "\nstartxref\n" + d + EOF_MARK) ==
            lead + "trailer\n" + t + "\nstartxref\n" + d + EOF_MARK
  {
  }

  /** A row whose offset needs more than ten digits is no row: the reader gives up on it. */
  lemma RowReads(objs: seq<Obj>, n: nat)
    requires 1 <= n <= |objs|
    ensures |Row(objs, n)| >= 20
    ensures ReadRow(Row(objs, n)[..20]) == if Offset(objs, n) < MAX_OFFSET then Some(Offset(objs, n)) else None
  {
    var p := Padded(Offset(objs, n), 10);
    TenDigits(Offset(objs, n));
    if |p| == 10 {
      assert Row(objs, n)[..20] == p + ROW_TAIL;
      assert (p + ROW_TAIL)[..10] == p && (p + ROW_TAIL)[10..] == ROW_TAIL;
    } else {
      assert Row(objs, n)[..20][10..][0] == p[10];
      assert ROW_TAIL[0] == ' ';
    }
  }

  lemma SomeRowOverflows(objs: seq<Obj>) returns (n: nat)
    requires !OffsetsFit(objs)
    ensures 1 <= n <= |objs| && Offset(objs, n) >= MAX_OFFSET
    ensures forall m :: 1 <= m < n ==> Offset(objs, m) < MAX_OFFSET
  {
    hide Offset;
    n := 1;
    while Offset(objs, n) < MAX_OFFSET
      invariant 1 <= n <= |objs|
      invariant forall m :: 1 <= m < n ==> Offset(objs, m) < MAX_OFFSET
      decreases |objs| - n
    {
      if n == |objs| {
        assert forall m :: 1 <= m <= |objs| ==> Offset(objs, m) < MAX_OFFSET;
        assert false;
      }
      n := n + 1;
    }
  }

  lemma FreeRowPosition(front: string, after: string)
    ensures |front| + 20 <= |front + FREE_ROW + after|
    ensures RowAt(front + FREE_ROW + after, |front|, 0) == FREE_ROW
  {
    var file := front + FREE_ROW + after;
    assert file == front + (FREE_ROW + after);
    assert file[|front|..] == FREE_ROW + after;
  }

  lemma AfterRows(objs: seq<Obj>, front: string, tail: string)
    requires OffsetsFit(objs)
    ensures var file := front + FREE_ROW + Rows(objs, |objs|) + tail;
            && |front| + 20 * (|objs| + 1) <= |file|
            && file[|front| + 20 * (|objs| + 1)..] == tail
  {
    RowsAreTwentyBytes(objs, |objs|);
    AfterPrefix(front + FREE_ROW + Rows(objs, |objs|), tail);
  }

  /** The rows of a file whose offsets fit are read exactly. */
  lemma RowsReadBack(objs: seq<Obj>, front: string)
    requires OffsetsFit(objs)
    ensures ReadRows(front + AfterHead(objs), |front|, |objs| + 1) ==
            Some(Table(OffsetSeq(objs), Trailer(|objs| + 1)))
  {
    hide Rows, Row, Front, Print, ReadValue, LookupNat, Decimal, OffsetsFit, Trailer, ReadRow, RowAt;
    var count := |objs| + 1;
    var xref := |Front(objs)|;
    var tail := Tail(count, xref);
    var file := front + AfterHead(objs);
    Assoc4(front, FREE_ROW, Rows(objs, |objs|), tail);
    Assoc4(front, FREE_ROW, Rows(objs, |objs|), tail);
    FreeRowPosition(front, Rows(objs, |objs|) + tail);
    assert front + FREE_ROW + (Rows(objs, |objs|) + tail) == file;
    AfterRows(objs, front, tail);
    forall n | 1 <= n < count
      ensures ReadRow(RowAt(file, |front|, n)) == Some(Offset(objs, n))
    {
      FitsAt(objs, n);
      RowPosition(objs, n, front, tail);
      RowReads(objs, n);
    }
    TailReads(count, xref);
    TrailerBack(count, xref);
    TrailerIsClean(count);
    RowsAssemble(objs, file, |front|, tail);
  }

  lemma FitsAt(objs: seq<Obj>, n: nat)
    requires OffsetsFit(objs) && 1 <= n <= |objs|
    ensures forall m :: 1 <= m <= n ==> Offset(objs, m) < MAX_OFFSET
  {
  }

  lemma TailReads(count: nat, xref: nat)
    ensures Expect(Tail(count, xref), "trailer\n") ==
            Some(Print(Trailer(count)) + ("\nstartxref\n" + Decimal(xref) + EOF_MARK))
  {
    hide Print, Trailer, Decimal;
    var rest := Print(Trailer(count)) + ("\nstartxref\n" + Decimal(xref) + EOF_MARK);
    assert Tail(count, xref) == "trailer\n" + rest;
    ExpectBack("trailer\n", rest);
  }

  lemma RowsAssemble(objs: seq<Obj>, file: string, base: nat, tail: string)
    requires base + 20 * (|objs| + 1) <= |file| && RowAt(file, base, 0) == FREE_ROW
    requires file[base + 20 * (|objs| + 1)..] == tail
    requires forall n :: 1 <= n < |objs| + 1 ==> ReadRow(RowAt(file, base, n)) == Some(Offset(objs, n))
    requires Expect(tail, "trailer\n").Some?
    requires ReadValue(Expect(tail, "trailer\n").value).Some?
    requires ReadValue(Expect(tail, "trailer\n").value).value.0 == Trailer(|objs| + 1)
    requires LookupNat(Trailer(|objs| + 1), "Size") == Some(|objs| + 1)
    ensures ReadRows(file, base, |objs| + 1) == Some(Table(OffsetSeq(objs), Trailer(|objs| + 1)))
  {
    hide ReadValue, LookupNat, Trailer, Expect, RowAt, ReadRow, Offset;
    var count := |objs| + 1;
    var offsets := seq(count - 1, k requires 0 <= k < count - 1 => ReadRow(RowAt(file, base, k + 1)).value);
    assert offsets == OffsetSeq(objs);
  }

  lemma OverflowIsSeen(objs: seq<Obj>, front: string)
    requires !OffsetsFit(objs)
    ensures ReadRows(front + AfterHead(objs), |front|, |objs| + 1) == None
  {
    var n := SomeRowOverflows(objs);
    var tail := Tail(|objs| + 1, |Front(objs)|);
    Assoc4(front, FREE_ROW, Rows(objs, |objs|), tail);
    RowPosition(objs, n, front, tail);
    RowReads(objs, n);
    assert ReadRow(RowAt(front + AfterHead(objs), |front|, n)).None?;
  }

  /**
   The cross-reference table reads back, as the exact byte position of every
   object, if and only if every position fits in ten digits.
   */
  lemma TableReadsBack(objs: seq<Obj>)
    ensures ReadTable(FileText(objs)).Some? <==> OffsetsFit(objs)
    ensures OffsetsFit(objs) ==> ReadTable(FileText(objs)) == Some(Table(OffsetSeq(objs), Trailer(|objs| + 1)))
  {
    hide OffsetsFit, ReadRows, ReadTable, FileText, AfterHead;
    FileParts(objs);
    ReadTableIsReadRows(Front(objs), |objs| + 1, AfterHead(objs));
    if OffsetsFit(objs) {
      RowsReadBack(objs, Front(objs) + TableHead(|objs| + 1));
    } else {
      OverflowIsSeen(objs, Front(objs) + TableHead(|objs| + 1));
    }
  }

  /** Seeking through the table finds every object of the file. */
  lemma EveryObjectIsFound(objs: seq<Obj>, n: nat)
    requires 1 <= n <= |objs| && Readable(objs[n - 1])
    ensures Fetch(FileText(objs), Table(OffsetSeq(objs), Trailer(|objs| + 1)), n) == Some(objs[n - 1])
  {
    hide Front, Readable, Fetch, Rows, Tail, TableHead;
    var after := TableHead(|objs| + 1) + FREE_ROW + Rows(objs, |objs|) + Tail(|objs| + 1, |Front(objs)|);
    assert FileText(objs) == Front(objs) + after by {
      Assoc4(Front(objs) + TableHead(|objs| + 1), FREE_ROW, Rows(objs, |objs|), Tail(|objs| + 1, |Front(objs)|));
      Assoc(Front(objs), TableHead(|objs| + 1), FREE_ROW + Rows(objs, |objs|) + Tail(|objs| + 1, |Front(objs)|));
      Assoc4(TableHead(|objs| + 1), FREE_ROW, Rows(objs, |objs|), Tail(|objs| + 1, |Front(objs)|));
    }
    FetchBack(objs, n, after, Table(OffsetSeq(objs), Trailer(|objs| + 1)));
  }
}

/**
 The fragment of PDF syntax the fixture writer prints (ISO 32000-1, section
 7.3): names, numbers, references, literal strings, arrays and dictionaries,
 each separated by single spaces, and a reader for that fragment.

 File content is a string in which the character with code b stands for byte b.
 */
module PdfSyntax {
  import opened Text

  datatype Value =
    | Name(name: string)
    | Num(text: string)
    | Ref(number: nat)
    | Str(text: string)
    | Null
    | Arr(items: seq<Value>)
    | Dict(entries: seq<Entry>)

  datatype Entry = Entry(key: string, value: Value)

  function Int(n: nat): Value {
    Num(Decimal(n))
  }

  //// Literal strings.

  /** Python's `value.replace(target, insert)` for a one-character `target`. */
  function Replace(s: string, target: char, insert: string): string {
    if s == [] then [] else (if s[0] == target then insert else [s[0]]) + Replace(s[1..], target, insert)
  }

  /** The three replacements the writer makes, in its order. */
  function Escaped(s: string): string {
    Replace(Replace(Replace(s, '\\', "\\\\"), '(', "\\("), ')', "\\)")
  }

  function PdfString(s: string): string {
    "(" + Escaped(s) + ")"
  }

  function EscapeChar(c: char): string {
    if c == '\\' || c == '(' || c == ')' then ['\\', c] else [c]
  }

  function EscapeEach(s: string): string {
    if s == [] then [] else EscapeChar(s[0]) + EscapeEach(s[1..])
  }

  lemma {:induction false} ReplaceAppend(a: string, b: string, target: char, insert: string)
    ensures Replace(a + b, target, insert) == Replace(a, target, insert) + Replace(b, target, insert)
    decreases |a|
  {
    if a == [] {
      assert a + b == b;
    } else {
      assert (a + b)[1..] == a[1..] + b;
      ReplaceAppend(a[1..], b, target, insert);
    }
  }

  lemma ReplaceShort(c: char, d: char, target: char, insert: string)
    ensures Replace([c], target, insert) == if c == target then insert else [c]
    ensures Replace([c, d], target, insert) ==
            (if c == target then insert else [c]) + (if d == target then insert else [d])
  {
    assert [c][1..] == [];
    assert [c, d][1..] == [d] && [d][1..] == [];
  }

  /**
   Replacing backslashes first keeps the three passes from touching each
   other's output: together they escape each character on its own.
   */
  lemma {:induction false} ThreePassesEscapeEach(s: string)
    ensures Escaped(s) == EscapeEach(s)
    decreases |s|
  {
    if s != [] {
      var c := s[0];
      ThreePassesEscapeEach(s[1..]);
      var first := if c == '\\' then "\\\\" else [c];
      var rest := Replace(s[1..], '\\', "\\\\");
      ReplaceAppend(first, rest, '(', "\\(");
      ReplaceAppend(Replace(first, '(', "\\("), Replace(rest, '(', "\\("), ')', "\\)");
      ReplaceShort(c, c, '(', "\\(");
      ReplaceShort(c, c, ')', "\\)");
      ReplaceShort('\\', '(', ')', "\\)");
      assert Replace(Replace(first, '(', "\\("), ')', "\\)") == EscapeChar(c);
    }
  }

  /**
   Reads a literal string up to its closing parenthesis. A bare carriage
   return, alone or before a line feed, reads as a line feed (section 7.3.4.2).
   */
  function ReadString(s: string): (r: Option<(string, string)>)
    ensures r.Some? ==> |r.value.1| < |s|
    ensures r.Some? ==> '\r' !in r.value.0
  {
    if s == [] || s[0] == '(' then
      None
    else if s[0] == ')' then
      Some(("", s[1..]))
    else if s[0] == '\\' then
      if |s| > 1 && s[1] in "\\()" then
        var (text, rest) :- ReadString(s[2..]);
        Some(([s[1]] + text, rest))
      else
        None
    else if s[0] == '\r' then
      var (text, rest) :- ReadString(if |s| > 1 && s[1] == '\n' then s[2..] else s[1..]);
      Some((['\n'] + text, rest))
    else
      var (text, rest) :- ReadString(s[1..]);
      Some(([s[0]] + text, rest))
  }

  lemma {:induction false} ReadEscaped(t: string, rest: string)
    requires '\r' !in t
    ensures ReadString(EscapeEach(t) + ")" + rest) == Some((t, rest))
    decreases |t|
  {
    if t == [] {
      assert (EscapeEach(t) + ")" + rest)[1..] == rest;
    } else {
      ReadEscaped(t[1..], rest);
      var tail := EscapeEach(t[1..]) + ")" + rest;
      assert EscapeEach(t) + ")" + rest == EscapeChar(t[0]) + tail;
      assert (EscapeChar(t[0]) + tail)[|EscapeChar(t[0])|..] == tail;
      assert [t[0]] + t[1..] == t;
    }
  }

  //// Printing.

  function Print(v: Value): string {
    match v
    case Name(n) => "/" + n
    case Num(t) => t
    case Ref(n) => Decimal(n) + " 0 R"
    case Str(t) => PdfString(t)
    case Null => "null"
    case Arr(items) => "[" + PrintItems(items)
    case Dict(entries) => "<< " + PrintEntries(entries)
  }

  function PrintItems(vs: seq<Value>): string {
    if vs == [] then "]" else Print(vs[0]) + (if |vs| == 1 then "" else " ") + PrintItems(vs[1..])
  }

  function PrintEntries(es: seq<Entry>): (s: string)
    ensures |s| >= 2 && s[0] in "/>"
  {
    if es == [] then ">>" else "/" + es[0].key + " " + Print(es[0].value) + " " + PrintEntries(es[1..])
  }

  predicate IsAscii(s: string) {
    forall c :: c in s ==> c as int < 128
  }

  //// Reading.

  predicate IsNameChar(c: char) {
    '!' <= c <= '~' && c !in "()<>[]{}/%#"
  }

  predicate IsNumChar(c: char) {
    IsDigit(c) || c in "+-."
  }

  function ReadValue(s: string): (r: Option<(Value, string)>)
    ensures r.Some? ==> |r.value.1| < |s| && Clean(r.value.0)
    decreases |s|, 2
  {
    if s == [] then
      None
    else if s[0] == '/' then
      var n := RunLength(IsNameChar, s[1..]);
      Some((Name(s[1..][..n]), s[1..][n..]))
    else if s[0] == '(' then
      var (text, rest) :- ReadString(s[1..]);
      Some((Str(text), rest))
    else if s[0] == '[' then
      var (items, rest) :- ReadItems(s[1..]);
      Some((Arr(items), rest))
    else if "<< " <= s then
      var (entries, rest) :- ReadEntries(s[3..]);
      Some((Dict(entries), rest))
    else if "null" <= s then
      Some((Null, s[4..]))
    else
      ReadNumber(s)
  }

  /** A numeral is a reference when it is all digits and " 0 R" follows. */
  function ReadNumber(s: string): (r: Option<(Value, string)>)
    ensures r.Some? ==> |r.value.1| < |s| && Clean(r.value.0)
  {
    var n := RunLength(IsNumChar, s);
    if n == 0 then
      None
    else if AllDigits(s[..n]) && " 0 R" <= s[n..] then
      Some((Ref(DecimalValue(s[..n])), s[n + 4..]))
    else
      Some((Num(s[..n]), s[n..]))
  }

  function ReadItems(s: string): (r: Option<(seq<Value>, string)>)
    ensures r.Some? ==> |r.value.1| < |s| && forall v :: v in r.value.0 ==> Clean(v)
    decreases |s|, 3
  {
    if "]" <= s then
      Some(([], s[1..]))
    else
      var (v, rest) :- ReadValue(s);
      var (vs, rest') :- ReadItems(if " " <= rest then rest[1..] else rest);
      Some(([v] + vs, rest'))
  }

  function ReadEntries(s: string): (r: Option<(seq<Entry>, string)>)
    ensures r.Some? ==> |r.value.1| < |s| && forall e :: e in r.value.0 ==> CleanEntry(e)
    decreases |s|, 3
  {
    if ">>" <= s then
      Some(([], s[2..]))
    else if "/" <= s then
      var n := RunLength(IsNameChar, s[1..]);
      var afterKey :- Expect(s[1..][n..], " ");
      var (v, rest) :- ReadValue(afterKey);
      var afterValue :- Expect(rest, " ");
      var (es, rest') :- ReadEntries(afterValue);
      Some(([Entry(s[1..][..n], v)] + es, rest'))
    else
      None
  }

  //// What reads back.

  predicate IsNameText(s: string) {
    forall c :: c in s ==> IsNameChar(c)
  }

  predicate IsNumText(s: string) {
    s != [] && forall c :: c in s ==> IsNumChar(c)
  }

  /** A value whose printed form names it: plain names, numerals, and no carriage return in strings. */
  predicate Clean(v: Value) {
    match v
    case Name(n) => IsNameText(n)
    case Num(t) => IsNumText(t)
    case Ref(_) => true
    case Str(t) => '\r' !in t
    case Null => true
    case Arr(items) => forall i :: i in items ==> Clean(i)
    case Dict(entries) => forall e :: e in entries ==> CleanEntry(e)
  }

  predicate CleanEntry(e: Entry) {
    IsNameText(e.key) && Clean(e.value)
  }

  /** What may follow a value: a space, a closing bracket or a line end, and no reference tail. */
  predicate Delimits(rest: string) {
    rest != [] && rest[0] in " ]\n" && !(" 0 R" <= rest)
  }

  lemma DigitsAreNumChars(s: string)
    requires AllDigits(s)
    ensures forall i :: 0 <= i < |s| ==> IsNumChar(s[i])
  {
  }

  lemma ReadNumberBack(text: string, rest: string)
    requires IsNumText(text) && Delimits(rest)
    ensures ReadNumber(text + rest) == Some((Num(text), rest))
  {
    RunIs(IsNumChar, text, rest);
    assert (text + rest)[..|text|] == text && (text + rest)[|text|..] == rest;
  }

  lemma ReadRefBack(n: nat, rest: string)
    ensures ReadNumber(Decimal(n) + " 0 R" + rest) == Some((Ref(n), rest))
  {
    var d := Decimal(n);
    DigitsAreNumChars(d);
    DecimalBack(n);
    assert d + " 0 R" + rest == d + (" 0 R" + rest);
    RunIs(IsNumChar, d, " 0 R" + rest);
    var s := d + (" 0 R" + rest);
    assert s[..|d|] == d && s[|d|..] == " 0 R" + rest && s[|d| + 4..] == rest;
  }

  /** The first character tells the kinds of value apart; none starts with R. */
  lemma FirstChar(v: Value)
    requires Clean(v)
    ensures Print(v) != []
    ensures match v
            case Name(_) => Print(v)[0] == '/'
            case Num(_) => IsNumChar(Print(v)[0])
            case Ref(_) => IsDigit(Print(v)[0])
            case Str(_) => Print(v)[0] == '('
            case Null => Print(v)[0] == 'n'
            case Arr(_) => Print(v)[0] == '['
            case Dict(_) => Print(v)[0] == '<'
  {
    match v
    case Num(t) => assert t[0] in t;
    case _ =>
  }

  lemma NumeralIsNoRefTail(t: string, tail: string)
    requires IsNumText(t) && tail != [] && (tail[0] == ']' || (|tail| > 1 && tail[0] == ' ' && tail[1] != 'R'))
    ensures !("0 R" <= t + tail)
  {
    if |t| > 1 {
      assert (t + tail)[1] == t[1] && t[1] in t;
      NotPrefix("0 R", t + tail, 1);
    } else if tail[0] == ' ' {
      assert (t + tail)[2] == tail[1];
      NotPrefix("0 R", t + tail, 2);
    } else {
      assert (t + tail)[1] == ']';
      NotPrefix("0 R", t + tail, 1);
    }
  }

  lemma RefIsNoRefTail(n: nat, tail: string)
    ensures !("0 R" <= Decimal(n) + " 0 R" + tail)
  {
    var d := Decimal(n);
    var s := d + " 0 R" + tail;
    if |d| > 1 {
      assert s[1] == d[1];
      NotPrefix("0 R", s, 1);
    } else {
      assert s[2] == '0';
      NotPrefix("0 R", s, 2);
    }
  }

  /** The text after the first of `vs`. */
  function AfterFirst(vs: seq<Value>, rest: string): string
    requires vs != []
  {
    (if |vs| == 1 then "" else " ") + PrintItems(vs[1..]) + rest
  }

  /** The second item of an array never makes the first one look like a reference. */
  lemma ItemsAreNoRefTail(vs: seq<Value>, rest: string)
    requires vs != [] && forall v :: v in vs ==> Clean(v)
    ensures !("0 R" <= PrintItems(vs) + rest)
  {
    var s, tail := PrintItems(vs) + rest, AfterFirst(vs, rest);
    ItemsText(vs, rest);
    FirstChar(vs[0]);
    match vs[0]
    case Num(t) =>
      AfterFirstStart(vs, rest);
      NumeralIsNoRefTail(t, tail);
    case Ref(n) =>
      RefIsNoRefTail(n, tail);
    case _ =>
      NotPrefix("0 R", s, 0);
  }

  lemma AfterFirstStart(vs: seq<Value>, rest: string)
    requires vs != [] && forall v :: v in vs ==> Clean(v)
    ensures var tail := AfterFirst(vs, rest);
            tail != [] && (tail[0] == ']' || (|tail| > 1 && tail[0] == ' ' && tail[1] != 'R'))
  {
    if |vs| > 1 {
      FirstChar(vs[1]);
      var p := Print(vs[1]);
      assert PrintItems(vs[1..])[..|p|] == p;
      assert AfterFirst(vs, rest)[1] == PrintItems(vs[1..])[0] == p[0];
    }
  }

  lemma ReadNameBack(n: string, rest: string)
    requires IsNameText(n) && Delimits(rest)
    ensures ReadValue("/" + n + rest) == Some((Name(n), rest))
  {
    var s := "/" + n + rest;
    assert s[1..] == n + rest;
    RunIs(IsNameChar, n, rest);
    assert (n + rest)[..|n|] == n && (n + rest)[|n|..] == rest;
  }

  lemma ReadStrBack(t: string, rest: string)
    requires '\r' !in t
    ensures ReadValue(PdfString(t) + rest) == Some((Str(t), rest))
  {
    ThreePassesEscapeEach(t);
    ReadEscaped(t, rest);
    assert (PdfString(t) + rest)[1..] == EscapeEach(t) + ")" + rest;
  }

  lemma ReadNullBack(rest: string)
    ensures ReadValue("null" + rest) == Some((Null, rest))
  {
    var s := "null" + rest;
    assert s[..4] == "null" && s[4..] == rest;
    NotPrefix("<< ", s, 0);
  }

  /** A value that starts like a number is read by the number reader. */
  lemma NumbersReadAsNumbers(s: string)
    requires s != [] && IsNumChar(s[0])
    ensures ReadValue(s) == ReadNumber(s)
  {
    NotPrefix("<< ", s, 0);
    NotPrefix("null", s, 0);
  }

  lemma {:induction false} ReadValueBack(v: Value, rest: string)
    requires Clean(v) && Delimits(rest)
    ensures ReadValue(Print(v) + rest) == Some((v, rest))
    decreases v, 1
  {
    FirstChar(v);
    var s := Print(v) + rest;
    match v
    case Name(n) =>
      ReadNameBack(n, rest);
    case Num(t) =>
      NumbersReadAsNumbers(s);
      ReadNumberBack(t, rest);
    case Ref(n) =>
      NumbersReadAsNumbers(s);
      ReadRefBack(n, rest);
    case Str(t) =>
      ReadStrBack(t, rest);
    case Null =>
      ReadNullBack(rest);
    case Arr(items) =>
      ReadItemsBack(v, items, rest);
      ReadArrayIs(items, rest);
    case Dict(entries) =>
      ReadEntriesBack(v, entries, rest);
      ReadDictIs(entries, rest);
  }

  lemma ReadArrayIs(items: seq<Value>, rest: string)
    requires ReadItems(PrintItems(items) + rest) == Some((items, rest))
    ensures ReadValue("[" + PrintItems(items) + rest) == Some((Arr(items), rest))
  {
    hide PrintItems, ReadEntries, ReadItems, ReadString, ReadNumber, CleanEntry, Clean, RunLength;
    assert ("[" + PrintItems(items) + rest)[1..] == PrintItems(items) + rest;
  }

  lemma ReadDictIs(entries: seq<Entry>, rest: string)
    requires ReadEntries(PrintEntries(entries) + rest) == Some((entries, rest))
    ensures ReadValue("<< " + PrintEntries(entries) + rest) == Some((Dict(entries), rest))
  {
    hide PrintEntries, ReadEntries, ReadItems, ReadString, ReadNumber, CleanEntry, Clean, RunLength;
    var s := "<< " + PrintEntries(entries) + rest;
    assert s[3..] == PrintEntries(entries) + rest;
    assert "<< " <= s;
    assert s[0] == '<';
  }

  lemma {:induction false} ReadItemsBack(whole: Value, vs: seq<Value>, rest: string)
    requires forall v :: v in vs ==> Clean(v) && v < whole
    ensures ReadItems(PrintItems(vs) + rest) == Some((vs, rest))
    decreases whole, 0, |vs|
  {
    hide ReadValue, Delimits, Print, Clean;
    if vs == [] {
      assert ("]" + rest)[1..] == rest;
    } else {
      var tail := PrintItems(vs[1..]) + rest;
      hide PrintItems, AfterFirst, ReadItems;
      var between := AfterFirst(vs, rest);
      assert forall v :: v in vs[1..] ==> v in vs;
      ItemsText(vs, rest);
      BetweenItems(vs, rest);
      FirstChar(vs[0]);
      ReadValueBack(vs[0], between);
      ReadItemsBack(whole, vs[1..], rest);
      ReadItemIs(vs[0], between, tail, vs[1..], rest);
      assert [vs[0]] + vs[1..] == vs;
    }
  }

  lemma ReadItemIs(v: Value, between: string, tail: string, vs: seq<Value>, rest: string)
    requires Print(v) != [] && Print(v)[0] != ']'
    requires ReadValue(Print(v) + between) == Some((v, between))
    requires (if " " <= between then between[1..] else between) == tail
    requires ReadItems(tail) == Some((vs, rest))
    ensures ReadItems(Print(v) + between) == Some(([v] + vs, rest))
  {
    hide ReadValue, Print, Clean;
    NotPrefix("]", Print(v) + between, 0);
  }

  lemma ItemsText(vs: seq<Value>, rest: string)
    requires vs != []
    ensures PrintItems(vs) + rest == Print(vs[0]) + AfterFirst(vs, rest)
  {
    hide Print;
    Assoc4(Print(vs[0]), if |vs| == 1 then "" else " ", PrintItems(vs[1..]), rest);
  }

  lemma BetweenItems(vs: seq<Value>, rest: string)
    requires vs != [] && forall v :: v in vs ==> Clean(v)
    ensures var between := AfterFirst(vs, rest);
            && Delimits(between)
            && (if " " <= between then between[1..] else between) == PrintItems(vs[1..]) + rest
  {
    hide Print, Clean;
    var tail := PrintItems(vs[1..]) + rest;
    if |vs| == 1 {
      assert AfterFirst(vs, rest) == tail && tail[0] == ']';
      NotPrefix(" ", tail, 0);
      NotPrefix(" 0 R", tail, 0);
    } else {
      hide PrintItems;
      ItemsAreNoRefTail(vs[1..], rest);
      assert AfterFirst(vs, rest) == " " + tail;
      SpaceThen("0 R", tail);
    }
  }

  lemma SpaceThen(lit: string, tail: string)
    ensures " " <= " " + tail && (" " + tail)[1..] == tail
    ensures " " + lit <= " " + tail <==> lit <= tail
  {
    if " " + lit <= " " + tail {
      assert (" " + lit)[1..] == lit;
    }
  }

  lemma {:induction false} ReadEntriesBack(whole: Value, es: seq<Entry>, rest: string)
    requires forall e :: e in es ==> CleanEntry(e) && e.value < whole
    ensures ReadEntries(PrintEntries(es) + rest) == Some((es, rest))
    decreases whole, 0, |es|
  {
    hide ReadValue, Print, Clean;
    var s := PrintEntries(es) + rest;
    if es == [] {
      assert s[..2] == ">>" && s[2..] == rest;
    } else {
      var tail := PrintEntries(es[1..]) + rest;
      var key, v := es[0].key, es[0].value;
      assert tail[0] == PrintEntries(es[1..])[0];
      SpaceThen("0 R", tail);
      NotPrefix("0 R", tail, 0);
      ReadValueBack(v, " " + tail);
      ReadEntriesBack(whole, es[1..], rest);
      EntryText(es, rest);
      ReadEntryIs(key, v, " " + tail, es[1..], rest);
      assert [es[0]] + es[1..] == es;
    }
  }

  lemma EntryText(es: seq<Entry>, rest: string)
    requires es != []
    ensures PrintEntries(es) + rest ==
            "/" + (es[0].key + (" " + (Print(es[0].value) + (" " + (PrintEntries(es[1..]) + rest)))))
  {
  }

  lemma ReadEntryIs(key: string, v: Value, afterValue: string, es: seq<Entry>, rest: string)
    requires IsNameText(key)
    requires ReadValue(Print(v) + afterValue) == Some((v, afterValue))
    requires afterValue != [] && afterValue[0] == ' '
    requires ReadEntries(afterValue[1..]) == Some((es, rest))
    ensures ReadEntries("/" + (key + (" " + (Print(v) + afterValue)))) == Some(([Entry(key, v)] + es, rest))
  {
    hide Print, ReadValue, RunLength, Clean, CleanEntry;
    var afterKey := " " + (Print(v) + afterValue);
    var s := "/" + (key + afterKey);
    assert s[1..] == key + afterKey && s[..1] == "/";
    NotPrefix(">>", s, 0);
    RunIs(IsNameChar, key, afterKey);
    assert (key + afterKey)[..|key|] == key && (key + afterKey)[|key|..] == afterKey;
    ExpectBack(" ", Print(v) + afterValue);
    assert afterValue == " " + afterValue[1..];
    ExpectBack(" ", afterValue[1..]);
  }
}

/**
 Text primitives shared by the document writers and their readers: optional
 results, decimal numerals, and scanning a prefix off a string.
 */
module Text {

  datatype Option<+T> = None | Some(value: T) {
    predicate IsFailure() {
      None?
    }

    function PropagateFailure<U>(): Option<U>
      requires None?
    {
      None
    }

    function Extract(): T
      requires Some?
    {
      value
    }
  }

  /** A byte as a number. */
  type Octet = n: nat | n < 256

  function Min(a: nat, b: nat): nat {
    if a < b then a else b
  }

  function Max(a: nat, b: nat): nat {
    if a < b then b else a
  }

  //// The first occurrence of a character.

  /** The position of the first c, or -1. */
  function IndexOf(s: string, c: char): (n: int)
    ensures -1 <= n < |s|
    ensures n >= 0 ==> s[n] == c
  {
    if s == [] then -1
    else if s[0] == c then 0
    else
      var n := IndexOf(s[1..], c);
      if n == -1 then -1 else n + 1
  }

  lemma {:induction false} IndexOfIsFirst(s: string, c: char)
    ensures IndexOf(s, c) == -1 <==> c !in s
    ensures IndexOf(s, c) >= 0 ==> c !in s[..IndexOf(s, c)]
    decreases |s|
  {
    if s != [] && s[0] != c {
      IndexOfIsFirst(s[1..], c);
      assert s == [s[0]] + s[1..];
      var n := IndexOf(s, c);
      assert n >= 0 ==> s[..n] == [s[0]] + s[1..][..n - 1];
    }
  }

  /** Appending moves no first occurrence, and adds one only where there was none. */
  lemma {:induction false} IndexOfAppend(a: string, b: string, c: char)
    ensures IndexOf(a + b, c) ==
            if IndexOf(a, c) >= 0 then IndexOf(a, c)
            else if IndexOf(b, c) == -1 then -1
            else |a| + IndexOf(b, c)
    decreases |a|
  {
    if a == [] {
      assert a + b == b;
    } else {
      assert (a + b)[0] == a[0] && (a + b)[1..] == a[1..] + b;
      IndexOfAppend(a[1..], b, c);
    }
  }

  //// White space.

  /** White space in the sense of JavaScript's trim. */
  predicate IsBlank(c: char) {
    var n := c as int;
    || 0x09 <= n <= 0x0d || n == 0x20 || n == 0xa0 || n == 0x1680 || 0x2000 <= n <= 0x200a
    || n == 0x2028 || n == 0x2029 || n == 0x202f || n == 0x205f || n == 0x3000 || n == 0xfeff
  }

  predicate AllBlank(s: string) {
    forall i :: 0 <= i < |s| ==> IsBlank(s[i])
  }

  /** JavaScript's trim. */
  function Trim(s: string): (t: string)
    ensures |t| <= |s|
    decreases |s|
  {
    if s == [] then s
    else if IsBlank(s[0]) then Trim(s[1..])
    else if IsBlank(s[|s| - 1]) then Trim(s[..|s| - 1])
    else s
  }

  lemma {:induction false} TrimIsEmpty(s: string)
    ensures Trim(s) == "" <==> AllBlank(s)
    decreases |s|
  {
    if s != [] {
      if IsBlank(s[0]) {
        TrimIsEmpty(s[1..]);
        assert AllBlank(s) <==> AllBlank(s[1..]) by {
          assert s == [s[0]] + s[1..];
        }
      } else if IsBlank(s[|s| - 1]) {
        TrimIsEmpty(s[..|s| - 1]);
        assert !AllBlank(s[..|s| - 1]);
      }
    }
  }

  /** White space in front is trimmed. */
  lemma {:induction false} TrimDropsBlanks(blanks: string, s: string)
    requires AllBlank(blanks)
    ensures Trim(blanks + s) == Trim(s)
  {
    if blanks == [] {
      assert blanks + s == s;
    } else {
      assert (blanks + s)[0] == blanks[0] && (blanks + s)[1..] == blanks[1..] + s;
      TrimDropsBlanks(blanks[1..], s);
    }
  }

  /** What is not white space stays: a text in front makes the trimmed one longer, unless there was none. */
  lemma {:induction false} TrimKeepsText(front: string, s: string)
    requires !AllBlank(front) && !AllBlank(s)
    ensures |Trim(front + s)| > |Trim(s)|
    decreases |front| + |s|
  {
    hide IsBlank;
    var t := front + s;
    assert t[0] == front[0] && t[|t| - 1] == s[|s| - 1];
    if IsBlank(front[0]) {
      assert t[1..] == front[1..] + s && front == [front[0]] + front[1..];
      TrimKeepsText(front[1..], s);
    } else if IsBlank(s[|s| - 1]) {
      DropLast(front, s);
      TrimDropsLast(s);
      TrimKeepsText(front, s[..|s| - 1]);
    } else {
      assert Trim(t) == t;
    }
  }

  lemma DropLast(a: string, b: string)
    requires b != []
    ensures (a + b)[..|a + b| - 1] == a + b[..|b| - 1]
  {
  }

  lemma {:induction false} TrimDropsLast(s: string)
    requires s != [] && IsBlank(s[|s| - 1])
    ensures Trim(s[..|s| - 1]) == Trim(s)
    decreases |s|
  {
    var f := s[..|s| - 1];
    if IsBlank(s[0]) {
      if f == [] {
        assert s[1..] == [];
      } else {
        assert s[1..][..|s| - 2] == f[1..];
        TrimDropsLast(s[1..]);
      }
    }
  }

  //// Numerals.

  predicate IsDigit(c: char) {
    '0' <= c <= '9'
  }

  predicate AllDigits(s: string) {
    forall i :: 0 <= i < |s| ==> IsDigit(s[i])
  }

  function DigitChar(d: nat): (c: char)
    requires d < 10
    ensures IsDigit(c) && DigitValue(c) == d
  {
    '0' + d as char
  }

  function DigitValue(c: char): (d: nat)
    requires IsDigit(c)
    ensures d < 10
  {
    c as int - '0' as int
  }

  /** The shortest decimal numeral of n. */
  function Decimal(n: nat): (s: string)
    ensures s != [] && AllDigits(s)
  {
    if n < 10 then [DigitChar(n)] else Decimal(n / 10) + [DigitChar(n % 10)]
  }

  function IntText(n: int): string {
    if n < 0 then "-" + Decimal(-n) else Decimal(n)
  }

  function DecimalValue(s: string): (n: nat)
    requires AllDigits(s)
  {
    if s == [] then 0 else DecimalValue(s[..|s| - 1]) * 10 + DigitValue(s[|s| - 1])
  }

  lemma LastDigit(front: string, d: nat)
    requires AllDigits(front) && d < 10
    ensures AllDigits(front + [DigitChar(d)])
    ensures DecimalValue(front + [DigitChar(d)]) == DecimalValue(front) * 10 + d
  {
    assert (front + [DigitChar(d)])[..|front|] == front;
  }

  lemma {:induction false} DecimalBack(n: nat)
    ensures DecimalValue(Decimal(n)) == n
  {
    if n < 10 {
      LastDigit([], n);
      assert [] + [DigitChar(n)] == [DigitChar(n)];
    } else {
      DecimalBack(n / 10);
      LastDigit(Decimal(n / 10), n % 10);
    }
  }

  function Zeros(n: nat): (s: string)
    ensures |s| == n && AllDigits(s)
  {
    if n == 0 then "" else Zeros(n - 1) + "0"
  }

  /** The numeral of n, filled with zeros on the left to at least `width` digits. */
  function Padded(n: nat, width: nat): (s: string)
    ensures AllDigits(s) && DecimalValue(s) == n
    ensures |s| >= width
    ensures |s| == width || s == Decimal(n)
  {
    var d := Decimal(n);
    DecimalBack(n);
    if |d| >= width then
      d
    else
      ZerosInFront(width - |d|, d);
      Zeros(width - |d|) + d
  }

  lemma {:induction false} ZerosValue(k: nat)
    ensures DecimalValue(Zeros(k)) == 0
  {
    if k > 0 {
      assert (Zeros(k - 1) + "0")[..k - 1] == Zeros(k - 1);
      ZerosValue(k - 1);
    }
  }

  lemma {:induction false} ZerosInFront(k: nat, s: string)
    requires AllDigits(s)
    ensures AllDigits(Zeros(k) + s)
    ensures DecimalValue(Zeros(k) + s) == DecimalValue(s)
    decreases |s|
  {
    if s == [] {
      assert Zeros(k) + s == Zeros(k);
      ZerosValue(k);
    } else {
      var t := Zeros(k) + s;
      assert t[..|t| - 1] == Zeros(k) + s[..|s| - 1];
      ZerosInFront(k, s[..|s| - 1]);
    }
  }

  function Power2(k: nat): nat {
    if k == 0 then 1 else 2 * Power2(k - 1)
  }

  function Power10(k: nat): nat {
    if k == 0 then 1 else 10 * Power10(k - 1)
  }

  /** A numeral has at most k digits exactly when its number is below 10^k. */
  lemma {:induction false} DecimalLength(n: nat, k: nat)
    requires k > 0
    ensures |Decimal(n)| <= k <==> n < Power10(k)
    decreases k
  {
    if n < 10 {
      Power10AtLeast(k);
    } else if k == 1 {
      assert Power10(1) == 10 * Power10(0);
    } else {
      DecimalLength(n / 10, k - 1);
      assert n / 10 < Power10(k - 1) <==> n < 10 * Power10(k - 1);
    }
  }

  lemma {:induction false} Power10AtLeast(k: nat)
    requires k > 0
    ensures Power10(k) >= 10
  {
    if k > 1 {
      Power10AtLeast(k - 1);
    } else {
      assert Power10(1) == 10 * Power10(0);
    }
  }

  /** The length of the longest prefix of s whose characters all satisfy p. */
  function RunLength(p: char -> bool, s: string): (n: nat)
    ensures n <= |s|
    ensures forall i :: 0 <= i < n ==> p(s[i])
    ensures n < |s| ==> !p(s[n])
  {
    if s == [] || !p(s[0]) then 0 else 1 + RunLength(p, s[1..])
  }

  lemma RunIs(p: char -> bool, a: string, rest: string)
    requires forall i :: 0 <= i < |a| ==> p(a[i])
    requires rest == [] || !p(rest[0])
    ensures RunLength(p, a + rest) == |a|
  {
    assert forall i :: 0 <= i < |a| ==> (a + rest)[i] == a[i];
    assert rest != [] ==> (a + rest)[|a|] == rest[0];
  }

  /** Removes the literal `lit` from the front of s. */
  function Expect(s: string, lit: string): (r: Option<string>)
    ensures r.Some? ==> s == lit + r.value
  {
    if lit <= s then Some(s[|lit|..]) else None
  }

  lemma ExpectBack(lit: string, rest: string)
    ensures Expect(lit + rest, lit) == Some(rest)
  {
    assert (lit + rest)[..|lit|] == lit;
  }

  /** Reads an unsigned decimal numeral off the front of s. */
  function ReadNat(s: string): (r: Option<(nat, string)>)
    ensures r.Some? ==> |r.value.1| < |s|
  {
    var n := RunLength(IsDigit, s);
    if n == 0 then None else Some((DecimalValue(s[..n]), s[n..]))
  }

  lemma ReadNatBack(n: nat, rest: string)
    requires rest == [] || !IsDigit(rest[0])
    ensures ReadNat(Decimal(n) + rest) == Some((n, rest))
  {
    DecimalBack(n);
    RunIs(IsDigit, Decimal(n), rest);
    assert (Decimal(n) + rest)[..|Decimal(n)|] == Decimal(n);
  }

  lemma Assoc<T>(a: seq<T>, b: seq<T>, c: seq<T>)
    ensures (a + b) + c == a + (b + c)
  {
  }

  lemma Assoc4<T>(a: seq<T>, b: seq<T>, c: seq<T>, d: seq<T>)
    ensures ((a + b) + c) + d == a + ((b + c) + d)
  {
  }

  lemma AssocRight<T>(a: seq<T>, b: seq<T>, c: seq<T>, d: seq<T>)
    ensures a + b + c + d == a + (b + (c + d))
  {
    Assoc(a + b, c, d);
    Assoc(a, b, c + d);
  }

  lemma NothingAdded<T>(a: seq<T>)
    ensures a + [] == a
  {
  }

  lemma AfterPrefix(a: string, b: string)
    ensures (a + b)[|a|..] == b && (a + b)[..|a|] == a && a <= a + b
  {
  }

  lemma NotPrefix(lit: string, s: string, k: nat)
    requires k < |lit|
    requires k < |s| ==> s[k] != lit[k]
    ensures !(lit <= s)
  {
  }
}

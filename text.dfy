/** The decimal text the renderer prints for unsigned integers (`{}` applied to a `usize` or a
    `u8`), space-separated lists of such numbers, and a reader for that text against which the
    format is stated: reading back what was printed gives the numbers that were printed. */
module Text {

  datatype Option<T> = None | Some(value: T)

  predicate IsDigit(c: char) {
    '0' <= c <= '9'
  }

  predicate AllDigits(s: string) {
    forall k :: 0 <= k < |s| ==> IsDigit(s[k])
  }

  function DigitValue(c: char): nat
    requires IsDigit(c)
  {
    c as int - '0' as int
  }

  function DigitChar(d: nat): (c: char)
    requires d < 10
    ensures IsDigit(c) && DigitValue(c) == d
  {
    ('0' as int + d) as char
  }

  /** `{}` on an unsigned integer: its digits, most significant first, without sign or
      leading zeros; zero is printed as "0". */
  function Decimal(n: nat): (s: string)
    ensures |s| >= 1 && AllDigits(s)
    ensures s[0] == '0' <==> n == 0
    ensures n == 0 ==> s == "0"
    decreases n
  {
    if n < 10 then [DigitChar(n)] else Decimal(n / 10) + [DigitChar(n % 10)]
  }

  /** The number a string of digits denotes. */
  function ValueOf(s: string): nat
    requires AllDigits(s)
    decreases |s|
  {
    if s == [] then 0 else 10 * ValueOf(s[..|s| - 1]) + DigitValue(s[|s| - 1])
  }

  /** Reading a field: a nonempty run of digits. */
  function ParseNat(s: string): Option<nat> {
    if |s| > 0 && AllDigits(s) then Some(ValueOf(s)) else None
  }

  /** The printed digits of `n` denote `n`. */
  lemma {:induction false} DecimalRoundTrip(n: nat)
    ensures ParseNat(Decimal(n)) == Some(n)
  {
    var s := Decimal(n);
    if n >= 10 {
      DecimalRoundTrip(n / 10);
      assert s[..|s| - 1] == Decimal(n / 10);
      assert ValueOf(s) == 10 * (n / 10) + n % 10;
    }
  }

  /** The pieces of `s` between single spaces, in order; a string without spaces is one field. */
  function Fields(s: string): (r: seq<string>)
    ensures |r| >= 1
    decreases |s|
  {
    if s == [] then [""]
    else
      var rest := Fields(s[1..]);
      if s[0] == ' ' then [""] + rest else [[s[0]] + rest[0]] + rest[1..]
  }

  lemma {:induction false} FieldsOfWord(a: string)
    requires ' ' !in a
    ensures Fields(a) == [a]
  {
    if a != [] {
      FieldsOfWord(a[1..]);
      assert [a[0]] + a[1..] == a;
    }
  }

  lemma {:induction false} FieldsOfJoin(a: string, b: string)
    requires ' ' !in a
    ensures Fields(a + " " + b) == [a] + Fields(b)
  {
    var s := a + " " + b;
    if a == [] {
      assert s[1..] == b;
    } else {
      assert s[1..] == a[1..] + " " + b;
      FieldsOfJoin(a[1..], b);
      assert [a[0]] + a[1..] == a;
    }
  }

  /** `"{} {} ... {}"`: the numbers in decimal, separated by single spaces. */
  function Spaced(ns: seq<nat>): (s: string)
    ensures forall k :: 0 <= k < |s| ==> IsDigit(s[k]) || s[k] == ' '
  {
    if |ns| == 0 then ""
    else if |ns| == 1 then Decimal(ns[0])
    else Decimal(ns[0]) + " " + Spaced(ns[1..])
  }

  function ParseAll(fields: seq<string>): Option<seq<nat>> {
    if fields == [] then Some([])
    else
      match ParseNat(fields[0])
      case None => None
      case Some(n) =>
        match ParseAll(fields[1..])
        case None => None
        case Some(ns) => Some([n] + ns)
  }

  /** Reading a line of space-separated decimals; fails on an empty field or a non-digit. */
  function ParseNats(s: string): Option<seq<nat>> {
    ParseAll(Fields(s))
  }

  /** Reading back a printed list gives the list: the numbers, in order, one per field. */
  lemma {:induction false} SpacedRoundTrip(ns: seq<nat>)
    requires |ns| >= 1
    ensures ParseNats(Spaced(ns)) == Some(ns)
  {
    FieldsOfSpaced(ns);
    ParseAllDecimals(ns);
  }

  function Decimals(ns: seq<nat>): (r: seq<string>)
    ensures |r| == |ns|
  {
    if ns == [] then [] else [Decimal(ns[0])] + Decimals(ns[1..])
  }

  lemma {:induction false} FieldsOfSpaced(ns: seq<nat>)
    requires |ns| >= 1
    ensures Fields(Spaced(ns)) == Decimals(ns)
  {
    var d := Decimal(ns[0]);
    assert forall k :: 0 <= k < |d| ==> d[k] != ' ';
    if |ns| == 1 {
      FieldsOfWord(d);
    } else {
      FieldsOfSpaced(ns[1..]);
      FieldsOfJoin(d, Spaced(ns[1..]));
    }
  }

  lemma {:induction false} ParseAllDecimals(ns: seq<nat>)
    ensures ParseAll(Decimals(ns)) == Some(ns)
  {
    if ns != [] {
      DecimalRoundTrip(ns[0]);
      ParseAllDecimals(ns[1..]);
      assert Decimals(ns)[1..] == Decimals(ns[1..]);
      assert [ns[0]] + ns[1..] == ns;
    }
  }
}

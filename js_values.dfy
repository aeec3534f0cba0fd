/** JavaScript values as the handlers receive them, and the conversions the
    handlers apply to them: truthiness, `String(v)`, `parseInt(v, 10)`,
    `isNaN(v)`, and how the database reads a value bound into a query. */
module JsValues {

  datatype Option<T> = None | Some(value: T)

  /** A value taken from a JSON request body, a route parameter or a query
      string. JavaScript numbers are modelled as integers. */
  datatype JsVal = Undefined | Null | Bool(b: bool) | Num(n: int) | Str(s: string)

  /** JavaScript truthiness, the value `if (v)` and `!v` act on. */
  predicate Truthy(v: JsVal) {
    match v
    case Undefined => false
    case Null => false
    case Bool(b) => b
    case Num(n) => n != 0
    case Str(s) => s != ""
  }

  /** The white space that `parseInt`, `Number` and the database skip (ASCII only). */
  predicate IsSpace(c: char) {
    c == ' ' || c == '\t' || c == '\n' || c == '\r'
  }

  predicate IsDigit(c: char) {
    '0' <= c <= '9'
  }

  predicate AllDigits(s: string) {
    forall i | 0 <= i < |s| :: IsDigit(s[i])
  }

  function DigitChar(d: nat): (c: char)
    requires d < 10
    ensures IsDigit(c) && c as int - '0' as int == d
  {
    ('0' as int + d) as char
  }

  /** The number a run of decimal digits denotes. */
  function DigitsValue(ds: string): nat
    requires AllDigits(ds)
    decreases |ds|
  {
    if ds == [] then 0
    else 10 * DigitsValue(ds[..|ds| - 1]) + (ds[|ds| - 1] as int - '0' as int)
  }

  /** The decimal digits of n, most significant first, without leading zeros. */
  function NatText(n: nat): (s: string)
    ensures |s| > 0 && AllDigits(s)
    ensures n > 0 ==> s[0] != '0'
    decreases n
  {
    if n < 10 then [DigitChar(n)]
    else
      var s := NatText(n / 10) + [DigitChar(n % 10)];
      assert s[0] == NatText(n / 10)[0];
      s
  }

  /** `String(n)` for an integer n. */
  function DecimalText(n: int): string {
    if n < 0 then "-" + NatText(-n) else NatText(n)
  }

  /** `String(v)`: the text JavaScript converts a value to. */
  function JsString(v: JsVal): string {
    match v
    case Undefined => "undefined"
    case Null => "null"
    case Bool(b) => if b then "true" else "false"
    case Num(n) => DecimalText(n)
    case Str(s) => s
  }

  function SkipSpace(s: string): (t: string)
    ensures t == [] || !IsSpace(t[0])
  {
    if s != [] && IsSpace(s[0]) then SkipSpace(s[1..]) else s
  }

  function DropTrailingSpace(s: string): (t: string)
    ensures t == [] || !IsSpace(t[|t| - 1])
  {
    if s != [] && IsSpace(s[|s| - 1]) then DropTrailingSpace(s[..|s| - 1]) else s
  }

  function Trim(s: string): string {
    DropTrailingSpace(SkipSpace(s))
  }

  /** The longest prefix of s made of decimal digits. */
  function LeadingDigits(s: string): (ds: string)
    ensures AllDigits(ds) && ds <= s
    ensures |ds| < |s| ==> !IsDigit(s[|ds|])
  {
    if s != [] && IsDigit(s[0]) then [s[0]] + LeadingDigits(s[1..]) else []
  }

  /** `parseInt(s, 10)`: skip leading white space, read an optional sign and
      the longest run of decimal digits after it; None stands for NaN, the
      result when there is no digit. Whatever follows the digits is ignored. */
  function ParseIntText(s: string): Option<int> {
    var t := SkipSpace(s);
    var signed := t != [] && (t[0] == '-' || t[0] == '+');
    var ds := LeadingDigits(if signed then t[1..] else t);
    if ds == [] then None
    else if signed && t[0] == '-' then Some(-(DigitsValue(ds) as int))
    else Some(DigitsValue(ds))
  }

  /** `parseInt(v, 10)`, which first converts v with `String(v)`: undefined,
      null and the booleans have no digits and give NaN, and a string that is
      a whole integer is read as that integer. */
  function ParseInt(v: JsVal): (r: Option<int>)
    ensures v == Undefined || v == Null || v.Bool? ==> r.None?
    ensures v.Str? && IntLiteral(v.s).Some? ==> r == IntLiteral(v.s)
  {
    if v.Str? && IntLiteral(v.s).Some? then
      ParseIntTextOfLiteral(v.s);
      ParseIntText(JsString(v))
    else
      ParseIntText(JsString(v))
  }

  /** A whole string that denotes an integer: white space around an optional
      sign and at least one digit, and nothing else. Among integers these are
      the strings that both `Number(s)` and the database's integer input accept. */
  function IntLiteral(s: string): Option<int> {
    var t := Trim(s);
    var signed := t != [] && (t[0] == '-' || t[0] == '+');
    var body := if signed then t[1..] else t;
    if body == [] || !AllDigits(body) then None
    else if signed && t[0] == '-' then Some(-(DigitsValue(body) as int))
    else Some(DigitsValue(body))
  }

  /** `isNaN(v)`, that is, `Number(v)` is NaN. `Number` maps null, booleans and
      blank strings to numbers, and undefined to NaN. A string of digits is a
      number, and a non-blank string that is one is read by `parseInt` as the
      whole string denotes it. */
  function NumberIsNaN(v: JsVal): (nan: bool)
    ensures v == Undefined ==> nan
    ensures v.Str? && v.s != [] && AllDigits(v.s) ==> !nan
    ensures v.Str? && !nan && Trim(v.s) != [] ==> IntLiteral(v.s).Some? && ParseInt(v) == IntLiteral(v.s)
  {
    match v
    case Undefined => true
    case Null => false
    case Bool(_) => false
    case Num(_) => false
    case Str(s) =>
      var nan := Trim(s) != [] && IntLiteral(s).None?;
      if s != [] && AllDigits(s) then
        IntLiteralOfDigits(s);
        nan
      else
        nan
  }

  /** What the database makes of a value bound where an integer is expected,
      as in `WHERE id = :id`: an integer, NULL (which equals nothing), or a
      query error. An undefined replacement makes the query throw before it
      reaches the database, which the handlers answer with 500. */
  datatype IntBinding = Int(i: int) | SqlNull | SqlError

  function BindInt(v: JsVal): (r: IntBinding)
    ensures r.SqlNull? <==> v == Null
    ensures v.Num? ==> r == Int(v.n)
    ensures v.Str? && r.Int? ==> ParseInt(v) == Some(r.i)
  {
    match v
    case Undefined => SqlError
    case Null => SqlNull
    case Bool(_) => SqlError
    case Num(n) => Int(n)
    case Str(s) => if IntLiteral(s).Some? then Int(IntLiteral(s).value) else SqlError
  }

  /** SQL `a = b` on integer columns is TRUE: neither side NULL, same integer. */
  predicate SqlIntEq(a: JsVal, b: JsVal) {
    BindInt(a).Int? && BindInt(a) == BindInt(b)
  }

  /** The text a value is stored as in a text column; None is NULL. */
  function TextOf(v: JsVal): Option<string> {
    match v
    case Undefined => None
    case Null => None
    case _ => Some(JsString(v))
  }

  /** SQL `a = b` on text columns is TRUE: neither side NULL, same text. */
  predicate SqlTextEq(a: JsVal, b: JsVal) {
    TextOf(a).Some? && TextOf(a) == TextOf(b)
  }

  /** The value a text column hands back to JavaScript. */
  function FromText(t: Option<string>): JsVal {
    match t
    case None => Null
    case Some(s) => Str(s)
  }

  // ---------------------------------------------------------------------
  // Lemmas

  lemma {:induction false} DigitsValueAppend(ds: string, c: char)
    requires AllDigits(ds) && IsDigit(c)
    ensures AllDigits(ds + [c])
    ensures DigitsValue(ds + [c]) == 10 * DigitsValue(ds) + (c as int - '0' as int)
  {
    var s := ds + [c];
    assert s[..|s| - 1] == ds;
  }

  /** The digits String(n) prints denote n. */
  lemma {:induction false} NatTextValue(n: nat)
    ensures DigitsValue(NatText(n)) == n
    decreases n
  {
    if n < 10 {
      assert NatText(n)[..0] == [];
    } else {
      NatTextValue(n / 10);
      DigitsValueAppend(NatText(n / 10), DigitChar(n % 10));
    }
  }

  lemma {:induction false} LeadingDigitsOf(ds: string, rest: string)
    requires AllDigits(ds)
    requires rest == [] || !IsDigit(rest[0])
    ensures LeadingDigits(ds + rest) == ds
    decreases |ds|
  {
    if ds == [] {
      assert ds + rest == rest;
    } else {
      assert (ds + rest)[1..] == ds[1..] + rest;
      LeadingDigitsOf(ds[1..], rest);
      assert [ds[0]] + ds[1..] == ds;
    }
  }

  lemma ParseDigits(ds: string, rest: string)
    requires AllDigits(ds) && ds != []
    requires rest == [] || !IsDigit(rest[0])
    ensures ParseIntText(ds + rest) == Some(DigitsValue(ds))
  {
    var s := ds + rest;
    assert s[0] == ds[0];
    assert SkipSpace(s) == s;
    LeadingDigitsOf(ds, rest);
  }

  /** A text starting with '-' parses as the negated value of the digits after it. */
  lemma ParseMinus(s: string, ds: string)
    requires s != [] && s[0] == '-'
    requires LeadingDigits(s[1..]) == ds && ds != []
    ensures ParseIntText(s) == Some(-(DigitsValue(ds) as int))
  {
    assert SkipSpace(s) == s;
  }

  lemma ParseNegatedDigits(ds: string, rest: string)
    requires AllDigits(ds) && ds != []
    requires rest == [] || !IsDigit(rest[0])
    ensures ParseIntText("-" + (ds + rest)) == Some(-(DigitsValue(ds) as int))
  {
    var s := "-" + (ds + rest);
    assert s[1..] == ds + rest;
    LeadingDigitsOf(ds, rest);
    ParseMinus(s, ds);
  }

  lemma NatTextThenText(n: nat, rest: string)
    requires rest == [] || !IsDigit(rest[0])
    ensures ParseIntText(NatText(n) + rest) == Some(n)
  {
    var ds := NatText(n);
    NatTextValue(n);
    ParseDigits(ds, rest);
  }

  lemma NegatedTextThenText(n: nat, rest: string)
    requires rest == [] || !IsDigit(rest[0])
    ensures ParseIntText("-" + (NatText(n) + rest)) == Some(-(n as int))
  {
    var ds := NatText(n);
    NatTextValue(n);
    ParseNegatedDigits(ds, rest);
  }

  /** `parseInt` reads back the number `String(n)` prints, whatever non-digit
      text follows it: `parseInt("7")` is 7 and so is `parseInt("7 people")`. */
  lemma DecimalTextThenText(n: int, rest: string)
    requires rest == [] || !IsDigit(rest[0])
    ensures ParseIntText(DecimalText(n) + rest) == Some(n)
  {
    if n < 0 {
      assert DecimalText(n) + rest == "-" + (NatText(-n) + rest);
      NegatedTextThenText(-n, rest);
    } else {
      NatTextThenText(n, rest);
    }
  }

  /** `parseInt` of a number gives the number back. */
  lemma ParseIntOfNumber(n: int)
    ensures ParseInt(Num(n)) == Some(n)
  {
    DecimalTextThenText(n, []);
    assert DecimalText(n) + [] == DecimalText(n);
  }

  /** DropTrailingSpace removes a suffix made of white space only. */
  lemma {:induction false} DropTrailingSpaceSplit(u: string)
    ensures DropTrailingSpace(u) <= u
    ensures forall i | |DropTrailingSpace(u)| <= i < |u| :: IsSpace(u[i])
    decreases |u|
  {
    if u != [] && IsSpace(u[|u| - 1]) {
      var v := u[..|u| - 1];
      DropTrailingSpaceSplit(v);
      assert DropTrailingSpace(u) == DropTrailingSpace(v);
      forall i | |DropTrailingSpace(u)| <= i < |u|
        ensures IsSpace(u[i])
      {
        if i < |v| {
          assert u[i] == v[i];
        }
      }
    }
  }

  /** After the leading white space, the trimmed text is followed only by
      white space. */
  lemma TrimThenSpace(s: string)
    ensures Trim(s) <= SkipSpace(s)
    ensures |Trim(s)| < |SkipSpace(s)| ==> IsSpace(SkipSpace(s)[|Trim(s)|])
  {
    DropTrailingSpaceSplit(SkipSpace(s));
  }

  /** The digit run at the start of x is ds when x starts with ds and the
      character after it, if any, is not a digit. */
  lemma {:induction false} LeadingDigitsPrefix(x: string, ds: string)
    requires AllDigits(ds) && ds <= x
    requires |ds| < |x| ==> !IsDigit(x[|ds|])
    ensures LeadingDigits(x) == ds
    decreases |ds|
  {
    if ds != [] {
      assert x[0] == ds[0];
      assert ds[1..] <= x[1..];
      LeadingDigitsPrefix(x[1..], ds[1..]);
      assert ds == [ds[0]] + ds[1..];
    }
  }

  /** On a string that is a whole integer, `parseInt` and `Number` agree. */
  lemma ParseIntTextOfLiteral(s: string)
    requires IntLiteral(s).Some?
    ensures ParseIntText(s) == IntLiteral(s)
  {
    var u := SkipSpace(s);
    var t := Trim(s);
    TrimThenSpace(s);
    assert t != [] && u[0] == t[0];
    if t[0] == '-' || t[0] == '+' {
      assert t[1..] <= u[1..];
      LeadingDigitsPrefix(u[1..], t[1..]);
    } else {
      LeadingDigitsPrefix(u, t);
    }
  }

  /** `String(n)` is never empty. */
  lemma DecimalTextNonEmpty(n: int)
    ensures DecimalText(n) != ""
  {
    if n >= 0 {
      assert |NatText(n)| > 0;
    }
  }

  lemma TrimNoSpace(s: string)
    requires s != [] && !IsSpace(s[0]) && !IsSpace(s[|s| - 1])
    ensures Trim(s) == s
  {
    assert SkipSpace(s) == s;
    assert DropTrailingSpace(s) == s;
  }

  lemma IntLiteralOfDigits(ds: string)
    requires AllDigits(ds) && ds != []
    ensures IntLiteral(ds) == Some(DigitsValue(ds))
  {
    TrimNoSpace(ds);
  }

  lemma IntLiteralOfNegatedDigits(ds: string)
    requires AllDigits(ds) && ds != []
    ensures IntLiteral("-" + ds) == Some(-(DigitsValue(ds) as int))
  {
    var s := "-" + ds;
    assert s[|s| - 1] == ds[|ds| - 1];
    TrimNoSpace(s);
    assert s[1..] == ds;
  }

  lemma IntLiteralOfNatText(n: nat)
    ensures IntLiteral(NatText(n)) == Some(n)
  {
    var ds := NatText(n);
    NatTextValue(n);
    IntLiteralOfDigits(ds);
  }

  lemma IntLiteralOfNegatedText(n: nat)
    ensures IntLiteral("-" + NatText(n)) == Some(-(n as int))
  {
    var ds := NatText(n);
    NatTextValue(n);
    IntLiteralOfNegatedDigits(ds);
    assert -(DigitsValue(ds) as int) == -(n as int);
  }

  /** The database reads the text `String(n)` as the integer n, so a route
      parameter "42" selects the row with id 42. */
  lemma BindDecimalText(n: int)
    ensures BindInt(Str(DecimalText(n))) == Int(n)
  {
    var t := DecimalText(n);
    if n < 0 {
      assert t == "-" + NatText(-n);
      IntLiteralOfNegatedText(-n);
    } else {
      assert t == NatText(n);
      IntLiteralOfNatText(n);
    }
    BindLiteral(t, n);
  }

  lemma BindLiteral(t: string, n: int)
    requires IntLiteral(t) == Some(n)
    ensures BindInt(Str(t)) == Int(n)
  {
  }


}

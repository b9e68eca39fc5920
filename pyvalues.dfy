/** Python values as the video-generation package sees them: optional values,
    decoded JSON documents (objects keep their insertion order, as a Python
    dict does), truthiness, `str`/`repr` rendering and decimal integers. */
module PyValues {

  datatype Option<+T> = None | Some(value: T)

  datatype Result<+T, +E> = Ok(value: T) | Err(error: E)

  /** A value produced by Python's `json` module. Objects are association
      lists in insertion order; their keys are assumed to be distinct. */
  datatype Json =
    | JNull
    | JBool(b: bool)
    | JInt(i: int)
    | JFloat(r: real)
    | JStr(s: string)
    | JList(items: seq<Json>)
    | JObj(fields: seq<(string, Json)>)

  /** The entries of a dict built by the package (`details`, payloads). */
  type Fields = seq<(string, Json)>

  /** Python's truth value of a decoded JSON value (`if x:`). */
  predicate Truthy(j: Json) {
    match j
    case JNull => false
    case JBool(b) => b
    case JInt(i) => i != 0
    case JFloat(r) => r != 0.0
    case JStr(s) => s != []
    case JList(xs) => xs != []
    case JObj(fs) => fs != []
  }

  /** The name Python reports for the type of a decoded JSON value. */
  function TypeName(j: Json): string {
    match j
    case JNull => "NoneType"
    case JBool(_) => "bool"
    case JInt(_) => "int"
    case JFloat(_) => "float"
    case JStr(_) => "str"
    case JList(_) => "list"
    case JObj(_) => "dict"
  }

  /** `d.get(key)` on a dict given by its entries. */
  function Get(fields: Fields, key: string): (r: Option<Json>)
    ensures r.Some? ==> exists i :: 0 <= i < |fields| && fields[i] == (key, r.value)
    ensures r.None? ==> forall i :: 0 <= i < |fields| ==> fields[i].0 != key
  {
    if fields == [] then None
    else if fields[0].0 == key then Some(fields[0].1)
    else
      var r := Get(fields[1..], key);
      assert r.Some? ==> exists i :: 1 <= i < |fields| && fields[i] == (key, r.value) by {
        if r.Some? {
          var i :| 0 <= i < |fields[1..]| && fields[1..][i] == (key, r.value);
          assert fields[i + 1] == (key, r.value);
        }
      }
      r
  }

  /** Lookups in a dict of one or two entries. */
  lemma GetSmall(fields: Fields, key: string)
    requires |fields| <= 2
    ensures |fields| == 0 ==> Get(fields, key) == None
    ensures |fields| >= 1 && fields[0].0 == key ==> Get(fields, key) == Some(fields[0].1)
    ensures |fields| == 1 && fields[0].0 != key ==> Get(fields, key) == None
    ensures |fields| == 2 && fields[0].0 != key && fields[1].0 == key ==> Get(fields, key) == Some(fields[1].1)
    ensures |fields| == 2 && fields[0].0 != key && fields[1].0 != key ==> Get(fields, key) == None
  {
    if |fields| == 2 {
      assert fields[1..] == [fields[1]];
    }
  }

  /** The first entry with the key decides the lookup. */
  lemma {:induction false} GetAt(fields: Fields, key: string, i: nat)
    requires i < |fields| && fields[i].0 == key
    requires forall j :: 0 <= j < i ==> fields[j].0 != key
    ensures Get(fields, key) == Some(fields[i].1)
  {
    if i > 0 {
      assert fields[1..][i - 1] == fields[i];
      GetAt(fields[1..], key, i - 1);
    }
  }

  /** `key in d`. */
  predicate HasKey(fields: Fields, key: string) {
    Get(fields, key).Some?
  }

  /** `d.get(key, default)`. */
  function GetOr(fields: Fields, key: string, default: Json): Json {
    match Get(fields, key)
    case Some(v) => v
    case None => default
  }

  // ---------------------------------------------------------------------
  // Decimal integers (`str(n)`)
  // ---------------------------------------------------------------------

  predicate IsDigit(c: char) {
    '0' <= c <= '9'
  }

  function DigitChar(d: nat): (c: char)
    requires d < 10
    ensures IsDigit(c)
  {
    ('0' as int + d) as char
  }

  /** `str(n)` for a non-negative integer. */
  function NatToDecimal(n: nat): (r: string)
    ensures |r| >= 1
    ensures forall i :: 0 <= i < |r| ==> IsDigit(r[i])
    decreases n
  {
    if n < 10 then [DigitChar(n)] else NatToDecimal(n / 10) + [DigitChar(n % 10)]
  }

  /** `str(i)` for any integer. */
  function IntToDecimal(i: int): (r: string)
    ensures |r| >= 1
    ensures forall k :: 0 <= k < |r| ==> IsDigit(r[k]) || r[k] == '-'
  {
    if i < 0 then "-" + NatToDecimal(-i) else NatToDecimal(i)
  }

  /** The value of a string of decimal digits (the inverse of NatToDecimal). */
  function DecimalValue(s: string): nat
    requires forall i :: 0 <= i < |s| ==> IsDigit(s[i])
  {
    if s == [] then 0
    else
      assert IsDigit(s[|s| - 1]);
      DecimalValue(s[..|s| - 1]) * 10 + (s[|s| - 1] as int - '0' as int)
  }

  /** Reading back what `str(n)` printed gives n. */
  lemma {:induction false} DecimalRoundTrip(n: nat)
    ensures DecimalValue(NatToDecimal(n)) == n
    decreases n
  {
    var r := NatToDecimal(n);
    if n >= 10 {
      DecimalRoundTrip(n / 10);
      assert r[..|r| - 1] == NatToDecimal(n / 10);
    }
  }

  /** Different integers print differently: `str` is injective on int. */
  lemma IntToDecimalInjective(a: int, b: int)
    requires IntToDecimal(a) == IntToDecimal(b)
    ensures a == b
  {
    var ra, rb := IntToDecimal(a), IntToDecimal(b);
    assert (a < 0) == (ra[0] == '-') && (b < 0) == (rb[0] == '-');
    if a < 0 {
      assert NatToDecimal(-a) == ra[1..] == rb[1..] == NatToDecimal(-b);
      DecimalRoundTrip(-a);
      DecimalRoundTrip(-b);
    } else {
      DecimalRoundTrip(a);
      DecimalRoundTrip(b);
    }
  }

  // ---------------------------------------------------------------------
  // repr
  // ---------------------------------------------------------------------

  function HexDigit(d: nat): char
    requires d < 16
  {
    if d < 10 then DigitChar(d) else ('a' as int + (d - 10)) as char
  }

  /** Characters `repr` writes as a `\xhh` escape: the C0 controls other
      than tab, newline and carriage return, DEL, and the Latin-1 characters
      Python does not count as printable (the C1 controls, the no-break space
      and the soft hyphen). */
  predicate HexEscaped(c: char) {
    c < ' ' || ('\U{7F}' <= c <= '\U{A0}') || c == '\U{AD}'
  }

  /** One character of a string literal as `repr` writes it between quotes. */
  function EscapeChar(c: char, quote: char): string {
    if c == '\\' then "\\\\"
    else if c == quote then ['\\', quote]
    else if c == '\n' then "\\n"
    else if c == '\r' then "\\r"
    else if c == '\t' then "\\t"
    else if HexEscaped(c) then "\\x" + [HexDigit(c as int / 16), HexDigit(c as int % 16)]
    else [c]
  }

  function EscapeChars(s: string, quote: char): string {
    if s == [] then "" else EscapeChar(s[0], quote) + EscapeChars(s[1..], quote)
  }

  /** `repr(s)`: single quotes unless the text holds a single quote and no
      double quote. */
  function StrRepr(s: string): (r: string)
    ensures |r| >= 2
  {
    var quote := if '\'' in s && '"' !in s then '"' else '\'';
    [quote] + EscapeChars(s, quote) + [quote]
  }

  /** The repr opens and closes with the same quote, a double quote exactly
      when the text holds a single quote and no double quote. */
  lemma StrReprQuoting(s: string)
    ensures var r := StrRepr(s);
      && r[0] == r[|r| - 1]
      && (r[0] == '"' <==> '\'' in s && '"' !in s)
      && (r[0] == '\'' || r[0] == '"')
  {
  }

  /** A character `repr` writes as itself. */
  predicate PlainChar(c: char) {
    ' ' <= c <= '\U{FF}' && !HexEscaped(c) && c != '\\' && c != '\'' && c != '"'
  }

  /** A text of plain characters is quoted as it stands. */
  lemma {:induction false} EscapePlain(s: string, quote: char)
    requires quote == '\'' || quote == '"'
    requires forall i :: 0 <= i < |s| ==> PlainChar(s[i])
    ensures EscapeChars(s, quote) == s
    decreases |s|
  {
    if s != [] {
      EscapePlain(s[1..], quote);
    }
  }

  /** Lower-case ASCII letters and underscores are plain. */
  lemma LowerWordPlain(s: string)
    requires forall i :: 0 <= i < |s| ==> 'a' <= s[i] <= 'z' || s[i] == '_'
    ensures forall i :: 0 <= i < |s| ==> PlainChar(s[i])
  {
  }

  lemma StrReprPlain(s: string)
    requires forall i :: 0 <= i < |s| ==> PlainChar(s[i])
    ensures StrRepr(s) == "'" + s + "'"
  {
    assert forall i :: 0 <= i < |s| ==> s[i] != '\'';
    EscapePlain(s, '\'');
  }

  predicate IsHexDigit(c: char) {
    '0' <= c <= '9' || 'a' <= c <= 'f'
  }

  function HexValue(c: char): (n: nat)
    requires IsHexDigit(c)
    ensures n < 16
  {
    if c <= '9' then c as int - '0' as int else c as int - 'a' as int + 10
  }

  lemma HexRoundTrip(d: nat)
    requires d < 16
    ensures IsHexDigit(HexDigit(d)) && HexValue(HexDigit(d)) == d
  {
  }

  function Prepend(c: char, rest: Option<string>): Option<string> {
    if rest.Some? then Some([c] + rest.value) else None
  }

  /** Reads back the text between the quotes of a `repr`, as Python reads a
      string literal: None for a backslash that starts no escape `repr`
      writes. */
  function Unescape(t: string): Option<string>
    decreases |t|
  {
    if t == [] then Some([])
    else if t[0] != '\\' then Prepend(t[0], Unescape(t[1..]))
    else if |t| < 2 then None
    else if t[1] == '\\' || t[1] == '\'' || t[1] == '"' then Prepend(t[1], Unescape(t[2..]))
    else if t[1] == 'n' then Prepend('\n', Unescape(t[2..]))
    else if t[1] == 'r' then Prepend('\r', Unescape(t[2..]))
    else if t[1] == 't' then Prepend('\t', Unescape(t[2..]))
    else if |t| >= 4 && t[1] == 'x' && IsHexDigit(t[2]) && IsHexDigit(t[3]) then
      Prepend((HexValue(t[2]) * 16 + HexValue(t[3])) as char, Unescape(t[4..]))
    else None
  }

  /** Reading back one written character. */
  lemma UnescapeStep(c: char, quote: char, rest: string)
    requires quote == '\'' || quote == '"'
    ensures Unescape(EscapeChar(c, quote) + rest) == Prepend(c, Unescape(rest))
  {
    var e := EscapeChar(c, quote);
    var t := e + rest;
    if c == '\\' || c == quote {
      assert e == ['\\', c] && t[2..] == rest;
    } else if c == '\n' || c == '\r' || c == '\t' {
      assert |e| == 2 && e[0] == '\\' && t[2..] == rest;
    } else if HexEscaped(c) {
      var hi, lo := c as int / 16, c as int % 16;
      HexRoundTrip(hi);
      HexRoundTrip(lo);
      assert e == ['\\', 'x', HexDigit(hi), HexDigit(lo)];
      assert t[4..] == rest;
    } else {
      assert e == [c] && t[1..] == rest;
    }
  }

  lemma {:induction false} UnescapeEscapes(s: string, quote: char)
    requires quote == '\'' || quote == '"'
    ensures Unescape(EscapeChars(s, quote)) == Some(s)
    decreases |s|
  {
    if s != [] {
      UnescapeEscapes(s[1..], quote);
      UnescapeStep(s[0], quote, EscapeChars(s[1..], quote));
      assert [s[0]] + s[1..] == s;
    }
  }

  /** What `repr` writes between its quotes reads back as the text. */
  lemma StrReprRoundTrip(s: string)
    ensures var r := StrRepr(s); Unescape(r[1..|r| - 1]) == Some(s)
  {
    var quote := if '\'' in s && '"' !in s then '"' else '\'';
    var r := StrRepr(s);
    assert r[1..|r| - 1] == EscapeChars(s, quote);
    UnescapeEscapes(s, quote);
  }

  /** Different texts have different `repr`s. */
  lemma StrReprInjective(a: string, b: string)
    requires StrRepr(a) == StrRepr(b)
    ensures a == b
  {
    StrReprRoundTrip(a);
    StrReprRoundTrip(b);
  }

  /** Digits of a fraction 0 <= f < 1, at most `budget` of them. */
  function FractionDigits(f: real, budget: nat): string
    requires 0.0 <= f < 1.0
    decreases budget
  {
    if f == 0.0 || budget == 0 then ""
    else
      var d := (f * 10.0).Floor;
      assert 0 <= d < 10;
      [DigitChar(d)] + FractionDigits(f * 10.0 - d as real, budget - 1)
  }

  function DropTrailingZeros(s: string): string {
    if s != [] && s[|s| - 1] == '0' then DropTrailingZeros(s[..|s| - 1]) else s
  }

  /** How many fractional digits `repr` of a float shows at most. */
  const ReprDigits: nat := 17

  /** `repr(x)` of a float, with x an exact real: the integer part, a point and
      at most `ReprDigits` fractional digits (at least one). */
  function FloatRepr(r: real): string {
    if r < 0.0 then "-" + UnsignedFloatRepr(-r) else UnsignedFloatRepr(r)
  }

  function UnsignedFloatRepr(r: real): string
    requires r >= 0.0
  {
    var whole := r.Floor;
    var digits := DropTrailingZeros(FractionDigits(r - whole as real, ReprDigits));
    NatToDecimal(whole) + "." + (if digits == [] then "0" else digits)
  }

  /** `sep.join(parts)`. */
  function Join(sep: string, parts: seq<string>): string {
    if parts == [] then ""
    else if |parts| == 1 then parts[0]
    else parts[0] + sep + Join(sep, parts[1..])
  }

  /** `repr(v)` of a decoded JSON value, as a dict prints inside an f-string. */
  function Repr(j: Json): string
    decreases j
  {
    match j
    case JNull => "None"
    case JBool(b) => if b then "True" else "False"
    case JInt(i) => IntToDecimal(i)
    case JFloat(r) => FloatRepr(r)
    case JStr(s) => StrRepr(s)
    case JList(xs) => "[" + Join(", ", seq(|xs|, k requires 0 <= k < |xs| => Repr(xs[k]))) + "]"
    case JObj(fs) =>
      "{" + Join(", ", seq(|fs|, k requires 0 <= k < |fs| => StrRepr(fs[k].0) + ": " + Repr(fs[k].1))) + "}"
  }

  /** A dict of one entry prints as `{key: value}`. */
  lemma ReprOfOneEntry(k: string, v: Json)
    ensures Repr(JObj([(k, v)])) == "{" + StrRepr(k) + ": " + Repr(v) + "}"
  {
    var fs := [(k, v)];
    var items := seq(|fs|, i requires 0 <= i < |fs| => StrRepr(fs[i].0) + ": " + Repr(fs[i].1));
    assert items == [StrRepr(k) + ": " + Repr(v)];
  }

  /** A dict of two entries prints as `{key1: value1, key2: value2}`. */
  lemma ReprOfTwoEntries(k1: string, v1: Json, k2: string, v2: Json)
    ensures Repr(JObj([(k1, v1), (k2, v2)]))
      == "{" + StrRepr(k1) + ": " + Repr(v1) + ", " + StrRepr(k2) + ": " + Repr(v2) + "}"
  {
    var fs := [(k1, v1), (k2, v2)];
    var items := seq(|fs|, i requires 0 <= i < |fs| => StrRepr(fs[i].0) + ": " + Repr(fs[i].1));
    var a, b := StrRepr(k1) + ": " + Repr(v1), StrRepr(k2) + ": " + Repr(v2);
    assert items == [a, b];
    JoinTwo(a, b);
    RegroupEntries(StrRepr(k1), Repr(v1), StrRepr(k2), Repr(v2));
  }

  lemma JoinTwo(a: string, b: string)
    ensures Join(", ", [a, b]) == a + ", " + b
  {
    assert [a, b][1..] == [b];
  }

  lemma RegroupEntries(s1: string, s2: string, s3: string, s4: string)
    ensures "{" + (s1 + ": " + s2 + ", " + (s3 + ": " + s4)) + "}"
      == "{" + s1 + ": " + s2 + ", " + s3 + ": " + s4 + "}"
  {
  }

  /** `str(v)`: a string is itself, anything else is its repr. */
  function PyStr(j: Json): string {
    if j.JStr? then j.s else Repr(j)
  }
}

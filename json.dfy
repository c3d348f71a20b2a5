/** JSON values as the codec sees them once the text has been parsed: an
    object is a map from keys to values. The codec reads every scalar the
    same way, with `x.toString()` and, for numbers, `Integer.valueOf` on
    that text; this module models exactly those two steps. */
module Json {
  import opened Common

  datatype Json =
    | JInt(n: int)
    | JStr(s: string)
    | JObj(fields: map<string, Json>)
    | JArr(items: seq<Json>)

  /** A JSONObject. */
  type Record = map<string, Json>

  predicate IsDigit(ch: char) {
    '0' <= ch <= '9'
  }

  predicate AllDigits(s: string) {
    forall i :: 0 <= i < |s| ==> IsDigit(s[i])
  }

  function DigitChar(d: int): (ch: char)
    requires 0 <= d < 10
    ensures IsDigit(ch)
  {
    ('0' as int + d) as char
  }

  /** The number a run of decimal digits denotes, most significant first. */
  function DigitsValue(s: string): nat
    requires AllDigits(s)
  {
    if s == [] then 0
    else DigitsValue(s[..|s| - 1]) * 10 + (s[|s| - 1] as int - '0' as int)
  }

  /** The decimal text of a natural number: no sign, no leading zero. */
  function Natural(n: nat): (s: string)
    ensures |s| > 0 && AllDigits(s)
  {
    if n < 10 then [DigitChar(n)]
    else Natural(n / 10) + [DigitChar(n % 10)]
  }

  /** `Integer.toString(n)` and `Long.toString(n)`. */
  function Decimal(n: int): string {
    if n < 0 then "-" + Natural(-n) else Natural(n)
  }

  /** `Integer.valueOf(s)`: an optional sign, then at least one decimal
      digit, denoting a value in the range of `int`; anything else throws
      NumberFormatException. */
  function ParseInt32(s: string): (r: Result<Int32>)
    ensures r.Err? ==> r.error == NumberFormat
    ensures r.Ok? && AllDigits(s) ==> r.value == DigitsValue(s)
  {
    var signed := |s| > 0 && (s[0] == '-' || s[0] == '+');
    var digits := if signed then s[1..] else s;
    if digits == [] || !AllDigits(digits) then Err(NumberFormat)
    else
      var v: int := if signed && s[0] == '-' then -(DigitsValue(digits) as int) else DigitsValue(digits);
      if IsInt32(v) then Ok(v) else Err(NumberFormat)
  }

  /** The digits of `Natural(n)` denote n. */
  lemma {:induction false} NaturalValue(n: nat)
    ensures DigitsValue(Natural(n)) == n
  {
    if n >= 10 {
      NaturalValue(n / 10);
      var s := Natural(n);
      assert s[..|s| - 1] == Natural(n / 10);
    }
  }

  /** Printing a number and parsing the text back gives the number when it
      fits in an `int`, and NumberFormatException when it does not. */
  lemma DecimalRoundTrip(n: int)
    ensures ParseInt32(Decimal(n)) == if IsInt32(n) then Ok(n) else Err(NumberFormat)
  {
    var s := Decimal(n);
    if n < 0 {
      var d := Natural(-n);
      assert s == "-" + d;
      assert s[0] == '-' && s[1..] == d;
      NaturalValue(-n);
    } else {
      var d := Natural(n);
      assert s == d;
      assert IsDigit(s[0]);
      NaturalValue(n);
    }
  }

  /** `Integer.valueOf(v.toString())`. A number's text is its decimal form,
      so it reads back as itself when it fits in an `int`
      (`ReadIntOfNumberText`); the text of an object or an array starts with
      a brace or a bracket, which is never a number. */
  function ReadInt(v: Json): (r: Result<Int32>)
    ensures r.Err? ==> r.error == NumberFormat
  {
    match v
    case JInt(n) => if IsInt32(n) then Ok(n) else Err(NumberFormat)
    case JStr(s) => ParseInt32(s)
    case JObj(_) => Err(NumberFormat)
    case JArr(_) => Err(NumberFormat)
  }

  /** `v.toString()` where the codec wants a string. The JSON text of an
      object or an array is not modelled. */
  function ReadString(v: Json): (r: Result<string>)
    ensures r.Ok? <==> v.JStr? || v.JInt?
    ensures v.JStr? ==> r == Ok(v.s)
  {
    match v
    case JInt(n) => Ok(Decimal(n))
    case JStr(s) => Ok(s)
    case JObj(_) => Err(Unmodelled)
    case JArr(_) => Err(Unmodelled)
  }

  /** `v.toString()` where it is only compared with a meeting type tag:
      None stands for the text of an object or an array, which starts with
      a brace or a bracket and so equals no tag. */
  function ReadTag(v: Json): (t: Option<string>)
    ensures v.JStr? ==> t == Some(v.s)
  {
    match v
    case JInt(n) => Some(Decimal(n))
    case JStr(s) => Some(s)
    case JObj(_) => None
    case JArr(_) => None
  }

  /** `Integer.valueOf(r.get(key).toString())`: a missing key yields null,
      and calling toString on it throws NullPointerException. */
  function IntAt(r: Record, key: string): Result<Int32>
  {
    if key in r then ReadInt(r[key]) else Err(NullPointer)
  }

  /** `r.get(key).toString()`. */
  function StringAt(r: Record, key: string): Result<string>
  {
    if key in r then ReadString(r[key]) else Err(NullPointer)
  }

  /** For a number, `ReadInt` is `Integer.valueOf` of its decimal text. */
  lemma ReadIntOfNumberText(n: int)
    ensures ReadInt(JInt(n)) == ParseInt32(Decimal(n))
  {
    DecimalRoundTrip(n);
  }
}

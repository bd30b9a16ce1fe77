/**
 * NullToZeroConverter: a Json.NET converter for `int` that reads a null or empty
 * value as 0 and writes a null value as the JSON null token.
 *
 * The reader and the writer are reduced to the one token read or written.
 */
module Converters {
  import opened Wrappers
  import opened Decimal

  /**
   * The .NET types a converter may be asked about. Each type has one spelling:
   * `Named` never names a type that has a constructor of its own here (so never
   * System.Int32, System.Int64, System.Boolean or System.String), and `Nullable`
   * wraps only value types (never StringType and never another Nullable).
   */
  datatype ClrType = Int32Type | Int64Type | BooleanType | StringType | Nullable(underlying: ClrType) | Named(fullName: string)

  /** The value a JsonReader holds for the current token, minus floating point and dates. */
  datatype Token =
    | Null                    // JSON null (reader.Value == null)
    | Str(s: string)          // a JSON string
    | Integer(n: int)         // a JSON integer: an Int64, or a BigInteger past the Int64 range
    | Boolean(b: bool)        // JSON true or false

  /** CanConvert: the converter applies to `int` only, not to `int?` or any other type. */
  function CanConvert(objectType: ClrType): (r: bool)
    ensures r <==> objectType == Int32Type
  {
    objectType == Int32Type
  }

  /** `Convert.ToInt32(reader.Value)` for the kinds of value a token holds. */
  function ConvertToInt32(token: Token): Result<int32, Exception>
  {
    match token
    case Null => Success(0)
    case Str(s) => ParseInt32(s)
    case Integer(n) =>
      if InInt32(n) then Success(n)
      else if InInt64(n) then Failure(OverflowException)
      else Failure(InvalidCastException)   // BigInteger does not implement IConvertible
    case Boolean(b) => Success(if b then 1 else 0)
  }

  /**
   * ReadJson: 0 for a null token or an empty string, else Convert.ToInt32 of the
   * value, which throws for a string that is not an integer literal and for a
   * number outside the Int32 range.
   */
  function ReadJson(token: Token): (r: Result<int32, Exception>)
    ensures token == Null || token == Str("") ==> r == Success(0)
    ensures token.Integer? ==> (r.Success? <==> InInt32(token.n)) && (r.Success? ==> r.value == token.n)
    ensures token.Str? && token.s != "" ==> r == ParseInt32(token.s)
    ensures r == Success(0) ==>
      token in {Null, Str(""), Integer(0), Boolean(false)} || (token.Str? && ParseInt32(token.s) == Success(0))
  {
    if token == Null || (token.Str? && token.s == "") then Success(0)
    else ConvertToInt32(token)
  }

  /** What WriteJson may be handed: a boxed int, or another object seen through its ToString() text. */
  datatype Boxed = BoxedInt(n: int32) | BoxedObject(text: string)

  function ToText(value: Boxed): string
  {
    match value
    case BoxedInt(n) => ToDecimal(n)
    case BoxedObject(text) => text
  }

  /**
   * WriteJson: the null token for a null value; otherwise `Int32.Parse(value.ToString())`
   * written as a number, or the exception that parse throws.
   */
  function WriteJson(value: Option<Boxed>): (r: Result<Token, Exception>)
    ensures r == Success(Null) <==> value.None?
    ensures r.Success? && value.Some? ==> r.value.Integer? && InInt32(r.value.n)
    ensures value.Some? ==> (r.Failure? <==> ParseInt32(ToText(value.value)).Failure?)
  {
    match value
    case None => Success(Null)
    case Some(b) =>
      match ParseInt32(ToText(b))
      case Success(n) => Success(Integer(n))
      case Failure(e) => Failure(e)
  }

  lemma CanConvertExamples()
    ensures CanConvert(Int32Type)
    ensures !CanConvert(Nullable(Int32Type))
    ensures !CanConvert(Int64Type)
  {
  }

  /** A decimal string of an Int32, as Json.NET would read it from a quoted number, gives that number. */
  lemma ReadJsonDecimalString(n: int32)
    ensures ReadJson(Str(ToDecimal(n))) == Success(n)
  {
    ParseInt32OfDecimal(n);
  }

  /** A string holding a character that is neither digit, sign nor white space is a format error, never 0. */
  lemma ReadJsonRejectsForeign(s: string, i: nat)
    requires i < |s| && !IsDigit(s[i]) && !IsWhite(s[i]) && !IsSign(s[i])
    ensures ReadJson(Str(s)) == Failure(FormatException)
  {
    ParseInt32RejectsForeign(s, i);
  }

  /** Only the empty string is read as 0: white space alone is a format error. */
  lemma ReadJsonRejectsBlank(s: string)
    requires s != "" && forall i :: 0 <= i < |s| ==> IsWhite(s[i])
    ensures ReadJson(Str(s)) == Failure(FormatException)
  {
    ParseInt32RejectsBlank(s);
  }

  /** A string or a number outside the Int32 range is an error, never 0 and never wrapped. */
  lemma ReadJsonOutOfRange(n: int)
    requires !InInt32(n)
    ensures ReadJson(Str(ToDecimal(n))) == Failure(OverflowException)
    ensures ReadJson(Integer(n)).Failure?
  {
    ParseInt32Overflows(n);
  }

  lemma ReadJsonExamples()
    ensures ReadJson(Null) == Success(0)
    ensures ReadJson(Str("")) == Success(0)
    ensures ReadJson(Integer(42)) == Success(42)
    ensures ReadJson(Boolean(true)) == Success(1)
  {
  }

  lemma ReadJsonStringExamples()
    ensures ReadJson(Str("42")) == Success(42)
    ensures ReadJson(Str("abc")) == Failure(FormatException)
  {
    assert ReadJson(Str("42")) == ParseInt32("42");
    ParseInt32AcceptsExamples();
    assert ReadJson(Str("abc")) == ParseInt32("abc");
    ParseInt32RejectsExamples();
  }

  /** Writing an Int32 writes that number; in particular 0 is written as 0, not as null. */
  lemma WriteJsonInt(n: int32)
    ensures WriteJson(Some(BoxedInt(n))) == Success(Integer(n))
  {
    ParseInt32OfDecimal(n);
  }

  /** Every Int32 survives a write followed by a read. */
  lemma {:induction false} WriteReadRoundTrip(n: int32)
    ensures WriteJson(Some(BoxedInt(n))).Success?
    ensures ReadJson(WriteJson(Some(BoxedInt(n))).value) == Success(n)
  {
    WriteJsonInt(n);
  }

  /** Whatever a write succeeds on reads back as the value its text parses to. */
  lemma WriteReadAnyObject(value: Boxed)
    requires WriteJson(Some(value)).Success?
    ensures ReadJson(WriteJson(Some(value)).value) == ParseInt32(ToText(value))
  {
  }

  /** A read followed by a write and a read again gives the first read's number: reads are stable. */
  lemma ReadWriteRead(token: Token)
    requires ReadJson(token).Success?
    ensures WriteJson(Some(BoxedInt(ReadJson(token).value))) == Success(Integer(ReadJson(token).value))
    ensures ReadJson(WriteJson(Some(BoxedInt(ReadJson(token).value))).value) == ReadJson(token)
  {
    WriteReadRoundTrip(ReadJson(token).value);
  }

  /** Absence is not symmetric: a null value is written as null, but null is read as 0. */
  lemma NullAsymmetry()
    ensures WriteJson(None) == Success(Null)
    ensures ReadJson(WriteJson(None).value) == Success(0)
    ensures WriteJson(Some(BoxedInt(0))) != WriteJson(None)
  {
    WriteJsonInt(0);
  }
}

# ShopifySharp parameter flattening and NullToZeroConverter, modelled in Dafny

This project models the two parts of the ShopifySharp client library that carry
behaviour of their own:

- **Parameterizable** (`ShopifySharp/Infrastructure/Parameterizable.cs`), the base class of
  every list filter and request object. `ToParameters` walks the object's declared
  properties in order and skips each one whose value is null. It names each remaining
  property by its `[JsonProperty]` name when the attribute is present, and by its
  declared name otherwise. It then passes (name, value, property) to the virtual
  `ToSingleParameter` and appends the result to the output. The default
  `ToSingleParameter` has four cases. A `long` sequence becomes its comma-joined
  decimal text. An enum becomes its serialized label. A `DateTime` or `DateTimeOffset`
  becomes its `"o"` text. Any other value is passed on unchanged.
- **NullToZeroConverter** (`ShopifySharp/Converters/NullToZeroConverter.cs`), a Json.NET
  converter for `int`. `ReadJson` gives 0 for a null token or an empty string, and
  `Convert.ToInt32` of the value otherwise. `WriteJson` writes the null token for a null
  value, and otherwise writes `Int32.Parse(value.ToString())` as a number.
  `CanConvert` accepts `int` and nothing else, `int?` included.

Files:

- `wrappers.dfy` — module `Wrappers`: `Option` (a .NET null) and `Result` (a value or the exception thrown).
- `decimal.dfy` — module `Decimal`: the `int32`/`int64` ranges and the .NET exceptions. It also
  holds the decimal text `ToString()` prints (`ToDecimal`) and `Int32.Parse` under
  `NumberStyles.Integer` (`ParseInt32`: surrounding white space, an optional sign, digits, then a range check).
- `parameterizable.dfy` — module `Infrastructure`. Reflection becomes a `seq<Property>`,
  where each property has a name, an optional `JsonPropertyAttribute` (whose name may be null)
  and an optional value. The class `Parameterizable` holds that sequence. Its
  `ToParameters` method is a loop proved against the specification function `Parameters`.
  The overridable transform is a function parameter (`Transform`). The default transform is
  `ToSingleParameter`. The library calls it relies on and does not define
  (`ToSerializedString`, `ToString("o")`) arrive as the `Formats` parameter.
- `nulltozero.dfy` — module `Converters`: `CanConvert`, `ReadJson` and `WriteJson`. Each takes
  or returns the single token the reader holds or the writer emits.

The property sequence stands for whatever `GetAllDeclaredProperties` (`Parameterizable.cs:25`) returns. That method's body is not part of this model, so the model takes the sequence as given. It says nothing about whether base-type properties are in it, which is the question the TODO at lines 21-22 raises.

Where the code and its documentation disagree, the model follows the code:

- The comment at `Parameterizable.cs:75` speaks of a "YYYY-MM-DD HH:MM" format. The code formats with `"o"`.
- A `[JsonProperty]` attribute given no name sends the parameter under a null key, not the declared name.
  When the attribute is present, `FirstOrDefault` always finds it, so the `: property.Name` fallback on line 40 is never taken.
- Besides the format error for a non-numeric string, `ReadJson` also fails with an overflow for a value
  outside the Int32 range. Json.NET hands over integers past the Int64 range as `BigInteger`, which
  `Convert.ToInt32` refuses with an invalid-cast error. A JSON boolean reads as 1 or 0.

## Model

| member | source | states |
|---|---|---|
| `Infrastructure.Parameterizable.ToParameters` | ShopifySharp/Infrastructure/Parameterizable.cs:17-49 | the loop's output equals `Parameters` of the properties; it has one entry per non-null property, in property order, and the k-th entry is the transform applied to the k-th non-null property under its wire name; the method reads the object and modifies nothing |
| `Infrastructure.SerializeTwice` | ShopifySharp/Infrastructure/Parameterizable.cs:17-49 | two calls of ToParameters on the same object give equal outputs, since the call changes no state |
| `Infrastructure.ParametersAt` | ShopifySharp/Infrastructure/Parameterizable.cs:19-48 | the output length equals the number of non-null properties; entry k is the transform of the k-th non-null property, with the name chosen on lines 35-41 |
| `Infrastructure.PresentIndicesExact` | ShopifySharp/Infrastructure/Parameterizable.cs:25-33 | the positions that contribute are exactly the non-null ones, each once, in increasing order |
| `Infrastructure.NullPropertyIgnored` | ShopifySharp/Infrastructure/Parameterizable.cs:27-33 | removing a null property, or giving it any other name or attribute, leaves the output unchanged |
| `Infrastructure.AllNullGivesNothing` | ShopifySharp/Infrastructure/Parameterizable.cs:25-33 | an object whose properties are all null gives an empty output |
| `Infrastructure.DefaultParametersAt` | ShopifySharp/Infrastructure/Parameterizable.cs:35-43 | with the default transform, the k-th non-null property is sent under its attribute's PropertyName (null included) when the attribute is present and under its declared name otherwise; its value becomes wire-safe, and a value that is already wire-safe is passed on as it is |
| `Infrastructure.ToSingleParameter` | ShopifySharp/Infrastructure/Parameterizable.cs:61-86 | the returned name is the given name; the returned value is never a long sequence, an enum or a date; the value is unchanged exactly when it was none of those |
| `Infrastructure.ToSingleParameterCases` | ShopifySharp/Infrastructure/Parameterizable.cs:63-85 | a long sequence becomes its comma-joined text, an enum its serialized label, a DateTime or DateTimeOffset its "o" text, and anything else is returned as given |
| `Infrastructure.ToSingleParameterIdempotent` | ShopifySharp/Infrastructure/Parameterizable.cs:63-85 | applying the default transform to its own output changes nothing |
| `Infrastructure.JoinLongsSeparators` | ShopifySharp/Infrastructure/Parameterizable.cs:63-66 | a non-empty sequence of longs is joined with exactly one comma fewer than it has elements |
| `Infrastructure.SplitJoinLongs` | ShopifySharp/Infrastructure/Parameterizable.cs:65 | cutting the joined text at its commas gives the decimal text of each element, in order |
| `Infrastructure.JoinLongsRoundTrip` | ShopifySharp/Infrastructure/Parameterizable.cs:65 | parsing the joined text back gives the original long sequence, the empty one included |
| `Infrastructure.JoinLongsExamples` | ShopifySharp/Infrastructure/Parameterizable.cs:65 | `[1,2,3]` joins to `"1,2,3"`, `[]` to `""` and `[-5]` to `"-5"` |
| `Infrastructure.AbandonedCheckoutFilterDefault` | ShopifySharp/Filters/ShopifyAbandonedCheckoutListFilter.cs:7-8 | the class's own `Status` property, at its default `"open"`, is sent as the single parameter `("status", "open")`; the properties of the `ShopifyListFilter` base class are not part of this model |
| `Infrastructure.MixedObjectExample` | ShopifySharp/Infrastructure/Parameterizable.cs:25-46 | a renamed string, an unannotated long sequence and a null date give `[("status","open"), ("Tags","1,2,3")]` |
| `Converters.CanConvert` | ShopifySharp/Converters/NullToZeroConverter.cs:15-18 | true exactly for `int` |
| `Converters.CanConvertExamples` | ShopifySharp/Converters/NullToZeroConverter.cs:15-18 | `int` is accepted; `int?` and `long` are not |
| `Converters.ReadJson` | ShopifySharp/Converters/NullToZeroConverter.cs:20-24 | a null token and an empty string read as 0; an integer reads as itself exactly when it fits in Int32 and is an error otherwise; a non-empty string reads as `Int32.Parse` of it; a result of 0 comes only from null, the empty string, the integer 0, false or a string parsing to 0 |
| `Converters.ReadJsonDecimalString` | ShopifySharp/Converters/NullToZeroConverter.cs:23 | the decimal text of any Int32 reads as that number |
| `Converters.ReadJsonRejectsForeign` | ShopifySharp/Converters/NullToZeroConverter.cs:23 | a string holding a character that is not a digit, sign or white space is a format error, never 0 |
| `Converters.ReadJsonRejectsBlank` | ShopifySharp/Converters/NullToZeroConverter.cs:22-23 | a non-empty string of white space is a format error: only the empty string is read as 0 |
| `Converters.ReadJsonOutOfRange` | ShopifySharp/Converters/NullToZeroConverter.cs:23 | a string or an integer outside the Int32 range is an error, never 0 and never wrapped |
| `Converters.ReadJsonExamples` | ShopifySharp/Converters/NullToZeroConverter.cs:22-23 | null and `""` read as 0, the integer 42 as 42, true as 1 |
| `Converters.ReadJsonStringExamples` | ShopifySharp/Converters/NullToZeroConverter.cs:22-23 | `"42"` reads as 42; `"abc"` is a format error |
| `Converters.WriteJson` | ShopifySharp/Converters/NullToZeroConverter.cs:26-36 | the null token is written exactly for a null value; otherwise a number in Int32 range is written, or the write fails exactly when the value's text does not parse |
| `Converters.WriteJsonInt` | ShopifySharp/Converters/NullToZeroConverter.cs:34-35 | a boxed Int32 n is written as the number n; 0 is written as 0, not null |
| `Converters.WriteReadRoundTrip` | ShopifySharp/Converters/NullToZeroConverter.cs:20-36 | for every Int32 n, reading what writing n emits gives n |
| `Converters.WriteReadAnyObject` | ShopifySharp/Converters/NullToZeroConverter.cs:20-36 | whatever object a write succeeds on reads back as the number its text parses to |
| `Converters.ReadWriteRead` | ShopifySharp/Converters/NullToZeroConverter.cs:20-36 | writing a number that was read, then reading it again, gives the same number |
| `Converters.NullAsymmetry` | ShopifySharp/Converters/NullToZeroConverter.cs:20-36 | a null value is written as the null token, that token reads back as 0, and writing 0 differs from writing null |
| `Decimal.ToDecimal` | ShopifySharp/Converters/NullToZeroConverter.cs:34 | an integer's `ToString()` text is non-empty, starts with '-' exactly for negatives, and is otherwise made of digits |
| `Decimal.ParseInt32OfDecimal` | ShopifySharp/Converters/NullToZeroConverter.cs:34 | `Int32.Parse` of any Int32's text gives that Int32 back |
| `Decimal.ParseInt32Overflows` | ShopifySharp/Converters/NullToZeroConverter.cs:34 | `Int32.Parse` of the text of a number outside the Int32 range throws an overflow |
| `Decimal.ParseInt32RejectsForeign` | ShopifySharp/Converters/NullToZeroConverter.cs:34 | a character that is not a digit, white space or sign makes `Int32.Parse` throw a format error |
| `Decimal.ParseInt32RejectsBlank` | ShopifySharp/Converters/NullToZeroConverter.cs:34 | the empty string and white space alone are format errors |
| `Decimal.ParseInt32IgnoresPadding` | ShopifySharp/Converters/NullToZeroConverter.cs:34 | white space before and after a literal does not change what it parses to |
| `Decimal.ParseInt32PlusAndZeros` | ShopifySharp/Converters/NullToZeroConverter.cs:34 | a leading '+' and any number of leading zeros in front of a non-negative Int32's digits still parse to that Int32 |
| `Decimal.ParseInt32RejectsInnerWhite` | ShopifySharp/Converters/NullToZeroConverter.cs:34 | white space between two runs of digits is a format error |
| `Decimal.ParseInt32AcceptsExamples` | ShopifySharp/Converters/NullToZeroConverter.cs:34 | `"42"` parses to 42, `" -7\t"` to -7 and `"+0012"` to 12 |
| `Decimal.ParseInt32RangeExamples` | ShopifySharp/Converters/NullToZeroConverter.cs:34 | -2^31 and 2^31-1 parse; 2^31 overflows |
| `Decimal.ParseInt32RejectsExamples` | ShopifySharp/Converters/NullToZeroConverter.cs:34 | `"abc"`, `"4 2"` and `""` are format errors |

## Left out

- Reflection: `GetAllDeclaredProperties`, `CustomAttributes` and `GetValue` are replaced by an explicit property sequence, assumed to be in declaration order.
- `GetAllDeclaredProperties` (called at `Parameterizable.cs:25`): its body is not part of this model. The property sequence stands for whatever it returns, and the model takes that sequence as given. Whether base-type properties are included, the question the TODO at lines 21-22 raises, is therefore not modelled.
- `Transform` and `Formats` are modelled as functions that always return and have no effects. An overriding `ToSingleParameter`, `ToSerializedString` or `ToString("o")` that throws, or that depends on or changes other state, is not modelled. `SerializeTwice` holds under that assumption.
- `Enum.ToSerializedString()`, `DateTime.ToString("o")` and `DateTimeOffset.ToString("o")` are library calls that are not part of this model. They are parameters (`Formats`), so the exact text, and the claim that a date's text parses back to the same instant, are not modelled.
- The `typeof(DateTime?)` and `typeof(DateTimeOffset?)` comparisons: a boxed nullable value never has a nullable runtime type, so the plain checks cover them.
- `ToSingleParameter`'s `property` argument is handed to the transform, as in the source, and the default transform ignores it.
- Culture: `ToString()` of a number and `Int32.Parse` use the current culture's sign symbols. The model uses the invariant culture's '-' and '+'.
- `Int32.Parse` details beyond `NumberStyles.Integer`'s white space, sign and digits: trailing NUL characters, which .NET also accepts, are not modelled.
- Tokens holding floating-point numbers (rounded by `Convert.ToInt32`) and strings Json.NET turns into dates are not modelled. `Convert.ToInt32` of any other kind of boxed value is not modelled either.
- `JsonReader` and `JsonWriter` are reduced to the one token read or written. The `objectType`, `existingValue` and `serializer` arguments are ignored by the source and are not modelled.
- `WriteJson`'s argument is a boxed Int32 or any other object seen through its `ToString()` text. A `ToString()` that throws is not modelled.
- `ShopifySharp/Services/Refund/RefundService.cs` is not part of this model. It is asynchronous HTTP request glue built on base-class helpers.

/**
 * Flattening of an object's properties into query parameters: the default
 * `ToParameters` walk of the abstract Parameterizable class and its default
 * `ToSingleParameter` value transform.
 *
 * Reflection is replaced by an explicit sequence of properties in declaration
 * order, each with its name, its JsonProperty attribute (if any) and its
 * current value (None for null).
 */
module Infrastructure {
  import opened Wrappers
  import opened Decimal

  /** An enum value: its enum type and its underlying number. */
  datatype EnumValue = EnumValue(enumType: string, number: int)

  /** A System.DateTime: its tick count and its kind (Unspecified, Utc or Local). */
  datatype DateTimeKind = Unspecified | Utc | Local
  datatype DateTime = DateTime(ticks: int, kind: DateTimeKind)

  /** A System.DateTimeOffset: its local tick count and its offset from UTC in minutes. */
  datatype DateTimeOffset = DateTimeOffset(ticks: int, offsetMinutes: int)

  /** The boxed value of a property, by the runtime type the transform tests for. */
  datatype Value =
    | LongSeq(longs: seq<int64>)       // any IEnumerable<long>
    | EnumV(e: EnumValue)
    | DateV(date: DateTime)
    | DateOffV(dateOff: DateTimeOffset)
    | Text(s: string)                  // a System.String
    | Number(n: int)                   // any other number
    | Other(typeName: string)          // any other object, left as it is

  /** `[JsonProperty]`, whose PropertyName may be null when the attribute is given no name. */
  datatype JsonPropertyAttribute = JsonPropertyAttribute(propertyName: Option<string>)

  /** What reflection tells about one property of the object. */
  datatype Property = Property(name: string, jsonProperty: Option<JsonPropertyAttribute>, value: Option<Value>)

  /** A KeyValuePair<string, object>; the key is None where .NET has a null string. */
  datatype Parameter = Parameter(key: Option<string>, value: Value)

  /** The virtual ToSingleParameter(propName, value, property). */
  type Transform = (Option<string>, Value, Property) -> Parameter

  /**
   * The library calls the default transform relies on and does not define:
   * `Enum.ToSerializedString()`, `DateTime.ToString("o")` and `DateTimeOffset.ToString("o")`.
   */
  datatype Formats = Formats(
    serialized: EnumValue -> string,
    roundTripDate: DateTime -> string,
    roundTripDateOffset: DateTimeOffset -> string)

  /** `String.Join(",", longs)`: the decimal text of each element, separated by commas. */
  function JoinLongs(longs: seq<int64>): string
    decreases |longs|
  {
    if |longs| == 0 then ""
    else if |longs| == 1 then ToDecimal(longs[0])
    else ToDecimal(longs[0]) + "," + JoinLongs(longs[1..])
  }

  /** A value the HTTP layer can send as it is: neither a long sequence, an enum nor a date. */
  predicate IsWireSafe(v: Value)
  {
    v.Text? || v.Number? || v.Other?
  }

  /**
   * The default ToSingleParameter: a long sequence becomes its comma-joined text,
   * an enum its serialized label, a DateTime or DateTimeOffset its "o" text;
   * any other value is left as it is. The name is never changed.
   */
  function ToSingleParameter(formats: Formats, propName: Option<string>, value: Value, property: Property): (p: Parameter)
    ensures p.key == propName
    ensures IsWireSafe(p.value)
    ensures p.value == value <==> IsWireSafe(value)
  {
    match value
    case LongSeq(longs) => Parameter(propName, Text(JoinLongs(longs)))
    case EnumV(e) => Parameter(propName, Text(formats.serialized(e)))
    case DateV(d) => Parameter(propName, Text(formats.roundTripDate(d)))
    case DateOffV(d) => Parameter(propName, Text(formats.roundTripDateOffset(d)))
    case _ => Parameter(propName, value)
  }

  /** The transform a class that does not override ToSingleParameter uses. */
  function DefaultTransform(formats: Formats): Transform
  {
    (propName, value, property) => ToSingleParameter(formats, propName, value, property)
  }

  /**
   * The name a present property is sent under. When the JsonProperty attribute is
   * there, `FirstOrDefault` finds it, so its PropertyName is used even when that is
   * null; the declared name is used only when there is no attribute.
   */
  function WireName(property: Property): Option<string>
  {
    match property.jsonProperty
    case Some(attribute) => attribute.propertyName
    case None => Some(property.name)
  }

  /** What one property contributes: nothing when its value is null, else one transformed parameter. */
  function Contribution(property: Property, toSingle: Transform): seq<Parameter>
  {
    match property.value
    case None => []
    case Some(v) => [toSingle(WireName(property), v, property)]
  }

  /** The parameters of a list of properties, in their order. */
  function Parameters(properties: seq<Property>, toSingle: Transform): seq<Parameter>
    decreases |properties|
  {
    if properties == [] then []
    else Parameters(properties[..|properties| - 1], toSingle) + Contribution(properties[|properties| - 1], toSingle)
  }

  /** The positions of the properties whose value is not null, in increasing order. */
  function PresentIndices(properties: seq<Property>): seq<nat>
    decreases |properties|
  {
    if properties == [] then []
    else
      var n := |properties| - 1;
      PresentIndices(properties[..n]) + (if properties[n].value.Some? then [n] else [])
  }

  /** PresentIndices lists exactly the non-null positions, each once, in increasing order. */
  lemma {:induction false} PresentIndicesExact(properties: seq<Property>)
    ensures forall k :: 0 <= k < |PresentIndices(properties)| ==>
      PresentIndices(properties)[k] < |properties| && properties[PresentIndices(properties)[k]].value.Some?
    ensures forall j, k :: 0 <= j < k < |PresentIndices(properties)| ==>
      PresentIndices(properties)[j] < PresentIndices(properties)[k]
    ensures forall i :: 0 <= i < |properties| && properties[i].value.Some? ==> i in PresentIndices(properties)
    decreases |properties|
  {
    if properties != [] {
      var n := |properties| - 1;
      var front := properties[..n];
      PresentIndicesExact(front);
      assert forall i :: 0 <= i < n ==> front[i] == properties[i];
    }
  }

  lemma {:induction false} ParametersAppend(a: seq<Property>, b: seq<Property>, toSingle: Transform)
    ensures Parameters(a + b, toSingle) == Parameters(a, toSingle) + Parameters(b, toSingle)
    decreases |b|
  {
    if b == [] {
      assert a + b == a;
    } else {
      var n := |b| - 1;
      assert (a + b)[..|a + b| - 1] == a + b[..n];
      ParametersAppend(a, b[..n], toSingle);
    }
  }

  /**
   * The output holds one parameter per non-null property, in property order:
   * the k-th parameter is the transform applied to the k-th non-null property
   * under its wire name.
   */
  lemma {:induction false} ParametersAt(properties: seq<Property>, toSingle: Transform)
    ensures |Parameters(properties, toSingle)| == |PresentIndices(properties)|
    ensures forall k :: 0 <= k < |PresentIndices(properties)| ==>
      PresentIndices(properties)[k] < |properties| &&
      var p := properties[PresentIndices(properties)[k]];
      p.value.Some? && Parameters(properties, toSingle)[k] == toSingle(WireName(p), p.value.value, p)
    decreases |properties|
  {
    PresentIndicesExact(properties);
    if properties != [] {
      var n := |properties| - 1;
      ParametersAt(properties[..n], toSingle);
      assert forall i :: 0 <= i < n ==> properties[..n][i] == properties[i];
    }
  }

  lemma ParametersSkipNull(before: seq<Property>, q: Property, after: seq<Property>, toSingle: Transform)
    requires q.value.None?
    ensures Parameters(before + [q] + after, toSingle) == Parameters(before + after, toSingle)
  {
    ParametersAppend(before + [q], after, toSingle);
    ParametersAppend(before, [q], toSingle);
    assert Parameters([q], toSingle) == [] by { assert [q][..0] == []; }
    ParametersAppend(before, after, toSingle);
  }

  /** A property whose value is null contributes nothing, whatever its name and attribute. */
  lemma NullPropertyIgnored(properties: seq<Property>, i: nat, name: string, attribute: Option<JsonPropertyAttribute>, toSingle: Transform)
    requires i < |properties| && properties[i].value.None?
    ensures Parameters(properties, toSingle) == Parameters(properties[..i] + properties[i + 1..], toSingle)
    ensures Parameters(properties[i := Property(name, attribute, None)], toSingle) == Parameters(properties, toSingle)
  {
    var before, after := properties[..i], properties[i + 1..];
    assert properties == before + [properties[i]] + after;
    ParametersSkipNull(before, properties[i], after, toSingle);
    var q := Property(name, attribute, None);
    assert properties[i := q] == before + [q] + after;
    ParametersSkipNull(before, q, after, toSingle);
  }

  /** An object whose properties are all null gives no parameters. */
  lemma AllNullGivesNothing(properties: seq<Property>, toSingle: Transform)
    requires forall i :: 0 <= i < |properties| ==> properties[i].value.None?
    ensures Parameters(properties, toSingle) == []
  {
    ParametersAt(properties, toSingle);
    PresentIndicesExact(properties);
  }

  /**
   * With the default transform, the k-th non-null property is sent under its
   * attribute's PropertyName when it has the attribute and under its declared
   * name otherwise, with its value converted to wire-safe form.
   */
  lemma DefaultParametersAt(properties: seq<Property>, formats: Formats, k: nat)
    requires k < |PresentIndices(properties)|
    ensures PresentIndices(properties)[k] < |properties| && k < |Parameters(properties, DefaultTransform(formats))|
    ensures var p := properties[PresentIndices(properties)[k]];
      var out := Parameters(properties, DefaultTransform(formats))[k];
      p.value.Some? &&
      (p.jsonProperty.Some? ==> out.key == p.jsonProperty.value.propertyName) &&
      (p.jsonProperty.None? ==> out.key == Some(p.name)) &&
      IsWireSafe(out.value) &&
      (IsWireSafe(p.value.value) ==> out.value == p.value.value)
  {
    ParametersAt(properties, DefaultTransform(formats));
  }

  /** The default transform's four cases. */
  lemma ToSingleParameterCases(formats: Formats, propName: Option<string>, property: Property)
    ensures forall longs :: ToSingleParameter(formats, propName, LongSeq(longs), property) == Parameter(propName, Text(JoinLongs(longs)))
    ensures forall e :: ToSingleParameter(formats, propName, EnumV(e), property) == Parameter(propName, Text(formats.serialized(e)))
    ensures forall d :: ToSingleParameter(formats, propName, DateV(d), property) == Parameter(propName, Text(formats.roundTripDate(d)))
    ensures forall d :: ToSingleParameter(formats, propName, DateOffV(d), property) == Parameter(propName, Text(formats.roundTripDateOffset(d)))
    ensures forall v :: IsWireSafe(v) ==> ToSingleParameter(formats, propName, v, property) == Parameter(propName, v)
  {
  }

  /** Applying the default transform to its own output changes nothing. */
  lemma ToSingleParameterIdempotent(formats: Formats, propName: Option<string>, value: Value, property: Property)
    ensures var p := ToSingleParameter(formats, propName, value, property);
      ToSingleParameter(formats, p.key, p.value, property) == p
  {
  }

  // ---- The comma-joined text of a long sequence ----

  /** The decimal texts of the elements. */
  function DecimalTexts(longs: seq<int64>): (texts: seq<string>)
    ensures |texts| == |longs|
    ensures forall i :: 0 <= i < |longs| ==> texts[i] == ToDecimal(longs[i])
  {
    if longs == [] then [] else [ToDecimal(longs[0])] + DecimalTexts(longs[1..])
  }

  /** s cut at every comma (an empty s is one empty piece, as String.Split gives). */
  function SplitCommas(s: string): (pieces: seq<string>)
    ensures |pieces| > 0
    decreases |s|
  {
    if s == "" then [""]
    else
      var rest := SplitCommas(s[1..]);
      if s[0] == ',' then [""] + rest else [[s[0]] + rest[0]] + rest[1..]
  }

  lemma {:induction false} SplitNoComma(a: string)
    requires ',' !in a
    ensures SplitCommas(a) == [a]
    decreases |a|
  {
    if a != "" {
      assert a[1..] == a[1..];
      SplitNoComma(a[1..]);
      assert [a[0]] + a[1..] == a;
    }
  }

  lemma {:induction false} SplitAfterPiece(a: string, b: string)
    requires ',' !in a
    ensures SplitCommas(a + "," + b) == [a] + SplitCommas(b)
    decreases |a|
  {
    var s := a + "," + b;
    if a == "" {
      assert s[1..] == b;
    } else {
      assert s[1..] == a[1..] + "," + b;
      SplitAfterPiece(a[1..], b);
      assert [a[0]] + a[1..] == a;
    }
  }

  /** Cutting the joined text at its commas gives back the decimal text of each element. */
  lemma {:induction false} SplitJoinLongs(longs: seq<int64>)
    requires |longs| > 0
    ensures SplitCommas(JoinLongs(longs)) == DecimalTexts(longs)
    decreases |longs|
  {
    var first := ToDecimal(longs[0]);
    assert ',' !in first;
    if |longs| == 1 {
      SplitNoComma(first);
    } else {
      SplitAfterPiece(first, JoinLongs(longs[1..]));
      SplitJoinLongs(longs[1..]);
    }
  }

  /** A non-empty sequence is joined with exactly one comma fewer than it has elements. */
  lemma {:induction false} JoinLongsSeparators(longs: seq<int64>)
    requires |longs| > 0
    ensures multiset(JoinLongs(longs))[','] == |longs| - 1
    decreases |longs|
  {
    var first := ToDecimal(longs[0]);
    assert ',' !in first;
    assert multiset(first)[','] == 0;
    if |longs| > 1 {
      JoinLongsSeparators(longs[1..]);
    }
  }

  /** The reading side: each comma-separated piece parsed as a signed decimal. */
  function ParsePieces(pieces: seq<string>): Option<seq<int>>
  {
    if pieces == [] then Some([])
    else match (ParseInteger(pieces[0]), ParsePieces(pieces[1..]))
      case (Some(v), Some(vs)) => Some([v] + vs)
      case _ => None
  }

  function ParseLongList(s: string): Option<seq<int>>
  {
    if s == "" then Some([]) else ParsePieces(SplitCommas(s))
  }

  lemma {:induction false} ParseDecimalTexts(longs: seq<int64>)
    ensures ParsePieces(DecimalTexts(longs)) == Some(longs)
    decreases |longs|
  {
    if longs != [] {
      ParseIntegerOfDecimal(longs[0]);
      ParseDecimalTexts(longs[1..]);
      assert DecimalTexts(longs)[1..] == DecimalTexts(longs[1..]);
      assert [longs[0]] + longs[1..] == longs;
    }
  }

  /** The joined text determines the sequence: parsing it back gives every element in order. */
  lemma JoinLongsRoundTrip(longs: seq<int64>)
    ensures ParseLongList(JoinLongs(longs)) == Some(longs)
  {
    if longs != [] {
      SplitJoinLongs(longs);
      ParseDecimalTexts(longs);
    }
  }

  lemma JoinLongsExamples()
    ensures JoinLongs([1, 2, 3]) == "1,2,3"
    ensures JoinLongs([]) == ""
    ensures JoinLongs([-5]) == "-5"
  {
    assert ToDecimal(1) == "1" && ToDecimal(2) == "2" && ToDecimal(3) == "3";
    assert [1, 2, 3][1..] == [2, 3] && [2, 3][1..] == [3];
    assert ToDecimal(-5) == "-5";
  }

  // ---- The object and its ToParameters walk ----

  /** An object deriving from Parameterizable, seen through reflection. */
  class Parameterizable {
    /** The declared properties with their current values, in declaration order. */
    var properties: seq<Property>

    constructor (properties: seq<Property>)
      ensures this.properties == properties
    {
      this.properties := properties;
    }

    /**
     * ToParameters: walks the properties in order, skips the null ones, names each
     * one by its wire name and appends what `toSingle` makes of it. It reads the
     * object and changes nothing.
     */
    method ToParameters(toSingle: Transform) returns (output: seq<Parameter>)
      ensures output == Parameters(properties, toSingle)
      ensures |output| == |PresentIndices(properties)|
      ensures forall k :: 0 <= k < |output| ==>
        PresentIndices(properties)[k] < |properties| &&
        var p := properties[PresentIndices(properties)[k]];
        p.value.Some? && output[k] == toSingle(WireName(p), p.value.value, p)
    {
      output := [];
      for i := 0 to |properties|
        invariant output == Parameters(properties[..i], toSingle)
      {
        var property := properties[i];
        assert properties[..i + 1][..i] == properties[..i];
        if property.value.None? {
          continue;
        }
        var propName := Some(property.name);
        if property.jsonProperty.Some? {
          var attribute := property.jsonProperty.value;
          propName := attribute.propertyName;
        }
        var parameter := toSingle(propName, property.value.value, property);
        output := output + [parameter];
      }
      assert properties[..|properties|] == properties;
      ParametersAt(properties, toSingle);
    }
  }

  /** Nothing changes between two calls, so an object serialized twice gives the same parameters twice. */
  method SerializeTwice(entity: Parameterizable, toSingle: Transform) returns (first: seq<Parameter>, second: seq<Parameter>)
    ensures first == second
  {
    first := entity.ToParameters(toSingle);
    second := entity.ToParameters(toSingle);
  }

  // ---- Concrete objects ----

  /** ShopifyAbandonedCheckoutListFilter with its default: Status = "open", named "status". */
  lemma AbandonedCheckoutFilterDefault(formats: Formats)
    ensures Parameters([Property("Status", Some(JsonPropertyAttribute(Some("status"))), Some(Text("open")))], DefaultTransform(formats))
      == [Parameter(Some("status"), Text("open"))]
  {
    var ps := [Property("Status", Some(JsonPropertyAttribute(Some("status"))), Some(Text("open")))];
    assert ps[..0] == [];
  }

  /** A renamed string, a long sequence and a null date: the date is left out. */
  lemma MixedObjectExample(formats: Formats, created: DateTime)
    ensures Parameters(
      [ Property("Status", Some(JsonPropertyAttribute(Some("status"))), Some(Text("open"))),
        Property("Tags", None, Some(LongSeq([1, 2, 3]))),
        Property("CreatedAt", Some(JsonPropertyAttribute(Some("created_at"))), None) ],
      DefaultTransform(formats))
      == [Parameter(Some("status"), Text("open")), Parameter(Some("Tags"), Text("1,2,3"))]
  {
    var a := Property("Status", Some(JsonPropertyAttribute(Some("status"))), Some(Text("open")));
    var b := Property("Tags", None, Some(LongSeq([1, 2, 3])));
    var c := Property("CreatedAt", Some(JsonPropertyAttribute(Some("created_at"))), None);
    var t := DefaultTransform(formats);
    JoinLongsExamples();
    assert [a, b, c][..2] == [a, b] && [a, b][..1] == [a] && [a][..0] == [];
    assert Parameters([a], t) == [Parameter(Some("status"), Text("open"))];
    assert Contribution(b, t) == [Parameter(Some("Tags"), Text("1,2,3"))];
    assert Parameters([a, b], t) == [Parameter(Some("status"), Text("open")), Parameter(Some("Tags"), Text("1,2,3"))];
    assert Contribution(c, t) == [];
  }
}

/**
 * The parsed JSON tree the ingestion pipeline walks, and the value converter
 * that turns a JSON scalar into the native value stored in a document.
 */
module JsonValues {
  import opened Wrappers

  newtype int32 = x: int | -0x8000_0000 <= x < 0x8000_0000
  newtype int64 = x: int | -0x8000_0000_0000_0000 <= x < 0x8000_0000_0000_0000

  /** A JSON number with a fraction or an exponent, kept as its literal text; no arithmetic is done on it. */
  datatype DoubleToken = DoubleToken(literal: string)

  /**
   * A parsed JSON value. Integer literals arrive as 64-bit values: the parser
   * rejects an integer outside that range before the tree is built. Object
   * members keep their order.
   */
  datatype Json =
    | JNull
    | JBool(b: bool)
    | JInteger(n: int64)
    | JDouble(d: DoubleToken)
    | JString(s: string)
    | JArray(items: seq<Json>)
    | JObject(members: seq<(string, Json)>)
  {
    /** Neither an array nor an object. */
    predicate IsScalar() {
      !JArray? && !JObject?
    }
  }

  /** A native value stored in a flat document. */
  datatype Scalar =
    | Bool(b: bool)
    | Int(i: int32)
    | Long(l: int64)
    | Double(d: DoubleToken)
    | Text(s: string)

  predicate FitsInt32(n: int64) {
    -0x8000_0000 <= n < 0x8000_0000
  }

  /** The JSON value a stored scalar stands for. */
  function ToJson(v: Scalar): (j: Json)
    ensures j.IsScalar() && !j.JNull?
  {
    match v
    case Bool(b) => JBool(b)
    case Int(i) => JInteger(i as int64)
    case Long(l) => JInteger(l)
    case Double(d) => JDouble(d)
    case Text(s) => JString(s)
  }

  /** A stored integer uses 64 bits only when 32 do not suffice. */
  predicate NarrowestWidth(v: Scalar) {
    v.Long? ==> !FitsInt32(v.l)
  }

  /**
   * The value converter. Booleans and strings keep their identity, an integer
   * that fits in 32 bits becomes a 32-bit value and any other integer a 64-bit
   * one, a double stays its token. JSON null, arrays and objects are not
   * scalars and convert to nothing.
   */
  function Convert(j: Json): (r: Option<Scalar>)
    ensures r.Some? <==> j.IsScalar() && !j.JNull?
    ensures r.Some? ==> ToJson(r.value) == j && NarrowestWidth(r.value)
  {
    match j
    case JBool(b) => Some(Bool(b))
    case JInteger(n) => if FitsInt32(n) then Some(Int(n as int32)) else Some(Long(n))
    case JDouble(d) => Some(Double(d))
    case JString(s) => Some(Text(s))
    case _ => None
  }

  /** Converting the JSON form of a stored value of narrowest width gives that value back. */
  lemma ConvertToJson(v: Scalar)
    requires NarrowestWidth(v)
    ensures Convert(ToJson(v)) == Some(v)
  {
    match v
    case Int(i) =>
      assert FitsInt32(i as int64);
      assert (i as int64) as int32 == i;
    case _ =>
  }

  /** The integer case: the stored value is numerically the literal's value, and never a double. */
  lemma ConvertInteger(n: int64)
    ensures Convert(JInteger(n)).Some?
    ensures Convert(JInteger(n)).value.Int? <==> FitsInt32(n)
    ensures match Convert(JInteger(n)).value
            case Int(i) => i as int == n as int
            case Long(l) => l == n
            case _ => false
  {
  }

  /** The conversions the value-type test checks: true, 42, 9223372036854775807 and a string. */
  lemma ConvertTestedValues(text: string, d: DoubleToken)
    ensures Convert(JBool(true)) == Some(Bool(true))
    ensures Convert(JInteger(42)) == Some(Int(42))
    ensures Convert(JInteger(9223372036854775807)) == Some(Long(9223372036854775807))
    ensures Convert(JString(text)) == Some(Text(text))
    ensures Convert(JDouble(d)) == Some(Double(d))
  {
  }
}

/**
 * Amazon DynamoDB's tagged attribute values, and the encoding of a literal
 * into one. The encoder is a shape Visitor: the tag is chosen by the Kind of
 * the shape the literal is compared with.
 */
module AttributeValues {
  import opened Wrappers
  import opened Decimal
  import opened Shapes
  import opened Expressions

  /** `{S: text}`, `{N: decimal text}` and `{BOOL: flag}`. */
  datatype AttributeValue = S(s: string) | N(n: string) | BOOL(b: bool)

  /** The encoding visitor; its context is the native value to encode. */
  function Encoder(): Visitor<Native, Option<AttributeValue>> {
    var unencodable := (s: Shape, v: Native) => None;
    Visitor(
      (s: Shape, v: Native) => if v.Str? then Some(S(v.s)) else None,
      (s: Shape, v: Native) => if v.Num? then Some(N(IntToString(v.n))) else None,
      (s: Shape, v: Native) => if v.Bool? then Some(BOOL(v.b)) else None,
      unencodable,
      unencodable,
      unencodable,
      unencodable,
      unencodable)
  }

  /** Encodes a literal by visiting its shape with the native value as context. */
  function Encode(lit: Literal): Option<AttributeValue> {
    lit.shape.Visit(Encoder(), lit.value)
  }

  /** Whether a native value has the scalar kind of a shape. */
  predicate Fits(k: Kind, v: Native) {
    || (k == StringKind && v.Str?)
    || (k == NumberKind && v.Num?)
    || (k == BoolKind && v.Bool?)
  }

  /** Reads an attribute value back as the native value it encodes. */
  function Decode(a: AttributeValue): Option<Native> {
    match a
    case S(s) => Some(Str(s))
    case N(n) =>
      (match ParseInt(n)
       case None => None
       case Some(i) => Some(Num(i)))
    case BOOL(b) => Some(Bool(b))
  }

  /**
   * A literal encodes exactly when its value fits its shape's scalar Kind; the
   * tag follows the Kind (string: S with the exact text, number: N with the
   * decimal text, boolean: BOOL).
   */
  lemma EncodeByKind(lit: Literal)
    ensures Encode(lit).Some? <==> Fits(lit.shape.Kind(), lit.value)
    ensures lit.shape.Kind() == StringKind && lit.value.Str? ==> Encode(lit) == Some(S(lit.value.s))
    ensures lit.shape.Kind() == NumberKind && lit.value.Num? ==> Encode(lit) == Some(N(IntToString(lit.value.n)))
    ensures lit.shape.Kind() == BoolKind && lit.value.Bool? ==> Encode(lit) == Some(BOOL(lit.value.b))
  {
  }

  /** Decoding an encoded literal gives back the native value. */
  lemma DecodeEncode(lit: Literal)
    requires Encode(lit).Some?
    ensures Decode(Encode(lit).value) == Some(lit.value)
  {
    if lit.value.Num? {
      ParseIntToString(lit.value.n);
    }
  }
}

/**
 * The root of the Shape type system (packages/@punchcard/shape/lib/shape.ts):
 * a closed set of type descriptors, each tagged with a Kind, the Kind-directed
 * `visit` dispatch and the `apply` delegation to trait metadata.
 */
module Shapes {

  /** The keys of a Visitor: one per shape variant. */
  datatype Kind =
    | StringKind | NumberKind | BoolKind | TimestampKind | BinaryKind
    | StructKind | ArrayKind | MapKind

  /** A named member of a struct shape. */
  datatype Member = Member(name: string, shape: Shape)

  datatype Shape =
    | StringShape
    | NumberShape
    | BoolShape
    | TimestampShape
    | BinaryShape
    | StructShape(members: seq<Member>)
    | ArrayShape(items: Shape)
    | MapShape(values: Shape)
  {
    /** Every shape is marked as a node of the Shape type system. */
    const NodeType: string := "shape"

    /** The variant tag; being part of the value, it never changes. */
    function Kind(): Kind {
      match this
      case StringShape => StringKind
      case NumberShape => NumberKind
      case BoolShape => BoolKind
      case TimestampShape => TimestampKind
      case BinaryShape => BinaryKind
      case StructShape(_) => StructKind
      case ArrayShape(_) => ArrayKind
      case MapShape(_) => MapKind
    }

    /** Looks up the visitor's handler under this shape's Kind and calls it. */
    function Visit<C, R>(visitor: Visitor<C, R>, context: C): R {
      visitor.Handler(Kind())(this, context)
    }

    /**
     * Hands this shape and the trait's data to the metadata collaborator
     * (`Meta.apply`, supplied by the caller) and returns its answer.
     */
    function Apply<D, R>(withTrait: Trait<D>, metaApply: (Shape, D) -> R): R {
      metaApply(this, withTrait.data)
    }
  }

  /** A trait carrying the data that `apply` attaches to a shape. */
  datatype Trait<D> = Trait(data: D)

  /** One handler per Kind; each receives the shape and the caller's context. */
  datatype Visitor<!C, R> = Visitor(
    stringShape: (Shape, C) -> R,
    numberShape: (Shape, C) -> R,
    boolShape: (Shape, C) -> R,
    timestampShape: (Shape, C) -> R,
    binaryShape: (Shape, C) -> R,
    structShape: (Shape, C) -> R,
    arrayShape: (Shape, C) -> R,
    mapShape: (Shape, C) -> R)
  {
    /** `visitor[kind]`: the handler stored under a Kind's key. */
    function Handler(k: Kind): (Shape, C) -> R {
      match k
      case StringKind => stringShape
      case NumberKind => numberShape
      case BoolKind => boolShape
      case TimestampKind => timestampShape
      case BinaryKind => binaryShape
      case StructKind => structShape
      case ArrayKind => arrayShape
      case MapKind => mapShape
    }

    /** This visitor with the handler under key `k` replaced by `h`. */
    function With(k: Kind, h: (Shape, C) -> R): (v: Visitor<C, R>)
      ensures v.Handler(k) == h
      ensures forall j :: j != k ==> v.Handler(j) == Handler(j)
    {
      match k
      case StringKind => this.(stringShape := h)
      case NumberKind => this.(numberShape := h)
      case BoolKind => this.(boolShape := h)
      case TimestampKind => this.(timestampShape := h)
      case BinaryKind => this.(binaryShape := h)
      case StructKind => this.(structShape := h)
      case ArrayKind => this.(arrayShape := h)
      case MapKind => this.(mapShape := h)
    }
  }

  /** A visitor whose every handler reports its own key and the arguments it received. */
  function Recorder<C>(): Visitor<C, (Kind, Shape, C)> {
    Visitor(
      (s, c) => (StringKind, s, c),
      (s, c) => (NumberKind, s, c),
      (s, c) => (BoolKind, s, c),
      (s, c) => (TimestampKind, s, c),
      (s, c) => (BinaryKind, s, c),
      (s, c) => (StructKind, s, c),
      (s, c) => (ArrayKind, s, c),
      (s, c) => (MapKind, s, c))
  }

  /**
   * Replacing the handler under key `k` changes the outcome of `visit` exactly
   * when `k` is the shape's Kind: the matching handler, and no other, is called.
   */
  lemma VisitCallsOnlyKindHandler<C, R>(s: Shape, v: Visitor<C, R>, k: Kind, h: (Shape, C) -> R, context: C)
    ensures s.Visit(v.With(k, h), context) == if k == s.Kind() then h(s, context) else s.Visit(v, context)
  {
  }

  /**
   * The handler that runs is the one keyed by the shape's Kind; it receives the
   * shape itself and the context unchanged, and its result is returned as is.
   */
  lemma VisitPassesShapeAndContext<C>(s: Shape, context: C)
    ensures s.Visit(Recorder(), context) == (s.Kind(), s, context)
  {
  }

  /** `apply` passes the shape itself and the trait's data to the collaborator, and returns its answer. */
  lemma ApplyPassesShapeAndData<D>(s: Shape, d: D)
    ensures s.Apply(Trait(d), (t: Shape, x: D) => (t, x)) == (s, d)
  {
  }

  /** Every shape, whatever its Kind, carries the node type `shape`. */
  lemma NodeTypeIsShape(s: Shape)
    ensures s.NodeType == "shape"
  {
  }
}

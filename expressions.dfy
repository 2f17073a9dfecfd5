/**
 * The expression tree that the filter DSL builds and the compiler consumes:
 * paths (a root attribute plus field and index accesses), shape-tagged
 * literals, and equality conditions between two operands.
 */
module Expressions {
  import opened Shapes

  /** One access step after the root attribute. */
  datatype Segment = Field(name: string) | Index(index: int)

  datatype Path = Path(root: string, segments: seq<Segment>)

  /** A native value as the caller writes it in a comparison. */
  datatype Native = Str(s: string) | Num(n: int) | Bool(b: bool)

  /** A native value tagged with the shape of the node it is compared with. */
  datatype Literal = Literal(shape: Shape, value: Native)

  datatype Operand = Ref(path: Path) | Lit(literal: Literal)

  /** `left = right`, the one comparison the DSL offers. */
  datatype Condition = Equals(left: Operand, right: Operand)
}

/**
 * The DSL that mirrors a schema (`DSL.of(MyType)`): navigating a struct member
 * or an array element yields a node that knows its shape and its path, and
 * `equals` turns a node into a Condition.
 */
module Dsl {
  import opened Wrappers
  import opened Shapes
  import opened Expressions

  /** A navigable node: the shape it stands for and the path that reaches it. */
  datatype Node = Node(shape: Shape, path: Path)

  datatype DslError =
    | NotAStruct(path: Path)
    | NoSuchMember(path: Path, name: string)
    | NotAnArray(path: Path)

  /** The shape of the first member called `name`. */
  function MemberShape(members: seq<Member>, name: string): (r: Option<Shape>)
    ensures r.Some? <==> exists i :: 0 <= i < |members| && members[i].name == name
    ensures r.Some? ==> exists i :: 0 <= i < |members| && members[i] == Shapes.Member(name, r.value)
  {
    if members == [] then None
    else if members[0].name == name then Some(members[0].shape)
    else
      var r := MemberShape(members[1..], name);
      assert forall i :: 0 < i < |members| ==> members[i] == members[1..][i - 1];
      r
  }

  /** The shape one access step below `s`, if that step is allowed there. */
  function StepShape(s: Shape, seg: Segment): Option<Shape> {
    match seg
    case Field(name) => if s.StructShape? then MemberShape(s.members, name) else None
    case Index(_) => if s.ArrayShape? then Some(s.items) else None
  }

  function SegmentsShape(s: Shape, segments: seq<Segment>): Option<Shape>
    decreases |segments|
  {
    if segments == [] then Some(s)
    else
      match SegmentsShape(s, segments[..|segments| - 1])
      case None => None
      case Some(t) => StepShape(t, segments[|segments| - 1])
  }

  /** The shape a path reaches in a schema, or None when the path does not type-check. */
  function ShapeAt(schema: Shape, p: Path): Option<Shape> {
    match StepShape(schema, Field(p.root))
    case None => None
    case Some(t) => SegmentsShape(t, p.segments)
  }

  /** A node is well formed when its path type-checks and reaches its shape. */
  predicate Conforms(schema: Shape, n: Node) {
    ShapeAt(schema, n.path) == Some(n.shape)
  }

  /** `_.name` on the root proxy of a struct schema. */
  function Of(schema: Shape, name: string): Result<Node, DslError> {
    if !schema.StructShape? then Failure(NotAStruct(Path(name, [])))
    else
      match MemberShape(schema.members, name)
      case None => Failure(NoSuchMember(Path(name, []), name))
      case Some(s) => Success(Node(s, Path(name, [])))
  }

  /** `node.fields.name`: the `fields` accessor itself adds no path segment. */
  function Member(n: Node, name: string): Result<Node, DslError> {
    if !n.shape.StructShape? then Failure(NotAStruct(n.path))
    else
      match MemberShape(n.shape.members, name)
      case None => Failure(NoSuchMember(n.path, name))
      case Some(s) => Success(Node(s, Path(n.path.root, n.path.segments + [Field(name)])))
  }

  /** `node.get(index)` on an array node. */
  function Get(n: Node, index: int): Result<Node, DslError> {
    if !n.shape.ArrayShape? then Failure(NotAnArray(n.path))
    else Success(Node(n.shape.items, Path(n.path.root, n.path.segments + [Index(index)])))
  }

  /** `node.equals(value)`: the value becomes a literal tagged with the node's shape. */
  function EqualsValue(n: Node, value: Native): Condition {
    Equals(Ref(n.path), Lit(Literal(n.shape, value)))
  }

  /** `node.equals(other)`: a comparison of two paths. */
  function EqualsNode(n: Node, other: Node): Condition {
    Equals(Ref(n.path), Ref(other.path))
  }

  lemma SegmentsShapeAppend(s: Shape, segments: seq<Segment>, seg: Segment)
    ensures SegmentsShape(s, segments + [seg]) ==
            match SegmentsShape(s, segments)
            case None => None
            case Some(t) => StepShape(t, seg)
  {
    assert (segments + [seg])[..|segments|] == segments;
  }

  /** `_.name` succeeds exactly for a member of the root struct, and the node it yields conforms. */
  lemma OfConforms(schema: Shape, name: string)
    ensures Of(schema, name).Success? <==> StepShape(schema, Field(name)).Some?
    ensures Of(schema, name).Success? ==> Of(schema, name).value.path == Path(name, [])
    ensures Of(schema, name).Success? ==> Conforms(schema, Of(schema, name).value)
  {
  }

  /** Member access succeeds exactly on a struct having that member, and keeps nodes conforming. */
  lemma {:induction false} MemberConforms(schema: Shape, n: Node, name: string)
    requires Conforms(schema, n)
    ensures Member(n, name).Success? <==> StepShape(n.shape, Field(name)).Some?
    ensures Member(n, name).Success? ==> Member(n, name).value.path == Path(n.path.root, n.path.segments + [Field(name)])
    ensures Member(n, name).Success? ==> Conforms(schema, Member(n, name).value)
  {
    if n.shape.StructShape? {
      var top := StepShape(schema, Field(n.path.root)).value;
      SegmentsShapeAppend(top, n.path.segments, Field(name));
    }
  }

  /** Index access succeeds exactly on an array node, and keeps nodes conforming. */
  lemma {:induction false} GetConforms(schema: Shape, n: Node, index: int)
    requires Conforms(schema, n)
    ensures Get(n, index).Success? <==> n.shape.ArrayShape?
    ensures Get(n, index).Success? ==>
              Get(n, index).value == Node(n.shape.items, Path(n.path.root, n.path.segments + [Index(index)]))
    ensures Get(n, index).Success? ==> Conforms(schema, Get(n, index).value)
  {
    if n.shape.ArrayShape? {
      var top := StepShape(schema, Field(n.path.root)).value;
      SegmentsShapeAppend(top, n.path.segments, Index(index));
      assert SegmentsShape(top, n.path.segments + [Index(index)]) == Some(n.shape.items);
    }
  }
}

/**
 * The four filter scenarios, written against the test schema: a struct with
 * a string `id`, an `array` of strings and a `nested` struct holding a
 * string `a`. Each lemma builds the condition through the DSL and states
 * the exact wire triple the compiler produces for it.
 */
module Scenarios {
  import opened Wrappers
  import opened Shapes
  import opened Expressions
  import opened Dsl
  import opened AttributeValues
  import opened FilterModel
  import opened Tokens
  import opened Decimal

  const MyType: Shape :=
    StructShape([
      Shapes.Member("id", StringShape),
      Shapes.Member("array", ArrayShape(StringShape)),
      Shapes.Member("nested", StructShape([Shapes.Member("a", StringShape)]))
    ])

  /** The placeholders the scenarios use. */
  lemma Placeholders()
    ensures Text(Name(1)) == "#1" && Text(Name(2)) == "#2" && Text(Name(3)) == "#3"
    ensures Text(Value(1)) == ":1" && Text(Value(2)) == ":2"
  {
    SmallNumerals();
  }

  lemma NumberedOne<T>(prefix: char, x: T)
    ensures Numbered(prefix, [x]) == map[Placeholder(prefix, 1) := x]
  {
    assert [x][..0] == [];
  }

  lemma NumberedTwo<T>(prefix: char, x: T, y: T)
    ensures Numbered(prefix, [x, y]) == map[Placeholder(prefix, 1) := x, Placeholder(prefix, 2) := y]
  {
    assert [x, y][..1] == [x];
    NumberedOne(prefix, x);
  }

  lemma NumberedThree<T>(prefix: char, x: T, y: T, z: T)
    ensures Numbered(prefix, [x, y, z])
         == map[Placeholder(prefix, 1) := x, Placeholder(prefix, 2) := y, Placeholder(prefix, 3) := z]
  {
    assert [x, y, z][..2] == [x, y];
    NumberedTwo(prefix, x, y);
  }

  lemma SmallNumerals()
    ensures NatToString(0) == "0" && NatToString(1) == "1" && NatToString(2) == "2" && NatToString(3) == "3"
    ensures IntToString(0) == "0"
  {
  }

  lemma RenderThree(a: Token, b: Token, c: Token)
    ensures Render([a, b, c]) == Text(a) + Text(b) + Text(c)
  {
    assert [a][..0] == [];
    assert Render([a]) == Text(a) by {
      assert "" + Text(a) == Text(a);
    }
    assert [a, b][..1] == [a];
    assert Render([a, b]) == Text(a) + Text(b);
    assert [a, b, c][..2] == [a, b];
  }

  lemma RenderSnoc(ts: seq<Token>, t: Token)
    ensures Render(ts + [t]) == Render(ts) + Text(t)
  {
    assert (ts + [t])[..|ts|] == ts;
  }

  /** `_.id.equals('value')`. */
  lemma StringPropertyEqualsStringLiteral()
    ensures Of(MyType, "id").Success?
    ensures Compile(EqualsValue(Of(MyType, "id").value, Str("value")))
         == Success(Compiled("#1=:1", map["#1" := "id"], map[":1" := S("value")]))
  {
    SmallNumerals();
    var id := Node(StringShape, Path("id", []));
    assert Of(MyType, "id") == Success(id);
    var c := EqualsValue(id, Str("value"));
    EncodeByKind(c.right.literal);
    var left := Out([Name(1)], Tables(["id"], []));
    assert PutName(Start, "id") == left by {
      assert Start.tokens + [Name(1)] == [Name(1)];
      assert Start.tables.names + ["id"] == ["id"];
    }
    assert PutOperand(Start, c.left) == Success(left);
    var ts := [Name(1), EqualSign, Value(1)];
    assert PutValue(Put(left, EqualSign), S("value")) == Out(ts, Tables(["id"], [S("value")])) by {
      assert [Name(1)] + [EqualSign] + [Value(1)] == ts;
      assert [] + [S("value")] == [S("value")];
    }
    assert PutOperand(Put(left, EqualSign), c.right) == Success(Out(ts, Tables(["id"], [S("value")])));
    assert Text(Name(1)) == "#1" && Text(Value(1)) == ":1";
    assert Render(ts) == "#1=:1" by {
      assert ts[..2] == [Name(1), EqualSign] && ts[..1] == [Name(1)];
    }
  }

  /** `_.array.get(0).equals('string')`: the index travels as a number value. */
  lemma ArrayElementEqualsStringLiteral()
    ensures Of(MyType, "array").Success?
    ensures Get(Of(MyType, "array").value, 0).Success?
    ensures Compile(EqualsValue(Get(Of(MyType, "array").value, 0).value, Str("string")))
         == Success(Compiled("#1[:1]=:2", map["#1" := "array"], map[":1" := N("0"), ":2" := S("string")]))
  {
    SmallNumerals();
    ArrayElementNode();
    var element := Node(StringShape, Path("array", [Index(0)]));
    ArrayElementEqualsStringCompiles(EqualsValue(element, Str("string")));
    RenderArrayElement();
    Placeholders();
    NumberedOne('#', "array");
    NumberedTwo(':', N("0"), S("string"));
  }

  lemma ArrayElementEqualsStringCompiles(c: Condition)
    requires c == Equals(Ref(Path("array", [Index(0)])), Lit(Literal(StringShape, Str("string"))))
    ensures CompileOut(c)
         == Success(Out([Name(1), Open, Value(1), Close, EqualSign, Value(2)], Tables(["array"], [N("0"), S("string")])))
  {
    EncodeByKind(c.right.literal);
    ArrayElementPath(Start);
    var t1 := [Name(1), Open, Value(1), Close];
    var left := Out(t1, Tables(["array"], [N("0")]));
    assert Start.tokens + t1 == t1 && Start.tables.names + ["array"] == ["array"];
    assert Start.tables.values + [N("0")] == [N("0")];
    assert PutOperand(Start, c.left) == Success(left);
    assert t1 + [EqualSign] + [Value(2)] == [Name(1), Open, Value(1), Close, EqualSign, Value(2)];
    assert [N("0")] + [S("string")] == [N("0"), S("string")];
  }

  lemma RenderArrayElement()
    ensures Render([Name(1), Open, Value(1), Close, EqualSign, Value(2)]) == "#1[:1]=:2"
  {
    Placeholders();
    RenderThree(Name(1), Open, Value(1));
    RenderSnoc([Name(1), Open, Value(1)], Close);
    assert [Name(1), Open, Value(1)] + [Close] == [Name(1), Open, Value(1), Close];
    RenderSnoc([Name(1), Open, Value(1), Close], EqualSign);
    assert [Name(1), Open, Value(1), Close] + [EqualSign] == [Name(1), Open, Value(1), Close, EqualSign];
    RenderSnoc([Name(1), Open, Value(1), Close, EqualSign], Value(2));
    assert [Name(1), Open, Value(1), Close, EqualSign] + [Value(2)] == [Name(1), Open, Value(1), Close, EqualSign, Value(2)];
  }

  /** `_.nested.fields.a.equals('string')`: `fields` adds no path segment. */
  lemma NestedFieldEqualsStringLiteral()
    ensures Of(MyType, "nested").Success?
    ensures Dsl.Member(Of(MyType, "nested").value, "a").Success?
    ensures Compile(EqualsValue(Dsl.Member(Of(MyType, "nested").value, "a").value, Str("string")))
         == Success(Compiled("#1.#2=:1", map["#1" := "nested", "#2" := "a"], map[":1" := S("string")]))
  {
    SmallNumerals();
    NestedANode();
    var a := Node(StringShape, Path("nested", [Field("a")]));
    var c := EqualsValue(a, Str("string"));
    EncodeByKind(c.right.literal);
    var left := NestedA();
    NestedACompiles();
    var ts := [Name(1), Dot, Name(2), EqualSign, Value(1)];
    assert PutValue(Put(left, EqualSign), S("string")) == Out(ts, Tables(["nested", "a"], [S("string")])) by {
      assert left.tokens + [EqualSign] + [Value(1)] == ts;
      assert [] + [S("string")] == [S("string")];
    }
    assert CompileOut(c) == Success(Out(ts, Tables(["nested", "a"], [S("string")])));
    RenderNestedAEqualsString();
    Placeholders();
    NumberedTwo('#', "nested", "a");
    NumberedOne(':', S("string"));
  }

  /** `_.nested.fields.a.equals(_.array.get(0))`: one numbering runs across both sides. */
  lemma NestedFieldEqualsArrayElement()
    ensures Of(MyType, "nested").Success? && Of(MyType, "array").Success?
    ensures Dsl.Member(Of(MyType, "nested").value, "a").Success?
    ensures Get(Of(MyType, "array").value, 0).Success?
    ensures Compile(EqualsNode(Dsl.Member(Of(MyType, "nested").value, "a").value, Get(Of(MyType, "array").value, 0).value))
         == Success(Compiled("#1.#2=#3[:1]", map["#1" := "nested", "#2" := "a", "#3" := "array"], map[":1" := N("0")]))
  {
    SmallNumerals();
    NestedANode();
    var a := Node(StringShape, Path("nested", [Field("a")]));
    ArrayElementNode();
    var element := Node(StringShape, Path("array", [Index(0)]));
    var ts := [Name(1), Dot, Name(2), EqualSign, Name(3), Open, Value(1), Close];
    NestedAEqualsArrayElementCompiles(EqualsNode(a, element));
    RenderNestedAEqualsArrayElement();
    Placeholders();
    NumberedThree('#', "nested", "a", "array");
    NumberedOne(':', N("0"));
  }

  lemma NestedAEqualsArrayElementCompiles(c: Condition)
    requires c == Equals(Ref(Path("nested", [Field("a")])), Ref(Path("array", [Index(0)])))
    ensures CompileOut(c)
         == Success(Out([Name(1), Dot, Name(2), EqualSign, Name(3), Open, Value(1), Close],
                        Tables(["nested", "a", "array"], [N("0")])))
  {
    NestedACompiles();
    var o := Put(NestedA(), EqualSign);
    ArrayElementPath(o);
    assert o.tokens == [Name(1), Dot, Name(2), EqualSign];
    assert o.tokens + [Name(3), Open, Value(1), Close] == [Name(1), Dot, Name(2), EqualSign, Name(3), Open, Value(1), Close];
    assert o.tables.names + ["array"] == ["nested", "a", "array"];
    assert o.tables.values + [N("0")] == [N("0")];
  }

  lemma RenderNestedAEqualsString()
    ensures Render([Name(1), Dot, Name(2), EqualSign, Value(1)]) == "#1.#2=:1"
  {
    Placeholders();
    RenderThree(Name(1), Dot, Name(2));
    var ts := [Name(1), Dot, Name(2)];
    RenderSnoc(ts, EqualSign);
    ts := ts + [EqualSign];
    RenderSnoc(ts, Value(1));
    ts := ts + [Value(1)];
    assert ts == [Name(1), Dot, Name(2), EqualSign, Value(1)];
  }

  lemma RenderNestedAEqualsArrayElement()
    ensures Render([Name(1), Dot, Name(2), EqualSign, Name(3), Open, Value(1), Close]) == "#1.#2=#3[:1]"
  {
    Placeholders();
    RenderThree(Name(1), Dot, Name(2));
    var ts := [Name(1), Dot, Name(2)];
    RenderSnoc(ts, EqualSign);
    assert ts + [EqualSign] == [Name(1), Dot, Name(2), EqualSign];
    ts := ts + [EqualSign];
    RenderSnoc(ts, Name(3));
    ts := ts + [Name(3)];
    RenderSnoc(ts, Open);
    ts := ts + [Open];
    RenderSnoc(ts, Value(1));
    ts := ts + [Value(1)];
    RenderSnoc(ts, Close);
    ts := ts + [Close];
    assert ts == [Name(1), Dot, Name(2), EqualSign, Name(3), Open, Value(1), Close];
  }

  /** `_.array.get(0)` type-checks against the schema and reaches a string element. */
  lemma ArrayElementNode()
    ensures Of(MyType, "array") == Success(Node(ArrayShape(StringShape), Path("array", [])))
    ensures Get(Of(MyType, "array").value, 0) == Success(Node(StringShape, Path("array", [Index(0)])))
  {
    assert Of(MyType, "array").value.path.segments + [Index(0)] == [Index(0)];
  }

  /** `_.nested.fields.a` type-checks against the schema and reaches a string. */
  lemma NestedANode()
    ensures Of(MyType, "nested") == Success(Node(StructShape([Shapes.Member("a", StringShape)]), Path("nested", [])))
    ensures Dsl.Member(Of(MyType, "nested").value, "a") == Success(Node(StringShape, Path("nested", [Field("a")])))
  {
    assert Of(MyType, "nested").value.path.segments + [Field("a")] == [Field("a")];
  }

  /** `array.get(0)` written after whatever the state already holds. */
  lemma ArrayElementPath(o: Out)
    requires "array" !in o.tables.names
    ensures PutPath(o, Path("array", [Index(0)]))
         == Out(o.tokens + [Name(|o.tables.names| + 1), Open, Value(|o.tables.values| + 1), Close],
                Tables(o.tables.names + ["array"], o.tables.values + [N("0")]))
  {
    SmallNumerals();
    EncodeByKind(IndexLiteral(0));
    var root := PutName(o, "array");
    assert [Index(0)][..0] == [];
    assert PutSegments(root, [Index(0)]) == PutSegment(root, Index(0));
    assert root.tokens + [Open] + [Value(|o.tables.values| + 1)] + [Close]
        == o.tokens + [Name(|o.tables.names| + 1), Open, Value(|o.tables.values| + 1), Close];
  }

  /** The state after compiling `_.nested.fields.a`, shared by two scenarios. */
  function NestedA(): Out {
    Out([Name(1), Dot, Name(2)], Tables(["nested", "a"], []))
  }

  lemma NestedACompiles()
    ensures PutOperand(Start, Ref(Path("nested", [Field("a")]))) == Success(NestedA())
  {
    var root := Out([Name(1)], Tables(["nested"], []));
    assert PutName(Start, "nested") == root by {
      assert Start.tokens + [Name(1)] == [Name(1)];
      assert Start.tables.names + ["nested"] == ["nested"];
    }
    assert PutSegment(root, Field("a")) == NestedA() by {
      assert [Name(1)] + [Dot] + [Name(2)] == NestedA().tokens;
      assert ["nested"] + ["a"] == ["nested", "a"];
    }
    assert [Field("a")][..0] == [];
  }
}

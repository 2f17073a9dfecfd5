/**
 * A writer-based reconstruction of `Filter.compile` that matches the four
 * filter tests: a writer that appends to the expression string and grows a
 * name map and a value map, each with its own counter starting at zero,
 * while walking the condition left to right. Each method is proved to take
 * the same step as the reference compiler.
 */
module Filter {
  import opened Wrappers
  import opened Expressions
  import opened AttributeValues
  import opened Tokens
  import opened FilterModel

  /** `ids` gives each name in `names` its placeholder number: one more than its position. */
  ghost predicate Indexes(ids: map<string, nat>, names: seq<string>) {
    && (forall n :: n in ids <==> n in names)
    && (forall n :: n in ids ==> ids[n] == IndexOf(names, n) + 1)
  }

  lemma IndexesAppend(ids: map<string, nat>, names: seq<string>, name: string)
    requires Indexes(ids, names) && name !in names
    ensures Indexes(ids[name := |names| + 1], names + [name])
  {
    forall n | n in names {
      IndexOfAppend(names, name, n);
    }
    IndexOfNew(names, name);
  }

  /** The writer's fields hold exactly what the reference compiler's state `o` describes. */
  ghost predicate Mirrors(expression: string, names: map<string, string>, values: map<string, AttributeValue>,
                          nameIds: map<string, nat>, nameCount: nat, valueCount: nat, o: Out)
  {
    && expression == Render(o.tokens)
    && names == Numbered('#', o.tables.names)
    && values == Numbered(':', o.tables.values)
    && nameCount == |o.tables.names|
    && valueCount == |o.tables.values|
    && Indexes(nameIds, o.tables.names)
  }

  /** Writing a known name appends its existing placeholder and changes no table. */
  lemma MirrorsKnownName(expression: string, names: map<string, string>, values: map<string, AttributeValue>,
                         nameIds: map<string, nat>, nameCount: nat, valueCount: nat, o: Out, name: string,
                         expression': string, o': Out)
    requires Mirrors(expression, names, values, nameIds, nameCount, valueCount, o) && name in nameIds
    requires expression' == expression + Text(Name(nameIds[name])) && o' == PutName(o, name)
    ensures Mirrors(expression', names, values, nameIds, nameCount, valueCount, o')
  {
    var ts := o'.tokens;
    assert ts[..|ts| - 1] == o.tokens;
  }

  /** Writing a new name registers it under the next number and appends that placeholder. */
  lemma MirrorsNewName(expression: string, names: map<string, string>, values: map<string, AttributeValue>,
                       nameIds: map<string, nat>, nameCount: nat, valueCount: nat, o: Out, name: string,
                       expression': string, names': map<string, string>, nameIds': map<string, nat>,
                       nameCount': nat, o': Out)
    requires Mirrors(expression, names, values, nameIds, nameCount, valueCount, o) && name !in nameIds
    requires nameCount' == nameCount + 1 && expression' == expression + Text(Name(nameCount'))
    requires names' == names[Placeholder('#', nameCount') := name] && nameIds' == nameIds[name := nameCount']
    requires o' == PutName(o, name)
    ensures Mirrors(expression', names', values, nameIds', nameCount', valueCount, o')
  {
    var before := o.tables.names;
    IndexesAppend(nameIds, before, name);
    assert (before + [name])[..|before|] == before;
    var ts := o'.tokens;
    assert ts[..|ts| - 1] == o.tokens;
  }

  /** The state of one compilation. */
  class Writer {
    var expression: string
    var names: map<string, string>
    var values: map<string, AttributeValue>
    /** The reverse of `names`: the number each name was given. */
    var nameIds: map<string, nat>
    var nameCount: nat
    var valueCount: nat
    /** The same state as seen by the reference compiler. */
    ghost var state: Out

    ghost predicate Valid()
      reads this
    {
      Mirrors(expression, names, values, nameIds, nameCount, valueCount, state)
    }

    constructor ()
      ensures Valid() && state == Start
    {
      expression, names, values, nameIds := "", map[], map[], map[];
      nameCount, valueCount := 0, 0;
      state := Start;
    }

    method Emit(t: Token)
      requires Valid()
      modifies this
      ensures Valid() && state == Put(old(state), t)
    {
      expression := expression + Text(t);
      state := Put(state, t);
    }

    /** Writes a name's placeholder, registering the name under the next number if it is new. */
    method WriteName(name: string)
      requires Valid()
      modifies this
      ensures Valid()
      ensures state == PutName(old(state), name)
    {
      ghost var o, e, n, i, c := state, expression, names, nameIds, nameCount;
      if name in nameIds {
        expression, state := expression + Text(Name(nameIds[name])), PutName(state, name);
        MirrorsKnownName(e, n, values, i, c, valueCount, o, name, expression, state);
      } else {
        var id := nameCount + 1;
        expression, names, nameIds, nameCount, state :=
          expression + Text(Name(id)), names[Placeholder('#', id) := name], nameIds[name := id], id, PutName(state, name);
        MirrorsNewName(e, n, values, i, c, valueCount, o, name, expression, names, nameIds, nameCount, state);
      }
    }

    /** Writes the next value placeholder and records the value under it. */
    method WriteValue(v: AttributeValue)
      requires Valid()
      modifies this
      ensures Valid() && state == PutValue(old(state), v)
    {
      ghost var before := state.tables.values;
      valueCount := valueCount + 1;
      values := values[Placeholder(':', valueCount) := v];
      state := Out(state.tokens, Tables(state.tables.names, before + [v]));
      assert (before + [v])[..|before|] == before;
      Emit(Value(valueCount));
    }

    /** Writes `.#N` for a field access, `[:V]` for an index access. */
    method WriteSegment(seg: Segment)
      requires Valid()
      modifies this
      ensures Valid() && state == PutSegment(old(state), seg)
    {
      match seg {
        case Field(name) =>
          Emit(Dot);
          WriteName(name);
        case Index(index) =>
          EncodeByKind(IndexLiteral(index));
          Emit(Open);
          WriteValue(Encode(IndexLiteral(index)).value);
          Emit(Close);
      }
    }

    /** Writes the root's placeholder, then each access in turn. */
    method WritePath(p: Path)
      requires Valid()
      modifies this
      ensures Valid() && state == PutPath(old(state), p)
    {
      WriteName(p.root);
      ghost var afterRoot := state;
      var i := 0;
      while i < |p.segments|
        invariant 0 <= i <= |p.segments|
        invariant Valid()
        invariant state == PutSegments(afterRoot, p.segments[..i])
      {
        PutSegmentsPrefix(afterRoot, p.segments, i);
        WriteSegment(p.segments[i]);
        i := i + 1;
      }
      assert p.segments[..i] == p.segments;
    }

    /** Writes an operand; false, with nothing written, when its literal cannot be encoded. */
    method WriteOperand(x: Operand) returns (ok: bool)
      requires Valid()
      modifies this
      ensures Valid()
      ensures ok == PutOperand(old(state), x).Success?
      ensures ok ==> state == PutOperand(old(state), x).value
      ensures !ok ==> state == old(state)
    {
      match x {
        case Ref(p) =>
          WritePath(p);
          ok := true;
        case Lit(l) =>
          var encoded := Encode(l);
          if encoded.None? {
            ok := false;
          } else {
            WriteValue(encoded.value);
            ok := true;
          }
      }
    }
  }

  /**
   * Compiles a condition into the wire triple, or reports the literal that
   * cannot be encoded without returning any partial output.
   */
  method Compile(c: Condition) returns (r: Result<Compiled, CompileError>)
    ensures r == FilterModel.Compile(c)
  {
    var w := new Writer();
    var ok := w.WriteOperand(c.left);
    if !ok {
      return Failure(UnencodableLiteral(c.left.literal));
    }
    w.Emit(EqualSign);
    ok := w.WriteOperand(c.right);
    if !ok {
      return Failure(UnencodableLiteral(c.right.literal));
    }
    r := Success(Compiled(w.expression, w.names, w.values));
  }
}

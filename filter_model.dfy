/**
 * The filter compiler as a function: one left-to-right pass over a condition
 * that emits tokens and fills two symbol tables, one for attribute names and
 * one for attribute values, each numbered from 1. The lemmas relate the wire
 * triple it produces to an independent, placeholder-free reading of the
 * condition, and state how the placeholders are numbered.
 */
module FilterModel {
  import opened Wrappers
  import opened Decimal
  import opened Shapes
  import opened Expressions
  import opened AttributeValues
  import opened Tokens
  import Dsl

  /** The symbol tables in placeholder order: entry k - 1 is placeholder k. */
  datatype Tables = Tables(names: seq<string>, values: seq<AttributeValue>)

  /** A compilation in progress: the tokens emitted so far and the tables. */
  datatype Out = Out(tokens: seq<Token>, tables: Tables)

  datatype CompileError = UnencodableLiteral(literal: Literal)

  /** The wire triple, with exactly these three parts. */
  datatype Compiled = Compiled(
    filterExpression: string,
    expressionAttributeNames: map<string, string>,
    expressionAttributeValues: map<string, AttributeValue>)

  /** Both tables empty, both counters at zero: the next placeholders are `#1` and `:1`. */
  const Start := Out([], Tables([], []))

  /** The position of the first occurrence of `x`. */
  function IndexOf(s: seq<string>, x: string): (i: nat)
    requires x in s
    ensures i < |s| && s[i] == x && x !in s[..i]
  {
    if s[0] == x then 0
    else
      var i := 1 + IndexOf(s[1..], x);
      assert s[..i] == [s[0]] + s[1..][..i - 1];
      i
  }

  lemma IndexOfAppend(s: seq<string>, y: string, x: string)
    requires x in s
    ensures IndexOf(s + [y], x) == IndexOf(s, x)
  {
    var t := s + [y];
    var i, j := IndexOf(t, x), IndexOf(s, x);
    assert t[j] == x;
    assert i <= j;
    assert s[i] == x;
  }

  lemma IndexOfNew(s: seq<string>, x: string)
    requires x !in s
    ensures IndexOf(s + [x], x) == |s|
  {
    var t := s + [x];
    forall k | 0 <= k < |s|
      ensures t[k] != x
    {
      assert t[k] == s[k];
    }
  }

  function Put(o: Out, t: Token): Out {
    Out(o.tokens + [t], o.tables)
  }

  /** Emits a name's placeholder; a name seen for the first time gets the next number. */
  function PutName(o: Out, name: string): Out {
    var names := o.tables.names;
    if name in names then Put(o, Name(IndexOf(names, name) + 1))
    else Out(o.tokens + [Name(|names| + 1)], Tables(names + [name], o.tables.values))
  }

  /** Emits the next value placeholder; values are never shared. */
  function PutValue(o: Out, v: AttributeValue): Out {
    var values := o.tables.values;
    Out(o.tokens + [Value(|values| + 1)], Tables(o.tables.names, values + [v]))
  }

  /** The literal an index access carries: the index itself, as a number. */
  function IndexLiteral(i: int): Literal {
    Literal(NumberShape, Num(i))
  }

  /** `.#N` for a field access, `[:V]` for an index access. */
  function PutSegment(o: Out, seg: Segment): Out {
    match seg
    case Field(name) => PutName(Put(o, Dot), name)
    case Index(i) =>
      EncodeByKind(IndexLiteral(i));
      Put(PutValue(Put(o, Open), Encode(IndexLiteral(i)).value), Close)
  }

  function PutSegments(o: Out, segments: seq<Segment>): Out
    decreases |segments|
  {
    if segments == [] then o
    else PutSegment(PutSegments(o, segments[..|segments| - 1]), segments[|segments| - 1])
  }

  lemma PutSegmentsPrefix(o: Out, segments: seq<Segment>, i: nat)
    requires i < |segments|
    ensures PutSegments(o, segments[..i + 1]) == PutSegment(PutSegments(o, segments[..i]), segments[i])
  {
    assert segments[..i + 1][..i] == segments[..i];
  }

  /** The root's name placeholder, then each access in order. */
  function PutPath(o: Out, p: Path): Out {
    PutSegments(PutName(o, p.root), p.segments)
  }

  function PutOperand(o: Out, x: Operand): Result<Out, CompileError> {
    match x
    case Ref(p) => Success(PutPath(o, p))
    case Lit(l) =>
      match Encode(l)
      case None => Failure(UnencodableLiteral(l))
      case Some(v) => Success(PutValue(o, v))
  }

  /** Left operand, `=`, right operand, in one pass sharing both tables. */
  function CompileOut(c: Condition): Result<Out, CompileError> {
    match PutOperand(Start, c.left)
    case Failure(e) => Failure(e)
    case Success(o) => PutOperand(Put(o, EqualSign), c.right)
  }

  /** A table as a map from placeholder text to entry: placeholder k holds entry k - 1. */
  function Numbered<T>(prefix: char, entries: seq<T>): map<string, T>
    decreases |entries|
  {
    if entries == [] then map[]
    else Numbered(prefix, entries[..|entries| - 1])[Placeholder(prefix, |entries|) := entries[|entries| - 1]]
  }

  /** `Filter.compile`: the wire triple, or the literal that cannot be encoded. */
  function Compile(c: Condition): Result<Compiled, CompileError> {
    match CompileOut(c)
    case Failure(e) => Failure(e)
    case Success(o) =>
      Success(Compiled(Render(o.tokens), Numbered('#', o.tables.names), Numbered(':', o.tables.values)))
  }

  // ---------------------------------------------------------------------------
  // What a filter expression means, without placeholders

  /** An expression symbol with names and values written in place. */
  datatype Sym = SName(name: string) | SValue(value: AttributeValue) | SDot | SOpen | SClose | SEq

  function InlineSegment(seg: Segment): seq<Sym> {
    match seg
    case Field(name) => [SDot, SName(name)]
    case Index(i) => [SOpen, SValue(N(IntToString(i))), SClose]
  }

  function InlineSegments(segments: seq<Segment>): seq<Sym>
    decreases |segments|
  {
    if segments == [] then []
    else InlineSegments(segments[..|segments| - 1]) + InlineSegment(segments[|segments| - 1])
  }

  function InlineOperand(x: Operand): Option<seq<Sym>> {
    match x
    case Ref(p) => Some([SName(p.root)] + InlineSegments(p.segments))
    case Lit(l) =>
      match Encode(l)
      case None => None
      case Some(v) => Some([SValue(v)])
  }

  /** The condition with every name and encoded value in place; None if a literal cannot be encoded. */
  function Inline(c: Condition): Option<seq<Sym>> {
    match (InlineOperand(c.left), InlineOperand(c.right))
    case (Some(l), Some(r)) => Some(l + [SEq] + r)
    case _ => None
  }

  /** Replaces each placeholder token by the table entry it numbers. */
  function ResolveToken(t: Token, tables: Tables): Option<Sym> {
    match t
    case Name(k) => if 1 <= k <= |tables.names| then Some(SName(tables.names[k - 1])) else None
    case Value(k) => if 1 <= k <= |tables.values| then Some(SValue(tables.values[k - 1])) else None
    case Dot => Some(SDot)
    case Open => Some(SOpen)
    case Close => Some(SClose)
    case EqualSign => Some(SEq)
  }

  function Resolve(ts: seq<Token>, tables: Tables): Option<seq<Sym>>
    decreases |ts|
  {
    if ts == [] then Some([])
    else
      match (Resolve(ts[..|ts| - 1], tables), ResolveToken(ts[|ts| - 1], tables))
      case (Some(init), Some(last)) => Some(init + [last])
      case _ => None
  }

  /** Replaces each placeholder by its entry in the wire maps. */
  function LookUpToken(t: Token, names: map<string, string>, values: map<string, AttributeValue>): Option<Sym> {
    match t
    case Name(k) => if Placeholder('#', k) in names then Some(SName(names[Placeholder('#', k)])) else None
    case Value(k) => if Placeholder(':', k) in values then Some(SValue(values[Placeholder(':', k)])) else None
    case Dot => Some(SDot)
    case Open => Some(SOpen)
    case Close => Some(SClose)
    case EqualSign => Some(SEq)
  }

  function LookUp(ts: seq<Token>, names: map<string, string>, values: map<string, AttributeValue>): Option<seq<Sym>>
    decreases |ts|
  {
    if ts == [] then Some([])
    else
      match (LookUp(ts[..|ts| - 1], names, values), LookUpToken(ts[|ts| - 1], names, values))
      case (Some(init), Some(last)) => Some(init + [last])
      case _ => None
  }

  /** Reads a wire triple back: scan the expression, then substitute every placeholder. */
  function ReadBack(x: Compiled): Option<seq<Sym>> {
    match Scan(x.filterExpression)
    case None => None
    case Some(ts) => LookUp(ts, x.expressionAttributeNames, x.expressionAttributeValues)
  }

  // ---------------------------------------------------------------------------
  // Placeholder numbering

  function NameIds(ts: seq<Token>): seq<nat>
    decreases |ts|
  {
    if ts == [] then []
    else NameIds(ts[..|ts| - 1]) + (if ts[|ts| - 1].Name? then [ts[|ts| - 1].id] else [])
  }

  function ValueIds(ts: seq<Token>): seq<nat>
    decreases |ts|
  {
    if ts == [] then []
    else ValueIds(ts[..|ts| - 1]) + (if ts[|ts| - 1].Value? then [ts[|ts| - 1].id] else [])
  }

  /** The distinct elements, in order of first occurrence. */
  function FirstUses(xs: seq<nat>): seq<nat>
    decreases |xs|
  {
    if xs == [] then []
    else if xs[|xs| - 1] in xs[..|xs| - 1] then FirstUses(xs[..|xs| - 1])
    else FirstUses(xs[..|xs| - 1]) + [xs[|xs| - 1]]
  }

  /** 1, 2, ..., n. */
  function Iota(n: nat): seq<nat> {
    if n == 0 then [] else Iota(n - 1) + [n]
  }

  predicate NoDuplicates(s: seq<string>) {
    forall i, j :: 0 <= i < j < |s| ==> s[i] != s[j]
  }

  /** The names written in place in a symbol sequence. */
  function SymNames(syms: seq<Sym>): set<string>
    decreases |syms|
  {
    if syms == [] then {}
    else SymNames(syms[..|syms| - 1]) + (if syms[|syms| - 1].SName? then {syms[|syms| - 1].name} else {})
  }

  /** The number of values written in place in a symbol sequence. */
  function ValueCount(syms: seq<Sym>): nat
    decreases |syms|
  {
    if syms == [] then 0
    else ValueCount(syms[..|syms| - 1]) + (if syms[|syms| - 1].SValue? then 1 else 0)
  }

  /**
   * The invariant of a compilation that has so far read the symbols `syms`:
   * its tokens resolve to them through the tables; names are held once each
   * and numbered in order of first use; values are numbered 1, 2, ... in
   * order of occurrence, one entry per occurrence.
   */
  ghost predicate Tracks(o: Out, syms: seq<Sym>) {
    && Resolve(o.tokens, o.tables) == Some(syms)
    && NoDuplicates(o.tables.names)
    && FirstUses(NameIds(o.tokens)) == Iota(|o.tables.names|)
    && ValueIds(o.tokens) == Iota(|o.tables.values|)
    && (set n | n in o.tables.names) == SymNames(syms)
    && |o.tables.values| == ValueCount(syms)
  }

  // ---------------------------------------------------------------------------
  // Helper facts

  lemma {:induction false} InIota(n: nat, k: nat)
    ensures k in Iota(n) <==> 1 <= k <= n
  {
    if n > 0 {
      InIota(n - 1, k);
    }
  }

  lemma {:induction false} InFirstUses(xs: seq<nat>, x: nat)
    ensures x in FirstUses(xs) <==> x in xs
    decreases |xs|
  {
    if xs != [] {
      var init := xs[..|xs| - 1];
      assert xs == init + [xs[|xs| - 1]];
      InFirstUses(init, x);
    }
  }

  /** Tokens that resolve against some tables resolve the same way against tables that extend them. */
  lemma {:induction false} ResolveExtends(ts: seq<Token>, tables: Tables, more: Tables)
    requires tables.names <= more.names && tables.values <= more.values
    requires Resolve(ts, tables).Some?
    ensures Resolve(ts, more) == Resolve(ts, tables)
    decreases |ts|
  {
    if ts != [] {
      ResolveExtends(ts[..|ts| - 1], tables, more);
    }
  }

  // ---------------------------------------------------------------------------
  // Each step of the pass keeps the invariant

  lemma StartTracks()
    ensures Tracks(Start, [])
  {
  }

  lemma PutTracks(o: Out, syms: seq<Sym>, t: Token)
    requires Tracks(o, syms)
    requires !t.Name? && !t.Value?
    ensures Tracks(Put(o, t), syms + [PunctuationSym(t)])
  {
    var ts := o.tokens + [t];
    assert ts[..|ts| - 1] == o.tokens;
    var s2 := syms + [PunctuationSym(t)];
    assert s2[..|s2| - 1] == syms;
    assert NameIds(ts) == NameIds(o.tokens) + [];
    assert NameIds(ts) == NameIds(o.tokens);
    assert ValueIds(ts) == ValueIds(o.tokens) + [];
    assert ValueIds(ts) == ValueIds(o.tokens);
  }

  lemma PutNameTracks(o: Out, syms: seq<Sym>, name: string)
    requires Tracks(o, syms)
    ensures Tracks(PutName(o, name), syms + [SName(name)])
  {
    if name in o.tables.names {
      PutKnownNameTracks(o, syms, name);
    } else {
      PutNewNameTracks(o, syms, name);
    }
  }

  /** A name already in the table is emitted under its existing number. */
  lemma PutKnownNameTracks(o: Out, syms: seq<Sym>, name: string)
    requires Tracks(o, syms)
    requires name in o.tables.names
    ensures Tracks(PutName(o, name), syms + [SName(name)])
  {
    var names := o.tables.names;
    var k := IndexOf(names, name) + 1;
    var p := Put(o, Name(k));
    assert PutName(o, name) == p;
    var s2 := syms + [SName(name)];
    assert s2[..|s2| - 1] == syms;
    assert p.tokens[..|p.tokens| - 1] == o.tokens;
    var ids := NameIds(p.tokens);
    assert ids == NameIds(o.tokens) + [k];
    assert ids[..|ids| - 1] == NameIds(o.tokens);
    InIota(|names|, k);
    InFirstUses(NameIds(o.tokens), k);
    assert FirstUses(ids) == FirstUses(NameIds(o.tokens));
    assert ValueIds(p.tokens) == ValueIds(o.tokens) + [];
    assert ValueIds(p.tokens) == ValueIds(o.tokens);
    assert SymNames(s2) == SymNames(syms) + {name};
    assert ValueCount(s2) == ValueCount(syms);
  }

  /** A name seen for the first time gets the next number. */
  lemma PutNewNameTracks(o: Out, syms: seq<Sym>, name: string)
    requires Tracks(o, syms)
    requires name !in o.tables.names
    ensures Tracks(PutName(o, name), syms + [SName(name)])
  {
    var names := o.tables.names;
    var k := |names| + 1;
    var p := Out(o.tokens + [Name(k)], Tables(names + [name], o.tables.values));
    assert PutName(o, name) == p;
    var s2 := syms + [SName(name)];
    assert s2[..|s2| - 1] == syms;
    assert p.tokens[..|p.tokens| - 1] == o.tokens;
    ResolveExtends(o.tokens, o.tables, p.tables);
    var ids := NameIds(p.tokens);
    assert ids == NameIds(o.tokens) + [k];
    assert ids[..|ids| - 1] == NameIds(o.tokens);
    InIota(|names|, k);
    InFirstUses(NameIds(o.tokens), k);
    assert FirstUses(ids) == FirstUses(NameIds(o.tokens)) + [k];
    assert ValueIds(p.tokens) == ValueIds(o.tokens) + [];
    assert ValueIds(p.tokens) == ValueIds(o.tokens);
    assert (set n | n in names + [name]) == (set n | n in names) + {name};
    assert SymNames(s2) == SymNames(syms) + {name};
    assert ValueCount(s2) == ValueCount(syms);
  }

  lemma PutValueTracks(o: Out, syms: seq<Sym>, v: AttributeValue)
    requires Tracks(o, syms)
    ensures Tracks(PutValue(o, v), syms + [SValue(v)])
  {
    var p := PutValue(o, v);
    var s2 := syms + [SValue(v)];
    assert s2[..|s2| - 1] == syms;
    assert p.tokens[..|p.tokens| - 1] == o.tokens;
    var ids := ValueIds(p.tokens);
    assert ids == ValueIds(o.tokens) + [|o.tables.values| + 1];
    assert NameIds(p.tokens) == NameIds(o.tokens) + [];
    assert NameIds(p.tokens) == NameIds(o.tokens);
    ResolveExtends(o.tokens, o.tables, p.tables);
  }

  /** The symbol a punctuation token stands for. */
  function PunctuationSym(t: Token): Sym
    requires !t.Name? && !t.Value?
  {
    match t
    case Dot => SDot
    case Open => SOpen
    case Close => SClose
    case EqualSign => SEq
  }

  /** An invariant of the pass that each of its three kinds of step keeps. */
  ghost predicate KeptBySteps(inv: (Out, seq<Sym>) -> bool) {
    && (forall o, syms, t: Token :: inv(o, syms) && !t.Name? && !t.Value? ==> inv(Put(o, t), syms + [PunctuationSym(t)]))
    && (forall o, syms, name :: inv(o, syms) ==> inv(PutName(o, name), syms + [SName(name)]))
    && (forall o, syms, v :: inv(o, syms) ==> inv(PutValue(o, v), syms + [SValue(v)]))
  }

  lemma SegmentKeeps(inv: (Out, seq<Sym>) -> bool, o: Out, syms: seq<Sym>, seg: Segment)
    requires KeptBySteps(inv) && inv(o, syms)
    ensures inv(PutSegment(o, seg), syms + InlineSegment(seg))
  {
    match seg
    case Field(name) =>
      assert inv(Put(o, Dot), syms + [PunctuationSym(Dot)]);
      assert syms + [SDot] + [SName(name)] == syms + InlineSegment(seg);
    case Index(i) =>
      EncodeByKind(IndexLiteral(i));
      var v := N(IntToString(i));
      var o1 := Put(o, Open);
      assert inv(o1, syms + [PunctuationSym(Open)]);
      var o2 := PutValue(o1, v);
      assert inv(o2, syms + [SOpen] + [SValue(v)]);
      assert inv(Put(o2, Close), syms + [SOpen] + [SValue(v)] + [PunctuationSym(Close)]);
      assert syms + [SOpen] + [SValue(v)] + [SClose] == syms + InlineSegment(seg);
  }

  lemma {:induction false} SegmentsKeep(inv: (Out, seq<Sym>) -> bool, o: Out, syms: seq<Sym>, segments: seq<Segment>)
    requires KeptBySteps(inv) && inv(o, syms)
    ensures inv(PutSegments(o, segments), syms + InlineSegments(segments))
    decreases |segments|
  {
    if segments == [] {
      assert syms + InlineSegments(segments) == syms;
    } else {
      var init := segments[..|segments| - 1];
      var last := segments[|segments| - 1];
      SegmentsKeep(inv, o, syms, init);
      SegmentKeeps(inv, PutSegments(o, init), syms + InlineSegments(init), last);
      assert syms + InlineSegments(init) + InlineSegment(last) == syms + InlineSegments(segments);
    }
  }

  lemma OperandKeeps(inv: (Out, seq<Sym>) -> bool, o: Out, syms: seq<Sym>, x: Operand)
    requires KeptBySteps(inv) && inv(o, syms)
    ensures PutOperand(o, x).Success? <==> InlineOperand(x).Some?
    ensures PutOperand(o, x).Success? ==> inv(PutOperand(o, x).value, syms + InlineOperand(x).value)
    ensures PutOperand(o, x).Failure? ==> x.Lit? && PutOperand(o, x).error == UnencodableLiteral(x.literal)
  {
    match x
    case Ref(p) =>
      assert inv(PutName(o, p.root), syms + [SName(p.root)]);
      SegmentsKeep(inv, PutName(o, p.root), syms + [SName(p.root)], p.segments);
      assert syms + [SName(p.root)] + InlineSegments(p.segments) == syms + InlineOperand(x).value;
    case Lit(l) =>
  }

  /** The whole pass keeps any invariant its steps keep; it fails exactly when some literal cannot be encoded. */
  lemma CompileOutKeeps(inv: (Out, seq<Sym>) -> bool, c: Condition)
    requires KeptBySteps(inv) && inv(Start, [])
    ensures CompileOut(c).Success? <==> Inline(c).Some?
    ensures CompileOut(c).Success? ==> inv(CompileOut(c).value, Inline(c).value)
  {
    OperandKeeps(inv, Start, [], c.left);
    if PutOperand(Start, c.left).Success? {
      var o := PutOperand(Start, c.left).value;
      var l := InlineOperand(c.left).value;
      assert [] + l == l;
      assert inv(Put(o, EqualSign), l + [PunctuationSym(EqualSign)]);
      OperandKeeps(inv, Put(o, EqualSign), l + [SEq], c.right);
    }
  }

  lemma StepsKeepTracks()
    ensures KeptBySteps((o, syms) => Tracks(o, syms))
  {
    forall o, syms, t: Token | Tracks(o, syms) && !t.Name? && !t.Value?
      ensures Tracks(Put(o, t), syms + [PunctuationSym(t)])
    {
      PutTracks(o, syms, t);
    }
    forall o, syms, name | Tracks(o, syms)
      ensures Tracks(PutName(o, name), syms + [SName(name)])
    {
      PutNameTracks(o, syms, name);
    }
    forall o, syms, v | Tracks(o, syms)
      ensures Tracks(PutValue(o, v), syms + [SValue(v)])
    {
      PutValueTracks(o, syms, v);
    }
  }

  /** The whole pass keeps the invariant, and fails exactly when some literal cannot be encoded. */
  lemma CompileOutTracks(c: Condition)
    ensures CompileOut(c).Success? <==> Inline(c).Some?
    ensures CompileOut(c).Success? ==> Tracks(CompileOut(c).value, Inline(c).value)
  {
    StartTracks();
    StepsKeepTracks();
    CompileOutKeeps((o, syms) => Tracks(o, syms), c);
  }

  // ---------------------------------------------------------------------------
  // From tables to the wire maps

  lemma {:induction false} NumberedLookup<T>(prefix: char, entries: seq<T>, k: nat)
    ensures Placeholder(prefix, k) in Numbered(prefix, entries) <==> 1 <= k <= |entries|
    ensures 1 <= k <= |entries| ==> Numbered(prefix, entries)[Placeholder(prefix, k)] == entries[k - 1]
    decreases |entries|
  {
    if entries != [] {
      NumberedLookup(prefix, entries[..|entries| - 1], k);
      if Placeholder(prefix, k) == Placeholder(prefix, |entries|) {
        PlaceholderInjective(prefix, k, prefix, |entries|);
      }
    }
  }

  lemma {:induction false} NumberedKeys<T>(prefix: char, entries: seq<T>)
    ensures Numbered(prefix, entries).Keys == set k | 1 <= k <= |entries| :: Placeholder(prefix, k)
    decreases |entries|
  {
    if entries != [] {
      var n := |entries|;
      NumberedKeys(prefix, entries[..n - 1]);
      var before := set k | 1 <= k <= n - 1 :: Placeholder(prefix, k);
      var after := set k | 1 <= k <= n :: Placeholder(prefix, k);
      assert after == before + {Placeholder(prefix, n)} by {
        forall key | key in after
          ensures key in before + {Placeholder(prefix, n)}
        {
          var k :| 1 <= k <= n && key == Placeholder(prefix, k);
          if k < n {
            assert key in before;
          }
        }
      }
    }
  }

  lemma {:induction false} NumberedSize<T>(prefix: char, entries: seq<T>)
    ensures |Numbered(prefix, entries)| == |entries|
    decreases |entries|
  {
    if entries != [] {
      var n := |entries|;
      NumberedSize(prefix, entries[..n - 1]);
      NumberedLookup(prefix, entries[..n - 1], n);
    }
  }

  /** A table without repeated entries gives a map without repeated values. */
  lemma NumberedInjective(prefix: char, entries: seq<string>)
    requires NoDuplicates(entries)
    ensures var m := Numbered(prefix, entries);
            forall a, b :: a in m && b in m && a != b ==> m[a] != m[b]
  {
    var m := Numbered(prefix, entries);
    NumberedKeys(prefix, entries);
    forall a, b | a in m && b in m && a != b
      ensures m[a] != m[b]
    {
      var i :| 1 <= i <= |entries| && a == Placeholder(prefix, i);
      var j :| 1 <= j <= |entries| && b == Placeholder(prefix, j);
      NumberedLookup(prefix, entries, i);
      NumberedLookup(prefix, entries, j);
    }
  }

  /** The map's values are exactly the table's entries. */
  lemma NumberedValues(prefix: char, entries: seq<string>)
    ensures Numbered(prefix, entries).Values == set n | n in entries
  {
    var m := Numbered(prefix, entries);
    NumberedKeys(prefix, entries);
    forall n
      ensures n in m.Values <==> n in entries
    {
      if n in entries {
        var i := IndexOf(entries, n);
        NumberedLookup(prefix, entries, i + 1);
      }
      if n in m.Values {
        var a :| a in m && m[a] == n;
        var i :| 1 <= i <= |entries| && a == Placeholder(prefix, i);
        NumberedLookup(prefix, entries, i);
      }
    }
  }

  /** Substituting through the wire maps is substituting through the tables they number. */
  lemma {:induction false} LookUpResolve(ts: seq<Token>, tables: Tables)
    ensures LookUp(ts, Numbered('#', tables.names), Numbered(':', tables.values)) == Resolve(ts, tables)
    decreases |ts|
  {
    if ts != [] {
      LookUpResolve(ts[..|ts| - 1], tables);
      var t := ts[|ts| - 1];
      if t.Name? {
        NumberedLookup('#', tables.names, t.id);
      } else if t.Value? {
        NumberedLookup(':', tables.values, t.id);
      }
    }
  }

  // ---------------------------------------------------------------------------
  // What the compiler promises

  /**
   * Compilation succeeds exactly when every literal can be encoded, and then
   * reading the wire triple back (scanning the expression and substituting
   * each placeholder through the maps) gives the condition with its names and
   * encoded values in place: `#A.#B` for a field access, `#A[:V]` for an index
   * access whose index is the value `{N: decimal text}`, and `=` between the
   * operands.
   */
  lemma CompileMeaning(c: Condition)
    ensures Compile(c).Success? <==> Inline(c).Some?
    ensures Compile(c).Success? ==> ReadBack(Compile(c).value) == Inline(c)
  {
    CompileOutTracks(c);
    if CompileOut(c).Success? {
      var o := CompileOut(c).value;
      ScanRender(o.tokens);
      LookUpResolve(o.tokens, o.tables);
    }
  }

  /** A failed compilation names an operand literal that cannot be encoded, the left one first. */
  lemma CompileFailure(c: Condition)
    ensures Compile(c).Failure? ==>
              var l := Compile(c).error.literal;
              (c.left == Lit(l) || c.right == Lit(l)) && Encode(l).None?
    ensures c.left.Lit? && Encode(c.left.literal).None? ==> Compile(c) == Failure(UnencodableLiteral(c.left.literal))
  {
    OperandKeeps((o, syms) => true, Start, [], c.left);
  }

  /**
   * Placeholder numbering: in the expression, name placeholders are numbered
   * 1, 2, ... in order of first use and value placeholders 1, 2, ... in order
   * of occurrence, the two counters independent; each map holds exactly the
   * placeholders the expression uses.
   */
  lemma CompileNumbering(c: Condition)
    requires Compile(c).Success?
    ensures var x := Compile(c).value;
            && Scan(x.filterExpression).Some?
            && var ts := Scan(x.filterExpression).value;
            && FirstUses(NameIds(ts)) == Iota(|x.expressionAttributeNames|)
            && ValueIds(ts) == Iota(|x.expressionAttributeValues|)
            && x.expressionAttributeNames.Keys == (set k | k in NameIds(ts) :: Placeholder('#', k))
            && x.expressionAttributeValues.Keys == (set k | k in ValueIds(ts) :: Placeholder(':', k))
  {
    CompileOutTracks(c);
    var o := CompileOut(c).value;
    var ts := o.tokens;
    ScanRender(ts);
    NumberedKeys('#', o.tables.names);
    NumberedKeys(':', o.tables.values);
    NumberedSize('#', o.tables.names);
    NumberedSize(':', o.tables.values);
    forall k: nat
      ensures k in NameIds(ts) <==> 1 <= k <= |o.tables.names|
      ensures k in ValueIds(ts) <==> 1 <= k <= |o.tables.values|
    {
      InFirstUses(NameIds(ts), k);
      InIota(|o.tables.names|, k);
      InIota(|o.tables.values|, k);
    }
  }

  /**
   * The name map holds each distinct name once and exactly the names the
   * condition mentions; the value map holds one entry per literal occurrence,
   * equal values included.
   */
  lemma CompileTables(c: Condition)
    requires Compile(c).Success?
    ensures var x := Compile(c).value;
            && (forall a, b :: a in x.expressionAttributeNames && b in x.expressionAttributeNames && a != b ==>
                  x.expressionAttributeNames[a] != x.expressionAttributeNames[b])
            && x.expressionAttributeNames.Values == SymNames(Inline(c).value)
            && |x.expressionAttributeValues| == ValueCount(Inline(c).value)
  {
    CompileOutTracks(c);
    var o := CompileOut(c).value;
    NumberedInjective('#', o.tables.names);
    NumberedValues('#', o.tables.names);
    NumberedSize(':', o.tables.values);
  }

  /**
   * `node.equals(value)` compiles exactly when the value fits the node's
   * scalar kind; otherwise the error names the literal the DSL built.
   */
  lemma EqualsValueCompiles(n: Dsl.Node, v: Native)
    ensures Compile(Dsl.EqualsValue(n, v)).Success? <==> Fits(n.shape.Kind(), v)
    ensures !Fits(n.shape.Kind(), v) ==>
              Compile(Dsl.EqualsValue(n, v)) == Failure(UnencodableLiteral(Literal(n.shape, v)))
  {
    CompileMeaning(Dsl.EqualsValue(n, v));
    EncodeByKind(Literal(n.shape, v));
  }

  /** `node.equals(other)` compares two paths and always compiles. */
  lemma EqualsNodeCompiles(n: Dsl.Node, m: Dsl.Node)
    ensures Compile(Dsl.EqualsNode(n, m)).Success?
  {
    CompileMeaning(Dsl.EqualsNode(n, m));
  }
}

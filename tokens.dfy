/**
 * The lexical level of a filter expression: name placeholders `#N`, value
 * placeholders `:N` and the punctuation `.`, `[`, `]` and `=`. Rendering a
 * token sequence into the expression string loses nothing: scanning the
 * string gives the sequence back.
 */
module Tokens {
  import opened Wrappers
  import opened Decimal

  datatype Token = Name(id: nat) | Value(id: nat) | Dot | Open | Close | EqualSign

  /** `#N` (prefix `#`) or `:N` (prefix `:`). */
  function Placeholder(prefix: char, id: nat): string {
    [prefix] + NatToString(id)
  }

  function Text(t: Token): string {
    match t
    case Name(id) => Placeholder('#', id)
    case Value(id) => Placeholder(':', id)
    case Dot => "."
    case Open => "["
    case Close => "]"
    case EqualSign => "="
  }

  /** The expression string: the tokens' texts, in order, with nothing between them. */
  function Render(ts: seq<Token>): string {
    if ts == [] then "" else Render(ts[..|ts| - 1]) + Text(ts[|ts| - 1])
  }

  /** The length of the run of digits that starts `s`. */
  function DigitRun(s: string): (n: nat)
    ensures n <= |s| && AllDigits(s[..n]) && (n < |s| ==> !IsDigit(s[n]))
  {
    if s != [] && IsDigit(s[0]) then
      var n := 1 + DigitRun(s[1..]);
      assert forall i :: 1 <= i < n ==> s[..n][i] == s[1..][..n - 1][i - 1];
      n
    else 0
  }

  function Punctuation(c: char): Option<Token> {
    match c
    case '.' => Some(Dot)
    case '[' => Some(Open)
    case ']' => Some(Close)
    case '=' => Some(EqualSign)
    case _ => None
  }

  /** The first token of a non-empty string and the number of characters it takes. */
  function Lex(s: string): (r: Option<(Token, nat)>)
    requires s != []
    ensures r.Some? ==> 1 <= r.value.1 <= |s|
  {
    if s[0] == '#' || s[0] == ':' then
      var n := DigitRun(s[1..]);
      if n == 0 then None
      else
        var id := ParseNat(s[1..][..n]);
        Some((if s[0] == '#' then Name(id) else Value(id), 1 + n))
    else
      match Punctuation(s[0])
      case None => None
      case Some(t) => Some((t, 1))
  }

  function Prepend(t: Token, r: Option<seq<Token>>): Option<seq<Token>> {
    match r
    case None => None
    case Some(ts) => Some([t] + ts)
  }

  /** Splits an expression string into tokens; None when it holds anything else. */
  function Scan(s: string): Option<seq<Token>>
    decreases |s|
  {
    if s == [] then Some([])
    else
      match Lex(s)
      case None => None
      case Some((t, n)) => Prepend(t, Scan(s[n..]))
  }

  /** Different numbers (or different prefixes) give different placeholders. */
  lemma PlaceholderInjective(p: char, a: nat, q: char, b: nat)
    requires Placeholder(p, a) == Placeholder(q, b)
    ensures p == q && a == b
  {
    assert Placeholder(p, a)[0] == p && Placeholder(q, b)[0] == q;
    assert Placeholder(p, a)[1..] == NatToString(a);
    assert Placeholder(q, b)[1..] == NatToString(b);
    NatToStringInjective(a, b);
  }

  lemma AppendAssociates(a: string, b: string, c: string)
    ensures (a + b) + c == a + (b + c)
  {
  }

  lemma {:induction false} RenderPrepend(t: Token, ts: seq<Token>)
    ensures Render([t] + ts) == Text(t) + Render(ts)
    decreases |ts|
  {
    if ts != [] {
      var init, last := ts[..|ts| - 1], ts[|ts| - 1];
      var whole := [t] + ts;
      assert whole[..|ts|] == [t] + init && whole[|ts|] == last;
      assert Render(whole) == Render([t] + init) + Text(last);
      RenderPrepend(t, init);
      assert Render(ts) == Render(init) + Text(last);
      AppendAssociates(Text(t), Render(init), Text(last));
    }
  }

  lemma {:induction false} DigitRunOf(digits: string, rest: string)
    requires AllDigits(digits)
    requires rest == [] || !IsDigit(rest[0])
    ensures DigitRun(digits + rest) == |digits|
    decreases |digits|
  {
    if digits != [] {
      assert (digits + rest)[1..] == digits[1..] + rest;
      DigitRunOf(digits[1..], rest);
    }
  }

  lemma LexPlaceholder(prefix: char, id: nat, rest: string)
    requires prefix == '#' || prefix == ':'
    requires rest == [] || !IsDigit(rest[0])
    ensures Lex(Placeholder(prefix, id) + rest) ==
            Some((if prefix == '#' then Name(id) else Value(id), |Placeholder(prefix, id)|))
  {
    var digits := NatToString(id);
    var s := Placeholder(prefix, id) + rest;
    assert s[0] == prefix;
    assert s[1..] == digits + rest;
    DigitRunOf(digits, rest);
    assert s[1..][..|digits|] == digits;
    ParseNatToString(id);
  }

  /** A token's text, followed by text that does not continue a number, lexes as that token. */
  lemma LexText(t: Token, rest: string)
    requires rest == [] || !IsDigit(rest[0])
    ensures Lex(Text(t) + rest) == Some((t, |Text(t)|))
  {
    match t
    case Name(id) => LexPlaceholder('#', id, rest);
    case Value(id) => LexPlaceholder(':', id, rest);
    case Dot => assert (Text(t) + rest)[0] == '.';
    case Open => assert (Text(t) + rest)[0] == '[';
    case Close => assert (Text(t) + rest)[0] == ']';
    case EqualSign => assert (Text(t) + rest)[0] == '=';
  }

  /** Scanning one token's text followed by text that does not continue a number. */
  lemma ScanText(t: Token, rest: string)
    requires rest == [] || !IsDigit(rest[0])
    ensures Scan(Text(t) + rest) == Prepend(t, Scan(rest))
  {
    LexText(t, rest);
    assert (Text(t) + rest)[|Text(t)|..] == rest;
  }

  /** No token's text starts with a digit. */
  lemma TextStartsWithSymbol(t: Token)
    ensures |Text(t)| >= 1 && !IsDigit(Text(t)[0])
  {
  }

  lemma RenderStartsWithSymbol(ts: seq<Token>)
    requires ts != []
    ensures |Render(ts)| >= 1 && !IsDigit(Render(ts)[0])
  {
    assert ts == [ts[0]] + ts[1..];
    RenderPrepend(ts[0], ts[1..]);
    TextStartsWithSymbol(ts[0]);
  }

  /** Scanning a rendered expression gives back exactly the tokens rendered. */
  lemma {:induction false} ScanRender(ts: seq<Token>)
    ensures Scan(Render(ts)) == Some(ts)
    decreases |ts|
  {
    if ts != [] {
      var rest := ts[1..];
      assert ts == [ts[0]] + rest;
      RenderPrepend(ts[0], rest);
      if rest != [] {
        RenderStartsWithSymbol(rest);
      }
      ScanRender(rest);
      ScanText(ts[0], Render(rest));
    }
  }
}

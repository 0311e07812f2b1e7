/** The parser (src/lox_parser.rs): a cursor over a token list. Only the
    cursor operations are implemented in the source; the grammar functions are
    stubs that return a fixed literal. */
module Parser {
  import opened Outcomes
  import opened Tokens
  import opened Expressions
  import opened Scanner

  /** The cursor after `advance` from `current`: one step forward unless the
      token under the cursor is the end-of-input token. */
  function Advanced(tokens: seq<Token>, current: nat): (next: nat)
    requires current < |tokens|
    ensures tokens[current].tokenType == EOF ==> next == current
    ensures tokens[current].tokenType != EOF ==> next == current + 1
  {
    if tokens[current].tokenType == EOF then current else current + 1
  }

  /** The cursor after `n` calls of `advance` that did not panic. */
  function AdvancedTimes(tokens: seq<Token>, current: nat, n: nat): nat
    requires HasEof(tokens) && current <= FirstEof(tokens)
    decreases n
  {
    if n == 0 then current
    else
      AdvanceStaysBeforeFirstEof(tokens, current);
      AdvancedTimes(tokens, Advanced(tokens, current), n - 1)
  }

  /** A cursor at or before the first end-of-input token stays there: it is
      always a valid index and never passes that token. */
  lemma AdvanceStaysBeforeFirstEof(tokens: seq<Token>, current: nat)
    requires HasEof(tokens) && current <= FirstEof(tokens)
    ensures current < |tokens|
    ensures Advanced(tokens, current) <= FirstEof(tokens)
    ensures current < FirstEof(tokens) ==> Advanced(tokens, current) == current + 1
  {
  }

  /** From a cursor at or before the first end-of-input token, `n` advances
      move the cursor `n` places, stopping at that token. */
  lemma {:induction false} AdvancedTimesStopsAtFirstEof(tokens: seq<Token>, current: nat, n: nat)
    requires HasEof(tokens) && current <= FirstEof(tokens)
    ensures AdvancedTimes(tokens, current, n)
         == if current + n <= FirstEof(tokens) then current + n else FirstEof(tokens)
    decreases n
  {
    if n > 0 {
      AdvanceStaysBeforeFirstEof(tokens, current);
      AdvancedTimesStopsAtFirstEof(tokens, Advanced(tokens, current), n - 1);
    }
  }

  /** `expression`: a stub for the grammar rule, delegating to `equality`. */
  function Expression(): (e: Expr)
    ensures e == Literal(Some("123"))
  {
    Equality()
  }

  /** `equality`: a stub for the grammar rule, delegating to `comparison`. */
  function Equality(): (e: Expr)
    ensures e == Literal(Some("123"))
  {
    Comparison()
  }

  /** `comparison`: a stub that returns a fixed literal whatever the tokens. */
  function Comparison(): (e: Expr)
    ensures e.Literal? && e.value == Some("123")
  {
    NewLiteral(Some("123"))
  }

  class LoxParser {
    var tokens: seq<Token>
    var current: nat

    /** `LoxParser::default`: no tokens, cursor at the start. */
    constructor Default()
      ensures tokens == [] && current == 0
    {
      tokens := [];
      current := 0;
    }

    /** `LoxParser::new`: keeps the token list and starts the cursor at 0. */
    constructor (tokens: seq<Token>)
      ensures this.tokens == tokens && current == 0
    {
      this.tokens := tokens;
      current := 0;
    }

    /** The cursor is at or before the first end-of-input token of the list. */
    predicate CursorValid()
      reads this
    {
      HasEof(tokens) && current <= FirstEof(tokens)
    }

    /** The token under the cursor; the `unwrap` panics past the end of the list. */
    function Peek(): (r: Result<Token>)
      reads this
      ensures r.Ok? <==> current < |tokens|
      ensures r.Ok? ==> r.value == tokens[current]
      ensures r.Panic? ==> r.reason == UnwrapNone
    {
      if current < |tokens| then Ok(tokens[current]) else Panic(UnwrapNone)
    }

    /** Whether the token under the cursor is the end-of-input token. */
    function IsAtEnd(): (r: Result<bool>)
      reads this
      ensures r.Ok? <==> current < |tokens|
      ensures r.Ok? ==> (r.value <==> tokens[current].tokenType == EOF)
      ensures r.Panic? ==> r.reason == UnwrapNone
    {
      match Peek()
      case Ok(t) => Ok(t.tokenType == EOF)
      case Panic(reason) => Panic(reason)
    }

    /** Whether the token under the cursor has kind `tokenType`; always false
        at the end of input. */
    function Check(tokenType: TokenType): (r: Result<bool>)
      reads this
      ensures r.Ok? <==> current < |tokens|
      ensures r.Ok? ==> (r.value <==> tokens[current].tokenType != EOF && tokens[current].tokenType == tokenType)
      ensures r.Panic? ==> r.reason == UnwrapNone
    {
      match IsAtEnd()
      case Panic(reason) => Panic(reason)
      case Ok(atEnd) =>
        if atEnd then Ok(false) else Ok(Peek().value.tokenType == tokenType)
    }

    /** The token before the cursor; `current - 1` underflows at 0 and the
        `unwrap` panics past the end of the list. */
    function Previous(): (r: Result<Token>)
      reads this
      ensures r.Ok? <==> 0 < current <= |tokens|
      ensures r.Ok? ==> r.value == tokens[current - 1]
      ensures current == 0 ==> r == Panic(SubtractOverflow)
      ensures current > |tokens| ==> r == Panic(UnwrapNone)
    {
      if current == 0 then Panic(SubtractOverflow)
      else if current - 1 < |tokens| then Ok(tokens[current - 1])
      else Panic(UnwrapNone)
    }

    /** `advance`: steps past the current token unless it is the end-of-input
        token, then returns the token before the cursor. It panics past the
        end of the list, and at the end of input when the cursor is at 0. */
    method Advance() returns (r: Result<Token>)
      modifies this`current
      ensures old(current) < |tokens| ==> current == Advanced(tokens, old(current))
      ensures old(current) >= |tokens| ==> current == old(current) && r == Panic(UnwrapNone)
      ensures old(current) < |tokens| && current == 0 ==> r == Panic(SubtractOverflow)
      ensures r.Ok? <==> old(current) < |tokens| && current > 0
      ensures r.Ok? ==> r.value == tokens[current - 1]
      ensures r.Panic? ==> current == old(current)
      ensures old(CursorValid()) ==> CursorValid() && r.Ok? == (current > 0)
    {
      var atEnd := IsAtEnd();
      if atEnd.Panic? {
        return Panic(atEnd.reason);
      }
      if CursorValid() { AdvanceStaysBeforeFirstEof(tokens, current); }
      if !atEnd.value {
        current := current + 1;
      }
      r := Previous();
    }

    /** `match_token`: tries the kinds in order and advances once on the first
        that passes `Check`. The outcome depends only on whether the current
        token's kind occurs in `types`; an empty list never reads a token. */
    method MatchToken(types: seq<TokenType>) returns (r: Result<bool>)
      modifies this`current
      ensures types == [] ==> r == Ok(false)
      ensures types != [] && old(current) >= |tokens| ==> r == Panic(UnwrapNone)
      ensures types != [] && old(current) < |tokens| ==>
                r == Ok(tokens[old(current)].tokenType != EOF && tokens[old(current)].tokenType in types)
      ensures r == Ok(true) ==> current == old(current) + 1
      ensures r != Ok(true) ==> current == old(current)
      ensures old(CursorValid()) ==> CursorValid() && r.Ok?
    {
      for i := 0 to |types|
        invariant current == old(current)
        invariant i > 0 ==> current < |tokens|
        invariant forall j :: 0 <= j < i ==> types[j] != tokens[current].tokenType || tokens[current].tokenType == EOF
      {
        var matched := Check(types[i]);
        if matched.Panic? {
          return Panic(matched.reason);
        }
        if matched.value {
          var _ := Advance();
          return Ok(true);
        }
      }
      return Ok(false);
    }
  }

  /** The scanner's output handed to a new parser: the cursor is valid, yet the
      first `advance` panics, because the cursor stays at 0 on the end-of-input
      token and `previous` then subtracts 1 from 0. */
  method ScanThenAdvance(source: string) returns (r: Result<Token>)
    ensures r == Panic(SubtractOverflow)
  {
    var tokens := ScanSource(source);
    var parser := new LoxParser(tokens);
    assert parser.CursorValid();
    r := parser.Advance();
  }
}

/** Tokens as the scanner produces them and the parser consumes them
    (src/token.rs). */
module Tokens {
  import opened Outcomes

  /** Token kinds. Only the end-of-input kind and equality between kinds are
      used by the modelled code; every other kind is represented by its name. */
  datatype TokenType = EOF | Other(name: string)

  datatype Token = Token(tokenType: TokenType, lexeme: string, literal: string, line: nat)

  /** `Token::new`: total, and stores every argument unchanged. */
  function NewToken(tokenType: TokenType, lexeme: string, literal: string, line: nat): (t: Token)
    ensures t.tokenType == tokenType
    ensures t.lexeme == lexeme && t.literal == literal
    ensures t.line == line
  {
    Token(tokenType, lexeme, literal, line)
  }

  /** Two tokens built by `NewToken` are equal exactly when all four
      arguments are, and every token is built by `NewToken` from its own fields. */
  lemma NewTokenIsInvertible(a: Token, tokenType: TokenType, lexeme: string, literal: string, line: nat)
    ensures NewToken(tokenType, lexeme, literal, line) == a
        <==> (a.tokenType == tokenType && a.lexeme == lexeme && a.literal == literal && a.line == line)
    ensures NewToken(a.tokenType, a.lexeme, a.literal, a.line) == a
  {
  }

  /** The `Display` implementation is `todo!()`: formatting any token panics. */
  function Display(t: Token): (r: Result<string>)
    ensures r.Panic? && r.reason == NotImplemented
  {
    Panic(NotImplemented)
  }

  /** Index of the first end-of-input token, or `|tokens|` when there is none. */
  function FirstEof(tokens: seq<Token>): (k: nat)
    ensures k <= |tokens|
    ensures forall i :: 0 <= i < k ==> tokens[i].tokenType != EOF
    ensures k < |tokens| ==> tokens[k].tokenType == EOF
  {
    if tokens == [] then 0
    else if tokens[0].tokenType == EOF then 0
    else 1 + FirstEof(tokens[1..])
  }

  predicate HasEof(tokens: seq<Token>) {
    FirstEof(tokens) < |tokens|
  }

  /** A token stream is terminated when its only end-of-input token is its last. */
  predicate Terminated(tokens: seq<Token>) {
    tokens != [] && FirstEof(tokens) == |tokens| - 1
  }

  /** Tokens appear in non-decreasing line order. */
  predicate LinesNonDecreasing(tokens: seq<Token>) {
    forall i, j :: 0 <= i < j < |tokens| ==> tokens[i].line <= tokens[j].line
  }
}

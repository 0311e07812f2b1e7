/** The scanner (src/lox_scanner.rs). Its scanning loop is not implemented in
    the source: `scan_tokens` returns the end-of-input token alone. */
module Scanner {
  import opened Tokens

  class LoxScanner {
    var source: string
    var start: nat
    var current: nat
    var line: nat

    /** `LoxScanner::default`: empty source, cursors at 0, line 1. */
    constructor Default()
      ensures source == "" && start == 0 && current == 0 && line == 1
    {
      source := "";
      start, current, line := 0, 0, 1;
    }

    /** `LoxScanner::new`: keeps the source, cursors at 0, line 1. */
    constructor (source: string)
      ensures this.source == source && start == 0 && current == 0 && line == 1
    {
      this.source := source;
      start, current, line := 0, 0, 1;
    }

    /** `scan_tokens`: exactly one token, the end-of-input token with empty
        lexeme and literal at the scanner's line. The result depends on the
        line alone, not on the source, and no field changes. */
    method ScanTokens() returns (tokens: seq<Token>)
      ensures |tokens| == 1
      ensures tokens[0].tokenType == EOF
      ensures tokens[0].lexeme == "" && tokens[0].literal == ""
      ensures tokens[0].line == line
      ensures Terminated(tokens) && LinesNonDecreasing(tokens)
    {
      tokens := [];
      tokens := tokens + [NewToken(EOF, "", "", line)];
    }
  }

  /** A scanner built by `new` puts its end-of-input token on line 1, whatever
      the source. */
  method ScanSource(source: string) returns (tokens: seq<Token>)
    ensures tokens == [NewToken(EOF, "", "", 1)]
  {
    var scanner := new LoxScanner(source);
    tokens := scanner.ScanTokens();
  }
}

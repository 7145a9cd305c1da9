/**
 * The `{% require method(arg, ...) %}` tag: a method name, a parenthesised,
 * comma-separated run of string or number literals, and the block end.
 * The parser yields the method name and one record per literal argument.
 */
module RequireTag {
  import opened Wrappers
  import opened Tokens

  /** The tag name the parser is registered under. */
  const Tag := "require"

  const LeftParen := Token(Punctuation, "(")
  const RightParen := Token(Punctuation, ")")
  const Comma := Token(Punctuation, ",")

  /** One argument: the literal's value and whether it was a string (rather than a number). */
  datatype Arg = Arg(value: string, isString: bool)

  /** The node handed to the compiler: opening tag's line, method name, arguments, tag. */
  datatype RequireNode = RequireNode(line: nat, methodName: string, args: seq<Arg>, tag: string)

  /** The arguments scanned and the cursor after the scan. */
  datatype Scan = Scan(args: seq<Arg>, end: nat)

  /** A parsed tag and the cursor after its block end. */
  datatype Parsed = Parsed(node: RequireNode, end: nat)

  /** The token kinds the argument scan accepts as values. */
  predicate IsLiteral(t: Token) {
    t.kind == String || t.kind == Number
  }

  function ArgOf(t: Token): Arg {
    Arg(t.value, t.kind == String)
  }

  /**
   * parseArgs: read a token; while it is a literal, record it, and continue
   * only if a comma follows, reading the token after the comma.
   */
  function ScanArgs(ts: seq<Token>, pos: nat): (r: Result<Scan, SyntaxError>)
    ensures r.Success? ==> pos < r.value.end <= |ts|
    ensures r.Success? ==> 2 * |r.value.args| <= r.value.end - pos + 1
    ensures r.Failure? ==> r.error == UnexpectedEnd
    decreases |ts| - pos
  {
    var first :- Next(ts, pos);
    if !IsLiteral(first.token) then
      Success(Scan([], first.next))
    else
      match NextIf(ts, first.next, Punctuation, Some(","))
      case None => Success(Scan([ArgOf(first.token)], first.next))
      case Some(comma) =>
        var rest :- ScanArgs(ts, comma.next);
        Success(Scan([ArgOf(first.token)] + rest.args, rest.end))
  }

  /** parse: NAME, `(`, the argument run, `)`, BLOCK_END. */
  function Parse(ts: seq<Token>, pos: nat, line: nat): (r: Result<Parsed, SyntaxError>)
    ensures r.Success? ==> pos + 4 < r.value.end <= |ts|
    ensures r.Success? ==> r.value.node == RequireNode(line, ts[pos].value, r.value.node.args, Tag)
  {
    var name :- Expect(ts, pos, Name, None);
    var open :- Expect(ts, name.next, Punctuation, Some("("));
    var scan :- ScanArgs(ts, open.next);
    var close :- Expect(ts, scan.end, Punctuation, Some(")"));
    var blockEnd :- Expect(ts, close.next, BlockEnd, None);
    Success(Parsed(RequireNode(line, name.token.value, scan.args, Tag), blockEnd.next))
  }

  /**
   * The argument run as a grammar: a single non-literal token (read and
   * dropped), a final literal, or a literal, a comma and a further run.
   */
  datatype ArgRun =
    | Dropped(token: Token)
    | Last(literal: Token)
    | More(literal: Token, rest: ArgRun)

  predicate ValidRun(run: ArgRun) {
    match run
    case Dropped(t) => !IsLiteral(t)
    case Last(l) => IsLiteral(l)
    case More(l, rest) => IsLiteral(l) && ValidRun(rest)
  }

  function RunTokens(run: ArgRun): seq<Token> {
    match run
    case Dropped(t) => [t]
    case Last(l) => [l]
    case More(l, rest) => [l, Comma] + RunTokens(rest)
  }

  function RunArgs(run: ArgRun): seq<Arg> {
    match run
    case Dropped(_) => []
    case Last(l) => [ArgOf(l)]
    case More(l, rest) => [ArgOf(l)] + RunArgs(rest)
  }

  /** True when the run stops after a literal because no comma followed. */
  predicate EndsWithLiteral(run: ArgRun) {
    match run
    case Dropped(_) => false
    case Last(_) => true
    case More(_, rest) => EndsWithLiteral(rest)
  }

  /** The token sequence of a well-formed tag body. */
  function Layout(name: Token, run: ArgRun, blockEnd: Token): seq<Token> {
    [name, LeftParen] + RunTokens(run) + [RightParen, blockEnd]
  }

  /** The stream holds exactly `toks` from cursor `pos` on. */
  predicate TokensAt(ts: seq<Token>, pos: nat, toks: seq<Token>) {
    pos + |toks| <= |ts| && forall i :: 0 <= i < |toks| ==> ts[pos + i] == toks[i]
  }

  lemma TokensAtSplit(ts: seq<Token>, pos: nat, a: seq<Token>, b: seq<Token>)
    requires TokensAt(ts, pos, a + b)
    ensures TokensAt(ts, pos, a) && TokensAt(ts, pos + |a|, b)
  {
    forall i | 0 <= i < |a|
      ensures ts[pos + i] == a[i]
    {
      assert (a + b)[i] == a[i];
    }
    forall i | 0 <= i < |b|
      ensures ts[pos + |a| + i] == b[i]
    {
      assert ts[pos + (|a| + i)] == (a + b)[|a| + i];
    }
  }

  lemma TokensAtJoin(ts: seq<Token>, pos: nat, a: seq<Token>, b: seq<Token>)
    requires TokensAt(ts, pos, a) && TokensAt(ts, pos + |a|, b)
    ensures TokensAt(ts, pos, a + b)
  {
    forall i | 0 <= i < |a + b|
      ensures ts[pos + i] == (a + b)[i]
    {
      if i >= |a| {
        assert ts[pos + |a| + (i - |a|)] == b[i - |a|];
      }
    }
  }

  /** The scan reads one token; when it is not a literal, it is dropped and the scan ends. */
  lemma ScanStopsAtNonLiteral(ts: seq<Token>, pos: nat)
    requires pos < |ts| && !IsLiteral(ts[pos])
    ensures ScanArgs(ts, pos) == Success(Scan([], pos + 1))
  {
    assert Next(ts, pos) == Success(Read(ts[pos], pos + 1));
  }

  /** A literal not followed by a comma is the last argument; the token after it is left unread. */
  lemma ScanStopsWithoutComma(ts: seq<Token>, pos: nat)
    requires pos < |ts| && IsLiteral(ts[pos])
    requires pos + 1 < |ts| ==> ts[pos + 1] != Comma
    ensures ScanArgs(ts, pos) == Success(Scan([ArgOf(ts[pos])], pos + 1))
  {
    assert Next(ts, pos) == Success(Read(ts[pos], pos + 1));
    assert NextIf(ts, pos + 1, Punctuation, Some(",")).None?;
  }

  /** A literal followed by a comma is recorded, and the scan goes on two tokens later. */
  lemma ScanContinuesAfterComma(ts: seq<Token>, pos: nat, args: seq<Arg>, end: nat)
    requires pos + 1 < |ts| && IsLiteral(ts[pos]) && ts[pos + 1] == Comma
    requires ScanArgs(ts, pos + 2) == Success(Scan(args, end))
    ensures ScanArgs(ts, pos) == Success(Scan([ArgOf(ts[pos])] + args, end))
  {
    assert Next(ts, pos) == Success(Read(ts[pos], pos + 1));
    assert NextIf(ts, pos + 1, Punctuation, Some(",")) == Some(Read(Comma, pos + 2));
  }

  /** Every valid run is scanned exactly, yielding one argument per literal. */
  lemma {:induction false} ScanArgsAcceptsRun(ts: seq<Token>, pos: nat, run: ArgRun)
    requires ValidRun(run) && TokensAt(ts, pos, RunTokens(run))
    requires EndsWithLiteral(run) && pos + |RunTokens(run)| < |ts| ==> ts[pos + |RunTokens(run)|] != Comma
    ensures ScanArgs(ts, pos) == Success(Scan(RunArgs(run), pos + |RunTokens(run)|))
    decreases run
  {
    match run
    case Dropped(t) =>
      assert ts[pos + 0] == [t][0];
      ScanStopsAtNonLiteral(ts, pos);
    case Last(l) =>
      assert ts[pos + 0] == [l][0];
      ScanStopsWithoutComma(ts, pos);
    case More(l, rest) =>
      var toks, args := RunTokens(rest), RunArgs(rest);
      assert RunTokens(run) == [l, Comma] + toks;
      assert RunArgs(run) == [ArgOf(l)] + args;
      assert EndsWithLiteral(run) == EndsWithLiteral(rest);
      TokensAtSplit(ts, pos, [l, Comma], toks);
      assert ts[pos + 0] == [l, Comma][0] && ts[pos + 1] == [l, Comma][1];
      ScanArgsAcceptsRun(ts, pos + 2, rest);
      ScanContinuesAfterComma(ts, pos, args, pos + 2 + |toks|);
  }

  /** The run `run` is laid out from `pos` to `end`, yields `args`, and no comma extends it. */
  predicate RunSpans(ts: seq<Token>, pos: nat, end: nat, args: seq<Arg>, run: ArgRun) {
    && ValidRun(run)
    && end == pos + |RunTokens(run)|
    && TokensAt(ts, pos, RunTokens(run))
    && args == RunArgs(run)
    && (EndsWithLiteral(run) && end < |ts| ==> ts[end] != Comma)
  }

  /** Whatever the scan accepts is a valid run, and the arguments are that run's literals. */
  lemma {:induction false} ScanArgsYieldsRun(ts: seq<Token>, pos: nat) returns (run: ArgRun)
    requires ScanArgs(ts, pos).Success?
    ensures RunSpans(ts, pos, ScanArgs(ts, pos).value.end, ScanArgs(ts, pos).value.args, run)
    decreases |ts| - pos
  {
    var scan := ScanArgs(ts, pos).value;
    var t := ts[pos];
    if !IsLiteral(t) {
      run := Dropped(t);
      assert ts[pos + 0] == t;
    } else if NextIf(ts, pos + 1, Punctuation, Some(",")).None? {
      run := Last(t);
      assert ts[pos + 0] == t;
    } else {
      var rest := ScanArgsYieldsRun(ts, pos + 2);
      var restScan := ScanArgs(ts, pos + 2).value;
      assert scan == Scan([ArgOf(t)] + restScan.args, restScan.end);
      run := More(t, rest);
      assert TokensAt(ts, pos, [t, Comma]) by {
        assert ts[pos + 0] == t && ts[pos + 1] == Comma;
      }
      TokensAtJoin(ts, pos, [t, Comma], RunTokens(rest));
    }
  }

  /** Parse succeeds when each of its steps does; the result carries the scanned arguments. */
  lemma ParseSteps(ts: seq<Token>, pos: nat, line: nat, args: seq<Arg>, end: nat)
    requires pos + 1 < |ts| && ts[pos].kind == Name && ts[pos + 1] == LeftParen
    requires ScanArgs(ts, pos + 2) == Success(Scan(args, end))
    requires end + 1 < |ts| && ts[end] == RightParen && ts[end + 1].kind == BlockEnd
    ensures Parse(ts, pos, line) == Success(Parsed(RequireNode(line, ts[pos].value, args, Tag), end + 2))
  {
    assert Expect(ts, pos, Name, None) == Success(Read(ts[pos], pos + 1));
    assert Expect(ts, pos + 1, Punctuation, Some("(")) == Success(Read(LeftParen, pos + 2));
    assert Expect(ts, end, Punctuation, Some(")")) == Success(Read(RightParen, end + 1));
    assert Expect(ts, end + 1, BlockEnd, None) == Success(Read(ts[end + 1], end + 2));
  }

  /** Parse fails when the token after the argument scan is not `)`. */
  lemma ParseStepsFail(ts: seq<Token>, pos: nat, line: nat, args: seq<Arg>, end: nat)
    requires pos + 1 < |ts| && ts[pos].kind == Name && ts[pos + 1] == LeftParen
    requires ScanArgs(ts, pos + 2) == Success(Scan(args, end))
    requires end < |ts| ==> ts[end] != RightParen
    ensures Parse(ts, pos, line).Failure?
  {
    assert Expect(ts, pos, Name, None) == Success(Read(ts[pos], pos + 1));
    assert Expect(ts, pos + 1, Punctuation, Some("(")) == Success(Read(LeftParen, pos + 2));
    assert Expect(ts, end, Punctuation, Some(")")).Failure?;
  }

  /** A tag body laid out as NAME `(` run `)` BLOCK_END parses to the run's arguments. */
  lemma ParseAcceptsLayout(ts: seq<Token>, pos: nat, line: nat, name: Token, run: ArgRun, blockEnd: Token)
    requires name.kind == Name && blockEnd.kind == BlockEnd && ValidRun(run)
    requires TokensAt(ts, pos, Layout(name, run, blockEnd))
    ensures Parse(ts, pos, line)
      == Success(Parsed(RequireNode(line, name.value, RunArgs(run), Tag), pos + |Layout(name, run, blockEnd)|))
  {
    var toks := RunTokens(run);
    var n := |toks|;
    TokensAtSplit(ts, pos, [name, LeftParen] + toks, [RightParen, blockEnd]);
    TokensAtSplit(ts, pos, [name, LeftParen], toks);
    assert ts[pos + 0] == [name, LeftParen][0] && ts[pos + 1] == [name, LeftParen][1];
    assert ts[pos + 2 + n + 0] == [RightParen, blockEnd][0];
    assert ts[pos + 2 + n + 1] == [RightParen, blockEnd][1];
    ScanArgsAcceptsRun(ts, pos + 2, run);
    ParseSteps(ts, pos, line, RunArgs(run), pos + 2 + n);
  }

  /** Conversely, a successful parse consumed exactly such a layout. */
  lemma ParseYieldsLayout(ts: seq<Token>, pos: nat, line: nat)
    returns (name: Token, run: ArgRun, blockEnd: Token)
    requires Parse(ts, pos, line).Success?
    ensures name.kind == Name && blockEnd.kind == BlockEnd && ValidRun(run)
    ensures TokensAt(ts, pos, Layout(name, run, blockEnd))
    ensures Parse(ts, pos, line).value.end == pos + |Layout(name, run, blockEnd)|
    ensures Parse(ts, pos, line).value.node == RequireNode(line, name.value, RunArgs(run), Tag)
  {
    var scan := ScanArgs(ts, pos + 2).value;
    name, blockEnd := ts[pos], ts[scan.end + 1];
    run := ScanArgsYieldsRun(ts, pos + 2);
    assert Parse(ts, pos, line) == Success(Parsed(RequireNode(line, name.value, scan.args, Tag), scan.end + 2));
    assert TokensAt(ts, pos, [name, LeftParen]) by {
      assert ts[pos + 0] == name && ts[pos + 1] == LeftParen;
    }
    assert TokensAt(ts, scan.end, [RightParen, blockEnd]) by {
      assert ts[scan.end + 0] == RightParen && ts[scan.end + 1] == blockEnd;
    }
    TokensAtJoin(ts, pos, [name, LeftParen], RunTokens(run));
    TokensAtJoin(ts, pos, [name, LeftParen] + RunTokens(run), [RightParen, blockEnd]);
  }

  /**
   * When the run's dropped token is the closing parenthesis itself, the
   * parser then demands a second `)`: `()` and a trailing comma `('a',)` fail
   * unless another `)` happens to follow.
   */
  lemma ClosingParenSwallowed(ts: seq<Token>, pos: nat, line: nat, name: Token, run: ArgRun)
    requires name.kind == Name && ValidRun(run) && LastToken(run) == RightParen
    requires TokensAt(ts, pos, [name, LeftParen] + RunTokens(run))
    requires pos + 2 + |RunTokens(run)| < |ts| ==> ts[pos + 2 + |RunTokens(run)|] != RightParen
    ensures Parse(ts, pos, line).Failure?
  {
    var toks := RunTokens(run);
    TokensAtSplit(ts, pos, [name, LeftParen], toks);
    assert ts[pos + 0] == [name, LeftParen][0] && ts[pos + 1] == [name, LeftParen][1];
    LastTokenIsDropped(run);
    ScanArgsAcceptsRun(ts, pos + 2, run);
    ParseStepsFail(ts, pos, line, RunArgs(run), pos + 2 + |toks|);
  }

  /** The final token of a run's layout. */
  function LastToken(run: ArgRun): Token {
    match run
    case Dropped(t) => t
    case Last(l) => l
    case More(_, rest) => LastToken(rest)
  }

  /** A run that ends in a non-literal token does not end with a literal. */
  lemma {:induction false} LastTokenIsDropped(run: ArgRun)
    requires ValidRun(run) && !IsLiteral(LastToken(run))
    ensures !EndsWithLiteral(run)
  {
    match run
    case Dropped(_) =>
    case Last(_) =>
    case More(_, rest) => LastTokenIsDropped(rest);
  }

  /** `{% require m() %}` is rejected: the argument scan consumes the `)`. */
  lemma EmptyArgumentsRejected(ts: seq<Token>, pos: nat, line: nat)
    requires pos + 3 <= |ts|
    requires ts[pos].kind == Name && ts[pos + 1] == LeftParen && ts[pos + 2] == RightParen
    requires pos + 3 < |ts| ==> ts[pos + 3] != RightParen
    ensures Parse(ts, pos, line).Failure?
  {
    var run := Dropped(RightParen);
    assert [ts[pos], LeftParen] + RunTokens(run) == [ts[pos], LeftParen, RightParen];
    assert TokensAt(ts, pos, [ts[pos], LeftParen, RightParen]) by {
      assert ts[pos + 0] == ts[pos];
    }
    ClosingParenSwallowed(ts, pos, line, ts[pos], run);
  }

  /** `{% require m('a',) %}` is rejected: the token after the comma is the `)`. */
  lemma TrailingCommaRejected(ts: seq<Token>, pos: nat, line: nat)
    requires pos + 5 <= |ts|
    requires ts[pos].kind == Name && ts[pos + 1] == LeftParen && IsLiteral(ts[pos + 2])
    requires ts[pos + 3] == Comma && ts[pos + 4] == RightParen
    requires pos + 5 < |ts| ==> ts[pos + 5] != RightParen
    ensures Parse(ts, pos, line).Failure?
  {
    var run := More(ts[pos + 2], Dropped(RightParen));
    var toks := [ts[pos], LeftParen, ts[pos + 2], Comma, RightParen];
    assert [ts[pos], LeftParen] + RunTokens(run) == toks;
    assert TokensAt(ts, pos, toks) by {
      assert ts[pos + 0] == ts[pos];
    }
    ClosingParenSwallowed(ts, pos, line, ts[pos], run);
  }

  /** `{% require m(foo) %}` succeeds with no arguments: the non-literal is read and dropped. */
  lemma NonLiteralArgumentDropped(ts: seq<Token>, pos: nat, line: nat)
    requires pos + 5 <= |ts|
    requires ts[pos].kind == Name && ts[pos + 1] == LeftParen && !IsLiteral(ts[pos + 2])
    requires ts[pos + 3] == RightParen && ts[pos + 4].kind == BlockEnd
    ensures Parse(ts, pos, line) == Success(Parsed(RequireNode(line, ts[pos].value, [], Tag), pos + 5))
  {
    var run := Dropped(ts[pos + 2]);
    var toks := [ts[pos], LeftParen, ts[pos + 2], RightParen, ts[pos + 4]];
    assert Layout(ts[pos], run, ts[pos + 4]) == toks;
    assert TokensAt(ts, pos, toks) by {
      assert ts[pos + 0] == ts[pos];
    }
    ParseAcceptsLayout(ts, pos, line, ts[pos], run, ts[pos + 4]);
  }
}

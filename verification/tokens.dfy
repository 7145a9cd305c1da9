/**
 * Twig's token stream, reduced to what the two tag parsers use.
 *
 * A stream is the finite sequence of tokens before Twig's closing EOF token,
 * and a cursor into it. A cursor at the end of the sequence stands on the
 * EOF token: consuming there is Twig's "unexpected end of template" error,
 * and peeking or a conditional read there finds nothing of the kind
 * sought. The four primitives have these semantics:
 *   - Next:   return the token under the cursor and advance;
 *   - NextIf: advance (returning the token) only if it has the given kind and value;
 *   - Expect: like NextIf, but a mismatch is a syntax error;
 *   - Look:   return the token under the cursor without advancing.
 */
module Tokens {
  import opened Wrappers

  /** The token kinds of Twig's lexer. */
  datatype Kind =
    | Eof | Text | BlockStart | VarStart | BlockEnd | VarEnd
    | Name | Number | String | Operator | Punctuation
    | InterpolationStart | InterpolationEnd | Arrow | Spread

  /** A token: its kind and its value as written in the template. */
  datatype Token = Token(kind: Kind, value: string)

  /** The parse errors a tag parser can raise. */
  datatype SyntaxError =
    | UnexpectedToken(at: nat)   // the token at this cursor does not fit
    | UnexpectedEnd              // the stream ended where a token was needed

  /** A consumed token together with the cursor after it. */
  datatype Read = Read(token: Token, next: nat)

  /** Twig's Token::test: the kind matches and, when a value is given, so does the value. */
  predicate Test(t: Token, kind: Kind, value: Option<string>) {
    t.kind == kind && (value.None? || t.value == value.value)
  }

  function Next(ts: seq<Token>, pos: nat): Result<Read, SyntaxError> {
    if pos < |ts| then Success(Read(ts[pos], pos + 1)) else Failure(UnexpectedEnd)
  }

  function NextIf(ts: seq<Token>, pos: nat, kind: Kind, value: Option<string>): Option<Read> {
    if pos < |ts| && Test(ts[pos], kind, value) then Some(Read(ts[pos], pos + 1)) else None
  }

  function Expect(ts: seq<Token>, pos: nat, kind: Kind, value: Option<string>): Result<Read, SyntaxError> {
    if pos >= |ts| then Failure(UnexpectedEnd)
    else if !Test(ts[pos], kind, value) then Failure(UnexpectedToken(pos))
    else Success(Read(ts[pos], pos + 1))
  }

  function Look(ts: seq<Token>, pos: nat): Option<Token> {
    if pos < |ts| then Some(ts[pos]) else None
  }
}

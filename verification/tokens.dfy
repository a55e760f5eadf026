/**
 Tokens as the host's tokenizer hands them to the rules, and the token
 predicates both rules share (the `InspectsTokens` mixin).
 */
module Tokens {

  /** The token types the rules distinguish; every other type is `Other`. */
  datatype TokenKind = Punctuator | Line | Block | Other

  datatype Position = Position(line: nat, column: nat)

  datatype SourceLocation = SourceLocation(start: Position, end: Position)

  /** A token with its `type`, `value`, `loc` and `range` (`[lo, hi)` offsets). */
  datatype Token = Token(kind: TokenKind, value: string, loc: SourceLocation, lo: nat, hi: nat)

  /** Comments are tokens of type `Line` (`// …`) or `Block` (`/* … */`). */
  predicate IsComment(t: Token) {
    t.kind == Line || t.kind == Block
  }

  predicate IsNotCommaToken(t: Token) {
    t.value != "," || t.kind != Punctuator
  }

  predicate IsTokenOnSameLine(left: Token, right: Token) {
    left.loc.end.line == right.loc.start.line
  }

  predicate IsClosingBracketToken(t: Token) {
    t.value == "]" && t.kind == Punctuator
  }

  predicate IsClosingBraceToken(t: Token) {
    t.value == "}" && t.kind == Punctuator
  }

  /** A token is a comma exactly when it is the punctuator `,`. */
  lemma CommaCharacterization(t: Token)
    ensures !IsNotCommaToken(t) <==> t.value == "," && t.kind == Punctuator
  {
  }

  /** The two closing-token predicates never hold of the same token. */
  lemma ClosersAreDistinct(t: Token)
    ensures !(IsClosingBracketToken(t) && IsClosingBraceToken(t))
  {
  }

  /** Skipping commas never skips a closing bracket or brace, nor a comment. */
  lemma ClosersAreNotCommas(t: Token)
    ensures IsClosingBracketToken(t) || IsClosingBraceToken(t) || IsComment(t) ==> IsNotCommaToken(t)
  {
  }

  /** A closing delimiter is a punctuator, never a comment. */
  lemma ClosersAreNotComments(t: Token)
    ensures IsClosingBracketToken(t) || IsClosingBraceToken(t) ==> !IsComment(t)
  {
  }
}

/**
 The host's token-stream queries, as index functions over the stream of
 tokens and comments in source order.
 */
module SourceCode {
  import opened Wrappers
  import opened Tokens
  import opened Nodes

  /** The filters the rules pass to `getTokenAfter`. */
  datatype Filter = AnyToken | NotComma | ClosingBrace

  predicate Passes(f: Filter, t: Token) {
    match f
    case AnyToken => true
    case NotComma => IsNotCommaToken(t)
    case ClosingBrace => IsClosingBraceToken(t)
  }

  /** Whether a query with these options can return `t`. */
  predicate Visible(t: Token, includeComments: bool, f: Filter) {
    (includeComments || !IsComment(t)) && Passes(f, t)
  }

  /** `getTokenAfter`: the nearest token after index `i` that the query can see. */
  function TokenAfter(ts: seq<Token>, i: nat, includeComments: bool, f: Filter): (r: Option<nat>)
    ensures r.Some? ==>
              && i < r.value < |ts|
              && Visible(ts[r.value], includeComments, f)
              && forall k :: i < k < r.value ==> !Visible(ts[k], includeComments, f)
    ensures r.None? ==> forall k :: i < k < |ts| ==> !Visible(ts[k], includeComments, f)
    decreases |ts| - i
  {
    if i + 1 >= |ts| then None
    else if Visible(ts[i + 1], includeComments, f) then Some(i + 1)
    else TokenAfter(ts, i + 1, includeComments, f)
  }

  /** `getTokenBefore`: the nearest token before index `i` that the query can see. */
  function TokenBefore(ts: seq<Token>, i: nat, includeComments: bool): (r: Option<nat>)
    ensures r.Some? ==>
              && r.value < i
              && r.value < |ts|
              && Visible(ts[r.value], includeComments, AnyToken)
              && forall k :: r.value < k < i && k < |ts| ==> !Visible(ts[k], includeComments, AnyToken)
    ensures r.None? ==> forall k :: 0 <= k < i && k < |ts| ==> !Visible(ts[k], includeComments, AnyToken)
    decreases i
  {
    if i == 0 then None
    else if i - 1 < |ts| && Visible(ts[i - 1], includeComments, AnyToken) then Some(i - 1)
    else TokenBefore(ts, i - 1, includeComments)
  }

  /** With comments included, the neighbours of a token are the adjacent stream entries. */
  lemma AdjacentWithComments(ts: seq<Token>, i: nat)
    requires i < |ts|
    ensures i + 1 < |ts| ==> TokenAfter(ts, i, true, AnyToken) == Some(i + 1)
    ensures i + 1 == |ts| ==> TokenAfter(ts, i, true, AnyToken).None?
    ensures 0 < i ==> TokenBefore(ts, i, true) == Some(i - 1)
    ensures i == 0 ==> TokenBefore(ts, i, true).None?
  {
  }

  /** `getFirstToken(node)`. */
  function FirstToken(ts: seq<Token>, span: Span): Option<nat> {
    if span.first < |ts| then Some(span.first) else None
  }

  /** `getFirstToken(node, 1)`: the second non-comment token inside the node. */
  function SecondToken(ts: seq<Token>, span: Span): (r: Option<nat>)
    ensures r.Some? ==> NextCode(ts, span.first, r.value) && r.value <= span.last
    ensures r.None? <==> forall k :: span.first < k <= span.last && k < |ts| ==> IsComment(ts[k])
  {
    var j :- TokenAfter(ts, span.first, false, AnyToken);
    if j <= span.last then Some(j) else None
  }

  /** `getLastToken(node)`. */
  function LastToken(ts: seq<Token>, span: Span): Option<nat> {
    if span.last < |ts| then Some(span.last) else None
  }

  /** `getTokenBefore(node)`: the nearest non-comment token before the node. */
  function TokenBeforeNode(ts: seq<Token>, span: Span): (r: Option<nat>)
    ensures r.Some? ==> PreviousCode(ts, span.first, r.value)
    ensures r.None? <==> forall k: nat :: k < span.first && k < |ts| ==> IsComment(ts[k])
  {
    TokenBefore(ts, span.first, false)
  }

  /** `getTokenAfter(node, filter)`: the nearest non-comment token after the node that passes the filter. */
  function TokenAfterNode(ts: seq<Token>, span: Span, f: Filter): (r: Option<nat>)
    ensures r.Some? ==>
              && span.last < r.value < |ts|
              && !IsComment(ts[r.value]) && Passes(f, ts[r.value])
              && forall k :: span.last < k < r.value ==> IsComment(ts[k]) || !Passes(f, ts[k])
    ensures r.None? <==> forall k :: span.last < k < |ts| ==> IsComment(ts[k]) || !Passes(f, ts[k])
  {
    TokenAfter(ts, span.last, false, f)
  }

  /** `j` is the nearest non-comment token after index `i`. */
  predicate NextCode(ts: seq<Token>, i: nat, j: nat) {
    i < j < |ts| && !IsComment(ts[j]) && forall k :: i < k < j ==> IsComment(ts[k])
  }

  /** `j` is the nearest non-comment token before index `i`. */
  predicate PreviousCode(ts: seq<Token>, i: nat, j: nat) {
    j < i && j < |ts| && !IsComment(ts[j]) && forall k :: j < k < i && k < |ts| ==> IsComment(ts[k])
  }

  /** The four tokens around the inside edges of a delimiter pair. */
  datatype Boundaries = Boundaries(first: nat, second: nat, penultimate: nat, last: nat)

  predicate InStream(ts: seq<Token>, b: Boundaries) {
    b.first < |ts| && b.second < |ts| && b.penultimate < |ts| && b.last < |ts|
  }

  /**
   A stream as a tokenizer produces it: every token covers at least one
   character and tokens follow each other without overlapping.
   */
  predicate Ordered(ts: seq<Token>) {
    && (forall i :: 0 <= i < |ts| ==> ts[i].lo < ts[i].hi)
    && (forall i, j :: 0 <= i < j < |ts| ==> ts[i].hi <= ts[j].lo)
  }

  /** In an ordered stream, distinct positions hold distinct tokens. */
  lemma OrderedTokensAreDistinct(ts: seq<Token>, i: nat, j: nat)
    requires Ordered(ts)
    requires i < |ts| && j < |ts| && i != j
    ensures ts[i] != ts[j]
  {
    if i < j {
      assert ts[i].lo < ts[i].hi <= ts[j].lo;
    } else {
      assert ts[j].lo < ts[j].hi <= ts[i].lo;
    }
  }

  /**
   The adjacency observation after a fix at the boundary `left`…`right`:
   inserting or removing the gap flips whether the two tokens are spaced,
   and no other pair of tokens changes.
   */
  function Flipped(isSpaceBetween: (Token, Token) -> bool, left: Token, right: Token): (Token, Token) -> bool {
    (x: Token, y: Token) => if x == left && y == right then !isSpaceBetween(x, y) else isSpaceBetween(x, y)
  }
}

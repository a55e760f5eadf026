/**
 The array-bracket rule: whether the inside of the `[`…`]` of an
 `ArrayExpression` or `ArrayPattern` must be spaced, and the reports it makes
 when a boundary disagrees.
 */
module ArrayBracketSpacing {
  import opened Wrappers
  import opened Tokens
  import opened Nodes
  import opened SourceCode
  import opened Diagnostics
  import opened Options

  /** The configuration the constructor resolves once per lint run. */
  datatype Config = Config(
    spaced: bool,
    singleElementException: bool,
    objectsInArraysException: bool,
    arraysInArraysException: bool,
    destructuringAssignmentsException: bool)

  /** The constructor: the base directive and the four exception flags. */
  function ConfigOf(o: RuleOptions): (c: Config)
    ensures c.spaced <==> o.directive == "always"
    ensures c.singleElementException <==> ConfiguredAs(o, "singleValue", !c.spaced)
    ensures c.objectsInArraysException <==> ConfiguredAs(o, "objectsInArrays", !c.spaced)
    ensures c.arraysInArraysException <==> ConfiguredAs(o, "arraysInArrays", !c.spaced)
    ensures c.destructuringAssignmentsException <==> ConfiguredAs(o, "destructuringAssignments", !c.spaced)
  {
    Config(
      ShouldBeSpaced(o),
      IsOptionSet(o, "singleValue"),
      IsOptionSet(o, "objectsInArrays"),
      IsOptionSet(o, "arraysInArrays"),
      IsOptionSet(o, "destructuringAssignments"))
  }

  /** The directive for the whole node: the destructuring exception flips it for a pattern. */
  function NodeShouldBeSpaced(c: Config, node: ArrayNode): (r: bool)
    ensures r == Required(c.spaced, c.destructuringAssignmentsException && node.isPattern, false)
  {
    var isException := c.destructuringAssignmentsException && ArrayKind(node) == ArrayPattern;
    (c.spaced && !isException) || (!c.spaced && isException)
  }

  /** Whether the element next to a bracket inverts that bracket's requirement. */
  predicate ElementInverts(c: Config, element: Option<NodeKind>, count: nat) {
    || (c.objectsInArraysException && IsObjectType(element))
    || (c.arraysInArraysException && IsArrayType(element))
    || (c.singleElementException && count == 1)
  }

  /** `node.elements[0]`; `None` for a hole or an empty array. */
  function FirstElement(node: ArrayNode): Option<NodeKind> {
    if |node.elements| > 0 then node.elements[0] else None
  }

  /** `node.elements[node.elements.length - 1]`. */
  function LastElement(node: ArrayNode): Option<NodeKind> {
    if |node.elements| > 0 then node.elements[|node.elements| - 1] else None
  }

  /** The requirement at the bracket next to `element`. */
  function BracketMustBeSpaced(c: Config, node: ArrayNode, element: Option<NodeKind>): (r: bool)
    ensures r == Required(c.spaced, c.destructuringAssignmentsException && node.isPattern,
                          ElementInverts(c, element, |node.elements|))
  {
    var shouldBeSpaced := NodeShouldBeSpaced(c, node);
    if ElementInverts(c, element, |node.elements|) then !shouldBeSpaced else shouldBeSpaced
  }

  /**
   The opening bracket, the token after it, the closing bracket (the token
   before a type annotation, else the node's last token) and the token before it.
   */
  function LocateBrackets(ts: seq<Token>, node: ArrayNode): (r: Option<Boundaries>)
    ensures r.Some? ==> InStream(ts, r.value)
    ensures r.Some? ==>
              && r.value.first == node.span.first
              && NextCode(ts, r.value.first, r.value.second)
              && r.value.second <= node.span.last
              && PreviousCode(ts, r.value.last, r.value.penultimate)
    ensures r.Some? ==> Some(r.value.last) == ClosingBracket(ts, node)
    ensures r.None? <==>
              || node.span.first >= |ts|
              || SecondToken(ts, node.span).None?
              || ClosingBracket(ts, node).None?
              || TokenBefore(ts, ClosingBracket(ts, node).value, false).None?
  {
    var first :- FirstToken(ts, node.span);
    var second :- SecondToken(ts, node.span);
    var last :- ClosingBracket(ts, node);
    var penultimate :- TokenBefore(ts, last, false);
    Some(Boundaries(first, second, penultimate, last))
  }

  /** The closing bracket: the token before a type annotation, else the node's last token. */
  function ClosingBracket(ts: seq<Token>, node: ArrayNode): (r: Option<nat>)
    ensures node.typeAnnotation.None? ==> (r.Some? <==> node.span.last < |ts|)
    ensures node.typeAnnotation.None? && r.Some? ==> r.value == node.span.last
    ensures node.typeAnnotation.Some? && r.Some? ==> PreviousCode(ts, node.typeAnnotation.value.first, r.value)
    ensures node.typeAnnotation.Some? && r.None? ==>
              forall k: nat :: k < node.typeAnnotation.value.first && k < |ts| ==> IsComment(ts[k])
  {
    if node.typeAnnotation.Some? then TokenBeforeNode(ts, node.typeAnnotation.value)
    else LastToken(ts, node.span)
  }

  /**
   The brackets of an array whose tokens are where the parser puts them are
   always found: a non-comment first token, and a non-comment closing bracket
   `closer` inside the node (its last token, or one before the type annotation).
   */
  lemma BracketsLocated(ts: seq<Token>, node: ArrayNode, closer: nat)
    requires node.span.first < closer <= node.span.last && closer < |ts|
    requires !IsComment(ts[node.span.first]) && !IsComment(ts[closer])
    requires node.typeAnnotation.None? ==> closer == node.span.last
    requires node.typeAnnotation.Some? ==> closer < node.typeAnnotation.value.first
    ensures LocateBrackets(ts, node).Some?
    ensures node.typeAnnotation.None? ==> LocateBrackets(ts, node).value.last == closer
  {
    assert Visible(ts[closer], false, AnyToken);
    var last := ClosingBracket(ts, node);
    assert last.Some? && closer <= last.value;
    assert Visible(ts[node.span.first], false, AnyToken);
  }

  /**
   `reportNoBeginningSpace`: a removal that starts where `[` ends;
   `RemovesGapToNextCode` says where it stops.
   */
  function ReportNoBeginningSpace(ts: seq<Token>, i: nat): (r: Option<Diagnostic>)
    requires i < |ts|
    ensures r.Some? ==>
              && r.value.messageId == UnexpectedSpaceAfter && r.value.dataValue == ts[i].value
              && r.value.fix.RemoveRange? && r.value.fix.lo == ts[i].hi && r.value.loc.start == ts[i].loc.end
  {
    var next :- TokenAfter(ts, i, false, AnyToken);
    Some(Diagnostic(
      SourceLocation(ts[i].loc.end, ts[next].loc.start),
      UnexpectedSpaceAfter, "tokenValue", ts[i].value,
      RemoveRange(ts[i].hi, ts[next].lo)))
  }

  /**
   `reportNoEndingSpace`: a removal that stops where `]` starts;
   `RemovesGapFromPreviousCode` says where it starts.
   */
  function ReportNoEndingSpace(ts: seq<Token>, i: nat): (r: Option<Diagnostic>)
    requires i < |ts|
    ensures r.Some? ==>
              && r.value.messageId == UnexpectedSpaceBefore && r.value.dataValue == ts[i].value
              && r.value.fix.RemoveRange? && r.value.fix.hi == ts[i].lo && r.value.loc.end == ts[i].loc.start
  {
    var previous :- TokenBefore(ts, i, false);
    Some(Diagnostic(
      SourceLocation(ts[previous].loc.end, ts[i].loc.start),
      UnexpectedSpaceBefore, "tokenValue", ts[i].value,
      RemoveRange(ts[previous].hi, ts[i].lo)))
  }

  /**
   The removal after `[` reaches exactly to the next non-comment token, and
   there is a report to make exactly when such a token exists.
   */
  lemma RemovesGapToNextCode(ts: seq<Token>, i: nat)
    requires i < |ts|
    ensures ReportNoBeginningSpace(ts, i).None? <==> forall k :: i < k < |ts| ==> IsComment(ts[k])
    ensures forall j: nat :: NextCode(ts, i, j) ==>
              ReportNoBeginningSpace(ts, i)
              == Some(Diagnostic(SourceLocation(ts[i].loc.end, ts[j].loc.start),
                                 UnexpectedSpaceAfter, "tokenValue", ts[i].value, RemoveRange(ts[i].hi, ts[j].lo)))
  {
  }

  /**
   The removal before `]` starts exactly at the previous non-comment token,
   and there is a report to make exactly when such a token exists.
   */
  lemma RemovesGapFromPreviousCode(ts: seq<Token>, i: nat)
    requires i < |ts|
    ensures ReportNoEndingSpace(ts, i).None? <==> forall k: nat :: k < i ==> IsComment(ts[k])
    ensures forall j: nat :: PreviousCode(ts, i, j) ==>
              ReportNoEndingSpace(ts, i)
              == Some(Diagnostic(SourceLocation(ts[j].loc.end, ts[i].loc.start),
                                 UnexpectedSpaceBefore, "tokenValue", ts[i].value, RemoveRange(ts[j].hi, ts[i].lo)))
  {
  }

  /** `reportRequiredBeginningSpace`: one space is inserted right after `[`, and nothing is removed. */
  function ReportRequiredBeginningSpace(t: Token): (d: Diagnostic)
    ensures d.loc == t.loc && d.messageId == MissingSpaceAfter && d.dataValue == t.value
    ensures d.fix.InsertText? && d.fix.text == " " && FixStart(d.fix) == FixEnd(d.fix) == t.hi
  {
    Diagnostic(t.loc, MissingSpaceAfter, "tokenValue", t.value, InsertText(t.hi, " "))
  }

  /** `reportRequiredEndingSpace`: one space is inserted right before `]`, and nothing is removed. */
  function ReportRequiredEndingSpace(t: Token): (d: Diagnostic)
    ensures d.loc == t.loc && d.messageId == MissingSpaceBefore && d.dataValue == t.value
    ensures d.fix.InsertText? && d.fix.text == " " && FixStart(d.fix) == FixEnd(d.fix) == t.lo
  {
    Diagnostic(t.loc, MissingSpaceBefore, "tokenValue", t.value, InsertText(t.lo, " "))
  }

  /** Whether the opening boundary is looked at: its two tokens share a line. */
  predicate OpeningChecked(ts: seq<Token>, b: Boundaries)
    requires InStream(ts, b)
  {
    IsTokenOnSameLine(ts[b.first], ts[b.second])
  }

  /** The closing boundary is skipped when it would be the opening one again, or spans lines. */
  predicate ClosingChecked(ts: seq<Token>, b: Boundaries)
    requires InStream(ts, b)
  {
    b.first != b.penultimate && IsTokenOnSameLine(ts[b.penultimate], ts[b.last])
  }

  function OpeningDiagnostics(
    c: Config, ts: seq<Token>, node: ArrayNode, b: Boundaries, isSpaceBetween: (Token, Token) -> bool
  ): (r: Option<seq<Diagnostic>>)
    requires InStream(ts, b)
    ensures NextCode(ts, b.first, b.second) ==> r.Some?
    ensures r.Some? ==> |r.value| <= 1 && forall i :: 0 <= i < |r.value| ==> IsOpeningMessage(r.value[i].messageId)
    ensures r.Some? ==> forall i :: 0 <= i < |r.value| ==>
                          && r.value[i].dataKey == "tokenValue"
                          && (r.value[i].messageId == MissingSpaceAfter || r.value[i].messageId == UnexpectedSpaceAfter)
  {
    if OpeningChecked(ts, b) then
      var mustBeSpaced := BracketMustBeSpaced(c, node, FirstElement(node));
      var spaced := isSpaceBetween(ts[b.first], ts[b.second]);
      var missing := if mustBeSpaced && !spaced then [ReportRequiredBeginningSpace(ts[b.first])] else [];
      var unexpected := if !mustBeSpaced && spaced then AsList(ReportNoBeginningSpace(ts, b.first)) else Some([]);
      (match unexpected
       case None => None
       case Some(u) => Some(missing + u))
    else
      Some([])
  }

  function ClosingDiagnostics(
    c: Config, ts: seq<Token>, node: ArrayNode, b: Boundaries, isSpaceBetween: (Token, Token) -> bool
  ): (r: Option<seq<Diagnostic>>)
    requires InStream(ts, b)
    ensures PreviousCode(ts, b.last, b.penultimate) ==> r.Some?
    ensures r.Some? ==> |r.value| <= 1 && forall i :: 0 <= i < |r.value| ==> !IsOpeningMessage(r.value[i].messageId)
    ensures r.Some? ==> forall i :: 0 <= i < |r.value| ==>
                          && r.value[i].dataKey == "tokenValue"
                          && (r.value[i].messageId == MissingSpaceBefore || r.value[i].messageId == UnexpectedSpaceBefore)
  {
    if ClosingChecked(ts, b) then
      var mustBeSpaced := BracketMustBeSpaced(c, node, LastElement(node));
      var spaced := isSpaceBetween(ts[b.penultimate], ts[b.last]);
      var missing := if mustBeSpaced && !spaced then [ReportRequiredEndingSpace(ts[b.last])] else [];
      var unexpected := if !mustBeSpaced && spaced then AsList(ReportNoEndingSpace(ts, b.last)) else Some([]);
      (match unexpected
       case None => None
       case Some(u) => Some(missing + u))
    else
      Some([])
  }

  /** Whether the node is skipped outright: an empty array under `"always"`. */
  predicate Exempt(c: Config, node: ArrayNode) {
    c.spaced && |node.elements| == 0
  }

  /**
   `validateArraySpacing`: the reports for one array node, opening boundary
   first. `None` when a boundary token cannot be found (the source would
   dereference `null`).
   */
  function ValidateArraySpacing(
    c: Config, ts: seq<Token>, node: ArrayNode, isSpaceBetween: (Token, Token) -> bool
  ): (r: Option<seq<Diagnostic>>)
    ensures Exempt(c, node) ==> r == Some([])
    ensures r.None? <==> !Exempt(c, node) && LocateBrackets(ts, node).None?
    ensures r.Some? ==> |r.value| <= 2
    ensures r.Some? ==> forall i, j :: 0 <= i < j < |r.value| ==>
                          IsOpeningMessage(r.value[i].messageId) && !IsOpeningMessage(r.value[j].messageId)
    ensures r.Some? ==> forall i :: 0 <= i < |r.value| ==>
                          && r.value[i].dataKey == "tokenValue"
                          && r.value[i].messageId in {MissingSpaceAfter, MissingSpaceBefore, UnexpectedSpaceAfter, UnexpectedSpaceBefore}
  {
    if c.spaced && |node.elements| == 0 then Some([])
    else
      match LocateBrackets(ts, node)
      case None => None
      case Some(b) =>
        match (OpeningDiagnostics(c, ts, node, b, isSpaceBetween), ClosingDiagnostics(c, ts, node, b, isSpaceBetween))
        case (Some(opening), Some(closing)) => Some(opening + closing)
        case _ => None
  }

  /** The opening boundary's own reports, read off `OpeningDiagnostics`. */
  lemma OpeningReports(c: Config, ts: seq<Token>, node: ArrayNode, b: Boundaries, isSpaceBetween: (Token, Token) -> bool)
    requires InStream(ts, b)
    ensures var opening := OpeningDiagnostics(c, ts, node, b, isSpaceBetween);
            var required := BracketMustBeSpaced(c, node, FirstElement(node));
            var spaced := isSpaceBetween(ts[b.first], ts[b.second]);
            opening.Some? ==>
              && (Reports(opening.value, MissingSpaceAfter) <==> OpeningChecked(ts, b) && required && !spaced)
              && (Reports(opening.value, UnexpectedSpaceAfter) <==> OpeningChecked(ts, b) && !required && spaced)
              && !Reports(opening.value, MissingSpaceBefore) && !Reports(opening.value, UnexpectedSpaceBefore)
  {
    var opening := OpeningDiagnostics(c, ts, node, b, isSpaceBetween);
    if opening.Some? && |opening.value| == 1 {
      assert opening.value[0] in opening.value;
    }
  }

  /** The closing boundary's own reports, read off `ClosingDiagnostics`. */
  lemma ClosingReports(c: Config, ts: seq<Token>, node: ArrayNode, b: Boundaries, isSpaceBetween: (Token, Token) -> bool)
    requires InStream(ts, b)
    ensures var closing := ClosingDiagnostics(c, ts, node, b, isSpaceBetween);
            var required := BracketMustBeSpaced(c, node, LastElement(node));
            var spaced := isSpaceBetween(ts[b.penultimate], ts[b.last]);
            closing.Some? ==>
              && (Reports(closing.value, MissingSpaceBefore) <==> ClosingChecked(ts, b) && required && !spaced)
              && (Reports(closing.value, UnexpectedSpaceBefore) <==> ClosingChecked(ts, b) && !required && spaced)
              && !Reports(closing.value, MissingSpaceAfter) && !Reports(closing.value, UnexpectedSpaceAfter)
  {
    var closing := ClosingDiagnostics(c, ts, node, b, isSpaceBetween);
    if closing.Some? && |closing.value| == 1 {
      assert closing.value[0] in closing.value;
    }
  }

  /**
   The opening bracket is reported as missing a space exactly when its
   boundary is on one line, required spaced and unspaced, and as having an
   unexpected space exactly when it is on one line, required unspaced and spaced.
   */
  lemma OpeningBracketVerdict(c: Config, ts: seq<Token>, node: ArrayNode, isSpaceBetween: (Token, Token) -> bool)
    requires !Exempt(c, node)
    requires LocateBrackets(ts, node).Some?
    ensures var b := LocateBrackets(ts, node).value;
            var ds := ValidateArraySpacing(c, ts, node, isSpaceBetween).value;
            var required := Required(c.spaced, c.destructuringAssignmentsException && node.isPattern,
                                     ElementInverts(c, FirstElement(node), |node.elements|));
            var spaced := isSpaceBetween(ts[b.first], ts[b.second]);
            && (Reports(ds, MissingSpaceAfter) <==> OpeningChecked(ts, b) && required && !spaced)
            && (Reports(ds, UnexpectedSpaceAfter) <==> OpeningChecked(ts, b) && !required && spaced)
  {
    var b := LocateBrackets(ts, node).value;
    var opening := OpeningDiagnostics(c, ts, node, b, isSpaceBetween).value;
    var closing := ClosingDiagnostics(c, ts, node, b, isSpaceBetween).value;
    OpeningReports(c, ts, node, b, isSpaceBetween);
    ClosingReports(c, ts, node, b, isSpaceBetween);
    ReportsOfConcat(opening, closing, MissingSpaceAfter);
    ReportsOfConcat(opening, closing, UnexpectedSpaceAfter);
  }

  /**
   The same for the closing bracket, which also needs the token before it to
   differ from the opening bracket, and whose exception looks at the last element.
   */
  lemma ClosingBracketVerdict(c: Config, ts: seq<Token>, node: ArrayNode, isSpaceBetween: (Token, Token) -> bool)
    requires !Exempt(c, node)
    requires LocateBrackets(ts, node).Some?
    ensures var b := LocateBrackets(ts, node).value;
            var ds := ValidateArraySpacing(c, ts, node, isSpaceBetween).value;
            var required := Required(c.spaced, c.destructuringAssignmentsException && node.isPattern,
                                     ElementInverts(c, LastElement(node), |node.elements|));
            var spaced := isSpaceBetween(ts[b.penultimate], ts[b.last]);
            && (Reports(ds, MissingSpaceBefore) <==> ClosingChecked(ts, b) && required && !spaced)
            && (Reports(ds, UnexpectedSpaceBefore) <==> ClosingChecked(ts, b) && !required && spaced)
  {
    var b := LocateBrackets(ts, node).value;
    var opening := OpeningDiagnostics(c, ts, node, b, isSpaceBetween).value;
    var closing := ClosingDiagnostics(c, ts, node, b, isSpaceBetween).value;
    OpeningReports(c, ts, node, b, isSpaceBetween);
    ClosingReports(c, ts, node, b, isSpaceBetween);
    ReportsOfConcat(opening, closing, MissingSpaceBefore);
    ReportsOfConcat(opening, closing, UnexpectedSpaceBefore);
  }

  /**
   The exact report for each message: a single space inserted right after `[`
   or right before `]`, or the removal of exactly the gap between the bracket
   and its neighbouring non-comment token, always naming the bracket.
   */
  predicate ShapedAsReported(ts: seq<Token>, b: Boundaries, d: Diagnostic)
    requires InStream(ts, b)
  {
    match d.messageId
    case MissingSpaceAfter =>
      d == Diagnostic(ts[b.first].loc, MissingSpaceAfter, "tokenValue", ts[b.first].value, InsertText(ts[b.first].hi, " "))
    case UnexpectedSpaceAfter =>
      d == Diagnostic(SourceLocation(ts[b.first].loc.end, ts[b.second].loc.start),
                      UnexpectedSpaceAfter, "tokenValue", ts[b.first].value, RemoveRange(ts[b.first].hi, ts[b.second].lo))
    case MissingSpaceBefore =>
      d == Diagnostic(ts[b.last].loc, MissingSpaceBefore, "tokenValue", ts[b.last].value, InsertText(ts[b.last].lo, " "))
    case UnexpectedSpaceBefore =>
      d == Diagnostic(SourceLocation(ts[b.penultimate].loc.end, ts[b.last].loc.start),
                      UnexpectedSpaceBefore, "tokenValue", ts[b.last].value,
                      RemoveRange(ts[b.penultimate].hi, ts[b.last].lo))
    case _ => false
  }

  lemma OpeningShapes(c: Config, ts: seq<Token>, node: ArrayNode, b: Boundaries, isSpaceBetween: (Token, Token) -> bool)
    requires InStream(ts, b)
    requires NextCode(ts, b.first, b.second)
    ensures OpeningDiagnostics(c, ts, node, b, isSpaceBetween).Some? ==>
              forall d :: d in OpeningDiagnostics(c, ts, node, b, isSpaceBetween).value ==> ShapedAsReported(ts, b, d)
  {
    assert TokenAfter(ts, b.first, false, AnyToken) == Some(b.second);
  }

  lemma ClosingShapes(c: Config, ts: seq<Token>, node: ArrayNode, b: Boundaries, isSpaceBetween: (Token, Token) -> bool)
    requires InStream(ts, b)
    requires PreviousCode(ts, b.last, b.penultimate)
    ensures ClosingDiagnostics(c, ts, node, b, isSpaceBetween).Some? ==>
              forall d :: d in ClosingDiagnostics(c, ts, node, b, isSpaceBetween).value ==> ShapedAsReported(ts, b, d)
  {
    assert TokenBefore(ts, b.last, false) == Some(b.penultimate);
  }

  /** Every report of a node has the exact shape its message calls for. */
  lemma DiagnosticShapes(c: Config, ts: seq<Token>, node: ArrayNode, isSpaceBetween: (Token, Token) -> bool)
    requires !Exempt(c, node)
    requires LocateBrackets(ts, node).Some?
    ensures var b := LocateBrackets(ts, node).value;
            forall d :: d in ValidateArraySpacing(c, ts, node, isSpaceBetween).value ==> ShapedAsReported(ts, b, d)
  {
    var b := LocateBrackets(ts, node).value;
    var opening := OpeningDiagnostics(c, ts, node, b, isSpaceBetween).value;
    var closing := ClosingDiagnostics(c, ts, node, b, isSpaceBetween).value;
    OpeningShapes(c, ts, node, b, isSpaceBetween);
    ClosingShapes(c, ts, node, b, isSpaceBetween);
    forall d | d in opening + closing
      ensures ShapedAsReported(ts, b, d)
    {
      assert d in opening || d in closing;
    }
  }

  /** The observation after applying every fix reported for the node. */
  function AfterFixes(isSpaceBetween: (Token, Token) -> bool, ts: seq<Token>, b: Boundaries, ds: seq<Diagnostic>)
    : (Token, Token) -> bool
    requires InStream(ts, b)
  {
    var afterOpening := if Reports(ds, MissingSpaceAfter) || Reports(ds, UnexpectedSpaceAfter)
                  then Flipped(isSpaceBetween, ts[b.first], ts[b.second]) else isSpaceBetween;
    if Reports(ds, MissingSpaceBefore) || Reports(ds, UnexpectedSpaceBefore)
    then Flipped(afterOpening, ts[b.penultimate], ts[b.last]) else afterOpening
  }

  /** Applying the reported fixes leaves nothing to report for the node. */
  lemma FixesSilenceTheNode(c: Config, ts: seq<Token>, node: ArrayNode, isSpaceBetween: (Token, Token) -> bool)
    requires Ordered(ts)
    requires !Exempt(c, node)
    requires LocateBrackets(ts, node).Some?
    ensures var b := LocateBrackets(ts, node).value;
            var ds := ValidateArraySpacing(c, ts, node, isSpaceBetween).value;
            ValidateArraySpacing(c, ts, node, AfterFixes(isSpaceBetween, ts, b, ds)) == Some([])
  {
    var b := LocateBrackets(ts, node).value;
    var ds := ValidateArraySpacing(c, ts, node, isSpaceBetween).value;
    var fixed := AfterFixes(isSpaceBetween, ts, b, ds);
    OpeningBracketVerdict(c, ts, node, isSpaceBetween);
    ClosingBracketVerdict(c, ts, node, isSpaceBetween);
    if b.first != b.penultimate {
      OrderedTokensAreDistinct(ts, b.first, b.penultimate);
    }
    AfterFixesAt(isSpaceBetween, ts, b, ds);
    OpeningSilenced(c, ts, node, b, fixed);
    ClosingSilenced(c, ts, node, b, fixed);
  }

  /** What `AfterFixes` observes at the two boundaries of the node. */
  lemma AfterFixesAt(isSpaceBetween: (Token, Token) -> bool, ts: seq<Token>, b: Boundaries, ds: seq<Diagnostic>)
    requires InStream(ts, b)
    requires ts[b.first] != ts[b.penultimate] || b.first == b.penultimate
    ensures var fixed := AfterFixes(isSpaceBetween, ts, b, ds);
            var openingFixed := Reports(ds, MissingSpaceAfter) || Reports(ds, UnexpectedSpaceAfter);
            var closingFixed := Reports(ds, MissingSpaceBefore) || Reports(ds, UnexpectedSpaceBefore);
            && (b.first != b.penultimate ==>
                  fixed(ts[b.first], ts[b.second]) == (isSpaceBetween(ts[b.first], ts[b.second]) != openingFixed))
            && (b.first != b.penultimate ==>
                  fixed(ts[b.penultimate], ts[b.last]) == (isSpaceBetween(ts[b.penultimate], ts[b.last]) != closingFixed))
            && (b.first == b.penultimate && !closingFixed ==>
                  fixed(ts[b.first], ts[b.second]) == (isSpaceBetween(ts[b.first], ts[b.second]) != openingFixed))
  {
  }

  /** A boundary whose observation matches its requirement yields no report. */
  lemma OpeningSilenced(c: Config, ts: seq<Token>, node: ArrayNode, b: Boundaries, isSpaceBetween: (Token, Token) -> bool)
    requires InStream(ts, b)
    requires OpeningChecked(ts, b) ==>
               isSpaceBetween(ts[b.first], ts[b.second]) == BracketMustBeSpaced(c, node, FirstElement(node))
    ensures OpeningDiagnostics(c, ts, node, b, isSpaceBetween) == Some([])
  {
  }

  lemma ClosingSilenced(c: Config, ts: seq<Token>, node: ArrayNode, b: Boundaries, isSpaceBetween: (Token, Token) -> bool)
    requires InStream(ts, b)
    requires ClosingChecked(ts, b) ==>
               isSpaceBetween(ts[b.penultimate], ts[b.last]) == BracketMustBeSpaced(c, node, LastElement(node))
    ensures ClosingDiagnostics(c, ts, node, b, isSpaceBetween) == Some([])
  {
  }

  /** An array with no token between its brackets (`[ ]`) gets at most one report. */
  lemma EmptyPairAtMostOne(c: Config, ts: seq<Token>, node: ArrayNode, isSpaceBetween: (Token, Token) -> bool)
    requires !Exempt(c, node)
    requires LocateBrackets(ts, node).Some?
    requires !IsComment(ts[node.span.first])
    requires LocateBrackets(ts, node).value.second == LocateBrackets(ts, node).value.last
    ensures |ValidateArraySpacing(c, ts, node, isSpaceBetween).value| <= 1
  {
    var b := LocateBrackets(ts, node).value;
    assert b.penultimate == b.first;
    assert !ClosingChecked(ts, b);
  }

  /** The two fixes of a node touch disjoint stretches of the source. */
  lemma FixesDoNotOverlap(c: Config, ts: seq<Token>, node: ArrayNode, isSpaceBetween: (Token, Token) -> bool)
    requires Ordered(ts)
    requires !Exempt(c, node)
    requires LocateBrackets(ts, node).Some?
    requires !IsComment(ts[node.span.first])
    requires LocateBrackets(ts, node).value.first < LocateBrackets(ts, node).value.last
    ensures var ds := ValidateArraySpacing(c, ts, node, isSpaceBetween).value;
            forall i, j :: 0 <= i < j < |ds| ==> FixEnd(ds[i].fix) < FixStart(ds[j].fix)
  {
    var b := LocateBrackets(ts, node).value;
    var ds := ValidateArraySpacing(c, ts, node, isSpaceBetween).value;
    if |ds| == 2 {
      DiagnosticShapes(c, ts, node, isSpaceBetween);
      ClosingBracketVerdict(c, ts, node, isSpaceBetween);
      assert ds[1] in ds && ds[0] in ds;
      assert Reports(ds, ds[1].messageId);
      assert ClosingChecked(ts, b);
      assert b.second <= b.penultimate;
      assert ts[b.second].lo < ts[b.penultimate].hi by {
        if b.second < b.penultimate {
          assert ts[b.second].hi <= ts[b.penultimate].lo;
        }
      }
      assert ts[b.first].hi <= ts[b.second].lo;
      assert ts[b.penultimate].hi <= ts[b.last].lo;
      assert FixEnd(ds[0].fix) <= ts[b.second].lo;
      assert FixStart(ds[1].fix) >= ts[b.penultimate].hi;
    }
  }
}

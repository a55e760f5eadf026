/**
 The object-curly rule: whether the inside of the `{`…`}` of an object
 literal or pattern, or of a named import or export specifier list, must be
 spaced, and the reports it makes when a boundary disagrees.
 */
module ObjectCurlySpacing {
  import opened Wrappers
  import opened Tokens
  import opened Nodes
  import opened SourceCode
  import opened Diagnostics
  import opened Options

  /** The configuration the constructor resolves once per lint run. */
  datatype Config = Config(
    spaced: bool,
    arraysInObjectsException: bool,
    objectsInObjectsException: bool,
    destructuringAssignmentsException: bool)

  /** The constructor: the base directive and the three exception flags. */
  function ConfigOf(o: RuleOptions): (c: Config)
    ensures c.spaced <==> o.directive == "always"
    ensures c.arraysInObjectsException <==> ConfiguredAs(o, "arraysInObjects", !c.spaced)
    ensures c.objectsInObjectsException <==> ConfiguredAs(o, "objectsInObjects", !c.spaced)
    ensures c.destructuringAssignmentsException <==> ConfiguredAs(o, "destructuringAssignments", !c.spaced)
  {
    Config(
      ShouldBeSpaced(o),
      IsOptionSet(o, "arraysInObjects"),
      IsOptionSet(o, "objectsInObjects"),
      IsOptionSet(o, "destructuringAssignments"))
  }

  /**
   `reportNoBeginningSpace`: a removal that starts where `{` ends;
   `RemovesGapToNextEntry` says where it stops.
   */
  function ReportNoBeginningSpace(ts: seq<Token>, i: nat): (r: Option<Diagnostic>)
    requires i < |ts|
    ensures r.Some? ==>
              && r.value.messageId == UnexpectedSpaceAfter && r.value.dataValue == ts[i].value
              && r.value.fix.RemoveRange? && r.value.fix.lo == ts[i].hi && r.value.loc.start == ts[i].loc.end
  {
    var next :- TokenAfter(ts, i, true, AnyToken);
    Some(Diagnostic(
      SourceLocation(ts[i].loc.end, ts[next].loc.start),
      UnexpectedSpaceAfter, "token", ts[i].value,
      RemoveRange(ts[i].hi, ts[next].lo)))
  }

  /**
   `reportNoEndingSpace`: a removal that stops where `}` starts;
   `RemovesGapFromPreviousEntry` says where it starts.
   */
  function ReportNoEndingSpace(ts: seq<Token>, i: nat): (r: Option<Diagnostic>)
    requires i < |ts|
    ensures r.Some? ==>
              && r.value.messageId == UnexpectedSpaceBefore && r.value.dataValue == ts[i].value
              && r.value.fix.RemoveRange? && r.value.fix.hi == ts[i].lo && r.value.loc.end == ts[i].loc.start
  {
    var previous :- TokenBefore(ts, i, true);
    Some(Diagnostic(
      SourceLocation(ts[previous].loc.end, ts[i].loc.start),
      UnexpectedSpaceBefore, "token", ts[i].value,
      RemoveRange(ts[previous].hi, ts[i].lo)))
  }

  /**
   With comments included, the removal after `{` reaches exactly to the
   entry right after it, whatever that entry is.
   */
  lemma RemovesGapToNextEntry(ts: seq<Token>, i: nat)
    requires i < |ts|
    ensures ReportNoBeginningSpace(ts, i).None? <==> i + 1 == |ts|
    ensures i + 1 < |ts| ==>
              ReportNoBeginningSpace(ts, i)
              == Some(Diagnostic(SourceLocation(ts[i].loc.end, ts[i + 1].loc.start),
                                 UnexpectedSpaceAfter, "token", ts[i].value, RemoveRange(ts[i].hi, ts[i + 1].lo)))
  {
  }

  /** The removal before `}` starts exactly at the entry right before it. */
  lemma RemovesGapFromPreviousEntry(ts: seq<Token>, i: nat)
    requires i < |ts|
    ensures ReportNoEndingSpace(ts, i).None? <==> i == 0
    ensures 0 < i ==>
              ReportNoEndingSpace(ts, i)
              == Some(Diagnostic(SourceLocation(ts[i - 1].loc.end, ts[i].loc.start),
                                 UnexpectedSpaceBefore, "token", ts[i].value, RemoveRange(ts[i - 1].hi, ts[i].lo)))
  {
  }

  /** `reportRequiredBeginningSpace`: one space is inserted right after `{`, and nothing is removed. */
  function ReportRequiredBeginningSpace(t: Token): (d: Diagnostic)
    ensures d.loc == t.loc && d.messageId == RequireSpaceAfter && d.dataValue == t.value
    ensures d.fix.InsertText? && d.fix.text == " " && FixStart(d.fix) == FixEnd(d.fix) == t.hi
  {
    Diagnostic(t.loc, RequireSpaceAfter, "token", t.value, InsertText(t.hi, " "))
  }

  /** `reportRequiredEndingSpace`: one space is inserted right before `}`, and nothing is removed. */
  function ReportRequiredEndingSpace(t: Token): (d: Diagnostic)
    ensures d.loc == t.loc && d.messageId == RequireSpaceBefore && d.dataValue == t.value
    ensures d.fix.InsertText? && d.fix.text == " " && FixStart(d.fix) == FixEnd(d.fix) == t.lo
  {
    Diagnostic(t.loc, RequireSpaceBefore, "token", t.value, InsertText(t.lo, " "))
  }

  /**
   Boundaries as every entry point passes them: `second` is the stream entry
   right after `first` and `penultimate` the one right before `last`,
   comments included.
   */
  predicate Adjacent(ts: seq<Token>, b: Boundaries) {
    b.second == b.first + 1 && b.last == b.penultimate + 1 && b.second < |ts| && b.last < |ts|
  }

  /** The directive for the whole node: the destructuring exception flips it in a destructuring context. */
  function NodeShouldBeSpaced(c: Config, isDestructuringAssignment: bool): (r: bool)
    ensures r == Required(c.spaced, c.destructuringAssignmentsException && isDestructuringAssignment, false)
  {
    var isException := c.destructuringAssignmentsException && isDestructuringAssignment;
    (c.spaced && !isException) || (!c.spaced && isException)
  }

  /**
   The type of the node at the penultimate token, looked up only when a
   nested exception could apply to it; `None` stands for the source's `false`.
   */
  function PenultimateType(c: Config, penultimate: Token, nodeTypeAt: nat -> NodeKind): Option<NodeKind> {
    var shouldCheckPenultimate :=
      || (c.arraysInObjectsException && IsClosingBracketToken(penultimate))
      || (c.objectsInObjectsException && IsClosingBraceToken(penultimate));
    if shouldCheckPenultimate then Some(nodeTypeAt(penultimate.lo)) else None
  }

  /**
   Whether the closing brace's requirement is inverted: the penultimate token
   is a `]` or `}` some nested exception watches, and the node found at its
   offset is an `ArrayExpression` under `arraysInObjects` or an object under
   `objectsInObjects`.
   */
  predicate ClosingInverts(c: Config, penultimate: Token, kind: NodeKind) {
    && ((c.arraysInObjectsException && IsClosingBracketToken(penultimate))
        || (c.objectsInObjectsException && IsClosingBraceToken(penultimate)))
    && ((c.arraysInObjectsException && kind == ArrayExpression)
        || (c.objectsInObjectsException && (kind == ObjectExpression || kind == ObjectPattern)))
  }

  function ClosingBraceMustBeSpaced(
    c: Config, penultimate: Token, isDestructuringAssignment: bool, nodeTypeAt: nat -> NodeKind
  ): (r: bool)
    ensures r == Required(c.spaced, c.destructuringAssignmentsException && isDestructuringAssignment,
                          ClosingInverts(c, penultimate, nodeTypeAt(penultimate.lo)))
  {
    var shouldBeSpaced := NodeShouldBeSpaced(c, isDestructuringAssignment);
    var penultimateType := PenultimateType(c, penultimate, nodeTypeAt);
    if || (c.arraysInObjectsException && penultimateType == Some(ArrayExpression))
       || (c.objectsInObjectsException && IsObjectType(penultimateType))
    then !shouldBeSpaced else shouldBeSpaced
  }

  /**
   For a lookup that never finds an object at a `]` nor an `ArrayExpression`
   at a `}`, the closing brace is inverted exactly when the penultimate token
   is a `]` of an `ArrayExpression` under `arraysInObjects`, or a `}` of an
   object under `objectsInObjects`. An `ArrayPattern` never qualifies.
   */
  lemma NestedExceptionByShape(c: Config, penultimate: Token, kind: NodeKind)
    requires IsClosingBracketToken(penultimate) ==> !IsObjectType(Some(kind))
    requires IsClosingBraceToken(penultimate) ==> kind != ArrayExpression
    ensures ClosingInverts(c, penultimate, kind) <==>
              || (c.arraysInObjectsException && IsClosingBracketToken(penultimate) && kind == ArrayExpression)
              || (c.objectsInObjectsException && IsClosingBraceToken(penultimate) && IsObjectType(Some(kind)))
  {
  }

  predicate OpeningChecked(ts: seq<Token>, b: Boundaries)
    requires InStream(ts, b)
  {
    IsTokenOnSameLine(ts[b.first], ts[b.second])
  }

  predicate ClosingChecked(ts: seq<Token>, b: Boundaries)
    requires InStream(ts, b)
  {
    IsTokenOnSameLine(ts[b.penultimate], ts[b.last])
  }

  function OpeningDiagnostics(
    c: Config, ts: seq<Token>, b: Boundaries, isDestructuringAssignment: bool,
    isSpaceBetween: (Token, Token) -> bool
  ): (r: Option<seq<Diagnostic>>)
    requires Adjacent(ts, b)
    ensures r.Some? && |r.value| <= 1
    ensures forall i :: 0 <= i < |r.value| ==> IsOpeningMessage(r.value[i].messageId)
    ensures forall i :: 0 <= i < |r.value| ==>
              r.value[i].dataKey == "token" && r.value[i].messageId in {RequireSpaceAfter, UnexpectedSpaceAfter}
  {
    if OpeningChecked(ts, b) then
      var shouldBeSpaced := NodeShouldBeSpaced(c, isDestructuringAssignment);
      var firstSpaced := isSpaceBetween(ts[b.first], ts[b.second]);
      var missing := if shouldBeSpaced && !firstSpaced then [ReportRequiredBeginningSpace(ts[b.first])] else [];
      var unexpected := if !shouldBeSpaced && firstSpaced && ts[b.second].kind != Line
                        then AsList(ReportNoBeginningSpace(ts, b.first)) else Some([]);
      (match unexpected
       case None => None
       case Some(u) => Some(missing + u))
    else
      Some([])
  }

  function ClosingDiagnostics(
    c: Config, ts: seq<Token>, b: Boundaries, isDestructuringAssignment: bool,
    isSpaceBetween: (Token, Token) -> bool, nodeTypeAt: nat -> NodeKind
  ): (r: Option<seq<Diagnostic>>)
    requires Adjacent(ts, b)
    ensures r.Some? && |r.value| <= 1
    ensures forall i :: 0 <= i < |r.value| ==> !IsOpeningMessage(r.value[i].messageId)
    ensures forall i :: 0 <= i < |r.value| ==>
              r.value[i].dataKey == "token" && r.value[i].messageId in {RequireSpaceBefore, UnexpectedSpaceBefore}
  {
    if ClosingChecked(ts, b) then
      var mustBeSpaced := ClosingBraceMustBeSpaced(c, ts[b.penultimate], isDestructuringAssignment, nodeTypeAt);
      var lastSpaced := isSpaceBetween(ts[b.penultimate], ts[b.last]);
      var missing := if mustBeSpaced && !lastSpaced then [ReportRequiredEndingSpace(ts[b.last])] else [];
      var unexpected := if !mustBeSpaced && lastSpaced then AsList(ReportNoEndingSpace(ts, b.last)) else Some([]);
      (match unexpected
       case None => None
       case Some(u) => Some(missing + u))
    else
      Some([])
  }

  /**
   `#validateBraceSpacing`: the reports for one pair of braces, opening
   boundary first; it always succeeds on adjacent boundaries.
   */
  function ValidateBraceSpacing(
    c: Config, ts: seq<Token>, b: Boundaries, isDestructuringAssignment: bool,
    isSpaceBetween: (Token, Token) -> bool, nodeTypeAt: nat -> NodeKind
  ): (r: Option<seq<Diagnostic>>)
    requires Adjacent(ts, b)
    ensures r.Some? && |r.value| <= 2
    ensures forall i, j :: 0 <= i < j < |r.value| ==>
              IsOpeningMessage(r.value[i].messageId) && !IsOpeningMessage(r.value[j].messageId)
    ensures forall i :: 0 <= i < |r.value| ==>
              && r.value[i].dataKey == "token"
              && r.value[i].messageId in {RequireSpaceAfter, RequireSpaceBefore, UnexpectedSpaceAfter, UnexpectedSpaceBefore}
  {
    var opening := OpeningDiagnostics(c, ts, b, isDestructuringAssignment, isSpaceBetween).value;
    var closing := ClosingDiagnostics(c, ts, b, isDestructuringAssignment, isSpaceBetween, nodeTypeAt).value;
    Some(opening + closing)
  }

  /** The opening boundary's own reports, read off `OpeningDiagnostics`. */
  lemma OpeningReports(
    c: Config, ts: seq<Token>, b: Boundaries, isDestructuringAssignment: bool, isSpaceBetween: (Token, Token) -> bool)
    requires Adjacent(ts, b)
    ensures var opening := OpeningDiagnostics(c, ts, b, isDestructuringAssignment, isSpaceBetween).value;
            var required := NodeShouldBeSpaced(c, isDestructuringAssignment);
            var spaced := isSpaceBetween(ts[b.first], ts[b.second]);
            && (Reports(opening, RequireSpaceAfter) <==> OpeningChecked(ts, b) && required && !spaced)
            && (Reports(opening, UnexpectedSpaceAfter) <==>
                  OpeningChecked(ts, b) && !required && spaced && ts[b.second].kind != Line)
            && !Reports(opening, RequireSpaceBefore) && !Reports(opening, UnexpectedSpaceBefore)
  {
    var opening := OpeningDiagnostics(c, ts, b, isDestructuringAssignment, isSpaceBetween).value;
    if |opening| == 1 {
      assert opening[0] in opening;
    }
  }

  /** The closing boundary's own reports, read off `ClosingDiagnostics`. */
  lemma ClosingReports(
    c: Config, ts: seq<Token>, b: Boundaries, isDestructuringAssignment: bool,
    isSpaceBetween: (Token, Token) -> bool, nodeTypeAt: nat -> NodeKind)
    requires Adjacent(ts, b)
    ensures var closing := ClosingDiagnostics(c, ts, b, isDestructuringAssignment, isSpaceBetween, nodeTypeAt).value;
            var required := ClosingBraceMustBeSpaced(c, ts[b.penultimate], isDestructuringAssignment, nodeTypeAt);
            var spaced := isSpaceBetween(ts[b.penultimate], ts[b.last]);
            && (Reports(closing, RequireSpaceBefore) <==> ClosingChecked(ts, b) && required && !spaced)
            && (Reports(closing, UnexpectedSpaceBefore) <==> ClosingChecked(ts, b) && !required && spaced)
            && !Reports(closing, RequireSpaceAfter) && !Reports(closing, UnexpectedSpaceAfter)
  {
    var closing := ClosingDiagnostics(c, ts, b, isDestructuringAssignment, isSpaceBetween, nodeTypeAt).value;
    if |closing| == 1 {
      assert closing[0] in closing;
    }
  }

  /**
   The opening brace is reported as missing a space exactly when its boundary
   is on one line, required spaced and unspaced; as having an unexpected space
   exactly when it is on one line, required unspaced, spaced, and the token
   after the brace is not a line comment.
   */
  lemma OpeningBraceVerdict(
    c: Config, ts: seq<Token>, b: Boundaries, isDestructuringAssignment: bool,
    isSpaceBetween: (Token, Token) -> bool, nodeTypeAt: nat -> NodeKind)
    requires Adjacent(ts, b)
    ensures var ds := ValidateBraceSpacing(c, ts, b, isDestructuringAssignment, isSpaceBetween, nodeTypeAt).value;
            var required := Required(c.spaced, c.destructuringAssignmentsException && isDestructuringAssignment, false);
            var spaced := isSpaceBetween(ts[b.first], ts[b.second]);
            && (Reports(ds, RequireSpaceAfter) <==> OpeningChecked(ts, b) && required && !spaced)
            && (Reports(ds, UnexpectedSpaceAfter) <==>
                  OpeningChecked(ts, b) && !required && spaced && ts[b.second].kind != Line)
  {
    var opening := OpeningDiagnostics(c, ts, b, isDestructuringAssignment, isSpaceBetween).value;
    var closing := ClosingDiagnostics(c, ts, b, isDestructuringAssignment, isSpaceBetween, nodeTypeAt).value;
    OpeningReports(c, ts, b, isDestructuringAssignment, isSpaceBetween);
    ClosingReports(c, ts, b, isDestructuringAssignment, isSpaceBetween, nodeTypeAt);
    ReportsOfConcat(opening, closing, RequireSpaceAfter);
    ReportsOfConcat(opening, closing, UnexpectedSpaceAfter);
  }

  /**
   The closing brace is reported as missing a space exactly when its boundary
   is on one line, required spaced and unspaced, and as having an unexpected
   space exactly when it is on one line, required unspaced and spaced; the
   requirement is inverted when `ClosingInverts` holds.
   */
  lemma ClosingBraceVerdict(
    c: Config, ts: seq<Token>, b: Boundaries, isDestructuringAssignment: bool,
    isSpaceBetween: (Token, Token) -> bool, nodeTypeAt: nat -> NodeKind)
    requires Adjacent(ts, b)
    ensures var ds := ValidateBraceSpacing(c, ts, b, isDestructuringAssignment, isSpaceBetween, nodeTypeAt).value;
            var penultimate := ts[b.penultimate];
            var required := Required(c.spaced, c.destructuringAssignmentsException && isDestructuringAssignment,
                                     ClosingInverts(c, penultimate, nodeTypeAt(penultimate.lo)));
            var spaced := isSpaceBetween(penultimate, ts[b.last]);
            && (Reports(ds, RequireSpaceBefore) <==> ClosingChecked(ts, b) && required && !spaced)
            && (Reports(ds, UnexpectedSpaceBefore) <==> ClosingChecked(ts, b) && !required && spaced)
  {
    var opening := OpeningDiagnostics(c, ts, b, isDestructuringAssignment, isSpaceBetween).value;
    var closing := ClosingDiagnostics(c, ts, b, isDestructuringAssignment, isSpaceBetween, nodeTypeAt).value;
    OpeningReports(c, ts, b, isDestructuringAssignment, isSpaceBetween);
    ClosingReports(c, ts, b, isDestructuringAssignment, isSpaceBetween, nodeTypeAt);
    ReportsOfConcat(opening, closing, RequireSpaceBefore);
    ReportsOfConcat(opening, closing, UnexpectedSpaceBefore);
  }

  /**
   The exact report for each message: a single space inserted right after `{`
   or right before `}`, or the removal of exactly the gap between the brace
   and the adjacent token or comment, always naming the brace.
   */
  predicate ShapedAsReported(ts: seq<Token>, b: Boundaries, d: Diagnostic)
    requires InStream(ts, b)
  {
    match d.messageId
    case RequireSpaceAfter =>
      d == Diagnostic(ts[b.first].loc, RequireSpaceAfter, "token", ts[b.first].value, InsertText(ts[b.first].hi, " "))
    case UnexpectedSpaceAfter =>
      d == Diagnostic(SourceLocation(ts[b.first].loc.end, ts[b.second].loc.start),
                      UnexpectedSpaceAfter, "token", ts[b.first].value, RemoveRange(ts[b.first].hi, ts[b.second].lo))
    case RequireSpaceBefore =>
      d == Diagnostic(ts[b.last].loc, RequireSpaceBefore, "token", ts[b.last].value, InsertText(ts[b.last].lo, " "))
    case UnexpectedSpaceBefore =>
      d == Diagnostic(SourceLocation(ts[b.penultimate].loc.end, ts[b.last].loc.start),
                      UnexpectedSpaceBefore, "token", ts[b.last].value, RemoveRange(ts[b.penultimate].hi, ts[b.last].lo))
    case _ => false
  }

  lemma OpeningShapes(
    c: Config, ts: seq<Token>, b: Boundaries, isDestructuringAssignment: bool, isSpaceBetween: (Token, Token) -> bool)
    requires Adjacent(ts, b)
    ensures forall d :: d in OpeningDiagnostics(c, ts, b, isDestructuringAssignment, isSpaceBetween).value ==>
              ShapedAsReported(ts, b, d)
  {
    AdjacentWithComments(ts, b.first);
  }

  lemma ClosingShapes(
    c: Config, ts: seq<Token>, b: Boundaries, isDestructuringAssignment: bool,
    isSpaceBetween: (Token, Token) -> bool, nodeTypeAt: nat -> NodeKind)
    requires Adjacent(ts, b)
    ensures forall d :: d in ClosingDiagnostics(c, ts, b, isDestructuringAssignment, isSpaceBetween, nodeTypeAt).value ==>
              ShapedAsReported(ts, b, d)
  {
    AdjacentWithComments(ts, b.last);
  }

  /** Every report of a pair of braces has the exact shape its message calls for. */
  lemma DiagnosticShapes(
    c: Config, ts: seq<Token>, b: Boundaries, isDestructuringAssignment: bool,
    isSpaceBetween: (Token, Token) -> bool, nodeTypeAt: nat -> NodeKind)
    requires Adjacent(ts, b)
    ensures forall d :: d in ValidateBraceSpacing(c, ts, b, isDestructuringAssignment, isSpaceBetween, nodeTypeAt).value ==>
              ShapedAsReported(ts, b, d)
  {
    var opening := OpeningDiagnostics(c, ts, b, isDestructuringAssignment, isSpaceBetween).value;
    var closing := ClosingDiagnostics(c, ts, b, isDestructuringAssignment, isSpaceBetween, nodeTypeAt).value;
    OpeningShapes(c, ts, b, isDestructuringAssignment, isSpaceBetween);
    ClosingShapes(c, ts, b, isDestructuringAssignment, isSpaceBetween, nodeTypeAt);
    forall d | d in opening + closing
      ensures ShapedAsReported(ts, b, d)
    {
      assert d in opening || d in closing;
    }
  }

  /** The observation after applying every fix reported for the pair of braces. */
  function AfterFixes(isSpaceBetween: (Token, Token) -> bool, ts: seq<Token>, b: Boundaries, ds: seq<Diagnostic>)
    : (Token, Token) -> bool
    requires InStream(ts, b)
  {
    var afterOpening := if Reports(ds, RequireSpaceAfter) || Reports(ds, UnexpectedSpaceAfter)
                        then Flipped(isSpaceBetween, ts[b.first], ts[b.second]) else isSpaceBetween;
    if Reports(ds, RequireSpaceBefore) || Reports(ds, UnexpectedSpaceBefore)
    then Flipped(afterOpening, ts[b.penultimate], ts[b.last]) else afterOpening
  }

  lemma AfterFixesAt(isSpaceBetween: (Token, Token) -> bool, ts: seq<Token>, b: Boundaries, ds: seq<Diagnostic>)
    requires InStream(ts, b)
    requires ts[b.first] != ts[b.penultimate]
    ensures var fixed := AfterFixes(isSpaceBetween, ts, b, ds);
            var openingFixed := Reports(ds, RequireSpaceAfter) || Reports(ds, UnexpectedSpaceAfter);
            var closingFixed := Reports(ds, RequireSpaceBefore) || Reports(ds, UnexpectedSpaceBefore);
            && fixed(ts[b.first], ts[b.second]) == (isSpaceBetween(ts[b.first], ts[b.second]) != openingFixed)
            && fixed(ts[b.penultimate], ts[b.last]) == (isSpaceBetween(ts[b.penultimate], ts[b.last]) != closingFixed)
  {
  }

  /** A pair of braces whose observations match their requirements yields no report. */
  lemma BracesSilenced(
    c: Config, ts: seq<Token>, b: Boundaries, isDestructuringAssignment: bool,
    isSpaceBetween: (Token, Token) -> bool, nodeTypeAt: nat -> NodeKind)
    requires Adjacent(ts, b)
    requires OpeningChecked(ts, b) ==>
               isSpaceBetween(ts[b.first], ts[b.second]) == NodeShouldBeSpaced(c, isDestructuringAssignment)
               || (isSpaceBetween(ts[b.first], ts[b.second]) && ts[b.second].kind == Line)
    requires ClosingChecked(ts, b) ==>
               isSpaceBetween(ts[b.penultimate], ts[b.last])
               == ClosingBraceMustBeSpaced(c, ts[b.penultimate], isDestructuringAssignment, nodeTypeAt)
    ensures ValidateBraceSpacing(c, ts, b, isDestructuringAssignment, isSpaceBetween, nodeTypeAt) == Some([])
  {
  }

  /**
   Applying the reported fixes leaves nothing to report for the pair of
   braces, provided there is something between them (the two boundaries differ).
   */
  lemma FixesSilenceTheBraces(
    c: Config, ts: seq<Token>, b: Boundaries, isDestructuringAssignment: bool,
    isSpaceBetween: (Token, Token) -> bool, nodeTypeAt: nat -> NodeKind)
    requires Ordered(ts)
    requires Adjacent(ts, b)
    requires b.second <= b.penultimate
    ensures var ds := ValidateBraceSpacing(c, ts, b, isDestructuringAssignment, isSpaceBetween, nodeTypeAt).value;
            ValidateBraceSpacing(c, ts, b, isDestructuringAssignment, AfterFixes(isSpaceBetween, ts, b, ds), nodeTypeAt)
            == Some([])
  {
    var ds := ValidateBraceSpacing(c, ts, b, isDestructuringAssignment, isSpaceBetween, nodeTypeAt).value;
    var fixed := AfterFixes(isSpaceBetween, ts, b, ds);
    OpeningBraceVerdict(c, ts, b, isDestructuringAssignment, isSpaceBetween, nodeTypeAt);
    ClosingBraceVerdict(c, ts, b, isDestructuringAssignment, isSpaceBetween, nodeTypeAt);
    OrderedTokensAreDistinct(ts, b.first, b.penultimate);
    AfterFixesAt(isSpaceBetween, ts, b, ds);
    BracesSilenced(c, ts, b, isDestructuringAssignment, fixed, nodeTypeAt);
  }

  /** The two fixes for a pair of braces touch disjoint stretches of the source. */
  lemma FixesDoNotOverlap(
    c: Config, ts: seq<Token>, b: Boundaries, isDestructuringAssignment: bool,
    isSpaceBetween: (Token, Token) -> bool, nodeTypeAt: nat -> NodeKind)
    requires Ordered(ts)
    requires Adjacent(ts, b)
    requires b.second <= b.penultimate
    ensures var ds := ValidateBraceSpacing(c, ts, b, isDestructuringAssignment, isSpaceBetween, nodeTypeAt).value;
            forall i, j :: 0 <= i < j < |ds| ==> FixEnd(ds[i].fix) < FixStart(ds[j].fix)
  {
    var opening := OpeningDiagnostics(c, ts, b, isDestructuringAssignment, isSpaceBetween).value;
    var closing := ClosingDiagnostics(c, ts, b, isDestructuringAssignment, isSpaceBetween, nodeTypeAt).value;
    OpeningShapes(c, ts, b, isDestructuringAssignment, isSpaceBetween);
    ClosingShapes(c, ts, b, isDestructuringAssignment, isSpaceBetween, nodeTypeAt);
    if |opening| == 1 {
      assert opening[0] in opening;
    }
    if |closing| == 1 {
      assert closing[0] in closing;
    }
    OneFixPerSide(ts, b, opening, closing);
  }

  /** At most one fix on each side of the interior, so the opening one ends before the closing one starts. */
  lemma OneFixPerSide(ts: seq<Token>, b: Boundaries, opening: seq<Diagnostic>, closing: seq<Diagnostic>)
    requires Ordered(ts)
    requires Adjacent(ts, b)
    requires b.second <= b.penultimate
    requires |opening| <= 1 && |closing| <= 1
    requires |opening| == 1 ==> ShapedAsReported(ts, b, opening[0]) && IsOpeningMessage(opening[0].messageId)
    requires |closing| == 1 ==> ShapedAsReported(ts, b, closing[0]) && !IsOpeningMessage(closing[0].messageId)
    ensures var ds := opening + closing;
            forall i, j :: 0 <= i < j < |ds| ==> FixEnd(ds[i].fix) < FixStart(ds[j].fix)
  {
    if |opening| == 1 && |closing| == 1 {
      FixStaysAtItsBoundary(ts, b, opening[0]);
      FixStaysAtItsBoundary(ts, b, closing[0]);
      assert ts[b.second].lo < ts[b.penultimate].hi by {
        if b.second < b.penultimate {
          assert ts[b.second].hi <= ts[b.penultimate].lo;
        }
      }
      assert (opening + closing)[0] == opening[0] && (opening + closing)[1] == closing[0];
    }
  }

  /**
   A report's fix stays on its own side of the interior: an opening fix ends
   by the start of the entry after `{`, a closing fix starts after the entry
   before `}`.
   */
  lemma FixStaysAtItsBoundary(ts: seq<Token>, b: Boundaries, d: Diagnostic)
    requires Ordered(ts)
    requires Adjacent(ts, b)
    requires ShapedAsReported(ts, b, d)
    ensures IsOpeningMessage(d.messageId) ==> FixEnd(d.fix) <= ts[b.second].lo
    ensures !IsOpeningMessage(d.messageId) ==> ts[b.penultimate].hi <= FixStart(d.fix)
  {
    assert ts[b.first].hi <= ts[b.second].lo;
    assert ts[b.penultimate].hi <= ts[b.last].lo;
  }

  /** `#getClosingBraceOfObject`: the first `}` punctuator after the last property. */
  function GetClosingBraceOfObject(ts: seq<Token>, node: ObjectNode): (r: Option<nat>)
    requires |node.properties| > 0
    ensures var lastProperty := node.properties[|node.properties| - 1];
            && (r.Some? ==>
                  && lastProperty.last < r.value < |ts|
                  && IsClosingBraceToken(ts[r.value])
                  && forall k :: lastProperty.last < k < r.value ==> !IsClosingBraceToken(ts[k]))
            && (r.None? ==> forall k :: lastProperty.last < k < |ts| ==> !IsClosingBraceToken(ts[k]))
  {
    var lastProperty := node.properties[|node.properties| - 1];
    TokenAfterNode(ts, lastProperty, ClosingBrace)
  }

  /**
   The boundaries of an object: its first token and the entry after it, the
   closing brace and the entry before it (comments included).
   */
  function ObjectBoundaries(ts: seq<Token>, node: ObjectNode): (r: Option<Boundaries>)
    requires |node.properties| > 0
    ensures r.Some? ==>
              && Adjacent(ts, r.value)
              && r.value.first == node.span.first
              && Some(r.value.last) == GetClosingBraceOfObject(ts, node)
    ensures r.None? <==> node.span.first + 1 >= |ts| || GetClosingBraceOfObject(ts, node).None?
  {
    var first :- FirstToken(ts, node.span);
    var last :- GetClosingBraceOfObject(ts, node);
    var second :- TokenAfter(ts, first, true, AnyToken);
    match TokenBefore(ts, last, true)
    case None => None
    case Some(penultimate) => Some(Boundaries(first, second, penultimate, last))
  }

  /**
   The boundaries of a specifier list: the non-comment token before the first
   braced specifier, the first non-comment, non-comma token after the last
   specifier (skipping a trailing comma), and their neighbouring entries.
   */
  function SpecifierBoundaries(ts: seq<Token>, firstSpecifier: Specifier, lastSpecifier: Specifier)
    : (r: Option<Boundaries>)
    ensures r.Some? ==>
              && Adjacent(ts, r.value)
              && PreviousCode(ts, firstSpecifier.span.first, r.value.first)
              && lastSpecifier.span.last < r.value.last
              && !IsComment(ts[r.value.last]) && IsNotCommaToken(ts[r.value.last])
              && forall k :: lastSpecifier.span.last < k < r.value.last ==> IsComment(ts[k]) || !IsNotCommaToken(ts[k])
    ensures r.None? <==>
              || TokenBeforeNode(ts, firstSpecifier.span).None?
              || TokenAfterNode(ts, lastSpecifier.span, NotComma).None?
              || TokenBeforeNode(ts, firstSpecifier.span).value + 1 >= |ts|
  {
    var first :- TokenBeforeNode(ts, firstSpecifier.span);
    var last :- TokenAfterNode(ts, lastSpecifier.span, NotComma);
    var second :- TokenAfter(ts, first, true, AnyToken);
    match TokenBefore(ts, last, true)
    case None => None
    case Some(penultimate) => Some(Boundaries(first, second, penultimate, last))
  }

  /** `checkForObjectDestructuringAssignment`, the visitor for `ObjectPattern`. */
  function CheckForObjectDestructuringAssignment(
    c: Config, ts: seq<Token>, node: ObjectNode,
    isSpaceBetween: (Token, Token) -> bool, nodeTypeAt: nat -> NodeKind
  ): (r: Option<seq<Diagnostic>>)
    ensures |node.properties| == 0 ==> r == Some([])
    ensures r.None? <==> |node.properties| > 0 && ObjectBoundaries(ts, node).None?
    ensures |node.properties| > 0 && r.Some? ==>
              r == ValidateBraceSpacing(c, ts, ObjectBoundaries(ts, node).value, true, isSpaceBetween, nodeTypeAt)
  {
    if |node.properties| == 0 then Some([])
    else
      match ObjectBoundaries(ts, node)
      case None => None
      case Some(b) => ValidateBraceSpacing(c, ts, b, true, isSpaceBetween, nodeTypeAt)
  }

  /** `checkForObject`, the visitor for `ObjectExpression`. */
  function CheckForObject(
    c: Config, ts: seq<Token>, node: ObjectNode,
    isSpaceBetween: (Token, Token) -> bool, nodeTypeAt: nat -> NodeKind
  ): (r: Option<seq<Diagnostic>>)
    ensures |node.properties| == 0 ==> r == Some([])
    ensures r.None? <==> |node.properties| > 0 && ObjectBoundaries(ts, node).None?
    ensures |node.properties| > 0 && r.Some? ==>
              r == ValidateBraceSpacing(c, ts, ObjectBoundaries(ts, node).value, false, isSpaceBetween, nodeTypeAt)
  {
    if |node.properties| == 0 then Some([])
    else
      match ObjectBoundaries(ts, node)
      case None => None
      case Some(b) => ValidateBraceSpacing(c, ts, b, false, isSpaceBetween, nodeTypeAt)
  }

  /** The first specifier inside the braces: a leading default import is skipped. */
  function FirstBracedSpecifier(specifiers: seq<Specifier>): (s: Specifier)
    requires |specifiers| > 0 && specifiers[|specifiers| - 1].kind == ImportSpecifier
    ensures specifiers[0].kind == ImportSpecifier ==> s == specifiers[0]
    ensures specifiers[0].kind != ImportSpecifier ==> |specifiers| >= 2 && s == specifiers[1]
  {
    if specifiers[0].kind != ImportSpecifier then specifiers[1] else specifiers[0]
  }

  /** `checkForImport`, the visitor for `ImportDeclaration`. */
  function CheckForImport(
    c: Config, ts: seq<Token>, node: ImportNode,
    isSpaceBetween: (Token, Token) -> bool, nodeTypeAt: nat -> NodeKind
  ): (r: Option<seq<Diagnostic>>)
    ensures |node.specifiers| == 0 ==> r == Some([])
    ensures |node.specifiers| > 0 && node.specifiers[|node.specifiers| - 1].kind != ImportSpecifier ==> r == Some([])
    ensures |node.specifiers| > 0 && node.specifiers[|node.specifiers| - 1].kind == ImportSpecifier ==>
              var braces := SpecifierBoundaries(ts, FirstBracedSpecifier(node.specifiers),
                                                node.specifiers[|node.specifiers| - 1]);
              && (r.None? <==> braces.None?)
              && (r.Some? ==> r == ValidateBraceSpacing(c, ts, braces.value, true, isSpaceBetween, nodeTypeAt))
  {
    if |node.specifiers| == 0 then Some([])
    else
      var lastSpecifier := node.specifiers[|node.specifiers| - 1];
      if lastSpecifier.kind != ImportSpecifier then Some([])
      else
        match SpecifierBoundaries(ts, FirstBracedSpecifier(node.specifiers), lastSpecifier)
        case None => None
        case Some(b) => ValidateBraceSpacing(c, ts, b, true, isSpaceBetween, nodeTypeAt)
  }

  /** `checkForExport`, the visitor for `ExportNamedDeclaration`. */
  function CheckForExport(
    c: Config, ts: seq<Token>, node: ExportNode,
    isSpaceBetween: (Token, Token) -> bool, nodeTypeAt: nat -> NodeKind
  ): (r: Option<seq<Diagnostic>>)
    ensures |node.specifiers| == 0 ==> r == Some([])
    ensures |node.specifiers| > 0 ==>
              var braces := SpecifierBoundaries(ts, node.specifiers[0], node.specifiers[|node.specifiers| - 1]);
              && (r.None? <==> braces.None?)
              && (r.Some? ==> r == ValidateBraceSpacing(c, ts, braces.value, false, isSpaceBetween, nodeTypeAt))
  {
    if |node.specifiers| == 0 then Some([])
    else
      match SpecifierBoundaries(ts, node.specifiers[0], node.specifiers[|node.specifiers| - 1])
      case None => None
      case Some(b) => ValidateBraceSpacing(c, ts, b, false, isSpaceBetween, nodeTypeAt)
  }

  /** The four node types the rule visits. */
  datatype CurlyNode = Object(obj: ObjectNode) | Import(imp: ImportNode) | Export(exp: ExportNode)

  /** Nodes the rule leaves alone: nothing between the braces, or no braces at all. */
  predicate Skipped(node: CurlyNode) {
    match node
    case Object(o) => |o.properties| == 0
    case Import(i) => |i.specifiers| == 0 || i.specifiers[|i.specifiers| - 1].kind != ImportSpecifier
    case Export(e) => |e.specifiers| == 0
  }

  /**
   Where the braces of a node that is not skipped bind names rather than
   build a value: object patterns and import lists.
   */
  predicate DestructuringContext(node: CurlyNode) {
    match node
    case Object(o) => ObjectKind(o) == ObjectPattern
    case Import(_) => true
    case Export(_) => false
  }

  /**
   The boundaries of a node that is not skipped. For a node as the parser
   nests it, they are missing only when the host finds no closing brace
   after the last property, or no token before the first braced specifier
   or after the last one.
   */
  function Located(ts: seq<Token>, node: CurlyNode): (r: Option<Boundaries>)
    requires !Skipped(node)
    ensures r.Some? ==> Adjacent(ts, r.value)
    ensures WellNested(node) ==>
              (r.None? <==> match node
                            case Object(o) => GetClosingBraceOfObject(ts, o).None?
                            case Import(i) =>
                              || TokenBeforeNode(ts, FirstBracedSpecifier(i.specifiers).span).None?
                              || TokenAfterNode(ts, i.specifiers[|i.specifiers| - 1].span, NotComma).None?
                            case Export(e) =>
                              || TokenBeforeNode(ts, e.specifiers[0].span).None?
                              || TokenAfterNode(ts, e.specifiers[|e.specifiers| - 1].span, NotComma).None?)
  {
    match node
    case Object(o) =>
      var lastProperty := o.properties[|o.properties| - 1];
      assert lastProperty in o.properties;
      ObjectBoundaries(ts, o)
    case Import(i) =>
      var firstSpecifier := FirstBracedSpecifier(i.specifiers);
      var lastSpecifier := i.specifiers[|i.specifiers| - 1];
      assert WellNested(node) ==> firstSpecifier.span.first <= lastSpecifier.span.last;
      SpecifierBoundaries(ts, firstSpecifier, lastSpecifier)
    case Export(e) =>
      var lastSpecifier := e.specifiers[|e.specifiers| - 1];
      assert WellNested(node) ==> e.specifiers[0].span.first <= lastSpecifier.span.last;
      SpecifierBoundaries(ts, e.specifiers[0], lastSpecifier)
  }

  /**
   The visitor table: each node type to its check. A skipped node yields no
   report; any other node is validated at its located boundaries with the
   destructuring exception applying exactly in a destructuring context.
   */
  function Check(
    c: Config, ts: seq<Token>, node: CurlyNode,
    isSpaceBetween: (Token, Token) -> bool, nodeTypeAt: nat -> NodeKind
  ): (r: Option<seq<Diagnostic>>)
    ensures Skipped(node) ==> r == Some([])
    ensures !Skipped(node) ==>
              && (r.None? <==> Located(ts, node).None?)
              && (r.Some? ==> Adjacent(ts, Located(ts, node).value)
                              && r == ValidateBraceSpacing(c, ts, Located(ts, node).value, DestructuringContext(node),
                                                           isSpaceBetween, nodeTypeAt))
  {
    match node
    case Object(o) =>
      ObjectValidatedAtItsBraces(c, ts, o, isSpaceBetween, nodeTypeAt);
      if ObjectKind(o) == ObjectPattern then CheckForObjectDestructuringAssignment(c, ts, o, isSpaceBetween, nodeTypeAt)
      else CheckForObject(c, ts, o, isSpaceBetween, nodeTypeAt)
    case Import(i) =>
      ImportValidatedAtItsBraces(c, ts, i, isSpaceBetween, nodeTypeAt);
      CheckForImport(c, ts, i, isSpaceBetween, nodeTypeAt)
    case Export(e) =>
      ExportValidatedAtItsBraces(c, ts, e, isSpaceBetween, nodeTypeAt);
      CheckForExport(c, ts, e, isSpaceBetween, nodeTypeAt)
  }

  /** The object visitors validate a non-empty object at its located braces, in its own context. */
  lemma ObjectValidatedAtItsBraces(
    c: Config, ts: seq<Token>, o: ObjectNode,
    isSpaceBetween: (Token, Token) -> bool, nodeTypeAt: nat -> NodeKind)
    ensures var r := if ObjectKind(o) == ObjectPattern
                     then CheckForObjectDestructuringAssignment(c, ts, o, isSpaceBetween, nodeTypeAt)
                     else CheckForObject(c, ts, o, isSpaceBetween, nodeTypeAt);
            |o.properties| > 0 ==>
            && (r.None? <==> Located(ts, Object(o)).None?)
            && (r.Some? ==> Adjacent(ts, Located(ts, Object(o)).value)
                            && r == ValidateBraceSpacing(c, ts, Located(ts, Object(o)).value,
                                                         DestructuringContext(Object(o)), isSpaceBetween, nodeTypeAt))
  {
    if |o.properties| > 0 {
      assert Located(ts, Object(o)) == ObjectBoundaries(ts, o);
    }
  }

  /** The import visitor validates a braced import at its located braces, as a destructuring context. */
  lemma ImportValidatedAtItsBraces(
    c: Config, ts: seq<Token>, i: ImportNode,
    isSpaceBetween: (Token, Token) -> bool, nodeTypeAt: nat -> NodeKind)
    ensures var r := CheckForImport(c, ts, i, isSpaceBetween, nodeTypeAt);
            !Skipped(Import(i)) ==>
            && (r.None? <==> Located(ts, Import(i)).None?)
            && (r.Some? ==> Adjacent(ts, Located(ts, Import(i)).value)
                            && r == ValidateBraceSpacing(c, ts, Located(ts, Import(i)).value,
                                                         DestructuringContext(Import(i)), isSpaceBetween, nodeTypeAt))
  {
    if !Skipped(Import(i)) {
      assert Located(ts, Import(i))
          == SpecifierBoundaries(ts, FirstBracedSpecifier(i.specifiers), i.specifiers[|i.specifiers| - 1]);
    }
  }

  /** The export visitor validates a non-empty export at its located braces, outside a destructuring context. */
  lemma ExportValidatedAtItsBraces(
    c: Config, ts: seq<Token>, e: ExportNode,
    isSpaceBetween: (Token, Token) -> bool, nodeTypeAt: nat -> NodeKind)
    ensures var r := CheckForExport(c, ts, e, isSpaceBetween, nodeTypeAt);
            !Skipped(Export(e)) ==>
            && (r.None? <==> Located(ts, Export(e)).None?)
            && (r.Some? ==> Adjacent(ts, Located(ts, Export(e)).value)
                            && r == ValidateBraceSpacing(c, ts, Located(ts, Export(e)).value,
                                                         DestructuringContext(Export(e)), isSpaceBetween, nodeTypeAt))
  {
    if !Skipped(Export(e)) {
      assert Located(ts, Export(e)) == SpecifierBoundaries(ts, e.specifiers[0], e.specifiers[|e.specifiers| - 1]);
    }
  }

  /** Specifiers appear in source order, each spanning at least one token. */
  predicate SpecifiersInOrder(specifiers: seq<Specifier>) {
    forall j, k :: 0 <= j <= k < |specifiers| ==> specifiers[j].span.first <= specifiers[k].span.last
  }

  /** The parser's nesting: properties lie after the opening brace, specifiers in order. */
  predicate WellNested(node: CurlyNode) {
    match node
    case Object(o) => forall p :: p in o.properties ==> o.span.first < p.first <= p.last
    case Import(i) => SpecifiersInOrder(i.specifiers)
    case Export(e) => SpecifiersInOrder(e.specifiers)
  }

  /** Between the located braces of a checked node there is at least one token. */
  lemma LocatedHasInterior(ts: seq<Token>, node: CurlyNode)
    requires WellNested(node)
    requires !Skipped(node)
    requires Located(ts, node).Some?
    ensures Located(ts, node).value.second <= Located(ts, node).value.penultimate
  {
    match node
    case Object(o) =>
      var lastProperty := o.properties[|o.properties| - 1];
      assert lastProperty in o.properties;
    case Import(i) =>
      var specifiers := i.specifiers;
      if specifiers[0].kind != ImportSpecifier {
        assert specifiers[1].span.first <= specifiers[|specifiers| - 1].span.last;
      } else {
        assert specifiers[0].span.first <= specifiers[|specifiers| - 1].span.last;
      }
    case Export(e) =>
      assert e.specifiers[0].span.first <= e.specifiers[|e.specifiers| - 1].span.last;
  }

  /** Applying the fixes reported for a node leaves nothing to report for it. */
  lemma FixesSilenceTheNode(
    c: Config, ts: seq<Token>, node: CurlyNode,
    isSpaceBetween: (Token, Token) -> bool, nodeTypeAt: nat -> NodeKind)
    requires Ordered(ts)
    requires WellNested(node)
    requires !Skipped(node)
    requires Located(ts, node).Some?
    ensures var ds := Check(c, ts, node, isSpaceBetween, nodeTypeAt).value;
            Check(c, ts, node, AfterFixes(isSpaceBetween, ts, Located(ts, node).value, ds), nodeTypeAt) == Some([])
  {
    var b := Located(ts, node).value;
    LocatedHasInterior(ts, node);
    FixesSilenceTheBraces(c, ts, b, DestructuringContext(node), isSpaceBetween, nodeTypeAt);
  }

  /** The fixes reported for a node touch disjoint stretches of the source. */
  lemma NodeFixesDoNotOverlap(
    c: Config, ts: seq<Token>, node: CurlyNode,
    isSpaceBetween: (Token, Token) -> bool, nodeTypeAt: nat -> NodeKind)
    requires Ordered(ts)
    requires WellNested(node)
    requires !Skipped(node)
    requires Located(ts, node).Some?
    ensures var ds := Check(c, ts, node, isSpaceBetween, nodeTypeAt).value;
            forall i, j :: 0 <= i < j < |ds| ==> FixEnd(ds[i].fix) < FixStart(ds[j].fix)
  {
    var b := Located(ts, node).value;
    LocatedHasInterior(ts, node);
    FixesDoNotOverlap(c, ts, b, DestructuringContext(node), isSpaceBetween, nodeTypeAt);
  }

  /**
   After a leading default import, the opening brace is the non-comment token
   before the second specifier.
   */
  lemma ImportSkipsDefault(ts: seq<Token>, node: ImportNode)
    requires |node.specifiers| > 0
    requires node.specifiers[0].kind != ImportSpecifier
    requires node.specifiers[|node.specifiers| - 1].kind == ImportSpecifier
    requires Located(ts, Import(node)).Some?
    ensures |node.specifiers| >= 2
    ensures PreviousCode(ts, node.specifiers[1].span.first, Located(ts, Import(node)).value.first)
  {
  }
}

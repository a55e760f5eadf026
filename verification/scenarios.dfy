/**
 Concrete inputs on which the rules' behaviour is pinned down: token streams
 where two tokens count as spaced when a gap separates their texts.
 */
module Scenarios {
  import opened Wrappers
  import opened Tokens
  import opened Nodes
  import opened SourceCode
  import opened Diagnostics
  import opened Options
  import ArrayBracketSpacing
  import ObjectCurlySpacing

  /** A token on line `line` whose text starts at column `column` and at offset `lo` of the source. */
  function Tok(kind: TokenKind, value: string, line: nat, column: nat, lo: nat): Token {
    Token(kind, value, SourceLocation(Position(line, column), Position(line, column + |value|)), lo, lo + |value|)
  }

  /** A punctuator on the first line, where the column is the offset. */
  function P(value: string, lo: nat): Token {
    Tok(Punctuator, value, 1, lo, lo)
  }

  /** Any other token on the first line. */
  function Id(value: string, lo: nat): Token {
    Tok(Other, value, 1, lo, lo)
  }

  /** Two tokens are spaced when their texts do not touch. */
  function Gap(x: Token, y: Token): bool {
    x.hi < y.lo
  }

  function NoNode(offset: nat): NodeKind {
    OtherNode
  }

  const Never := RuleOptions("never", None)
  const Always := RuleOptions("always", None)

  const TwoNumbers := [Some(OtherNode), Some(OtherNode)]

  /** `[1, 2]` under `"never"`: nothing to report. */
  lemma NeverUnspacedArrayIsClean()
    ensures var ts := [P("[", 0), Id("1", 1), P(",", 2), Id("2", 4), P("]", 5)];
            ArrayBracketSpacing.ValidateArraySpacing(
              ArrayBracketSpacing.ConfigOf(Never), ts, ArrayNode(false, TwoNumbers, Span(0, 4), None), Gap)
            == Some([])
  {
  }

  /** `[ 1, 2]` under `"never"`: one unexpected space after `[`, fixed by removing offsets 1 to 2. */
  lemma NeverSpacedOpeningIsReported()
    ensures var ts := [P("[", 0), Id("1", 2), P(",", 3), Id("2", 5), P("]", 6)];
            ArrayBracketSpacing.ValidateArraySpacing(
              ArrayBracketSpacing.ConfigOf(Never), ts, ArrayNode(false, TwoNumbers, Span(0, 4), None), Gap)
            == Some([Diagnostic(SourceLocation(Position(1, 1), Position(1, 2)), UnexpectedSpaceAfter, "tokenValue", "[",
                                RemoveRange(1, 2))])
  {
    var ts := [P("[", 0), Id("1", 2), P(",", 3), Id("2", 5), P("]", 6)];
    var node := ArrayNode(false, TwoNumbers, Span(0, 4), None);
    var c := ArrayBracketSpacing.ConfigOf(Never);
    var b := Boundaries(0, 1, 3, 4);
    var d := Diagnostic(SourceLocation(Position(1, 1), Position(1, 2)), UnexpectedSpaceAfter, "tokenValue", "[",
                        RemoveRange(1, 2));
    assert TokenAfter(ts, 0, false, AnyToken) == Some(1);
    assert TokenBefore(ts, 4, false) == Some(3);
    assert ArrayBracketSpacing.LocateBrackets(ts, node) == Some(b);
    var opening := ArrayBracketSpacing.OpeningDiagnostics(c, ts, node, b, Gap).value;
    assert |opening| == 1 && opening[0] == d;
    assert opening == [d];
    assert ArrayBracketSpacing.ClosingDiagnostics(c, ts, node, b, Gap) == Some([]);
    assert opening + [] == [d];
  }

  /** `[ ]` under `"never"`: an empty array is still checked, and only at the opening bracket. */
  lemma NeverEmptyArrayIsChecked()
    ensures var ts := [P("[", 0), P("]", 2)];
            ArrayBracketSpacing.ValidateArraySpacing(
              ArrayBracketSpacing.ConfigOf(Never), ts, ArrayNode(false, [], Span(0, 1), None), Gap)
            == Some([Diagnostic(SourceLocation(Position(1, 1), Position(1, 2)), UnexpectedSpaceAfter, "tokenValue", "[",
                                RemoveRange(1, 2))])
  {
    var ts := [P("[", 0), P("]", 2)];
    var node := ArrayNode(false, [], Span(0, 1), None);
    var c := ArrayBracketSpacing.ConfigOf(Never);
    var b := Boundaries(0, 1, 0, 1);
    var d := Diagnostic(SourceLocation(Position(1, 1), Position(1, 2)), UnexpectedSpaceAfter, "tokenValue", "[",
                        RemoveRange(1, 2));
    assert TokenAfter(ts, 0, false, AnyToken) == Some(1);
    assert TokenBefore(ts, 1, false) == Some(0);
    assert ArrayBracketSpacing.LocateBrackets(ts, node) == Some(b);
    var opening := ArrayBracketSpacing.OpeningDiagnostics(c, ts, node, b, Gap).value;
    assert |opening| == 1 && opening[0] == d;
    assert opening == [d];
    assert ArrayBracketSpacing.ClosingDiagnostics(c, ts, node, b, Gap) == Some([]);
    assert opening + [] == [d];
  }

  /** `[]` under `"always"`: an empty array is exempt. */
  lemma AlwaysEmptyArrayIsExempt()
    ensures var ts := [P("[", 0), P("]", 1)];
            ArrayBracketSpacing.ValidateArraySpacing(
              ArrayBracketSpacing.ConfigOf(Always), ts, ArrayNode(false, [], Span(0, 1), None), Gap)
            == Some([])
  {
  }

  /** `[1]` under `"never"` with `singleValue: true`: both brackets want a space. */
  lemma SingleValueInvertsNever()
    ensures var ts := [P("[", 0), Id("1", 1), P("]", 2)];
            var config := ArrayBracketSpacing.ConfigOf(RuleOptions("never", Some(map["singleValue" := true])));
            ArrayBracketSpacing.ValidateArraySpacing(config, ts, ArrayNode(false, [Some(OtherNode)], Span(0, 2), None), Gap)
            == Some([Diagnostic(SourceLocation(Position(1, 0), Position(1, 1)), MissingSpaceAfter, "tokenValue", "[",
                                InsertText(1, " ")),
                     Diagnostic(SourceLocation(Position(1, 2), Position(1, 3)), MissingSpaceBefore, "tokenValue", "]",
                                InsertText(2, " "))])
  {
    var ts := [P("[", 0), Id("1", 1), P("]", 2)];
    var node := ArrayNode(false, [Some(OtherNode)], Span(0, 2), None);
    var c := ArrayBracketSpacing.ConfigOf(RuleOptions("never", Some(map["singleValue" := true])));
    var b := Boundaries(0, 1, 1, 2);
    var d1 := Diagnostic(SourceLocation(Position(1, 0), Position(1, 1)), MissingSpaceAfter, "tokenValue", "[",
                         InsertText(1, " "));
    var d2 := Diagnostic(SourceLocation(Position(1, 2), Position(1, 3)), MissingSpaceBefore, "tokenValue", "]",
                         InsertText(2, " "));
    assert c.singleElementException;
    assert TokenAfter(ts, 0, false, AnyToken) == Some(1);
    assert TokenBefore(ts, 2, false) == Some(1);
    assert ArrayBracketSpacing.LocateBrackets(ts, node) == Some(b);
    var opening := ArrayBracketSpacing.OpeningDiagnostics(c, ts, node, b, Gap).value;
    assert |opening| == 1 && opening[0] == d1;
    var closing := ArrayBracketSpacing.ClosingDiagnostics(c, ts, node, b, Gap).value;
    assert |closing| == 1 && closing[0] == d2;
    assert opening + closing == [d1, d2];
  }

  /** `[{ a: 1 }]` under `"always"` with `objectsInArrays: false`: the brackets hug the object. */
  lemma ObjectsInArraysHugTheObject()
    ensures var ts := [P("[", 0), P("{", 1), Id("a", 3), P(":", 4), Id("1", 6), P("}", 8), P("]", 9)];
            var config := ArrayBracketSpacing.ConfigOf(RuleOptions("always", Some(map["objectsInArrays" := false])));
            ArrayBracketSpacing.ValidateArraySpacing(
              config, ts, ArrayNode(false, [Some(ObjectExpression)], Span(0, 6), None), Gap)
            == Some([])
  {
    var ts := [P("[", 0), P("{", 1), Id("a", 3), P(":", 4), Id("1", 6), P("}", 8), P("]", 9)];
    var c := ArrayBracketSpacing.ConfigOf(RuleOptions("always", Some(map["objectsInArrays" := false])));
    assert c.objectsInArraysException;
    assert TokenAfter(ts, 0, false, AnyToken) == Some(1);
    assert TokenBefore(ts, 6, false) == Some(5);
    assert ArrayBracketSpacing.LocateBrackets(ts, ArrayNode(false, [Some(ObjectExpression)], Span(0, 6), None))
        == Some(Boundaries(0, 1, 5, 6));
  }

  const TwoNamed := [Specifier(ImportSpecifier, Span(2, 2)), Specifier(ImportSpecifier, Span(4, 4))]

  const UnspacedImport := [Id("import", 0), P("{", 7), Id("a", 8), P(",", 9), Id("b", 11), P("}", 12)]
  const ImportBraces := Boundaries(1, 2, 4, 5)
  const RequireAfterBrace := Diagnostic(SourceLocation(Position(1, 7), Position(1, 8)), RequireSpaceAfter, "token", "{",
                                        InsertText(8, " "))
  const RequireBeforeBrace := Diagnostic(SourceLocation(Position(1, 12), Position(1, 13)), RequireSpaceBefore, "token", "}",
                                         InsertText(12, " "))

  lemma UnspacedImportBraces()
    ensures ObjectCurlySpacing.Located(UnspacedImport, ObjectCurlySpacing.Import(ImportNode(TwoNamed)))
            == Some(ImportBraces)
  {
    assert TokenBefore(UnspacedImport, 2, false) == Some(1);
    assert TokenAfter(UnspacedImport, 4, false, NotComma) == Some(5);
  }

  lemma UnspacedImportOpening()
    ensures ObjectCurlySpacing.OpeningDiagnostics(ObjectCurlySpacing.ConfigOf(Always), UnspacedImport, ImportBraces, true, Gap)
            == Some([RequireAfterBrace])
  {
    var opening := ObjectCurlySpacing.OpeningDiagnostics(
      ObjectCurlySpacing.ConfigOf(Always), UnspacedImport, ImportBraces, true, Gap).value;
    assert |opening| == 1 && opening[0] == RequireAfterBrace;
    assert opening == [RequireAfterBrace];
  }

  lemma UnspacedImportClosing()
    ensures ObjectCurlySpacing.ClosingDiagnostics(
              ObjectCurlySpacing.ConfigOf(Always), UnspacedImport, ImportBraces, true, Gap, NoNode)
            == Some([RequireBeforeBrace])
  {
    var closing := ObjectCurlySpacing.ClosingDiagnostics(
      ObjectCurlySpacing.ConfigOf(Always), UnspacedImport, ImportBraces, true, Gap, NoNode).value;
    assert |closing| == 1 && closing[0] == RequireBeforeBrace;
    assert closing == [RequireBeforeBrace];
  }

  /** `import {a, b}` under `"always"`: a space is required after `{` and before `}`. */
  lemma AlwaysUnspacedImportIsReported()
    ensures ObjectCurlySpacing.Check(
              ObjectCurlySpacing.ConfigOf(Always), UnspacedImport,
              ObjectCurlySpacing.Import(ImportNode(TwoNamed)), Gap, NoNode)
            == Some([RequireAfterBrace, RequireBeforeBrace])
  {
    UnspacedImportBraces();
    UnspacedImportOpening();
    UnspacedImportClosing();
    assert [RequireAfterBrace] + [RequireBeforeBrace] == [RequireAfterBrace, RequireBeforeBrace];
  }

  /** `import { a, b }` under `"always"`: nothing to report. */
  lemma AlwaysSpacedImportIsClean()
    ensures var ts := [Id("import", 0), P("{", 7), Id("a", 9), P(",", 10), Id("b", 12), P("}", 14)];
            ObjectCurlySpacing.Check(
              ObjectCurlySpacing.ConfigOf(Always), ts, ObjectCurlySpacing.Import(ImportNode(TwoNamed)),
              Gap, NoNode)
            == Some([])
  {
    var ts := [Id("import", 0), P("{", 7), Id("a", 9), P(",", 10), Id("b", 12), P("}", 14)];
    var c := ObjectCurlySpacing.ConfigOf(Always);
    var node := ObjectCurlySpacing.Import(ImportNode(TwoNamed));
    var b := Boundaries(1, 2, 4, 5);
    assert TokenBefore(ts, 2, false) == Some(1);
    assert TokenAfter(ts, 4, false, NotComma) == Some(5);
    assert ObjectCurlySpacing.Located(ts, node) == Some(b);
    ObjectCurlySpacing.BracesSilenced(c, ts, b, true, Gap, NoNode);
  }

  const DestructuringOff := ObjectCurlySpacing.ConfigOf(RuleOptions("always", Some(map["destructuringAssignments" := false])))
  const UnspacedPair := [P("{", 0), Id("a", 1), P(",", 2), Id("b", 4), P("}", 5)]
  const PairProperties := [Span(1, 1), Span(3, 3)]

  /** `{a, b}` as a pattern under `"always"` with `destructuringAssignments: false`: nothing to report. */
  lemma DestructuringInvertsPatterns()
    ensures ObjectCurlySpacing.Check(
              DestructuringOff, UnspacedPair, ObjectCurlySpacing.Object(ObjectNode(true, PairProperties, Span(0, 4))),
              Gap, NoNode)
            == Some([])
  {
    var b := Boundaries(0, 1, 3, 4);
    assert DestructuringOff.destructuringAssignmentsException;
    assert TokenAfter(UnspacedPair, 3, false, ClosingBrace) == Some(4);
    assert ObjectCurlySpacing.ObjectBoundaries(UnspacedPair, ObjectNode(true, PairProperties, Span(0, 4))) == Some(b);
  }

  const PairBraces := Boundaries(0, 1, 3, 4)

  lemma UnspacedPairBraces()
    ensures ObjectCurlySpacing.ObjectBoundaries(UnspacedPair, ObjectNode(false, PairProperties, Span(0, 4)))
            == Some(PairBraces)
  {
    assert TokenAfter(UnspacedPair, 3, false, ClosingBrace) == Some(4);
  }

  lemma UnspacedLiteralOpening()
    ensures ObjectCurlySpacing.OpeningDiagnostics(DestructuringOff, UnspacedPair, PairBraces, false, Gap)
            == Some([Diagnostic(UnspacedPair[0].loc, RequireSpaceAfter, "token", "{", InsertText(1, " "))])
  {
    var d := Diagnostic(UnspacedPair[0].loc, RequireSpaceAfter, "token", "{", InsertText(1, " "));
    var opening := ObjectCurlySpacing.OpeningDiagnostics(DestructuringOff, UnspacedPair, PairBraces, false, Gap).value;
    assert |opening| == 1 && opening[0] == d;
    assert opening == [d];
  }

  lemma UnspacedLiteralClosing()
    ensures ObjectCurlySpacing.ClosingDiagnostics(DestructuringOff, UnspacedPair, PairBraces, false, Gap, NoNode)
            == Some([Diagnostic(UnspacedPair[4].loc, RequireSpaceBefore, "token", "}", InsertText(5, " "))])
  {
    var d := Diagnostic(UnspacedPair[4].loc, RequireSpaceBefore, "token", "}", InsertText(5, " "));
    var closing := ObjectCurlySpacing.ClosingDiagnostics(DestructuringOff, UnspacedPair, PairBraces, false, Gap, NoNode).value;
    assert |closing| == 1 && closing[0] == d;
    assert closing == [d];
  }

  /** The same `{a, b}` as a literal: a space is required after `{` and before `}`. */
  lemma DestructuringLeavesLiteralsAlone()
    ensures ObjectCurlySpacing.Check(
              DestructuringOff, UnspacedPair, ObjectCurlySpacing.Object(ObjectNode(false, PairProperties, Span(0, 4))),
              Gap, NoNode)
            == Some([Diagnostic(UnspacedPair[0].loc, RequireSpaceAfter, "token", "{", InsertText(1, " ")),
                     Diagnostic(UnspacedPair[4].loc, RequireSpaceBefore, "token", "}", InsertText(5, " "))])
  {
    UnspacedPairBraces();
    UnspacedLiteralOpening();
    UnspacedLiteralClosing();
    assert [Diagnostic(UnspacedPair[0].loc, RequireSpaceAfter, "token", "{", InsertText(1, " "))]
         + [Diagnostic(UnspacedPair[4].loc, RequireSpaceBefore, "token", "}", InsertText(5, " "))]
        == [Diagnostic(UnspacedPair[0].loc, RequireSpaceAfter, "token", "{", InsertText(1, " ")),
            Diagnostic(UnspacedPair[4].loc, RequireSpaceBefore, "token", "}", InsertText(5, " "))];
  }

  const CommentedObject := [P("{", 0), Tok(Line, "// note", 1, 2, 2), Tok(Other, "a", 2, 0, 10),
                             Tok(Punctuator, ":", 2, 1, 11), Tok(Other, "1", 2, 3, 13), Tok(Punctuator, "}", 2, 4, 14)]

  /** `{ // note` then `a: 1}` on the next line under `"never"`: the line comment keeps its space. */
  lemma LineCommentKeepsItsSpace()
    ensures ObjectCurlySpacing.Check(
              ObjectCurlySpacing.ConfigOf(Never), CommentedObject,
              ObjectCurlySpacing.Object(ObjectNode(false, [Span(2, 4)], Span(0, 5))), Gap, NoNode)
            == Some([])
  {
    var node := ObjectNode(false, [Span(2, 4)], Span(0, 5));
    var b := Boundaries(0, 1, 4, 5);
    assert TokenAfter(CommentedObject, 4, false, ClosingBrace) == Some(5);
    assert ObjectCurlySpacing.ObjectBoundaries(CommentedObject, node) == Some(b);
    assert CommentedObject[1].kind == Line;
  }
}

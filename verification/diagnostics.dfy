/** The records a rule hands to `context.report`, with the fix as data. */
module Diagnostics {
  import opened Wrappers
  import opened Tokens

  /**
   The array rule reports `missingSpace*`, the object rule `requireSpace*`;
   both report `unexpectedSpace*`.
   */
  datatype MessageId =
    | MissingSpaceAfter
    | MissingSpaceBefore
    | RequireSpaceAfter
    | RequireSpaceBefore
    | UnexpectedSpaceAfter
    | UnexpectedSpaceBefore

  /** Messages about the opening boundary (after the opening delimiter). */
  predicate IsOpeningMessage(id: MessageId) {
    id == MissingSpaceAfter || id == RequireSpaceAfter || id == UnexpectedSpaceAfter
  }

  /**
   The fixer calls the rules make: `insertTextAfter`/`insertTextBefore` put
   `text` at offset `at`; `removeRange` deletes `[lo, hi)`.
   */
  datatype Fix = InsertText(at: nat, text: string) | RemoveRange(lo: nat, hi: nat)

  /** The source offsets a fix touches. */
  function FixStart(f: Fix): nat {
    match f
    case InsertText(at, _) => at
    case RemoveRange(lo, _) => lo
  }

  function FixEnd(f: Fix): nat {
    match f
    case InsertText(at, _) => at
    case RemoveRange(_, hi) => hi
  }

  /** A report: location, message id, the one `data` entry, and the fix. */
  datatype Diagnostic = Diagnostic(
    loc: SourceLocation,
    messageId: MessageId,
    dataKey: string,
    dataValue: string,
    fix: Fix)

  predicate Reports(ds: seq<Diagnostic>, id: MessageId) {
    exists i :: 0 <= i < |ds| && ds[i].messageId == id
  }

  /** A concatenation of reports has a message exactly when one of its parts has it. */
  lemma ReportsOfConcat(xs: seq<Diagnostic>, ys: seq<Diagnostic>, id: MessageId)
    ensures Reports(xs + ys, id) <==> Reports(xs, id) || Reports(ys, id)
  {
    if Reports(xs + ys, id) {
      var i :| 0 <= i < |xs + ys| && (xs + ys)[i].messageId == id;
      if i >= |xs| {
        assert ys[i - |xs|] == (xs + ys)[i];
      } else {
        assert xs[i] == (xs + ys)[i];
      }
    }
    if Reports(xs, id) {
      var i :| 0 <= i < |xs| && xs[i].messageId == id;
      assert (xs + ys)[i] == xs[i];
    }
    if Reports(ys, id) {
      var j :| 0 <= j < |ys| && ys[j].messageId == id;
      assert (xs + ys)[|xs| + j] == ys[j];
    }
  }

  /** A report that may be missing, as a list of at most one report. */
  function AsList(d: Option<Diagnostic>): Option<seq<Diagnostic>> {
    match d
    case None => None
    case Some(x) => Some([x])
  }
}

/**
 The rule options both rules read (`context.options`) and the spacing
 policy they derive from them.
 */
module Options {
  import opened Wrappers

  /**
   `options[0]`, the base directive, and `options[1]`, the optional object of
   exception flags (`None` when absent).
   */
  datatype RuleOptions = RuleOptions(directive: string, exceptions: Option<map<string, bool>>)

  /** Only the directive `"always"` asks for spaces; anything else means `"never"`. */
  predicate ShouldBeSpaced(o: RuleOptions) {
    o.directive == "always"
  }

  /** `#isOptionSet`: the flag is configured and its value is the negation of the base directive. */
  predicate IsOptionSet(o: RuleOptions, name: string) {
    if o.exceptions.Some? then name in o.exceptions.value && o.exceptions.value[name] == !ShouldBeSpaced(o)
    else false
  }

  /** Whether `options[1]` carries `name` with value `v`. */
  predicate ConfiguredAs(o: RuleOptions, name: string, v: bool) {
    o.exceptions.Some? && name in o.exceptions.value && o.exceptions.value[name] == v
  }

  /**
   An exception is enabled exactly when it is configured to the opposite of
   the base directive; restating the base directive, leaving the flag out, or
   leaving out the whole options object keeps it off.
   */
  lemma OptionSetIffInverts(o: RuleOptions, name: string)
    ensures IsOptionSet(o, name) <==> ConfiguredAs(o, name, !ShouldBeSpaced(o))
    ensures ConfiguredAs(o, name, ShouldBeSpaced(o)) ==> !IsOptionSet(o, name)
    ensures o.exceptions.None? ==> !IsOptionSet(o, name)
  {
  }

  /**
   The spacing a boundary requires: the base directive, inverted once by the
   node-wide destructuring exception and once more by a boundary-local one.
   */
  function Required(spaced: bool, destructuringInverts: bool, boundaryInverts: bool): bool {
    (spaced != destructuringInverts) != boundaryInverts
  }

  /** Two active inversions cancel. */
  lemma InversionsCancel(spaced: bool)
    ensures Required(spaced, true, true) == spaced
    ensures Required(spaced, false, false) == spaced
    ensures Required(spaced, true, false) == !spaced
    ensures Required(spaced, false, true) == !spaced
  {
  }
}

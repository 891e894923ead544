/** Go's `regexp` package, which the invariants rule and the hook matcher use, is not
    part of this model. It is a parameter: `compiles(expr)` says whether
    `regexp.Compile(expr)` succeeds, and `matchString(expr, s)` is `MatchString(s)` of the
    compiled expression. */
module Regexp {

  datatype RegexEngine = RegexEngine(compiles: string -> bool, matchString: (string, string) -> bool)
}

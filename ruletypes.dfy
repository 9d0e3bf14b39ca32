/** `extractRuleType`: the legacy `rule-type` annotation resolved to the
    matcher the router uses and whether a strip-prefix middleware is implied. */
module RuleTypes {
  import opened Wrappers
  import opened Resources

  const Path: string := "Path"
  const PathPrefix: string := "PathPrefix"
  const PathStrip: string := "PathStrip"
  const PathPrefixStrip: string := "PathPrefixStrip"
  const AddPrefix: string := "AddPrefix"
  const ReplacePath: string := "ReplacePath"
  const ReplacePathRegex: string := "ReplacePathRegex"

  datatype Resolution = Resolution(ruleType: string, stripPrefix: bool)

  /** The switch on the annotation's value. A rejected value comes back as
      the error. */
  function ResolveRuleType(value: string): (r: Result<Resolution, string>)
    ensures r.Success? <==> value in {Path, PathPrefix, PathStrip, PathPrefixStrip, ReplacePath}
    ensures r.Failure? ==> r.error == value
    ensures r.Success? ==> (r.value.stripPrefix <==> value in {PathStrip, PathPrefixStrip})
    ensures r.Success? ==> r.value.ruleType in {Path, PathPrefix, ReplacePath}
    ensures r.Success? ==> r.value.ruleType + (if r.value.stripPrefix then "Strip" else "") == value
  {
    if value == Path || value == PathPrefix then Success(Resolution(value, false))
    else if value == PathStrip then Success(Resolution(Path, true))
    else if value == PathPrefixStrip then Success(Resolution(PathPrefix, true))
    else if value == ReplacePath then Success(Resolution(ReplacePath, false))
    else Failure(value)
  }

  /** A resolved rule type is itself accepted, unchanged and without strip. */
  lemma ResolvedIsFixedPoint(value: string)
    requires ResolveRuleType(value).Success?
    ensures ResolveRuleType(ResolveRuleType(value).value.ruleType)
            == Success(Resolution(ResolveRuleType(value).value.ruleType, false))
  {
  }

  /** `extractRuleType(annotations)`: the annotation's value, `PathPrefix`
      when absent or empty, resolved. */
  function ExtractRuleType(lookup: Lookup, annotations: Annotations): (r: Result<Resolution, string>)
    ensures lookup(annotations, RuleType) in {None, Some("")} ==> r == Success(Resolution(PathPrefix, false))
    ensures lookup(annotations, RuleType).Some? && lookup(annotations, RuleType).value != ""
            ==> r == ResolveRuleType(lookup(annotations, RuleType).value)
  {
    ResolveRuleType(GetStringValue(lookup, annotations, RuleType, PathPrefix))
  }
}

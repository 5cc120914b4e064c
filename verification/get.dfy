/**
 * The prefixless lookup (include/libenvpp/detail/get.hpp): one variable read
 * by name from the testing overlay merged over the process environment.
 */
module Get {
  import opened Optional
  import opened Expected
  import opened Levenshtein
  import opened EditDistance
  import opened Environment
  import opened Errors
  import opened Parser
  import opened Testing

  /**
   * get_or<T>: the parsed value of `name` in the overlay-merged environment,
   * or the default when the name is not set or does not parse.
   */
  function GetOr<T>(name: string, default: T, overlay: Env, os: Env, parse: string -> Outcome<T>): (r: T)
    ensures name in Merged(overlay, os) && parse(Merged(overlay, os)[name]).Parsed? ==>
      r == parse(Merged(overlay, os)[name]).value
    ensures name !in Merged(overlay, os) || parse(Merged(overlay, os)[name]).Failed? ==> r == default
  {
    var env := Merged(overlay, os);
    if name in env then ParseOrError(name, env[name], parse).ValueOr(default) else default
  }

  /**
   * get<T>: parse the variable when it is set (a failure becomes an unscoped
   * error carrying parse_or_error's message); otherwise suggest a similarly
   * named variable within the cutoff for the name's length, or report it unset.
   * `similar` is the suggestion the typo search picked, if any.
   */
  method Get<T>(name: string, cutoff: EditDistance, overlay: Env, os: Env, parse: string -> Outcome<T>)
    returns (r: Expected<T, Error>, ghost similar: Option<string>)
    requires GetOrDefault(cutoff, |name|) < IntMax
    ensures var env := Merged(overlay, os);
      name in env ==> similar == None && match parse(env[name])
        case Parsed(v) => r == HoldsValue(v)
        case Failed(f) => r == HoldsError(Error(Unscoped, name, FailureMessage(name, f)))
    ensures var env, c := Merged(overlay, os), GetOrDefault(cutoff, |name|);
      name !in env && similar.Some? ==>
        IsClosestKey(name, env, c, similar.value)
        && r == HoldsError(Error(Unscoped, name, SimilarMessage(similar.value, name)))
    ensures var env, c := Merged(overlay, os), GetOrDefault(cutoff, |name|);
      name !in env && similar.None? ==>
        NoneWithin(name, env, c) && r == HoldsError(GetUnsetEnvVarError(Unscoped, name))
    ensures forall d: T :: GetOr(name, d, overlay, os, parse) == r.ValueOr(d)
  {
    var env := MergeEnvironments(overlay, os);
    if name in env {
      var res := ParseOrError(name, env[name], parse);
      if res.HasValue() {
        return HoldsValue(res.Value()), None;
      }
      return HoldsError(Error(Unscoped, name, res.Error())), None;
    }
    var c := GetOrDefault(cutoff, |name|);
    var suggestion, _, picked := GetSimilarEnvVarError(Unscoped, name, c, env);
    if suggestion.Some? {
      return HoldsError(suggestion.value), picked;
    }
    return HoldsError(GetUnsetEnvVarError(Unscoped, name)), None;
  }

  /** The overlay wins: a name set in the overlay is read from it, whatever the process environment holds. */
  lemma OverlayTakesPrecedence<T>(name: string, default: T, overlay: Env, os: Env, parse: string -> Outcome<T>)
    requires name in overlay
    ensures GetOr(name, default, overlay, os, parse) ==
      if parse(overlay[name]).Parsed? then parse(overlay[name]).value else default
  {
    MergedPrecedence(overlay, os);
  }

  /** A name set only in the process environment is read from there. */
  lemma ProcessEnvironmentFallback<T>(name: string, default: T, overlay: Env, os: Env, parse: string -> Outcome<T>)
    requires name !in overlay && name in os
    ensures GetOr(name, default, overlay, os, parse) ==
      if parse(os[name]).Parsed? then parse(os[name]).value else default
  {
    MergedPrecedence(overlay, os);
  }
}

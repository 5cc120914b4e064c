/**
 * Errors and warnings (include/libenvpp/detail/errors.hpp, source/libenvpp_errors.cpp):
 * the `error` record collected by parsing and validation, the exceptions the
 * library throws, and the two diagnoses for a variable that is not set.
 */
module Errors {
  import opened Optional
  import opened Text
  import opened Levenshtein
  import opened Environment

  /** The id of an error that belongs to no registered variable: static_cast<std::size_t>(-1). */
  const Unscoped: int := -1

  /** env::error: the variable's id, its name, and the message; get_id, get_name and what read them. */
  datatype Error = Error(id: int, name: string, message: string)

  /** The exceptions thrown by the registry, the accessors and the testing overlay. */
  datatype Exception =
    | InvalidPrefix(what: string)
    | InvalidatedPrefix(what: string)
    | InvalidRange(what: string)
    | EmptyOption(what: string)
    | DuplicateOption(what: string)
    | ValueError(what: string)
    | TestEnvironmentError(what: string)

  function SimilarMessage(found: string, expected: string): string
  {
    "Unrecognized environment variable '" + found + "' set, did you mean '" + expected + "'?"
  }

  function UnsetMessage(name: string): string
  {
    "Environment variable '" + name + "' not set"
  }

  /** The suggestion message names both the variable that was found and the one that was expected. */
  lemma SimilarMessageNamesBoth(found: string, expected: string)
    ensures Contains(SimilarMessage(found, expected), found)
    ensures Contains(SimilarMessage(found, expected), expected)
  {
    var tail := "' set, did you mean '" + expected + "'?";
    assert SimilarMessage(found, expected) == "Unrecognized environment variable '" + found + tail;
    ContainsMiddle("Unrecognized environment variable '", found, tail);
    ContainsMiddle("Unrecognized environment variable '" + found + "' set, did you mean '", expected, "'?");
  }

  /**
   * get_similar_env_var_error: when some variable is close enough to `name`,
   * an error suggesting it, with that variable consumed from the snapshot;
   * otherwise nothing, and the snapshot untouched. `similar` is the variable
   * the typo search picked.
   */
  method GetSimilarEnvVarError(id: int, name: string, cutoff: int, env: Env)
    returns (r: Option<Error>, rest: Env, ghost similar: Option<string>)
    requires -1 <= cutoff < IntMax
    ensures r.Some? <==> similar.Some?
    ensures r.None? ==> NoneWithin(name, env, cutoff) && rest == env
    ensures r.Some? ==> IsClosestKey(name, env, cutoff, similar.value)
    ensures r.Some? ==> r.value == Error(id, name, SimilarMessage(similar.value, name))
    ensures r.Some? ==> rest.Keys == env.Keys - {similar.value}
    ensures forall k :: k in rest ==> k in env && rest[k] == env[k]
  {
    var found := FindSimilarEnvVar(name, env, cutoff);
    if found.Some? {
      var msg := SimilarMessage(found.value, name);
      var _, remaining := PopFromEnvironment(found.value, env);
      return Some(Error(id, name, msg)), remaining, found;
    }
    return None, env, None;
  }

  /** get_unset_env_var_error: the "not set" error, carrying the id and the name it was given. */
  function GetUnsetEnvVarError(id: int, name: string): (e: Error)
    ensures e.id == id && e.name == name
    ensures StartsWith(e.message, "Environment variable '") && Contains(e.message, name)
  {
    StartsWithConcat("Environment variable '", name + "' not set");
    ContainsMiddle("Environment variable '", name, "' not set");
    Error(id, name, UnsetMessage(name))
  }

  /** The two diagnoses cannot be confused: a suggestion never reads as "not set". */
  lemma DiagnosesDiffer(found: string, expected: string)
    ensures SimilarMessage(found, expected) != UnsetMessage(expected)
  {
    assert SimilarMessage(found, expected)[0] == 'U' != UnsetMessage(expected)[0];
  }
}

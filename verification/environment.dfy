/**
 * The environment snapshot helpers (source/libenvpp_environment.cpp): the typo
 * search over the variable names, and the lookup-and-erase that consumes a name.
 */
module Environment {
  import opened Optional
  import opened Levenshtein

  /** A name-to-value snapshot of the environment (std::unordered_map<std::string, std::string>). */
  type Env = map<string, string>

  /** The distance find_similar_env_var sorts by: `distance` with the cutoff raised by one. */
  function Score(name: string, key: string, cutoff: int): nat
    requires -1 <= cutoff
  {
    BoundedDistance(name, key, cutoff + 1)
  }

  /** `key` is an admissible suggestion: a variable within the cutoff, and no other is closer. */
  predicate IsClosestKey(name: string, env: Env, cutoff: int, key: string)
    requires -1 <= cutoff
  {
    && key in env
    && Score(name, key, cutoff) <= cutoff
    && forall k :: k in env ==> Score(name, key, cutoff) <= Score(name, k, cutoff)
  }

  /** No variable is within the cutoff. */
  predicate NoneWithin(name: string, env: Env, cutoff: int)
    requires -1 <= cutoff
  {
    forall k :: k in env ==> Score(name, k, cutoff) > cutoff
  }

  /**
   * find_similar_env_var: each variable name is paired with its distance, the
   * pairs are sorted by distance, and the front one is suggested when it is
   * within the cutoff. The sort is unstable over an unordered map, so among
   * names at the least distance any may be suggested; the loop visits the names
   * in an unspecified order and keeps the first of least distance.
   */
  method FindSimilarEnvVar(name: string, env: Env, cutoff: int) returns (r: Option<string>)
    requires -1 <= cutoff < IntMax
    ensures r.Some? ==> IsClosestKey(name, env, cutoff, r.value)
    ensures r.None? <==> NoneWithin(name, env, cutoff)
    ensures |env| == 0 ==> r.None?
  {
    if |env| == 0 {
      return None;
    }
    var keys := env.Keys;
    var best :| best in keys;
    var bestDistance := Distance(name, best, cutoff + 1);
    keys := keys - {best};
    while keys != {}
      invariant keys <= env.Keys
      invariant best in env && bestDistance == Score(name, best, cutoff)
      invariant forall k :: k in env && k !in keys ==> bestDistance <= Score(name, k, cutoff)
      decreases |keys|
    {
      var k :| k in keys;
      var distance := Distance(name, k, cutoff + 1);
      if distance < bestDistance {
        best, bestDistance := k, distance;
      }
      keys := keys - {k};
    }
    if bestDistance <= cutoff {
      return Some(best);
    }
    return None;
  }

  /**
   * The suggestion is also closest by the uncapped Levenshtein distance: the
   * cap only hides distances beyond the cutoff.
   */
  lemma ClosestKeyMinimisesLev(name: string, env: Env, cutoff: int, key: string)
    requires -1 <= cutoff && IsClosestKey(name, env, cutoff, key)
    ensures Lev(name, key) <= cutoff
    ensures forall k :: k in env ==> Lev(name, key) <= Lev(name, k)
  {
    BoundedDistanceWithinCutoff(name, key, cutoff + 1, cutoff);
    forall k | k in env
      ensures Lev(name, key) <= Lev(name, k)
    {
      assert Score(name, key, cutoff) <= Score(name, k, cutoff) <= Lev(name, k);
    }
  }

  /** No suggestion exactly when every variable is more than the cutoff away. */
  lemma NoneWithinMeansAllFar(name: string, env: Env, cutoff: int)
    requires -1 <= cutoff
    ensures NoneWithin(name, env, cutoff) <==> forall k :: k in env ==> Lev(name, k) > cutoff
  {
    forall k | k in env
      ensures Score(name, k, cutoff) > cutoff <==> Lev(name, k) > cutoff
    {
      BoundedDistanceWithinCutoff(name, k, cutoff + 1, cutoff);
    }
  }

  /** When the expected name itself is set, whatever is suggested is at distance zero from it. */
  lemma ExactNameIsClosest(name: string, env: Env, cutoff: int, key: string)
    requires 0 <= cutoff && name in env && IsClosestKey(name, env, cutoff, key)
    ensures Lev(name, key) == 0
  {
    LevIdentical(name);
    ClosestKeyMinimisesLev(name, env, cutoff, key);
  }

  /**
   * pop_from_environment: an absent name leaves the snapshot alone; a present
   * one yields its value and is erased, and nothing else changes.
   */
  method PopFromEnvironment(name: string, env: Env) returns (v: Option<string>, rest: Env)
    ensures name !in env ==> v == None && rest == env
    ensures name in env ==> v == Some(env[name])
    ensures name !in rest && rest.Keys == env.Keys - {name}
    ensures forall k :: k in rest ==> rest[k] == env[k]
  {
    if name !in env {
      return None, env;
    }
    v := Some(env[name]);
    rest := env - {name};
  }
}

/**
 * Parsing and validating a prefix (include/libenvpp/env.hpp, class
 * parsed_and_validated_prefix): the three passes of its constructor over the
 * registered declarations and the environment snapshot, and the accessors that
 * read the outcome.
 *
 *   1. every declaration consumes its full name from the snapshot and parses the
 *      value found there, unless a value was set for testing;
 *   2. every declaration that found nothing is diagnosed: a similarly named
 *      variable is suggested (and consumed), or a required one is reported unset;
 *   3. every variable left in the snapshot under the prefix is reported unused.
 */
module Resolution {
  import opened Optional
  import opened Expected
  import opened Text
  import opened Levenshtein
  import opened EditDistance
  import opened Environment
  import opened Errors
  import opened Parser
  import opened Declarations
  import opened Testing

  /** get_full_env_var_name: the prefix name (which ends in '_') followed by the declared name. */
  function FullName(prefixName: string, d: Declaration): string
  {
    prefixName + d.name
  }

  predicate Increasing(ids: seq<nat>)
  {
    forall a, b :: 0 <= a < b < |ids| ==> ids[a] < ids[b]
  }

  /** Errors listed in strictly increasing order of id, hence at most one per id. */
  predicate IncreasingIds(es: seq<Error>)
  {
    forall a, b :: 0 <= a < b < |es| ==> es[a].id < es[b].id
  }

  // ---------------------------------------------------------------------------
  // Pass 1: direct matches

  /** The full names of the first `n` declarations: what pass 1 consumes before declaration `n`. */
  function NamesBefore(prefixName: string, vars: seq<Declaration>, n: nat): set<string>
    requires n <= |vars|
  {
    set k | 0 <= k < n :: FullName(prefixName, vars[k])
  }

  /** Declaration `i` finds its variable: set, and not consumed by an earlier declaration of the same name. */
  predicate Found(prefixName: string, vars: seq<Declaration>, env: Env, i: nat)
    requires i < |vars|
  {
    FullName(prefixName, vars[i]) in env && FullName(prefixName, vars[i]) !in NamesBefore(prefixName, vars, i)
  }

  /** Declaration `i` holds no value and found nothing: it is left to pass 2. */
  predicate Unmatched(prefixName: string, vars: seq<Declaration>, env: Env, i: nat)
    requires i < |vars|
  {
    vars[i].value.None? && !Found(prefixName, vars, env, i)
  }

  /** Declaration `i` holds no value, found its variable, and the parser rejects it. */
  predicate Fails(prefixName: string, vars: seq<Declaration>, env: Env, i: nat)
    requires i < |vars|
  {
    vars[i].value.None? && Found(prefixName, vars, env, i)
      && vars[i].parse(env[FullName(prefixName, vars[i])]).Failed?
  }

  /**
   * Declaration `i` after pass 1: the parsed value is stored when it found its
   * variable and parsing succeeded; otherwise it is unchanged, and in
   * particular a value set for testing is kept and not parsed again.
   */
  function Matched(prefixName: string, vars: seq<Declaration>, env: Env, i: nat): (d: Declaration)
    requires i < |vars|
    ensures d.name == vars[i].name && d.required == vars[i].required && d.parse == vars[i].parse
    ensures vars[i].value.Some? ==> d == vars[i]
    ensures d.value.Some? <==> vars[i].value.Some? || (Found(prefixName, vars, env, i) && !Fails(prefixName, vars, env, i))
  {
    var d := vars[i];
    var name := FullName(prefixName, d);
    if d.value.None? && Found(prefixName, vars, env, i) && d.parse(env[name]).Parsed? then
      d.(value := Some(d.parse(env[name]).value))
    else
      d
  }

  /** The error pass 1 records for a failing declaration: its index, its name without the prefix, and the message. */
  function ParseFailure(prefixName: string, vars: seq<Declaration>, env: Env, i: nat): (e: Error)
    requires i < |vars| && Fails(prefixName, vars, env, i)
    ensures e.id == i && e.name == vars[i].name
    ensures Contains(e.message, FullName(prefixName, vars[i]))
  {
    var name := FullName(prefixName, vars[i]);
    Error(i, vars[i].name, FailureMessage(name, vars[i].parse(env[name]).failure))
  }

  /**
   * What pass 1 leaves behind after the first `n` declarations: their full
   * names consumed and nothing else, those declarations as `Matched` says and
   * the others untouched, their unmatched indices in order, and exactly one
   * error, in order, per declaration whose parser failed.
   */
  ghost predicate Pass1Upto(prefixName: string, vars: seq<Declaration>, env: Env, n: nat,
                            matched: seq<Declaration>, rest: Env, errors: seq<Error>, unparsed: seq<nat>)
  {
    && n <= |vars|
    && Consumed(prefixName, vars, env, n, rest)
    && Entries(prefixName, vars, env, n, matched)
    && UnmatchedIndices(prefixName, vars, env, n, unparsed)
    && ParseErrors(prefixName, vars, env, n, errors)
  }

  ghost predicate Consumed(prefixName: string, vars: seq<Declaration>, env: Env, n: nat, rest: Env)
    requires n <= |vars|
  {
    && rest.Keys == env.Keys - NamesBefore(prefixName, vars, n)
    && (forall k :: k in rest ==> rest[k] == env[k])
  }

  ghost predicate Entries(prefixName: string, vars: seq<Declaration>, env: Env, n: nat, matched: seq<Declaration>)
    requires n <= |vars|
  {
    && |matched| == |vars|
    && (forall i :: 0 <= i < n ==> matched[i] == Matched(prefixName, vars, env, i))
    && (forall i :: n <= i < |vars| ==> matched[i] == vars[i])
  }

  ghost predicate UnmatchedIndices(prefixName: string, vars: seq<Declaration>, env: Env, n: nat, unparsed: seq<nat>)
    requires n <= |vars|
  {
    && Increasing(unparsed)
    && (forall a :: 0 <= a < |unparsed| ==> unparsed[a] < n)
    && (forall i :: 0 <= i < n ==> (i in unparsed <==> Unmatched(prefixName, vars, env, i)))
  }

  ghost predicate ParseErrors(prefixName: string, vars: seq<Declaration>, env: Env, n: nat, errors: seq<Error>)
    requires n <= |vars|
  {
    && IncreasingIds(errors)
    && (forall e :: e in errors ==>
          (0 <= e.id < n && Fails(prefixName, vars, env, e.id) && e == ParseFailure(prefixName, vars, env, e.id)))
    && (forall i :: 0 <= i < n && Fails(prefixName, vars, env, i) ==> exists e :: e in errors && e.id == i)
  }

  /** What pass 1 leaves behind: the above, for all the declarations. */
  ghost predicate Pass1Outcome(prefixName: string, vars: seq<Declaration>, env: Env,
                               matched: seq<Declaration>, rest: Env, errors: seq<Error>, unparsed: seq<nat>)
  {
    Pass1Upto(prefixName, vars, env, |vars|, matched, rest, errors, unparsed)
  }

  /** The first loop of the constructor. */
  method MatchDeclarations(prefixName: string, vars: seq<Declaration>, env: Env)
    returns (matched: seq<Declaration>, rest: Env, errors: seq<Error>, unparsed: seq<nat>)
    ensures Pass1Outcome(prefixName, vars, env, matched, rest, errors, unparsed)
  {
    matched, rest, errors, unparsed := vars, env, [], [];
    var id := 0;
    while id < |vars|
      invariant Pass1Upto(prefixName, vars, env, id, matched, rest, errors, unparsed)
      decreases |vars| - id
    {
      matched, rest, errors, unparsed := MatchNext(prefixName, vars, env, id, matched, rest, errors, unparsed);
      id := id + 1;
    }
  }

  /**
   * One iteration of the first loop: declaration `id` consumes its full name,
   * and a value found there is parsed unless one was set for testing.
   */
  method MatchNext(prefixName: string, vars: seq<Declaration>, env: Env, id: nat,
                   matched: seq<Declaration>, rest: Env, errors: seq<Error>, unparsed: seq<nat>)
    returns (matched': seq<Declaration>, rest': Env, errors': seq<Error>, unparsed': seq<nat>)
    requires id < |vars| && Pass1Upto(prefixName, vars, env, id, matched, rest, errors, unparsed)
    ensures Pass1Upto(prefixName, vars, env, id + 1, matched', rest', errors', unparsed')
  {
    matched', errors', unparsed' := matched, errors, unparsed;
    var d := matched[id];
    assert d == vars[id];
    var name := FullName(prefixName, d);
    var value;
    value, rest' := PopFromEnvironment(name, rest);
    assert value.Some? <==> Found(prefixName, vars, env, id);
    if d.value.Some? {
      // Set for testing: the variable is consumed but not parsed.
    } else if value.None? {
      unparsed' := unparsed + [id];
    } else {
      assert value.value == env[name];
      var res := ParseOrError(name, value.value, d.parse);
      if res.HasValue() {
        matched' := matched[id := d.(value := Some(res.Value()))];
      } else {
        assert res.Error() == FailureMessage(name, d.parse(value.value).failure);
        errors' := errors + [Error(id, d.name, res.Error())];
      }
    }
    Pass1Extend(prefixName, vars, env, id, matched, rest, errors, unparsed, matched', rest', errors', unparsed');
  }

  /**
   * Pass 1 extends by one declaration: its name consumed, its entry replaced by
   * `Matched`, its index recorded when unmatched, its error when it failed.
   */
  lemma Pass1Extend(prefixName: string, vars: seq<Declaration>, env: Env, id: nat,
                    matched: seq<Declaration>, rest: Env, errors: seq<Error>, unparsed: seq<nat>,
                    matched': seq<Declaration>, rest': Env, errors': seq<Error>, unparsed': seq<nat>)
    requires id < |vars| && Pass1Upto(prefixName, vars, env, id, matched, rest, errors, unparsed)
    requires rest'.Keys == rest.Keys - {FullName(prefixName, vars[id])}
    requires forall k :: k in rest' ==> rest'[k] == rest[k]
    requires matched' == matched[id := Matched(prefixName, vars, env, id)]
    requires unparsed' == if Unmatched(prefixName, vars, env, id) then unparsed + [id] else unparsed
    requires errors' == if Fails(prefixName, vars, env, id) then errors + [ParseFailure(prefixName, vars, env, id)] else errors
    ensures Pass1Upto(prefixName, vars, env, id + 1, matched', rest', errors', unparsed')
  {
    assert NamesBefore(prefixName, vars, id + 1) == NamesBefore(prefixName, vars, id) + {FullName(prefixName, vars[id])};
    UnmatchedExtend(prefixName, vars, env, id, unparsed, unparsed');
    ParseErrorsExtend(prefixName, vars, env, id, errors, errors');
  }

  lemma UnmatchedExtend(prefixName: string, vars: seq<Declaration>, env: Env, id: nat,
                        unparsed: seq<nat>, unparsed': seq<nat>)
    requires id < |vars| && UnmatchedIndices(prefixName, vars, env, id, unparsed)
    requires unparsed' == if Unmatched(prefixName, vars, env, id) then unparsed + [id] else unparsed
    ensures UnmatchedIndices(prefixName, vars, env, id + 1, unparsed')
  {
  }

  lemma ParseErrorsExtend(prefixName: string, vars: seq<Declaration>, env: Env, id: nat,
                          errors: seq<Error>, errors': seq<Error>)
    requires id < |vars| && ParseErrors(prefixName, vars, env, id, errors)
    requires errors' == if Fails(prefixName, vars, env, id) then errors + [ParseFailure(prefixName, vars, env, id)] else errors
    ensures ParseErrors(prefixName, vars, env, id + 1, errors')
  {
    if Fails(prefixName, vars, env, id) {
      assert ParseFailure(prefixName, vars, env, id) in errors';
    }
  }

  // ---------------------------------------------------------------------------
  // Pass 2: typo suggestions and unset variables

  /** What one unmatched declaration contributes to the errors and to the warnings. */
  datatype Diagnosis = Diagnosis(errors: seq<Error>, warnings: seq<Error>)

  /**
   * The diagnosis of declaration `d` with index `id`, given the variable the
   * typo search suggested: the suggestion is an error for a required
   * declaration and a warning for an optional one; without a suggestion a
   * required declaration is reported unset and an optional one not at all.
   */
  function Diagnose(prefixName: string, d: Declaration, id: nat, similar: Option<string>): (r: Diagnosis)
    ensures d.required ==> r.warnings == [] && |r.errors| == 1 && r.errors[0].id == id
    ensures !d.required ==> r.errors == [] && |r.warnings| <= 1
    ensures forall w :: w in r.warnings ==> w.id == id && similar.Some?
    ensures forall e :: e in r.errors + r.warnings ==> e.name == FullName(prefixName, d)
  {
    var name := FullName(prefixName, d);
    match similar
    case Some(found) =>
      var e := Error(id, name, SimilarMessage(found, name));
      if d.required then Diagnosis([e], []) else Diagnosis([], [e])
    case None =>
      if d.required then Diagnosis([GetUnsetEnvVarError(id, name)], []) else Diagnosis([], [])
  }

  /** The indices of `unparsed` all refer to declarations. */
  predicate IndicesIn(unparsed: seq<nat>, vars: seq<Declaration>)
  {
    forall k :: 0 <= k < |unparsed| ==> unparsed[k] < |vars|
  }

  /** The errors of the first `n` diagnoses, in order. */
  function Pass2Errors(prefixName: string, vars: seq<Declaration>, unparsed: seq<nat>,
                       picks: seq<Option<string>>, n: nat): seq<Error>
    requires IndicesIn(unparsed, vars) && n <= |unparsed| && n <= |picks|
  {
    if n == 0 then []
    else
      Pass2Errors(prefixName, vars, unparsed, picks, n - 1)
        + Diagnose(prefixName, vars[unparsed[n - 1]], unparsed[n - 1], picks[n - 1]).errors
  }

  /** The warnings of the first `n` diagnoses, in order. */
  function Pass2Warnings(prefixName: string, vars: seq<Declaration>, unparsed: seq<nat>,
                         picks: seq<Option<string>>, n: nat): seq<Error>
    requires IndicesIn(unparsed, vars) && n <= |unparsed| && n <= |picks|
  {
    if n == 0 then []
    else
      Pass2Warnings(prefixName, vars, unparsed, picks, n - 1)
        + Diagnose(prefixName, vars[unparsed[n - 1]], unparsed[n - 1], picks[n - 1]).warnings
  }

  /** The variables the typo search suggested, each of which was consumed. */
  function Picked(picks: seq<Option<string>>): set<string>
  {
    set k | 0 <= k < |picks| && picks[k].Some? :: picks[k].value
  }

  /** The cutoff for declaration `d`: the prefix's edit distance for the length of the full name. */
  function CutoffFor(prefixName: string, cutoff: EditDistance, d: Declaration): (c: int)
    ensures c >= 0
  {
    GetOrDefault(cutoff, |FullName(prefixName, d)|)
  }

  /**
   * Each pick is what the typo search may answer for its declaration, on the
   * snapshot as the earlier suggestions left it.
   */
  ghost predicate ValidPicks(prefixName: string, cutoff: EditDistance, vars: seq<Declaration>,
                             unparsed: seq<nat>, env: Env, picks: seq<Option<string>>)
    requires IndicesIn(unparsed, vars) && |picks| <= |unparsed|
  {
    forall k :: 0 <= k < |picks| ==>
      var d := vars[unparsed[k]];
      (picks[k].Some? ==> IsClosestKey(FullName(prefixName, d), env - Picked(picks[..k]),
                                       CutoffFor(prefixName, cutoff, d), picks[k].value))
      && (picks[k].None? ==> NoneWithin(FullName(prefixName, d), env - Picked(picks[..k]),
                                        CutoffFor(prefixName, cutoff, d)))
  }

  /**
   * What pass 2 leaves behind after the first `n` unmatched declarations,
   * given the suggestions `picks` the typo search made for them: each
   * suggestion consumed, and their diagnoses appended in order.
   */
  ghost predicate Pass2Upto(prefixName: string, cutoff: EditDistance, vars: seq<Declaration>,
                            unparsed: seq<nat>, env: Env, errors: seq<Error>, n: nat, picks: seq<Option<string>>,
                            rest: Env, errors': seq<Error>, warnings: seq<Error>)
  {
    && IndicesIn(unparsed, vars)
    && n <= |unparsed|
    && |picks| == n
    && ValidPicks(prefixName, cutoff, vars, unparsed, env, picks)
    && rest == env - Picked(picks)
    && errors' == errors + Pass2Errors(prefixName, vars, unparsed, picks, n)
    && warnings == Pass2Warnings(prefixName, vars, unparsed, picks, n)
  }

  /** What pass 2 leaves behind: the above, for all the unmatched declarations. */
  ghost predicate Pass2Outcome(prefixName: string, cutoff: EditDistance, vars: seq<Declaration>,
                               unparsed: seq<nat>, env: Env, errors: seq<Error>, picks: seq<Option<string>>,
                               rest: Env, errors': seq<Error>, warnings: seq<Error>)
  {
    Pass2Upto(prefixName, cutoff, vars, unparsed, env, errors, |unparsed|, picks, rest, errors', warnings)
  }

  /** The second loop of the constructor, over the unmatched declarations in registration order. */
  method DiagnoseUnmatched(prefixName: string, cutoff: EditDistance, vars: seq<Declaration>,
                           unparsed: seq<nat>, env: Env, errors: seq<Error>)
    returns (errors': seq<Error>, warnings: seq<Error>, rest: Env, ghost picks: seq<Option<string>>)
    requires cutoff.value < IntMax && IndicesIn(unparsed, vars)
    ensures Pass2Outcome(prefixName, cutoff, vars, unparsed, env, errors, picks, rest, errors', warnings)
    ensures |errors| <= |errors'| && errors'[..|errors|] == errors
    ensures forall e :: e in errors'[|errors|..] ==>
      exists k :: 0 <= k < |unparsed| && e.id == unparsed[k] && vars[unparsed[k]].required
    ensures forall k :: 0 <= k < |unparsed| && vars[unparsed[k]].required ==>
      exists e :: e in errors'[|errors|..] && e.id == unparsed[k]
    ensures rest.Keys <= env.Keys && forall x :: x in rest ==> rest[x] == env[x]
  {
    errors', warnings, rest, picks := errors, [], env, [];
    var k := 0;
    while k < |unparsed|
      invariant Pass2Upto(prefixName, cutoff, vars, unparsed, env, errors, k, picks, rest, errors', warnings)
      decreases |unparsed| - k
    {
      errors', warnings, rest, picks :=
        DiagnoseNext(prefixName, cutoff, vars, unparsed, env, errors, k, picks, rest, errors', warnings);
      k := k + 1;
    }
    assert errors'[|errors|..] == Pass2Errors(prefixName, vars, unparsed, picks, |unparsed|);
    Pass2ErrorsOnlyRequired(prefixName, vars, unparsed, picks, |unparsed|);
    Pass2ErrorsCoverRequired(prefixName, vars, unparsed, picks, |unparsed|);
  }

  /**
   * One iteration of the second loop: the typo search for unmatched
   * declaration `unparsed[k]`, its suggestion consumed, and its diagnosis
   * recorded.
   */
  method DiagnoseNext(prefixName: string, cutoff: EditDistance, vars: seq<Declaration>,
                      unparsed: seq<nat>, env: Env, errors: seq<Error>, k: nat, ghost picks: seq<Option<string>>,
                      rest: Env, errors': seq<Error>, warnings: seq<Error>)
    returns (errors'': seq<Error>, warnings': seq<Error>, rest': Env, ghost picks': seq<Option<string>>)
    requires cutoff.value < IntMax && k < |unparsed|
    requires Pass2Upto(prefixName, cutoff, vars, unparsed, env, errors, k, picks, rest, errors', warnings)
    ensures Pass2Upto(prefixName, cutoff, vars, unparsed, env, errors, k + 1, picks', rest', errors'', warnings')
    ensures vars[unparsed[k]].required ==>
      (|errors''| == |errors'| + 1 && errors''[..|errors'|] == errors' && errors''[|errors'|].id == unparsed[k]
       && warnings' == warnings)
    ensures !vars[unparsed[k]].required ==>
      (errors'' == errors' && |warnings| <= |warnings'| <= |warnings| + 1 && warnings'[..|warnings|] == warnings)
    ensures rest'.Keys <= rest.Keys && forall x :: x in rest' ==> rest'[x] == rest[x]
  {
    var id := unparsed[k];
    var d := vars[id];
    var name := FullName(prefixName, d);
    var c := GetOrDefault(cutoff, |name|);
    var similar;
    ghost var picked;
    similar, rest', picked := GetSimilarEnvVarError(id, name, c, rest);
    picks' := picks + [picked];
    ExtendPicks(prefixName, cutoff, vars, unparsed, env, picks, picked, rest');
    Pass2Prefix(prefixName, vars, unparsed, picks, picks', k);
    ghost var diagnosis := Diagnose(prefixName, d, id, picked);
    assert picks'[k] == picked;
    assert Pass2Errors(prefixName, vars, unparsed, picks', k + 1)
      == Pass2Errors(prefixName, vars, unparsed, picks, k) + diagnosis.errors;
    assert Pass2Warnings(prefixName, vars, unparsed, picks', k + 1)
      == Pass2Warnings(prefixName, vars, unparsed, picks, k) + diagnosis.warnings;
    errors'', warnings' := errors', warnings;
    if similar.Some? {
      if d.required {
        errors'' := errors' + [similar.value];
      } else {
        warnings' := warnings + [similar.value];
      }
    } else if d.required {
      errors'' := errors' + [GetUnsetEnvVarError(id, name)];
    }
    assert errors'' == errors' + diagnosis.errors && warnings' == warnings + diagnosis.warnings;
  }

  /** One more pick made on the snapshot as the earlier picks left it keeps the picks valid. */
  lemma ExtendPicks(prefixName: string, cutoff: EditDistance, vars: seq<Declaration>, unparsed: seq<nat>,
                    env: Env, picks: seq<Option<string>>, picked: Option<string>, remaining: Env)
    requires IndicesIn(unparsed, vars) && |picks| < |unparsed|
    requires ValidPicks(prefixName, cutoff, vars, unparsed, env, picks)
    requires var d := vars[unparsed[|picks|]];
      && (picked.Some? ==> IsClosestKey(FullName(prefixName, d), env - Picked(picks),
                                        CutoffFor(prefixName, cutoff, d), picked.value))
      && (picked.None? ==> NoneWithin(FullName(prefixName, d), env - Picked(picks),
                                      CutoffFor(prefixName, cutoff, d)))
    requires picked.None? ==> remaining == env - Picked(picks)
    requires picked.Some? ==> remaining.Keys == (env - Picked(picks)).Keys - {picked.value}
    requires forall k :: k in remaining ==> k in env && remaining[k] == env[k]
    ensures ValidPicks(prefixName, cutoff, vars, unparsed, env, picks + [picked])
    ensures remaining == env - Picked(picks + [picked])
  {
    var picks' := picks + [picked];
    assert picks'[..|picks|] == picks;
    forall k | 0 <= k < |picks|
      ensures picks'[..k] == picks[..k] && picks'[k] == picks[k]
    {
    }
    forall x
      ensures x in Picked(picks') <==> x in Picked(picks) || (picked.Some? && x == picked.value)
    {
      if x in Picked(picks') {
        var k :| 0 <= k < |picks'| && picks'[k].Some? && picks'[k].value == x;
        if k < |picks| {
          assert picks[k] == picks'[k];
        }
      }
      if picked.Some? && x == picked.value {
        assert picks'[|picks|] == picked;
      }
    }
  }

  /** The first `n` diagnoses depend only on the first `n` picks. */
  lemma {:induction false} Pass2Prefix(prefixName: string, vars: seq<Declaration>, unparsed: seq<nat>,
                                       picks: seq<Option<string>>, picks': seq<Option<string>>, n: nat)
    requires IndicesIn(unparsed, vars) && n <= |unparsed| && n <= |picks| && n <= |picks'|
    requires picks[..n] == picks'[..n]
    ensures Pass2Errors(prefixName, vars, unparsed, picks, n) == Pass2Errors(prefixName, vars, unparsed, picks', n)
    ensures Pass2Warnings(prefixName, vars, unparsed, picks, n) == Pass2Warnings(prefixName, vars, unparsed, picks', n)
    decreases n
  {
    if n > 0 {
      assert picks[..n - 1] == picks'[..n - 1] by {
        assert picks[..n - 1] == picks[..n][..n - 1];
        assert picks'[..n - 1] == picks'[..n][..n - 1];
      }
      assert picks[n - 1] == picks[..n][n - 1] == picks'[..n][n - 1] == picks'[n - 1];
      Pass2Prefix(prefixName, vars, unparsed, picks, picks', n - 1);
    }
  }

  /** Every error of pass 2 is about a required unmatched declaration among the first `n`. */
  lemma {:induction false} Pass2ErrorsOnlyRequired(prefixName: string, vars: seq<Declaration>, unparsed: seq<nat>,
                                                   picks: seq<Option<string>>, n: nat)
    requires IndicesIn(unparsed, vars) && n <= |unparsed| && n <= |picks|
    ensures forall e :: e in Pass2Errors(prefixName, vars, unparsed, picks, n) ==>
      exists k :: 0 <= k < n && e.id == unparsed[k] && vars[unparsed[k]].required
    decreases n
  {
    if n > 0 {
      Pass2ErrorsOnlyRequired(prefixName, vars, unparsed, picks, n - 1);
      var last := Diagnose(prefixName, vars[unparsed[n - 1]], unparsed[n - 1], picks[n - 1]).errors;
      assert Pass2Errors(prefixName, vars, unparsed, picks, n)
        == Pass2Errors(prefixName, vars, unparsed, picks, n - 1) + last;
      forall e | e in last
        ensures e.id == unparsed[n - 1] && vars[unparsed[n - 1]].required
      {
      }
    }
  }

  /** Every required unmatched declaration among the first `n` has an error in pass 2. */
  lemma {:induction false} Pass2ErrorsCoverRequired(prefixName: string, vars: seq<Declaration>, unparsed: seq<nat>,
                                                    picks: seq<Option<string>>, n: nat)
    requires IndicesIn(unparsed, vars) && n <= |unparsed| && n <= |picks|
    ensures forall k :: 0 <= k < n && vars[unparsed[k]].required ==>
      exists e :: e in Pass2Errors(prefixName, vars, unparsed, picks, n) && e.id == unparsed[k]
    decreases n
  {
    if n > 0 {
      Pass2ErrorsCoverRequired(prefixName, vars, unparsed, picks, n - 1);
      var before := Pass2Errors(prefixName, vars, unparsed, picks, n - 1);
      var last := Diagnose(prefixName, vars[unparsed[n - 1]], unparsed[n - 1], picks[n - 1]).errors;
      assert Pass2Errors(prefixName, vars, unparsed, picks, n) == before + last;
      if vars[unparsed[n - 1]].required {
        assert last[0] in before + last;
      }
    }
  }

  /** The errors of pass 2 come out in increasing order of id, so each declaration has at most one. */
  lemma {:induction false} Pass2ErrorsOrdered(prefixName: string, vars: seq<Declaration>, unparsed: seq<nat>,
                                              picks: seq<Option<string>>, n: nat)
    requires IndicesIn(unparsed, vars) && Increasing(unparsed) && n <= |unparsed| && n <= |picks|
    ensures IncreasingIds(Pass2Errors(prefixName, vars, unparsed, picks, n))
    decreases n
  {
    if n > 0 {
      Pass2ErrorsOrdered(prefixName, vars, unparsed, picks, n - 1);
      Pass2ErrorsOnlyRequired(prefixName, vars, unparsed, picks, n - 1);
      var before := Pass2Errors(prefixName, vars, unparsed, picks, n - 1);
      var last := Diagnose(prefixName, vars[unparsed[n - 1]], unparsed[n - 1], picks[n - 1]).errors;
      forall e | e in before
        ensures e.id < unparsed[n - 1]
      {
        var k :| 0 <= k < n - 1 && e.id == unparsed[k] && vars[unparsed[k]].required;
      }
      assert Pass2Errors(prefixName, vars, unparsed, picks, n) == before + last;
    }
  }

  /**
   * Pass 2 warns at most once about each unmatched declaration, only about
   * optional ones, and only with a suggestion; the ids come out in order.
   */
  lemma {:induction false} Pass2WarningsPerDeclaration(prefixName: string, vars: seq<Declaration>, unparsed: seq<nat>,
                                                       picks: seq<Option<string>>, n: nat)
    requires IndicesIn(unparsed, vars) && Increasing(unparsed) && n <= |unparsed| && n <= |picks|
    ensures IncreasingIds(Pass2Warnings(prefixName, vars, unparsed, picks, n))
    ensures forall w :: w in Pass2Warnings(prefixName, vars, unparsed, picks, n) ==>
      exists k :: 0 <= k < n && w.id == unparsed[k] && !vars[unparsed[k]].required && picks[k].Some?
    decreases n
  {
    if n > 0 {
      Pass2WarningsPerDeclaration(prefixName, vars, unparsed, picks, n - 1);
      var before := Pass2Warnings(prefixName, vars, unparsed, picks, n - 1);
      var last := Diagnose(prefixName, vars[unparsed[n - 1]], unparsed[n - 1], picks[n - 1]).warnings;
      forall w | w in before
        ensures w.id < unparsed[n - 1]
      {
        var k :| 0 <= k < n - 1 && w.id == unparsed[k] && !vars[unparsed[k]].required && picks[k].Some?;
      }
      assert Pass2Warnings(prefixName, vars, unparsed, picks, n) == before + last;
    }
  }

  // ---------------------------------------------------------------------------
  // Pass 3: unused variables under the prefix

  function UnusedMessage(name: string): string
  {
    "Prefix environment variable '" + name + "' specified but unused"
  }

  /**
   * find_unused_env_vars: the variables of the snapshot whose name starts with
   * the prefix name, each once, in the snapshot's (unspecified) order.
   */
  method FindUnusedEnvVars(prefixName: string, env: Env) returns (unused: seq<string>)
    ensures forall k :: k in unused <==> k in env && StartsWith(k, prefixName)
    ensures forall a, b :: 0 <= a < b < |unused| ==> unused[a] != unused[b]
  {
    unused := [];
    var pending := env.Keys;
    while pending != {}
      invariant pending <= env.Keys
      invariant forall k :: k in unused <==> k in env && k !in pending && StartsWith(k, prefixName)
      invariant forall a, b :: 0 <= a < b < |unused| ==> unused[a] != unused[b]
      decreases |pending|
    {
      var name :| name in pending;
      if StartsWith(name, prefixName) {
        unused := unused + [name];
      }
      pending := pending - {name};
    }
  }

  /** The warning the third loop records for an unused variable: no declaration's id, and the variable's name. */
  function UnusedWarning(name: string): (w: Error)
    ensures w.id == Unscoped && w.name == name && Contains(w.message, name)
  {
    ContainsMiddle("Prefix environment variable '", name, "' specified but unused");
    Error(Unscoped, name, UnusedMessage(name))
  }

  /** The third loop of the constructor: one warning per unused variable, appended in order. */
  method WarnUnused(unused: seq<string>, warnings: seq<Error>) returns (warnings': seq<Error>)
    ensures |warnings'| == |warnings| + |unused| && warnings'[..|warnings|] == warnings
    ensures forall i :: 0 <= i < |unused| ==> warnings'[|warnings| + i] == UnusedWarning(unused[i])
  {
    warnings' := warnings;
    var i := 0;
    while i < |unused|
      invariant 0 <= i <= |unused|
      invariant |warnings'| == |warnings| + i && warnings'[..|warnings|] == warnings
      invariant forall j :: 0 <= j < i ==> warnings'[|warnings| + j] == UnusedWarning(unused[j])
    {
      warnings' := warnings' + [UnusedWarning(unused[i])];
      i := i + 1;
    }
  }

  // ---------------------------------------------------------------------------
  // Consequences for the caller

  /**
   * After both passes, a required declaration that holds no value has an error
   * with its id: either its parser failed, or it was diagnosed in pass 2.
   */
  lemma RequiredWithoutValueHasError(prefixName: string, cutoff: EditDistance, vars: seq<Declaration>, env: Env,
                                     matched: seq<Declaration>, rest: Env, errors: seq<Error>, unparsed: seq<nat>,
                                     picks: seq<Option<string>>, rest': Env, errors': seq<Error>,
                                     warnings: seq<Error>, i: nat)
    requires Pass1Outcome(prefixName, vars, env, matched, rest, errors, unparsed)
    requires Pass2Outcome(prefixName, cutoff, matched, unparsed, rest, errors, picks, rest', errors', warnings)
    requires i < |vars| && vars[i].required && matched[i].value.None?
    ensures exists e :: e in errors' && e.id == i
  {
    if Fails(prefixName, vars, env, i) {
      var e :| e in errors && e.id == i;
      assert e in errors';
    } else {
      assert i in unparsed;
      var k :| 0 <= k < |unparsed| && unparsed[k] == i;
      Pass2ErrorsCoverRequired(prefixName, matched, unparsed, picks, |unparsed|);
      var e :| e in Pass2Errors(prefixName, matched, unparsed, picks, |unparsed|) && e.id == unparsed[k];
      assert e in errors';
    }
  }

  // ---------------------------------------------------------------------------
  // parsed_and_validated_prefix

  /**
   * The intermediate results of the three passes: the declarations as
   * registered, the merged snapshot, the snapshot after pass 1, the errors of
   * pass 1, the unmatched indices, the suggestions of pass 2, the snapshot after
   * pass 2, and the unused variables pass 3 found.
   */
  datatype Passes = Passes(declared: seq<Declaration>, snapshot: Env, afterPass1: Env, parseErrors: seq<Error>,
                           unparsed: seq<nat>, picks: seq<Option<string>>, afterPass2: Env, unused: seq<string>)

  /**
   * What the three passes produce on `p.declared` and `p.snapshot`: the
   * declarations and errors of passes 1 and 2, then the warnings of pass 2
   * followed by one warning of pass 3 per unused variable under the prefix.
   */
  ghost predicate Resolved(prefixName: string, cutoff: EditDistance, p: Passes,
                           vars: seq<Declaration>, errors: seq<Error>, warnings: seq<Error>)
  {
    && Pass1Outcome(prefixName, p.declared, p.snapshot, vars, p.afterPass1, p.parseErrors, p.unparsed)
    && |p.unused| <= |warnings|
    && Pass2Outcome(prefixName, cutoff, vars, p.unparsed, p.afterPass1, p.parseErrors, p.picks, p.afterPass2,
                    errors, warnings[..|warnings| - |p.unused|])
    && (forall k :: k in p.unused <==> k in p.afterPass2 && StartsWith(k, prefixName))
    && (forall a, b :: 0 <= a < b < |p.unused| ==> p.unused[a] != p.unused[b])
    && (forall i :: 0 <= i < |p.unused| ==> warnings[|warnings| - |p.unused| + i] == UnusedWarning(p.unused[i]))
  }

  const InvalidatedMessage: string := "Parsed and validated prefix has been invalidated by moving from it"

  class ParsedPrefix {
    /** The prefix moved into this object: its name (ending in '_'), cutoff and declarations. */
    var prefixName: string
    var cutoff: EditDistance
    var vars: seq<Declaration>
    var errors: seq<Error>
    var warnings: seq<Error>
    var invalidated: bool

    /** How the declarations, errors and warnings came about. */
    ghost var passes: Passes

    /** The state the constructor establishes. */
    ghost predicate Valid()
      reads this`prefixName, this`cutoff, this`vars, this`errors, this`warnings, this`passes
    {
      Resolved(prefixName, cutoff, passes, vars, errors, warnings)
    }

    /**
     * The constructor: the testing overlay is merged over the snapshot, and the
     * three passes run on the declarations `declared` of the prefix.
     */
    constructor(prefixName: string, cutoff: EditDistance, declared: seq<Declaration>, env: Env, overlay: Env)
      requires cutoff.value < IntMax
      ensures this.prefixName == prefixName && this.cutoff == cutoff && !invalidated
      ensures passes.declared == declared && passes.snapshot == Merged(overlay, env)
      ensures Valid()
    {
      var merged := MergeEnvironments(overlay, env);
      var matched, rest, errs, ids := MatchDeclarations(prefixName, declared, merged);
      var errs', warns, rest', chosen := DiagnoseUnmatched(prefixName, cutoff, matched, ids, rest, errs);
      var unusedVars := FindUnusedEnvVars(prefixName, rest');
      var warns' := WarnUnused(unusedVars, warns);
      this.prefixName, this.cutoff, vars := prefixName, cutoff, matched;
      errors, warnings, invalidated := errs', warns', false;
      passes := Passes(declared, merged, rest, errs, ids, chosen, rest', unusedVars);
    }

    /** The move constructor: takes over `other`'s state and invalidates it. */
    constructor Moved(other: ParsedPrefix)
      modifies other
      ensures prefixName == old(other.prefixName) && cutoff == old(other.cutoff) && vars == old(other.vars)
      ensures errors == old(other.errors) && warnings == old(other.warnings)
      ensures invalidated == old(other.invalidated) && other.invalidated
      ensures old(other.Valid()) ==> Valid()
    {
      prefixName, cutoff, vars := other.prefixName, other.cutoff, other.vars;
      errors, warnings, invalidated := other.errors, other.warnings, other.invalidated;
      passes := other.passes;
      new;
      other.invalidated := true;
    }

    /** The move assignment: takes over `other`'s state, then invalidates `other` (itself, when they are the same). */
    method MoveFrom(other: ParsedPrefix)
      modifies this, other
      ensures other.invalidated
      ensures other != this ==>
        (prefixName == old(other.prefixName) && cutoff == old(other.cutoff)
         && vars == old(other.vars) && errors == old(other.errors) && warnings == old(other.warnings)
         && invalidated == old(other.invalidated))
      ensures other != this && old(other.Valid()) ==> Valid()
    {
      prefixName, cutoff, vars := other.prefixName, other.cutoff, other.vars;
      errors, warnings, invalidated := other.errors, other.warnings, other.invalidated;
      passes := other.passes;
      other.invalidated := true;
    }

    /**
     * When ok() holds, get on every required variable yields its value: a
     * required declaration without a value always leaves an error behind.
     */
    lemma OkMeansRequiredHaveValues(h: Handle)
      requires Valid() && !invalidated && Ok().Value()
      requires h.required && h.index < |vars| && vars[h.index].required
      ensures GetRequired(h).HasValue()
    {
      if vars[h.index].value.None? {
        var p := passes;
        RequiredWithoutValueHasError(prefixName, cutoff, p.declared, p.snapshot, vars, p.afterPass1, p.parseErrors,
                                     p.unparsed, p.picks, p.afterPass2, errors,
                                     warnings[..|warnings| - |p.unused|], h.index);
      }
    }

    /** ok(): no errors and no warnings; invalidated_prefix once moved from. */
    function Ok(): (r: Expected<bool, Exception>)
      reads this
      ensures invalidated <==> !r.HasValue()
      ensures invalidated ==> r.Error() == InvalidatedPrefix(InvalidatedMessage)
      ensures !invalidated ==> (r.Value() <==> errors == [] && warnings == [])
    {
      if invalidated then HoldsError(InvalidatedPrefix(InvalidatedMessage))
      else HoldsValue(errors == [] && warnings == [])
    }

    /** errors(): the recorded errors; invalidated_prefix once moved from. */
    function Errors(): (r: Expected<seq<Error>, Exception>)
      reads this
      ensures invalidated <==> !r.HasValue()
      ensures !invalidated ==> r.Value() == errors
    {
      if invalidated then HoldsError(InvalidatedPrefix(InvalidatedMessage)) else HoldsValue(errors)
    }

    /** warnings(): the recorded warnings; invalidated_prefix once moved from. */
    function Warnings(): (r: Expected<seq<Error>, Exception>)
      reads this
      ensures invalidated <==> !r.HasValue()
      ensures !invalidated ==> r.Value() == warnings
    {
      if invalidated then HoldsError(InvalidatedPrefix(InvalidatedMessage)) else HoldsValue(warnings)
    }

    /** get on a required handle: the value, or value_error naming the variable when it holds none. */
    function GetRequired(h: Handle): (r: Expected<Value, Exception>)
      reads this
      requires h.required && h.index < |vars|
      ensures invalidated ==> r == HoldsError(InvalidatedPrefix(InvalidatedMessage))
      ensures !invalidated && vars[h.index].value.Some? ==> r == HoldsValue(vars[h.index].value.value)
      ensures !invalidated && vars[h.index].value.None? ==>
        !r.HasValue() && r.Error().ValueError? && Contains(r.Error().what, vars[h.index].name)
    {
      if invalidated then HoldsError(InvalidatedPrefix(InvalidatedMessage))
      else
        match vars[h.index].value
        case Some(v) => HoldsValue(v)
        case None =>
          ContainsMiddle("Variable '", vars[h.index].name, "' does not hold a value");
          HoldsError(ValueError("Variable '" + vars[h.index].name + "' does not hold a value"))
    }

    /** get on an optional handle: the value the declaration holds, if any. */
    function GetOptional(h: Handle): (r: Expected<Option<Value>, Exception>)
      reads this
      requires !h.required && h.index < |vars|
      ensures invalidated ==> r == HoldsError(InvalidatedPrefix(InvalidatedMessage))
      ensures !invalidated ==> r == HoldsValue(vars[h.index].value)
    {
      if invalidated then HoldsError(InvalidatedPrefix(InvalidatedMessage)) else HoldsValue(vars[h.index].value)
    }

    /** get_or, on optional handles only: the value, or `default` when the declaration holds none. */
    function GetOr(h: Handle, default: Value): (r: Expected<Value, Exception>)
      reads this
      requires !h.required && h.index < |vars|
      ensures invalidated ==> r == HoldsError(InvalidatedPrefix(InvalidatedMessage))
      ensures !invalidated && vars[h.index].value.Some? ==> r == HoldsValue(vars[h.index].value.value)
      ensures !invalidated && vars[h.index].value.None? ==> r == HoldsValue(default)
    {
      if invalidated then HoldsError(InvalidatedPrefix(InvalidatedMessage))
      else HoldsValue(if vars[h.index].value.Some? then vars[h.index].value.value else default)
    }

    /** get_or agrees with get: it is get's optional value, or the default. */
    lemma GetOrAgreesWithGet(h: Handle, default: Value)
      requires !h.required && h.index < |vars| && !invalidated
      ensures GetOr(h, default).Value() == match GetOptional(h).Value() { case Some(v) => v case None => default }
    {
    }
  }
}

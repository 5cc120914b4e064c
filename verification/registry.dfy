/**
 * The registry (include/libenvpp/env.hpp, class prefix): the declarations a
 * program registers under a prefix, the checks each registration makes, and the
 * hand-over to parsed_and_validated_prefix that invalidates the prefix.
 */
module Registry {
  import opened Optional
  import opened Expected
  import opened Text
  import opened Levenshtein
  import opened EditDistance
  import opened Environment
  import opened Errors
  import opened Parser
  import opened Declarations
  import opened Testing
  import opened Resolution

  /** PREFIX_DELIMITER, appended to the prefix name. */
  const Delimiter: char := '_'

  const EmptyNameMessage: string := "Prefix name must not be empty"

  const PrefixInvalidatedMessage: string :=
    "Prefix has been invalidated by either moving from it or by parsing and validating it"

  function InvalidRangeMessage(min: int, max: int, fullName: string): (msg: string)
    ensures Contains(msg, fullName)
  {
    var head := "Invalid range [" + DecimalString(min) + ", " + DecimalString(max) + "] for '";
    ContainsMiddle(head, fullName, "', min must be less or equal to max");
    head + fullName + "', min must be less or equal to max"
  }

  function EmptyOptionMessage(fullName: string): (msg: string)
    ensures Contains(msg, fullName)
  {
    ContainsMiddle("No options provided for '", fullName, "'");
    "No options provided for '" + fullName + "'"
  }

  function DuplicateOptionMessage(fullName: string): (msg: string)
    ensures Contains(msg, fullName)
  {
    ContainsMiddle("Duplicate option specified for '", fullName, "'");
    "Duplicate option specified for '" + fullName + "'"
  }

  class Prefix {
    /** The prefix name with the delimiter appended, the edit distance cutoff, and the declarations in order. */
    var prefixName: string
    var cutoff: EditDistance
    var vars: seq<Declaration>
    var invalidated: bool

    /** The member initialisation of the constructor; `Create` adds the check of the name. */
    constructor(name: string, cutoff: EditDistance)
      ensures prefixName == name + [Delimiter] && this.cutoff == cutoff && vars == [] && !invalidated
    {
      prefixName := name + [Delimiter];
      this.cutoff := cutoff;
      vars := [];
      invalidated := false;
    }

    /** The constructor: a prefix with no declarations, or invalid_prefix when the name is empty. */
    static method Create(name: string, cutoff: EditDistance) returns (r: Expected<Prefix, Exception>)
      ensures r.HasValue() <==> name != []
      ensures r.HasValue() ==> (fresh(r.value) && r.value.prefixName == name + "_" && r.value.cutoff == cutoff
        && r.value.vars == [] && !r.value.invalidated)
      ensures !r.HasValue() ==> r.error == InvalidPrefix(EmptyNameMessage)
    {
      var p := new Prefix(name, cutoff);
      if |p.prefixName| == 1 && p.prefixName[0] == Delimiter {
        return HoldsError(InvalidPrefix(EmptyNameMessage));
      }
      return HoldsValue(p);
    }

    /** The move constructor: takes over `other`'s state and invalidates it. */
    constructor Moved(other: Prefix)
      modifies other
      ensures prefixName == old(other.prefixName) && cutoff == old(other.cutoff) && vars == old(other.vars)
      ensures invalidated == old(other.invalidated) && other.invalidated
    {
      prefixName, cutoff, vars, invalidated := other.prefixName, other.cutoff, other.vars, other.invalidated;
      new;
      other.invalidated := true;
    }

    /** The move assignment: takes over `other`'s state, then invalidates `other` (itself, when they are the same). */
    method MoveFrom(other: Prefix)
      modifies this, other
      ensures other.invalidated
      ensures other != this ==>
        (prefixName == old(other.prefixName) && cutoff == old(other.cutoff) && vars == old(other.vars)
         && invalidated == old(other.invalidated))
    {
      prefixName, cutoff, vars, invalidated := other.prefixName, other.cutoff, other.vars, other.invalidated;
      other.invalidated := true;
    }

    /** get_full_env_var_name. */
    function FullNameOf(name: string): (full: string)
      reads this
      ensures StartsWith(full, prefixName) && full[|prefixName|..] == name
    {
      StartsWithConcat(prefixName, name);
      prefixName + name
    }

    /**
     * registration_helper, behind register_variable and
     * register_required_variable: one declaration appended, holding no value,
     * and a handle to it; invalidated_prefix once the prefix was moved from or
     * parsed.
     */
    method Register(name: string, required: bool, parse: string -> Outcome<Value>)
      returns (r: Expected<Handle, Exception>)
      modifies this
      ensures prefixName == old(prefixName) && cutoff == old(cutoff) && invalidated == old(invalidated)
      ensures old(invalidated) ==> r == HoldsError(InvalidatedPrefix(PrefixInvalidatedMessage)) && vars == old(vars)
      ensures !old(invalidated) ==> (r == HoldsValue(Handle(|old(vars)|, required))
        && vars == old(vars) + [Declare(name, required, parse)])
    {
      if invalidated {
        return HoldsError(InvalidatedPrefix(PrefixInvalidatedMessage));
      }
      vars := vars + [Declaration(name, required, parse, None)];
      return HoldsValue(Handle(|vars| - 1, required));
    }

    /**
     * registration_range_helper, behind register_range and
     * register_required_range: invalid_range when min > max (checked before the
     * prefix's validity), otherwise a registration whose parser accepts exactly
     * the values in [min, max].
     */
    method RegisterRange(name: string, required: bool, parse: string -> Outcome<int>, min: int, max: int)
      returns (r: Expected<Handle, Exception>)
      modifies this
      ensures prefixName == old(prefixName) && cutoff == old(cutoff) && invalidated == old(invalidated)
      ensures min > max ==> (r == HoldsError(InvalidRange(InvalidRangeMessage(min, max, prefixName + name)))
        && vars == old(vars))
      ensures min <= max && old(invalidated) ==> (r == HoldsError(InvalidatedPrefix(PrefixInvalidatedMessage))
        && vars == old(vars))
      ensures min <= max && !old(invalidated) ==> (r == HoldsValue(Handle(|old(vars)|, required))
        && vars == old(vars) + [Declare(name, required, RangeParser(parse, min, max))])
    {
      if min > max {
        return HoldsError(InvalidRange(InvalidRangeMessage(min, max, FullNameOf(name))));
      }
      r := Register(name, required, RangeParser(parse, min, max));
    }

    /**
     * registration_option_helper, behind register_option and
     * register_required_option: empty_option for no options, duplicate_option
     * when an option is listed twice (both checked before the prefix's
     * validity), otherwise a registration whose parser accepts exactly the
     * listed options.
     */
    method RegisterOption(name: string, required: bool, parse: string -> Outcome<Value>, options: seq<Value>)
      returns (r: Expected<Handle, Exception>)
      modifies this
      ensures prefixName == old(prefixName) && cutoff == old(cutoff) && invalidated == old(invalidated)
      ensures options == [] ==> (r == HoldsError(EmptyOption(EmptyOptionMessage(prefixName + name)))
        && vars == old(vars))
      ensures options != [] && !Distinct(options) ==>
        r == HoldsError(DuplicateOption(DuplicateOptionMessage(prefixName + name))) && vars == old(vars)
      ensures options != [] && Distinct(options) && old(invalidated) ==>
        r == HoldsError(InvalidatedPrefix(PrefixInvalidatedMessage)) && vars == old(vars)
      ensures options != [] && Distinct(options) && !old(invalidated) ==>
        r == HoldsValue(Handle(|old(vars)|, required))
        && vars == old(vars) + [Declare(name, required, OptionParser(parse, OptionSet(options)))]
    {
      if |options| == 0 {
        return HoldsError(EmptyOption(EmptyOptionMessage(FullNameOf(name))));
      }
      var optionSet := OptionSet(options);
      DistinctIffSetAsLarge(options);
      if |optionSet| != |options| {
        return HoldsError(DuplicateOption(DuplicateOptionMessage(FullNameOf(name))));
      }
      r := Register(name, required, OptionParser(parse, optionSet));
    }

    /** set_for_testing: the declaration of `h` holds `v`; invalidated_prefix once moved from or parsed. */
    method SetForTesting(h: Handle, v: Value) returns (failure: Option<Exception>)
      requires h.index < |vars|
      modifies this
      ensures prefixName == old(prefixName) && cutoff == old(cutoff) && invalidated == old(invalidated)
      ensures old(invalidated) ==> failure == Some(InvalidatedPrefix(PrefixInvalidatedMessage)) && vars == old(vars)
      ensures !old(invalidated) ==> failure == None && vars == old(vars)[h.index := old(vars)[h.index].(value := Some(v))]
    {
      if invalidated {
        return Some(InvalidatedPrefix(PrefixInvalidatedMessage));
      }
      vars := vars[h.index := vars[h.index].(value := Some(v))];
      return None;
    }

    /**
     * parse_and_validate: the prefix is moved into a parsed_and_validated_prefix,
     * which resolves its declarations against `env` with the testing overlay
     * `overlay` merged over it; the prefix is invalidated. invalidated_prefix
     * when it already was.
     */
    method ParseAndValidate(env: Env, overlay: Env) returns (r: Expected<ParsedPrefix, Exception>)
      requires cutoff.value < IntMax
      modifies this
      ensures invalidated
      ensures old(invalidated) ==> r == HoldsError(InvalidatedPrefix(PrefixInvalidatedMessage))
      ensures !old(invalidated) ==> (r.HasValue() && fresh(r.value) && r.value.Valid() && !r.value.invalidated
        && r.value.prefixName == old(prefixName) && r.value.cutoff == old(cutoff)
        && r.value.passes.declared == old(vars) && r.value.passes.snapshot == Merged(overlay, env))
    {
      if invalidated {
        return HoldsError(InvalidatedPrefix(PrefixInvalidatedMessage));
      }
      var parsed := new ParsedPrefix(prefixName, cutoff, vars, env, overlay);
      invalidated := true;
      return HoldsValue(parsed);
    }
  }
}

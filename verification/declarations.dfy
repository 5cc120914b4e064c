/**
 * What a prefix registers (include/libenvpp/env.hpp): declarations of variables
 * with their parser-and-validator, the handles that refer to them, and the
 * range and option validators the registration helpers install.
 */
module Declarations {
  import opened Optional
  import opened Text
  import opened Parser

  /** The values a variable can hold, in place of std::any. */
  datatype Value = IntValue(i: int) | BoolValue(b: bool) | TextValue(s: string)

  /**
   * detail::variable_data: the name without the prefix, whether the variable is
   * required, its type-erased parser-and-validator, and the value it holds.
   */
  datatype Declaration = Declaration(name: string, required: bool, parse: string -> Outcome<Value>, value: Option<Value>)

  /** variable_id<T, IsRequired>: the index of a declaration, and its required flag. */
  datatype Handle = Handle(index: nat, required: bool)

  /** A declaration as registration_helper appends it: holding no value yet. */
  function Declare(name: string, required: bool, parse: string -> Outcome<Value>): (d: Declaration)
    ensures d.name == name && d.required == required && d.parse == parse && d.value.None?
  {
    Declaration(name, required, parse, None)
  }

  // ---------------------------------------------------------------------------
  // registration_range_helper

  function RangeMessage(v: int, min: int, max: int): string
  {
    "Value " + DecimalString(v) + " outside of range [" + DecimalString(min) + ", " + DecimalString(max) + "]"
  }

  /** The range lambda on one input: parse, then reject a value outside [min, max] with range_error. */
  function CheckRange(parse: string -> Outcome<int>, min: int, max: int, s: string): (r: Outcome<Value>)
    ensures r.Parsed? <==> parse(s).Parsed? && min <= parse(s).value <= max
    ensures r.Parsed? ==> r.value == IntValue(parse(s).value)
    ensures parse(s).Failed? ==> r == Failed(parse(s).failure)
    ensures parse(s).Parsed? && !(min <= parse(s).value <= max) ==>
      r == Failed(RangeError(RangeMessage(parse(s).value, min, max)))
  {
    match parse(s)
    case Failed(f) => Failed(f)
    case Parsed(v) =>
      if v < min || v > max then Failed(RangeError(RangeMessage(v, min, max))) else Parsed(IntValue(v))
  }

  /** The parser-and-validator registration_range_helper registers, for an integer variable. */
  function RangeParser(parse: string -> Outcome<int>, min: int, max: int): string -> Outcome<Value>
  {
    s => CheckRange(parse, min, max, s)
  }

  /** With min == max exactly one value is accepted. */
  lemma RangeOfOneValue(parse: string -> Outcome<int>, v: int, s: string)
    requires parse(s).Parsed?
    ensures RangeParser(parse, v, v)(s).Parsed? <==> parse(s).value == v
  {
  }

  // ---------------------------------------------------------------------------
  // registration_option_helper

  /** The std::set the option helper builds from its initializer list. */
  function OptionSet(options: seq<Value>): (s: set<Value>)
    ensures forall v :: v in s <==> v in options
  {
    set v | v in options
  }

  /** No option is listed twice. */
  predicate Distinct(options: seq<Value>)
  {
    forall i, j :: 0 <= i < j < |options| ==> options[i] != options[j]
  }

  /** The duplicate test of the option helper: the set is as large as the list exactly when nothing repeats. */
  lemma {:induction false} DistinctIffSetAsLarge(options: seq<Value>)
    ensures Distinct(options) <==> |OptionSet(options)| == |options|
    decreases |options|
  {
    if |options| > 0 {
      var rest := options[..|options| - 1];
      var last := options[|options| - 1];
      DistinctIffSetAsLarge(rest);
      assert OptionSet(options) == OptionSet(rest) + {last};
      SetNoLargerThanList(rest);
      if last in rest {
        assert !Distinct(options) by {
          var i :| 0 <= i < |rest| && rest[i] == last;
          assert options[i] == options[|options| - 1];
        }
      } else if Distinct(rest) {
        assert Distinct(options) by {
          forall i, j | 0 <= i < j < |options|
            ensures options[i] != options[j]
          {
            if j == |options| - 1 {
              assert options[i] == rest[i];
            } else {
              assert options[i] == rest[i] && options[j] == rest[j];
            }
          }
        }
      } else {
        assert !Distinct(options) by {
          var i, j :| 0 <= i < j < |rest| && rest[i] == rest[j];
          assert options[i] == rest[i] && options[j] == rest[j];
        }
      }
    }
  }

  /** Deduplication never makes the collection larger. */
  lemma {:induction false} SetNoLargerThanList(options: seq<Value>)
    ensures |OptionSet(options)| <= |options|
    decreases |options|
  {
    if |options| > 0 {
      var rest := options[..|options| - 1];
      SetNoLargerThanList(rest);
      assert OptionSet(options) == OptionSet(rest) + {options[|options| - 1]};
    }
  }

  function OptionMessage(s: string): string
  {
    "Unrecognized option '" + s + "'"
  }

  /** The option lambda on one input: parse, then reject a value that is none of the options with option_error. */
  function CheckOption(parse: string -> Outcome<Value>, options: set<Value>, s: string): (r: Outcome<Value>)
    ensures r.Parsed? <==> parse(s).Parsed? && parse(s).value in options
    ensures r.Parsed? ==> r == parse(s)
    ensures parse(s).Failed? ==> r == parse(s)
    ensures parse(s).Parsed? && parse(s).value !in options ==> r == Failed(OptionError(OptionMessage(s)))
  {
    match parse(s)
    case Failed(f) => Failed(f)
    case Parsed(v) => if v !in options then Failed(OptionError(OptionMessage(s))) else Parsed(v)
  }

  /** The parser-and-validator registration_option_helper registers. */
  function OptionParser(parse: string -> Outcome<Value>, options: set<Value>): string -> Outcome<Value>
  {
    s => CheckOption(parse, options, s)
  }

  /** The rejection message quotes the input that was not an option. */
  lemma OptionMessageQuotesInput(s: string)
    ensures Contains(OptionMessage(s), s)
  {
    ContainsMiddle("Unrecognized option '", s, "'");
  }
}

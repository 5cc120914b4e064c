/**
 * Value parsing and failure classification (include/libenvpp/detail/parser.hpp).
 *
 * A parser is a total function from the variable's text to an `Outcome`: the
 * parsed value, or the kind of exception it would have thrown and its what().
 */
module Parser {
  import opened Optional
  import opened Expected
  import opened Text

  /** The exception kinds parse_or_error tells apart. */
  datatype Failure =
    | ParserError(what: string)
    | ValidationError(what: string)
    | RangeError(what: string)
    | OptionError(what: string)
    /** Any other std::exception. */
    | OtherException(what: string)
    /** An exception not derived from std::exception (catch (...)). */
    | UnknownException

  /** What calling a parser-and-validator does: return a value or throw. */
  datatype Outcome<T> = Parsed(value: T) | Failed(failure: Failure)

  // ---------------------------------------------------------------------------
  // parse_bool

  /** The lambda to_lower_char: only 'A'..'Z' are folded. */
  function LowerAscii(c: char): (r: char)
    ensures 'A' <= c <= 'Z' ==> r == (c as int + 32) as char
    ensures !('A' <= c <= 'Z') ==> r == c
  {
    if 'A' <= c <= 'Z' then (c as int + ('a' as int - 'A' as int)) as char else c
  }

  /** std::equal over both ranges: same length, and equal position by position after folding. */
  predicate EqualIgnoringCase(a: string, b: string)
  {
    |a| == |b| && forall i :: 0 <= i < |a| ==> LowerAscii(a[i]) == LowerAscii(b[i])
  }

  predicate IsTrueWord(s: string)
  {
    EqualIgnoringCase(s, "true") || EqualIgnoringCase(s, "on") || EqualIgnoringCase(s, "yes")
  }

  predicate IsFalseWord(s: string)
  {
    EqualIgnoringCase(s, "false") || EqualIgnoringCase(s, "off") || EqualIgnoringCase(s, "no")
  }

  function ParseBoolFailure(s: string): string
  {
    "Failed to parse '" + s + "' as boolean"
  }

  /** parse_bool: the true words, then the false words, otherwise a parser_error quoting the input. */
  function ParseBool(s: string): (r: Outcome<bool>)
    ensures r.Parsed? ==> (r.value <==> IsTrueWord(s))
    ensures r.Failed? <==> !IsTrueWord(s) && !IsFalseWord(s)
    ensures r.Failed? ==> r.failure == ParserError(ParseBoolFailure(s))
  {
    if IsTrueWord(s) then Parsed(true)
    else if IsFalseWord(s) then Parsed(false)
    else Failed(ParserError(ParseBoolFailure(s)))
  }

  /** Folding is idempotent and leaves everything but capital letters alone. */
  lemma LowerAsciiIdempotent(c: char)
    ensures LowerAscii(LowerAscii(c)) == LowerAscii(c)
    ensures 'a' <= c <= 'z' ==> LowerAscii(c) == c
  {
  }

  /** Case-insensitive equality is an equivalence relation. */
  lemma EqualIgnoringCaseEquivalence(a: string, b: string, c: string)
    ensures EqualIgnoringCase(a, a)
    ensures EqualIgnoringCase(a, b) ==> EqualIgnoringCase(b, a)
    ensures EqualIgnoringCase(a, b) && EqualIgnoringCase(b, c) ==> EqualIgnoringCase(a, c)
  {
  }

  /** No word is both a true word and a false word, so the order of the tests does not matter. */
  lemma TrueAndFalseWordsDisjoint(s: string)
    ensures !(IsTrueWord(s) && IsFalseWord(s))
  {
    // Equal lengths leave "on"/"no" and "yes"/"off", whose first letters differ.
    if |s| > 0 {
      var c := LowerAscii(s[0]);
      assert EqualIgnoringCase(s, "on") ==> c == 'o';
      assert EqualIgnoringCase(s, "no") ==> c == 'n';
      assert EqualIgnoringCase(s, "yes") ==> c == 'y';
      assert EqualIgnoringCase(s, "off") ==> c == 'o';
    }
  }

  /** parse_bool answers false exactly for the false words. */
  lemma ParseBoolFalseWords(s: string)
    ensures ParseBool(s) == Parsed(false) <==> IsFalseWord(s)
  {
    TrueAndFalseWordsDisjoint(s);
  }

  /** Any capitalisation of a true word is accepted as true. */
  lemma ParseBoolTrueExamples()
    ensures ParseBool("TRUE") == Parsed(true) && ParseBool("yEs") == Parsed(true) && ParseBool("On") == Parsed(true)
  {
    assert EqualIgnoringCase("TRUE", "true");
    assert EqualIgnoringCase("yEs", "yes");
    assert EqualIgnoringCase("On", "on");
  }

  /** Any capitalisation of a false word is accepted as false. */
  lemma ParseBoolFalseExamples()
    ensures ParseBool("False") == Parsed(false) && ParseBool("OFF") == Parsed(false) && ParseBool("no") == Parsed(false)
  {
    assert EqualIgnoringCase("False", "false");
    assert EqualIgnoringCase("OFF", "off");
    assert EqualIgnoringCase("no", "no");
    TrueAndFalseWordsDisjoint("False");
    TrueAndFalseWordsDisjoint("OFF");
    TrueAndFalseWordsDisjoint("no");
  }

  /** A near miss, a digit and the empty string are all rejected. */
  lemma ParseBoolRejectExamples()
    ensures ParseBool("yess").Failed? && ParseBool("1").Failed? && ParseBool("").Failed?
  {
    assert LowerAscii("yess"[0]) != LowerAscii("true"[0]);
  }

  /** A rejected input is quoted in the message. */
  lemma ParseBoolFailureQuotesInput(s: string)
    requires ParseBool(s).Failed?
    ensures Contains(ParseBool(s).failure.what, s)
  {
    ContainsMiddle("Failed to parse '", s, "' as boolean");
  }

  // ---------------------------------------------------------------------------
  // default_parser_and_validator

  /** default_validator<T>: accepts every value. */
  function DefaultValidator<T>(v: T): Option<Failure>
  {
    None
  }

  /**
   * default_parser_and_validator<T> and its custom counterparts: parse, run the
   * validator on the parsed value, and return that value unchanged.
   */
  function ParseThenValidate<T>(parse: string -> Outcome<T>, validate: T -> Option<Failure>, s: string): (r: Outcome<T>)
    ensures r.Parsed? <==> parse(s).Parsed? && validate(parse(s).value).None?
    ensures r.Parsed? ==> r.value == parse(s).value
    ensures parse(s).Failed? ==> r == parse(s)
    ensures parse(s).Parsed? && validate(parse(s).value).Some? ==> r == Failed(validate(parse(s).value).value)
  {
    match parse(s)
    case Failed(f) => Failed(f)
    case Parsed(v) =>
      match validate(v)
      case Some(f) => Failed(f)
      case None => Parsed(v)
  }

  /** With the default validator, parsing and validating is just parsing. */
  lemma DefaultValidatorAcceptsAll<T>(parse: string -> Outcome<T>, s: string)
    ensures ParseThenValidate(parse, DefaultValidator, s) == parse(s)
  {
  }

  // ---------------------------------------------------------------------------
  // parse_or_error

  /** The label each failure kind gets in front of its message. */
  function Label(f: Failure): string
  {
    match f
    case ParserError(_) => "Parser error"
    case ValidationError(_) => "Validation error"
    case RangeError(_) => "Range error"
    case OptionError(_) => "Option error"
    case OtherException(_) => "Failed to parse or validate"
    case UnknownException => "Failed to parse or validate"
  }

  /** The words between the label and the variable name. */
  function Connective(f: Failure): string
  {
    if f.OtherException? || f.UnknownException? then " environment variable '" else " for environment variable '"
  }

  /** What follows the variable name: the exception's what(), where there is one. */
  function Suffix(f: Failure): string
  {
    match f
    case OtherException(w) => "' with: " + w
    case UnknownException => "' with unknown error"
    case _ => "': " + f.what
  }

  /** The message parse_or_error formats for a failure of variable `name`. */
  function FailureMessage(name: string, f: Failure): (msg: string)
    ensures StartsWith(msg, Label(f))
    ensures Contains(msg, name)
  {
    StartsWithConcat(Label(f), Connective(f) + name + Suffix(f));
    ContainsMiddle(Label(f) + Connective(f), name, Suffix(f));
    Label(f) + Connective(f) + name + Suffix(f)
  }

  /**
   * parse_or_error: the parser's value unchanged, or the labelled message
   * naming the variable, in place of the exception it threw.
   */
  function ParseOrError<T>(name: string, text: string, parse: string -> Outcome<T>): (r: Expected<T, string>)
    ensures r.HasValue() <==> parse(text).Parsed?
    ensures r.HasValue() ==> r.Value() == parse(text).value
    ensures !r.HasValue() ==> StartsWith(r.Error(), Label(parse(text).failure)) && Contains(r.Error(), name)
  {
    match parse(text)
    case Parsed(v) => HoldsValue(v)
    case Failed(f) => HoldsError(FailureMessage(name, f))
  }

  /** Failures of different kinds are labelled apart, except the two catch-all kinds. */
  lemma LabelsDistinguishKinds(f: Failure, g: Failure)
    requires Label(f) == Label(g)
    ensures f.ParserError? ==> g.ParserError?
    ensures f.ValidationError? ==> g.ValidationError?
    ensures f.RangeError? ==> g.RangeError?
    ensures f.OptionError? ==> g.OptionError?
  {
  }
}

# libenvpp core, modelled in Dafny

libenvpp reads a program's configuration from environment variables. The
program creates a *prefix* (for example `MYPROG`). It registers the variables
it expects under that prefix, each with a parser-and-validator, and marks each
one required or optional. Range and option variables get a validator that the
library installs.

`parse_and_validate` then moves the prefix into a `parsed_and_validated_prefix`
and resolves the declarations in three passes over a snapshot of the
environment, with the global testing overlay merged over that snapshot:

1. Every declared variable is looked up by its full name and consumed from the
   snapshot. A value that parses is stored. A parse failure becomes an error,
   labelled by the kind of exception. A variable that is not set is remembered.
2. For each remembered variable, a variable of the snapshot within a
   Levenshtein cutoff is sought, as a likely typo. The cutoff is derived from
   the name's length unless given. The closest such variable is consumed and
   suggested, as an error for a required declaration and as a warning for an
   optional one. A required declaration with no suggestion is reported unset.
3. Every remaining variable whose name starts with the prefix is reported as
   specified but unused.

The accessors (`get`, `get_or`, `ok`, `errors`, `warnings`) then read the
result. Moving from either object invalidates it.

The project models:

- the banded two-row Levenshtein programme, proved against the recursive
  definition of the edit distance;
- the typo search;
- the environment helpers;
- `expected`;
- the boolean parser and `parse_or_error`;
- the testing overlay;
- the prefixless `get`/`get_or`;
- the registry;
- the three-pass resolution.

Files, one module each:

| file | module | what it holds |
|---|---|---|
| `optional.dfy` | `Optional` | `Option` |
| `expected.dfy` | `Expected` | `expected` and `unexpected` |
| `text.dfy` | `Text` | substring and prefix tests, and decimal rendering for messages |
| `levenshtein.dfy` | `Levenshtein` | `levenshtein::distance` over arrays, and `is_distance_less_than` |
| `edit_distance.dfy` | `EditDistance` | `edit_distance` |
| `environment.dfy` | `Environment` | `find_similar_env_var` and `pop_from_environment` |
| `errors.dfy` | `Errors` | `error`, the exceptions, and the two not-found diagnoses |
| `parser.dfy` | `Parser` | `parse_bool`, `default_parser_and_validator` and `parse_or_error` |
| `testing.dfy` | `Testing` | `merge_environments`, the global overlay and `scoped_test_environment` |
| `get.dfy` | `Get` | `get` and `get_or` without a prefix |
| `declarations.dfy` | `Declarations` | `variable_data`, `variable_id`, and the range and option validators |
| `resolution.dfy` | `Resolution` | `parsed_and_validated_prefix` and its three passes |
| `registry.dfy` | `Registry` | `prefix` |

State that the source updates in place is modelled as such:

- `prefix`, `parsed_and_validated_prefix` and the global testing overlay are
  classes whose methods modify their fields.
- The edit-distance rows are arrays updated in place.
- The loops of the resolution, the typo search and the overlay are `while`
  loops with invariants.

Each loop is proved against a specification function or predicate:

- `Lev` and `BoundedDistance` for the distance;
- `IsClosestKey` and `NoneWithin` for the typo search;
- `Pass1Outcome`, `Pass2Outcome` and `Resolved` for the passes.

The properties the library promises are lemmas about those specifications.

## Model

| member | source | states |
|---|---|---|
| Levenshtein.Distance | source/levenshtein.cpp:15-87 | For any cutoff in [0, INT_MAX], the result is the edit distance capped at the cutoff. When one string is empty, the result is the other's length, without the cap. |
| Levenshtein.BandedRows | source/levenshtein.cpp:38-86 | With the shorter string non-empty, the two-row banded programme returns exactly min(edit distance, cutoff). This includes the early return when the band leaves the table. |
| Levenshtein.StartRows | source/levenshtein.cpp:38-49 | The first row holds the true distances from the empty prefix, clipped at cutoff+1. Cells past the band hold INT_MAX, and the second row is all INT_MAX. |
| Levenshtein.FillRow | source/levenshtein.cpp:53-80 | The next row agrees with the true distances, clipped at cutoff+1, on every cell a later row can read. Cells right of the band stay INT_MAX. |
| Levenshtein.FillBand | source/levenshtein.cpp:72-80 | Every cell of the band agrees with the clipped true distance. Cells outside the band are unchanged. |
| Levenshtein.FillCell | source/levenshtein.cpp:73-79 | The match/substitute/insert/delete step on clipped neighbours yields the clipped distance of its cell. Only that cell changes. |
| Levenshtein.BandLeftTable | source/levenshtein.cpp:56-64 | When the band is empty, the capped distance is the cutoff, so the early return is correct. |
| Levenshtein.LastCell | source/levenshtein.cpp:86 | The clipped last cell, capped at the cutoff, is min(edit distance, cutoff). |
| Levenshtein.IsDistanceLessThan | source/levenshtein.cpp:9-12 | True exactly when the uncapped edit distance is below the cutoff. |
| Levenshtein.LevCell | source/levenshtein.cpp:73-79 | The edit distance of two non-empty prefixes obeys the recurrence the inner loop computes. |
| Levenshtein.LevSymmetric | source/levenshtein.cpp:32-36 | The edit distance is symmetric, which makes swapping the arguments sound. |
| Levenshtein.BoundedDistanceSymmetric | source/levenshtein.cpp:32-36 | The capped distance does not depend on the order of the arguments. |
| Levenshtein.LevLengthGap | source/levenshtein.cpp:56-64 | The edit distance is at least the difference of the lengths. |
| Levenshtein.LevIdentical | test/levenshtein_test.cpp:15-21 | A string is at distance 0 from itself. |
| Levenshtein.BoundedDistanceIdentical | test/levenshtein_test.cpp:15-21 | The capped distance of a string to itself is 0 for every cutoff. |
| Levenshtein.BoundedDistanceMonotone | source/levenshtein.cpp:86 | Raising the cutoff never lowers the result. |
| Levenshtein.BoundedDistanceFarApart | source/levenshtein.cpp:56-64 | Non-empty strings whose lengths differ by more than the cutoff are exactly the cutoff apart. |
| Levenshtein.BoundedDistanceWithinCutoff | source/levenshtein.cpp:86 | Below the cutoff, comparing the capped distance with a limit gives the same answer as comparing the uncapped one. |
| EditDistance.DerivedCutoff | include/libenvpp/detail/edit_distance.hpp:22-30 | The derived cutoff lies in [0, 3]. |
| EditDistance.GetOrDefault | include/libenvpp/detail/edit_distance.hpp:18-31 | A non-negative explicit value is used as is; a negative one falls back to the length-derived cutoff. The result is never negative. |
| EditDistance.DefaultTable | include/libenvpp/detail/edit_distance.hpp:22-30 | Under the default, names of length 0-3, 4-6, 7-9 and 10+ get cutoffs 0, 1, 2 and 3. |
| EditDistance.DerivedCutoffMonotone | include/libenvpp/detail/edit_distance.hpp:22-30 | A longer name never gets a smaller derived cutoff. |
| EditDistance.NegativeActsAsDefault | include/libenvpp/detail/edit_distance.hpp:9-21 | Any negative explicit value behaves exactly like the default-constructed edit_distance. |
| EditDistance.ExplicitIgnoresLength | include/libenvpp/detail/edit_distance.hpp:20-21 | A non-negative explicit value is the cutoff whatever the name's length. |
| Environment.FindSimilarEnvVar | source/libenvpp_environment.cpp:12-34 | A suggestion is in the snapshot, within the cutoff, and no key is closer. There is no suggestion exactly when every key is beyond the cutoff, and always none for an empty snapshot. |
| Environment.ClosestKeyMinimisesLev | source/libenvpp_environment.cpp:20-31 | The suggestion is also closest by the uncapped edit distance, and within the cutoff by it. |
| Environment.NoneWithinMeansAllFar | source/libenvpp_environment.cpp:29-33 | No suggestion exactly when every key's uncapped edit distance exceeds the cutoff. |
| Environment.ExactNameIsClosest | source/libenvpp_environment.cpp:26-31 | When the name itself is set, whatever is suggested is at distance 0 from it. |
| Environment.PopFromEnvironment | source/libenvpp_environment.cpp:36-46 | A present name yields its value. The name is then absent and every other entry is unchanged. An absent name yields nothing and leaves the snapshot alone. |
| Errors.GetSimilarEnvVarError | source/libenvpp_errors.cpp:9-21 | An error exists exactly when the typo search suggests a key. That error carries the id and name, and its message suggests the key. The key, and only it, is consumed. With no suggestion the snapshot is unchanged. |
| Errors.SimilarMessageNamesBoth | source/libenvpp_errors.cpp:15-16 | The suggestion message names both the variable found and the one expected. |
| Errors.GetUnsetEnvVarError | source/libenvpp_errors.cpp:23-26 | The "not set" error carries the given id and name, and its message names the variable. |
| Errors.DiagnosesDiffer | source/libenvpp_errors.cpp:15-25 | A suggestion message can never be mistaken for a "not set" message. |
| Expected.Expected.ToBool | include/libenvpp/detail/expected.hpp:98 | The conversion to bool is has_value(). |
| Expected.Expected.Value | include/libenvpp/detail/expected.hpp:101-104 | value() is the held value, and the object holds exactly that. |
| Expected.Expected.Error | include/libenvpp/detail/expected.hpp:106-118 | error() is the held error, and the object holds exactly that. |
| Expected.Expected.ValueOr | include/libenvpp/detail/expected.hpp:120-129 | value_or gives the held value, or the default when an error is held. |
| Expected.FromValue | include/libenvpp/detail/expected.hpp:50-54 | Constructing from a value gives an object that has that value. |
| Expected.FromUnexpected | include/libenvpp/detail/expected.hpp:56-66 | Constructing from unexpected gives an object that holds the wrapped error. |
| Expected.AssignValue | include/libenvpp/detail/expected.hpp:68-73 | Assigning a value discards what was held; the result is as if constructed from the value. |
| Expected.AssignUnexpected | include/libenvpp/detail/expected.hpp:75-89 | Assigning an unexpected discards what was held; the result is as if constructed from it. |
| Expected.ConstructorsDistinct | include/libenvpp/detail/expected.hpp:50-66 | Value and error objects never coincide, and each constructor is injective. |
| Expected.ValueOrRoundTrip | include/libenvpp/detail/expected.hpp:120-129 | value_or returns a constructed value unchanged and always falls back on a constructed error. |
| Parser.LowerAscii | include/libenvpp/detail/parser.hpp:60-66 | Only 'A'-'Z' are folded, each to its lower-case letter. |
| Parser.ParseBool | include/libenvpp/detail/parser.hpp:58-84 | It fails exactly when the input is none of the six words, with a parser_error quoting the input. Otherwise it yields true exactly for the true words. |
| Parser.LowerAsciiIdempotent | include/libenvpp/detail/parser.hpp:60-66 | Folding twice is folding once, and lower-case letters are fixed. |
| Parser.EqualIgnoringCaseEquivalence | include/libenvpp/detail/parser.hpp:68-71 | Case-insensitive equality is reflexive, symmetric and transitive. |
| Parser.TrueAndFalseWordsDisjoint | include/libenvpp/detail/parser.hpp:73-80 | No input is both a true word and a false word. |
| Parser.ParseBoolFalseWords | include/libenvpp/detail/parser.hpp:77-80 | parse_bool answers false exactly for the false words. |
| Parser.ParseBoolTrueExamples | include/libenvpp/detail/parser.hpp:73-76 | Mixed-case true words parse as true. |
| Parser.ParseBoolFalseExamples | include/libenvpp/detail/parser.hpp:77-80 | Mixed-case false words parse as false. |
| Parser.ParseBoolRejectExamples | include/libenvpp/detail/parser.hpp:68-83 | A near miss, a digit and the empty string are rejected. |
| Parser.ParseBoolFailureQuotesInput | include/libenvpp/detail/parser.hpp:81-83 | The rejection message quotes the input. |
| Parser.ParseThenValidate | include/libenvpp/detail/parser.hpp:165-173 | It succeeds exactly when parsing succeeds and the validator accepts, returning the parsed value unchanged. Otherwise it fails with the parser's or the validator's failure. |
| Parser.DefaultValidatorAcceptsAll | include/libenvpp/detail/parser.hpp:155-173 | With the default validator, parsing and validating is just parsing. |
| Parser.FailureMessage | include/libenvpp/detail/parser.hpp:189-203 | The message starts with the failure kind's label and names the variable. |
| Parser.ParseOrError | include/libenvpp/detail/parser.hpp:177-205 | It holds a value exactly when the parser succeeds, and that value is the parser's. Otherwise it holds the labelled message naming the variable. |
| Parser.LabelsDistinguishKinds | include/libenvpp/detail/parser.hpp:189-196 | Parser, validation, range and option failures get pairwise different labels. |
| Testing.MergeEnvironments | source/libenvpp_testing.cpp:13-22 | The loop's result is the merge of the overlay over the snapshot. |
| Testing.MergedPrecedence | source/libenvpp_testing.cpp:17-21 | The merge has the union of the keys. The overlay's value wins, and a key only in the snapshot keeps its value. |
| Testing.MergedIdentity | source/libenvpp_testing.cpp:17-21 | Merging with an empty map on either side gives the other map back. |
| Testing.TestingEnvironment.constructor | source/libenvpp_testing.cpp:11 | The global overlay starts empty. |
| Testing.TestingEnvironment.Push | source/libenvpp_testing.cpp:26-37 | Corrected (see ## Findings): it fails exactly when some name of the scope is already set, with test_environment_error, and then leaves the overlay unchanged. Otherwise the scope is added to the overlay. |
| Testing.TestingEnvironment.Pop | source/libenvpp_testing.cpp:39-44 | Every name of the scope is erased. The other entries keep their values. |
| Testing.ScopedLifetime | source/libenvpp_testing.cpp:26-44 | Corrected (see ## Findings): with the corrected push, a scope's lifetime fails exactly when one of its names is already set. Whether it fails or the destructor pops it again, the overlay ends exactly as it began. |
| Testing.CollisionMessageNamesVariable | source/libenvpp_testing.cpp:31-33 | The collision message names the variable. |
| Testing.PushFrom | source/libenvpp_testing.cpp:29-36 | As written, the loop from a given position throws exactly when a later name is already set. The overlay gains exactly the names visited before the first collision, or all of them when there is none. |
| Testing.PushInOrder | source/libenvpp_testing.cpp:26-37 | As written, over an order visiting every name of the scope, the push throws exactly when some name is already set. Without a throw the scope is added. With a throw the overlay keeps the names visited before the colliding one. |
| Testing.PushInOrderLeavesPartialScope | source/libenvpp_testing.cpp:29-35 | As written, with B already set to 0, pushing {A: 1, B: 2} in the order A, B throws and leaves the overlay {A: 1, B: 0}. |
| Get.GetOr | include/libenvpp/detail/get.hpp:44-58 | It returns the parsed value of the variable in the overlay-merged environment. It returns the default when the variable is unset or does not parse. |
| Get.Get | include/libenvpp/detail/get.hpp:16-42 | A set variable yields its parsed value, or an unscoped error with parse_or_error's message. An unset one yields an unscoped error suggesting the closest key within the cutoff, or else the "not set" error. It agrees with get_or for every default. |
| Get.OverlayTakesPrecedence | include/libenvpp/detail/get.hpp:49-56 | A variable set in the overlay is read from it, whatever the process environment holds. |
| Get.ProcessEnvironmentFallback | include/libenvpp/detail/get.hpp:49-57 | A variable set only in the process environment is read from there. |
| Declarations.Declare | include/libenvpp/env.hpp:394-395 | A registered declaration has the given name, requirement and parser, and holds no value yet. |
| Declarations.CheckRange | include/libenvpp/env.hpp:407-414 | A value is accepted exactly when it parses and lies in [min, max]. A parse failure passes through, and an out-of-range value gives range_error. |
| Declarations.RangeOfOneValue | include/libenvpp/env.hpp:407-414 | With min == max, exactly that one value is accepted. |
| Declarations.OptionSet | include/libenvpp/env.hpp:425 | The option set holds exactly the listed options. |
| Declarations.DistinctIffSetAsLarge | include/libenvpp/env.hpp:425-428 | The set is as large as the list exactly when no option is listed twice. |
| Declarations.SetNoLargerThanList | include/libenvpp/env.hpp:425-428 | Deduplicating never makes the options more numerous. |
| Declarations.CheckOption | include/libenvpp/env.hpp:429-436 | A value is accepted exactly when it parses and is one of the options. A parse failure passes through, and any other value gives option_error. |
| Declarations.OptionMessageQuotesInput | include/libenvpp/env.hpp:432-433 | The option_error message quotes the rejected input. |
| Resolution.Matched | include/libenvpp/env.hpp:187-206 | After pass 1, a declaration keeps its name, requirement and parser. A value set for testing is kept. Otherwise it holds a value exactly when its full name was found and parsed. |
| Resolution.ParseFailure | include/libenvpp/env.hpp:198-204 | A parse failure is recorded with the declaration's id and unprefixed name, in a message naming the full variable. |
| Resolution.MatchDeclarations | include/libenvpp/env.hpp:185-206 | Pass 1 consumes every declared name from the snapshot and fills parsed values. It records one error per failing parse in increasing id order, and lists exactly the unset declarations in increasing order. |
| Resolution.MatchNext | include/libenvpp/env.hpp:188-205 | One iteration of pass 1 extends its outcome from the first id declarations to the first id+1. |
| Resolution.Diagnose | include/libenvpp/env.hpp:214-222 | A required declaration gets exactly one error and no warning. An optional one gets no error, and a warning only when a key was suggested. All carry the declaration's id and full name. |
| Resolution.CutoffFor | include/libenvpp/env.hpp:210-211 | The cutoff used for a declaration is never negative. |
| Resolution.DiagnoseUnmatched | include/libenvpp/env.hpp:208-223 | Pass 2 keeps the errors of pass 1 first. Its new errors belong only to required unset declarations, and every such declaration gets one. Each suggestion is a closest key of what earlier suggestions left, and suggested keys are consumed; nothing else leaves the snapshot. |
| Resolution.DiagnoseNext | include/libenvpp/env.hpp:209-222 | One iteration of pass 2 appends exactly one error with the declaration's id for a required declaration. For an optional one it appends at most one warning. The snapshot only loses entries. |
| Resolution.Pass2ErrorsOnlyRequired | include/libenvpp/env.hpp:214-222 | Every error of pass 2 belongs to a required declaration. |
| Resolution.Pass2ErrorsCoverRequired | include/libenvpp/env.hpp:214-222 | Every unset required declaration has an error with its id in pass 2. |
| Resolution.Pass2ErrorsOrdered | include/libenvpp/env.hpp:208-223 | The errors of pass 2 appear in the order of the unset declarations. |
| Resolution.Pass2WarningsPerDeclaration | include/libenvpp/env.hpp:214-219 | Each warning of pass 2 belongs to an optional unset declaration for which a key was suggested. |
| Resolution.FindUnusedEnvVars | include/libenvpp/env.hpp:244-254 | The result lists exactly the keys left in the snapshot that start with the prefix name, each once. |
| Resolution.UnusedWarning | include/libenvpp/env.hpp:225-228 | An unused-variable warning has no declaration's id, carries the variable's name, and names it in its message. |
| Resolution.WarnUnused | include/libenvpp/env.hpp:225-228 | Pass 3 keeps the earlier warnings and appends one unused-variable warning per unused key, in order. |
| Resolution.RequiredWithoutValueHasError | include/libenvpp/env.hpp:187-223 | After passes 1 and 2, a required declaration that holds no value has an error with its id. |
| Resolution.ParsedPrefix.constructor | include/libenvpp/env.hpp:180-229 | The result is exactly what the three passes give on the declarations and the overlay-merged snapshot, and it is not invalidated. |
| Resolution.ParsedPrefix.Moved | include/libenvpp/env.hpp:95 | The move constructor takes over the state of the other object, which is invalidated. |
| Resolution.ParsedPrefix.MoveFrom | include/libenvpp/env.hpp:98-106 | The move assignment takes over the state of a different object, with its validity, and always invalidates the source. |
| Resolution.ParsedPrefix.OkMeansRequiredHaveValues | include/libenvpp/env.hpp:108-140 | When ok() is true, get on any required declaration yields a value. |
| Resolution.ParsedPrefix.Ok | include/libenvpp/env.hpp:136-140 | ok() is true exactly when there are no errors and no warnings. It throws invalidated_prefix once moved from. |
| Resolution.ParsedPrefix.Errors | include/libenvpp/env.hpp:154-158 | errors() returns the recorded errors. It throws invalidated_prefix once moved from. |
| Resolution.ParsedPrefix.Warnings | include/libenvpp/env.hpp:160-164 | warnings() returns the recorded warnings. It throws invalidated_prefix once moved from. |
| Resolution.ParsedPrefix.GetRequired | include/libenvpp/env.hpp:108-119 | A required get returns the held value, or value_error naming the variable. It throws invalidated_prefix once moved from. |
| Resolution.ParsedPrefix.GetOptional | include/libenvpp/env.hpp:120-122 | An optional get returns the held value or nothing. It throws invalidated_prefix once moved from. |
| Resolution.ParsedPrefix.GetOr | include/libenvpp/env.hpp:125-134 | get_or returns the held value, or the default when there is none. It throws invalidated_prefix once moved from. |
| Resolution.ParsedPrefix.GetOrAgreesWithGet | include/libenvpp/env.hpp:120-133 | get_or is the optional get with the default filled in. |
| Registry.InvalidRangeMessage | include/libenvpp/env.hpp:402-405 | The invalid_range message names the full variable. |
| Registry.EmptyOptionMessage | include/libenvpp/env.hpp:421-423 | The empty_option message names the full variable. |
| Registry.DuplicateOptionMessage | include/libenvpp/env.hpp:426-428 | The duplicate_option message names the full variable. |
| Registry.Prefix.constructor | include/libenvpp/env.hpp:268-269 | A new prefix's name is the given name plus '_'. It has no declarations and is valid. |
| Registry.Prefix.Create | include/libenvpp/env.hpp:268-274 | Construction succeeds exactly when the name is non-empty, giving an empty, valid prefix. An empty name throws invalid_prefix. |
| Registry.Prefix.Moved | include/libenvpp/env.hpp:277 | The move constructor takes over the state of the other prefix, which is invalidated. |
| Registry.Prefix.MoveFrom | include/libenvpp/env.hpp:280-288 | The move assignment takes over the state of a different prefix and always invalidates the source. |
| Registry.Prefix.FullNameOf | include/libenvpp/env.hpp:370-373 | A full name starts with the prefix name and continues with the variable's name. |
| Registry.Prefix.Register | include/libenvpp/env.hpp:383-397 | A registration appends one valueless declaration and returns a handle to its index. It throws invalidated_prefix, changing nothing, once invalidated. |
| Registry.Prefix.RegisterRange | include/libenvpp/env.hpp:399-416 | min > max throws invalid_range first. Otherwise the registration installs a validator that accepts exactly [min, max]. |
| Registry.Prefix.RegisterOption | include/libenvpp/env.hpp:418-438 | No options throws empty_option, and a repeated option throws duplicate_option, both before the validity check. Otherwise the registration installs a validator that accepts exactly the options. |
| Registry.Prefix.SetForTesting | include/libenvpp/env.hpp:331-336 | Only the handle's declaration changes, to hold the value. It throws invalidated_prefix once invalidated. |
| Registry.Prefix.ParseAndValidate | include/libenvpp/env.hpp:338-343 | A valid prefix yields a new parsed prefix resolved from its declarations and the overlay-merged snapshot. The prefix is invalidated either way, and a second call throws invalidated_prefix. |

## Left out

- Integer widths: `int` and `std::size_t` are unbounded integers. The only overflow that matters, `cutoff + 1` at INT_MAX, is excluded by requires clauses.
- Environment.FindSimilarEnvVar: requires cutoff < INT_MAX, because the source's `edit_distance_cutoff + 1` overflows there.
- Resolution.DiagnoseUnmatched: requires cutoff < INT_MAX, for the same overflow.
- Registry.Prefix.ParseAndValidate: requires cutoff < INT_MAX, for the same overflow.
- Get.Get: requires cutoff < INT_MAX, for the same overflow.
- Levenshtein.Distance: requires a non-negative cutoff instead of modelling the `std::invalid_argument` thrown for a negative one. Every caller passes a non-negative cutoff.
- Environment.FindSimilarEnvVar: among keys at the same least distance, `std::sort` over an unordered map may put any first. The model allows any of them and does not fix one.
- Values are a small datatype (integers, booleans, strings) in place of `std::any`. Typed conversion (`construct_from_string`, `any_cast`) and the user's parsers are abstract functions.
- Declarations.CheckRange: only integer ranges are modelled.
- The formatted texts are not modelled: `help_message` on both classes, `error_message`, `warning_message` and `message_formatting_helper`. Only the per-error messages are.
- Reading the process environment (`get_environment`) is not modelled. The snapshot is a parameter.
- `register_deprecated` is not part of this model.
- The global testing overlay is an explicit `overlay` parameter of parsing and of `get`, not a hidden global.
- `scoped_test_environment` is modelled by `Push` and `Pop` on the overlay object, not by constructor and destructor lifetimes.
- The default constructor of `expected` is not modelled: it needs a default-constructible `T`.
- Expected.Expected.Value: calling `value()` on an error, or `error()` on a value, terminates the program in the source: `std::get` throws `bad_variant_access` inside a `noexcept` accessor. The model excludes the call by a precondition.
- The parser-and-validator that pass 1 moves out of the parsed object's own copy of each declaration is not modelled as moved-from. `parsed_and_validated_prefix` never parses again, so it is never called afterwards.
- Characters: a Dafny `char` stands for one C++ `char`, that is one byte, and a `string` for the bytes of a `std::string`. Lengths such as the `length()` the edit distance and the derived cutoff use count bytes, so a non-ASCII name is a sequence of its UTF-8 bytes here. The distance is defined over any alphabet, so nothing else changes.
- The `size_t(-1)` id of unscoped errors is modelled as the integer -1.
- The copy operations that the source deletes are not modelled.
- Registry.Prefix.MoveFrom: the moved-from prefix keeps its name and declarations in the model. In the source they are moved from, so they are valid but unspecified (empty in practice). The difference is visible only in the invalid_range, empty_option and duplicate_option messages of an invalidated prefix, which are built from its name before the validity check.
- Registry.Prefix.ParseAndValidate: the prefix keeps its name and declarations after being moved into the parsed object, for the same reason.
- Registry.Prefix.Moved: the move constructor likewise leaves the moved-from prefix's name and declarations in place.

## Findings

| source | as written | input that shows it | evidently intended | confidence | as-written member | corrected member |
|---|---|---|---|---|---|---|
| source/libenvpp_testing.cpp:26-37 | The constructor of `scoped_test_environment` inserts each name into the global overlay as it checks it, and throws on the first name already set. The names inserted before the throw stay in the overlay, and no destructor runs to erase them. | Overlay `{B: "0"}`, scope `{A: "1", B: "2"}`, visited A then B: it throws, and A stays set. | A failed push leaves the global overlay unchanged. | medium, not executed | Testing.PushInOrderLeavesPartialScope | Testing.TestingEnvironment.Push |

/**
 * env::edit_distance (include/libenvpp/detail/edit_distance.hpp): the cutoff used
 * when looking for a misspelt variable, either given explicitly or derived from
 * the length of the variable name.
 */
module EditDistance {

  /** An explicit cutoff, or -1 for "derive it from the name's length". */
  datatype EditDistance = EditDistance(value: int)

  /** The default-constructed edit_distance, and default_edit_distance. */
  const Default: EditDistance := EditDistance(-1)

  /** The cutoff a name of `length` characters gets when no explicit value is set. */
  function DerivedCutoff(length: nat): (r: int)
    ensures 0 <= r <= 3
  {
    if length <= 3 then 0
    else if length <= 6 then 1
    else if length <= 9 then 2
    else 3
  }

  /** get_or_default(length): the explicit value when it is non-negative, otherwise the derived one. */
  function GetOrDefault(e: EditDistance, length: nat): (r: int)
    ensures e.value >= 0 ==> r == e.value
    ensures e.value < 0 ==> r == DerivedCutoff(length)
    ensures r >= 0
  {
    if e.value >= 0 then e.value else DerivedCutoff(length)
  }

  /** The derivation table, band by band. */
  lemma DefaultTable(length: nat)
    ensures length <= 3 ==> GetOrDefault(Default, length) == 0
    ensures 4 <= length <= 6 ==> GetOrDefault(Default, length) == 1
    ensures 7 <= length <= 9 ==> GetOrDefault(Default, length) == 2
    ensures 10 <= length ==> GetOrDefault(Default, length) == 3
  {
  }

  /** A longer name never gets a smaller cutoff. */
  lemma DerivedCutoffMonotone(l1: nat, l2: nat)
    requires l1 <= l2
    ensures DerivedCutoff(l1) <= DerivedCutoff(l2)
  {
  }

  /** Any negative value, which the explicit constructor accepts, acts exactly like the default. */
  lemma NegativeActsAsDefault(v: int, length: nat)
    requires v < 0
    ensures GetOrDefault(EditDistance(v), length) == GetOrDefault(Default, length)
  {
  }

  /** A non-negative explicit value is used whatever the length. */
  lemma ExplicitIgnoresLength(v: int, l1: nat, l2: nat)
    requires v >= 0
    ensures GetOrDefault(EditDistance(v), l1) == GetOrDefault(EditDistance(v), l2) == v
  {
  }
}

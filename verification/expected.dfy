/**
 * env::expected<T, E> and env::unexpected<E> (include/libenvpp/detail/expected.hpp):
 * a value of type T, or an error of type E wrapped in `unexpected`.
 */
module Expected {

  /** unexpected<E>: an error wrapped so that it cannot be mistaken for a value. */
  datatype Unexpected<E> = Unexpected(error: E)

  /** expected<T, E>, whose variant holds either alternative. */
  datatype Expected<T, E> = HoldsValue(value: T) | HoldsError(error: E)
  {
    /** has_value(): the variant holds the T alternative. */
    predicate HasValue()
    {
      HoldsValue?
    }

    /** explicit operator bool. */
    function ToBool(): (b: bool)
      ensures b == HasValue()
    {
      HasValue()
    }

    /** value() and operator*: the held value. */
    function Value(): (v: T)
      requires HasValue()
      ensures this == HoldsValue(v)
    {
      value
    }

    /** error(): the wrapped error. */
    function Error(): (e: E)
      requires !HasValue()
      ensures this == HoldsError(e)
    {
      error
    }

    /** value_or(d): the held value, or `d` when an error is held. */
    function ValueOr(d: T): (v: T)
      ensures HasValue() ==> this == HoldsValue(v)
      ensures !HasValue() ==> v == d
    {
      if HoldsValue? then value else d
    }
  }

  /** The converting constructor from a value. */
  function FromValue<T, E>(v: T): (r: Expected<T, E>)
    ensures r.HasValue() && r.Value() == v
  {
    HoldsValue(v)
  }

  /** The constructor from unexpected<G>: the error alternative, holding the wrapped error. */
  function FromUnexpected<T, E>(u: Unexpected<E>): (r: Expected<T, E>)
    ensures !r.HasValue() && r.Error() == u.error
  {
    HoldsError(u.error)
  }

  /** operator=(value): whatever was held before is replaced by the value. */
  function AssignValue<T, E>(x: Expected<T, E>, v: T): (r: Expected<T, E>)
    ensures r.HasValue() && r.Value() == v
    ensures r == FromValue(v)
  {
    HoldsValue(v)
  }

  /** operator=(unexpected): whatever was held before is replaced by the error. */
  function AssignUnexpected<T, E>(x: Expected<T, E>, u: Unexpected<E>): (r: Expected<T, E>)
    ensures !r.HasValue() && r.Error() == u.error
    ensures r == FromUnexpected(u)
  {
    HoldsError(u.error)
  }

  /** Both constructors are injective, and the two alternatives never coincide. */
  lemma ConstructorsDistinct<T, E>(v: T, w: T, u: Unexpected<E>, u': Unexpected<E>)
    ensures FromValue<T, E>(v) != FromUnexpected<T, E>(u)
    ensures FromValue<T, E>(v) == FromValue<T, E>(w) <==> v == w
    ensures FromUnexpected<T, E>(u) == FromUnexpected<T, E>(u') <==> u == u'
  {
  }

  /** value_or never changes a held value and always falls back on an error. */
  lemma ValueOrRoundTrip<T, E>(v: T, d: T, u: Unexpected<E>)
    ensures FromValue<T, E>(v).ValueOr(d) == v
    ensures FromUnexpected<T, E>(u).ValueOr(d) == d
  {
  }
}

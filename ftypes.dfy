/**
 * The two wrapper types of the functional helpers: `Maybe`, a box around a
 * value that may be `None`, and `Either`, a value tagged as an error (left)
 * or a success (right). Every operation returns a new wrapper.
 */
module Ftypes {
  import opened Domain

  /**
   * `Maybe` stores one Python value that may be `None`; it is present exactly
   * when that value is not `None`. Storing an `Option` keeps `just(None)`
   * expressible, and it behaves as `nothing`.
   */
  datatype Maybe<T> = Maybe(stored: Option<T>) {

    /** `is_present`: the stored value is not `None`. */
    predicate IsPresent() {
      stored.Some?
    }

    /**
     * `map`: nothing stays nothing; a present value `v` becomes `just(f(v))`,
     * where `f` may itself return `None`.
     */
    function Map<R>(f: T -> Option<R>): (r: Maybe<R>)
      ensures !IsPresent() ==> r == Nothing()
      ensures IsPresent() ==> r == Just(f(stored.value))
    {
      if stored.None? then Nothing() else Just(f(stored.value))
    }

    /** `bind`: nothing stays nothing; a present value `v` gives `f(v)` as it is. */
    function Bind<R>(f: T -> Maybe<R>): (r: Maybe<R>)
      ensures !IsPresent() ==> r == Nothing()
      ensures IsPresent() ==> r == f(stored.value)
    {
      if stored.None? then Nothing() else f(stored.value)
    }

    /** `get_or_else`: the stored value when present, else the default. */
    function GetOrElse(default: T): (r: T)
      ensures IsPresent() ==> r == stored.value
      ensures !IsPresent() ==> r == default
    {
      if stored.Some? then stored.value else default
    }
  }

  /** `Maybe.just(value)`: wraps the value as it is, `None` included. */
  function Just<T>(value: Option<T>): (m: Maybe<T>)
    ensures m.IsPresent() <==> value.Some?
    ensures m.IsPresent() ==> m.stored.value == value.value
  {
    Maybe(value)
  }

  /** `Maybe.nothing()` */
  function Nothing<T>(): (m: Maybe<T>)
    ensures !m.IsPresent()
  {
    Maybe(None)
  }

  /** `Maybe.just(None)` cannot be told apart from `Maybe.nothing()`. */
  lemma JustNoneIsNothing<T>()
    ensures Just<T>(None) == Nothing<T>()
    ensures !Just<T>(None).IsPresent()
  {
  }

  // ---------------------------------------------------------------------------
  // What the Maybe operations promise

  /** `is_present` is exactly "is not `nothing()`". */
  lemma PresentIffNotNothing<T>(m: Maybe<T>)
    ensures m.IsPresent() <==> m != Nothing()
  {
  }

  /** `just(v).get_or_else(d)` gives `v` back, whatever the default. */
  lemma JustRoundTrip<T>(v: T, d: T)
    ensures Just(Some(v)).IsPresent()
    ensures Just(Some(v)).GetOrElse(d) == v
  {
  }

  /** `nothing()` absorbs `map` and `bind`, and yields the default. */
  lemma NothingAbsorbs<T, R>(f: T -> Option<R>, g: T -> Maybe<R>, d: T)
    ensures Nothing<T>().Map(f) == Nothing()
    ensures Nothing<T>().Bind(g) == Nothing()
    ensures Nothing<T>().GetOrElse(d) == d
  {
  }

  /** Re-wrapping what `get_or_else` extracts rebuilds a present `Maybe`. */
  lemma MaybeRebuild<T>(m: Maybe<T>, d: T)
    ensures m.IsPresent() ==> m == Just(Some(m.GetOrElse(d)))
    ensures !m.IsPresent() ==> m == Nothing() && m.GetOrElse(d) == d
  {
  }

  /** Left identity: binding a freshly wrapped value is applying `f` to it. */
  lemma MaybeLeftIdentity<T, R>(v: T, f: T -> Maybe<R>)
    ensures Just(Some(v)).Bind(f) == f(v)
  {
  }

  /** Right identity: binding the wrapping function changes nothing. */
  lemma MaybeRightIdentity<T>(m: Maybe<T>)
    ensures m.Bind((x: T) => Just(Some(x))) == m
  {
  }

  /** `bind` is associative. */
  lemma MaybeBindAssociative<T, R, S>(m: Maybe<T>, f: T -> Maybe<R>, g: R -> Maybe<S>)
    ensures m.Bind(f).Bind(g) == m.Bind((x: T) => f(x).Bind(g))
  {
  }

  /** `map` is `bind` followed by `just`. */
  lemma MaybeMapIsBind<T, R>(m: Maybe<T>, f: T -> Option<R>)
    ensures m.Map(f) == m.Bind((x: T) => Just(f(x)))
  {
  }

  /** Mapping the wrapping identity changes nothing, and a mapped `Maybe` is present only if the original is. */
  lemma MaybeMapLaws<T, R>(m: Maybe<T>, f: T -> Option<R>)
    ensures m.Map((x: T) => Some(x)) == m
    ensures m.Map(f).IsPresent() ==> m.IsPresent()
  {
  }

  /**
   * `Either` keeps one stored value and a side flag; `Left` carries an error,
   * `Right` a success value.
   */
  datatype Either<E, T> = Left(error: E) | Right(value: T) {

    predicate IsRight() {
      Right?
    }

    /** `is_left` is always the negation of `is_right`. */
    predicate IsLeft()
      ensures IsLeft() <==> !IsRight()
    {
      !IsRight()
    }

    /** `map`: a left keeps its error; a right `v` becomes `Right(f(v))`. */
    function Map<R>(f: T -> R): (r: Either<E, R>)
      ensures IsLeft() ==> r == Left(error)
      ensures IsRight() ==> r == Right(f(value))
    {
      if IsLeft() then Left(error) else Right(f(value))
    }

    /** `bind`: a left keeps its error; a right `v` gives `f(v)` as it is. */
    function Bind<R>(f: T -> Either<E, R>): (r: Either<E, R>)
      ensures IsLeft() ==> r == Left(error)
      ensures IsRight() ==> r == f(value)
    {
      if IsLeft() then Left(error) else f(value)
    }

    /** `get_or_else`: the right value, or the default on a left. */
    function GetOrElse(default: T): (r: T)
      ensures IsRight() ==> r == value
      ensures IsLeft() ==> r == default
    {
      if IsRight() then value else default
    }
  }

  /**
   * `unwrap` returns the stored value on either side; with typed sides that
   * is expressible when both sides share one type.
   */
  function Unwrap<V>(e: Either<V, V>): (r: V)
    ensures e.IsLeft() ==> r == e.error
    ensures e.IsRight() ==> r == e.value
  {
    match e
    case Left(x) => x
    case Right(x) => x
  }

  // ---------------------------------------------------------------------------
  // What the Either operations promise

  /** Every `Either` is on exactly one side, and `map` keeps the side. */
  lemma EitherSides<E, T, R>(e: Either<E, T>, f: T -> R)
    ensures e.IsRight() != e.IsLeft()
    ensures e.Map(f).IsRight() == e.IsRight()
    ensures e.IsLeft() ==> e.Map(f).error == e.error
  {
  }

  /** Left identity: binding a right value is applying `f` to it; a left short-circuits. */
  lemma EitherLeftIdentity<E, T, R>(v: T, err: E, f: T -> Either<E, R>)
    ensures Right(v).Bind(f) == f(v)
    ensures Left(err).Bind(f) == Left(err)
  {
  }

  /** Right identity: binding `right` changes nothing. */
  lemma EitherRightIdentity<E, T>(e: Either<E, T>)
    ensures e.Bind((x: T) => Right(x)) == e
  {
  }

  /** `bind` is associative. */
  lemma EitherBindAssociative<E, T, R, S>(e: Either<E, T>, f: T -> Either<E, R>, g: R -> Either<E, S>)
    ensures e.Bind(f).Bind(g) == e.Bind((x: T) => f(x).Bind(g))
  {
  }

  /** `map` is `bind` followed by `right`. */
  lemma EitherMapIsBind<E, T, R>(e: Either<E, T>, f: T -> R)
    ensures e.Map(f) == e.Bind((x: T) => Right(f(x)))
  {
  }

  /** Functor laws: mapping the identity changes nothing, and two maps are one map of the composition. */
  lemma EitherMapLaws<E, T, R, S>(e: Either<E, T>, f: T -> R, g: R -> S)
    ensures e.Map((x: T) => x) == e
    ensures e.Map(f).Map(g) == e.Map((x: T) => g(f(x)))
  {
  }

  /** `get_or_else` commutes with `map` when the default is mapped too. */
  lemma EitherMapGetOrElse<E, T, R>(e: Either<E, T>, f: T -> R, d: T)
    ensures e.Map(f).GetOrElse(f(d)) == f(e.GetOrElse(d))
  {
  }

  /** On a right, `unwrap` is `get_or_else` with any default; on a left it gives the error, never the default. */
  lemma UnwrapAgrees<V>(e: Either<V, V>, d: V)
    ensures e.IsRight() ==> Unwrap(e) == e.GetOrElse(d)
    ensures e.IsLeft() ==> Unwrap(e) == e.error && Unwrap(e.Map((x: V) => d)) == e.error
  {
  }

  /** `__eq__`: equal stored value and equal side flag. */
  predicate EitherEquals<E(==), T(==)>(a: Either<E, T>, b: Either<E, T>)
  {
    a.IsRight() == b.IsRight() && (if a.IsRight() then a.value == b.value else a.error == b.error)
  }

  /** The source's equality on `Either` is structural equality of the wrappers. */
  lemma EitherEqualsIsEquality<E, T>(a: Either<E, T>, b: Either<E, T>)
    ensures EitherEquals(a, b) <==> a == b
  {
  }

  /** `Maybe.__eq__`: two wrappers are equal when their stored values are. */
  predicate MaybeEquals<T(==)>(a: Maybe<T>, b: Maybe<T>)
  {
    a.stored == b.stored
  }

  /** The source's equality on `Maybe` is structural equality of the wrappers. */
  lemma MaybeEqualsIsEquality<T>(a: Maybe<T>, b: Maybe<T>)
    ensures MaybeEquals(a, b) <==> a == b
  {
  }
}

/**
 Properties of Optional that relate several operations or hold for all inputs:
 the two states, construction and extraction round trips, the functor and
 monad laws of `map` and `flatMap` (with the exact condition under which the
 `null` collapse of `of` breaks them), and the algebra of `filter`.
 */
module OptionalLaws {
  import opened JsRuntime
  import opened ExceptNoMore

  /** `isPresent` and `isEmpty` are exclusive and total, and the state is what
      `unwrap` observes. */
  lemma PresentXorEmpty<T>(o: Optional<T>)
    ensures o.IsPresent() != o.IsEmpty()
    ensures o.IsPresent() <==> o.Unwrap().Returned?
  {
  }

  /** `of` then `unwrap` gives the value back for every value but `null`,
      `undefined` included; `of(null)` is `empty()`, whose `unwrap` throws. */
  lemma OfUnwrapRoundTrip<T>(v: T)
    ensures Optional<T>.Of(Defined(v)).Unwrap() == Returned(Defined(v))
    ensures Optional<T>.Of(Undefined).Unwrap() == Returned(Undefined)
    ensures Optional<T>.Of(Null) == Optional<T>.Empty()
    ensures Optional<T>.Empty().Unwrap() == Threw(Error(EmptyOptionalUnwrap))
  {
  }

  /** `ofNullable` is `of` except that it also maps `undefined` to Empty. */
  lemma OfNullableIsOfButForUndefined<T>(x: Nullable<T>)
    ensures Optional<T>.OfNullable(x) == if x.Undefined? then Optional<T>.Empty() else Optional<T>.Of(x)
  {
  }

  /** The Optionals `ofNullable` can build are exactly those whose slot is not
      `undefined`: a Present `undefined` can only come from `of`. */
  lemma OfNullableImage<T>(o: Optional<T>)
    ensures (exists x :: Optional<T>.OfNullable(x) == o) <==> !o.UnwrapNullable().Undefined?
  {
    if !o.UnwrapNullable().Undefined? {
      assert Optional<T>.OfNullable(o.UnwrapNullable()) == o;
    }
  }

  /** `else` is the total form of `unwrap`, and `unwrapNullable` is `else(null)`. */
  lemma ElseIsTotalUnwrap<T>(o: Optional<T>, fallback: Nullable<T>)
    ensures o.Else(fallback) == match o.Unwrap() case Returned(x) => x case Threw(_) => fallback
    ensures o.UnwrapNullable() == o.Else(Null)
  {
  }

  /** Functor identity: mapping the identity changes nothing. */
  lemma MapIdentity<T>(o: Optional<T>)
    ensures o.Map(x => x) == o
  {
  }

  /** Functor composition holds exactly when the `null` collapse cannot tell
      the two sides apart: the Optional is Empty, or `f` does not return
      `null` on its value, or `g` maps `null` to `null`. */
  lemma MapComposition<T, U, V>(o: Optional<T>, f: Nullable<T> -> Nullable<U>, g: Nullable<U> -> Nullable<V>)
    ensures o.Map(f).Map(g) == o.Map(x => g(f(x))) <==>
              o.IsEmpty() || !f(o.UnwrapNullable()).Null? || g(Null).Null?
  {
  }

  /** On Empty, `map` never looks at its callback. */
  lemma MapIgnoresCallbackOnEmpty<T, U>(o: Optional<T>, f: Nullable<T> -> Nullable<U>, g: Nullable<T> -> Nullable<U>)
    requires o.IsEmpty()
    ensures o.Map(f) == o.Map(g) == Optional<U>.Empty()
  {
  }

  /** `map(f)` is `flatMap` of `f` followed by `of`. */
  lemma MapIsFlatMapOf<T, U>(o: Optional<T>, f: Nullable<T> -> Nullable<U>)
    ensures o.Map(f) == o.FlatMap(x => Optional<U>.Of(f(x)))
  {
  }

  /** Monad left identity, for every value but `null`. */
  lemma FlatMapLeftIdentity<T, U>(x: Nullable<T>, f: Nullable<T> -> Optional<U>)
    ensures Optional<T>.Of(x).FlatMap(f) == if x.Null? then Optional<U>.Empty() else f(x)
  {
  }

  /** Monad right identity: `flatMap(of)` changes nothing. */
  lemma FlatMapRightIdentity<T>(o: Optional<T>)
    ensures o.FlatMap(x => Optional<T>.Of(x)) == o
  {
  }

  /** Monad associativity. */
  lemma FlatMapAssociative<T, U, V>(o: Optional<T>, f: Nullable<T> -> Optional<U>, g: Nullable<U> -> Optional<V>)
    ensures o.FlatMap(f).FlatMap(g) == o.FlatMap(x => f(x).FlatMap(g))
  {
  }

  /** Filtering twice by the same predicate is filtering once. */
  lemma FilterIdempotent<T>(o: Optional<T>, p: Nullable<T> -> bool)
    ensures o.Filter(p).Filter(p) == o.Filter(p)
  {
  }

  /** Two filters in a row are one filter by the conjunction. */
  lemma FilterConjunction<T>(o: Optional<T>, p: Nullable<T> -> bool, q: Nullable<T> -> bool)
    ensures o.Filter(p).Filter(q) == o.Filter(x => p(x) && q(x))
  {
  }

  /** `filter` is a `flatMap` that keeps or drops the value. */
  lemma FilterIsFlatMap<T>(o: Optional<T>, p: Nullable<T> -> bool)
    ensures o.Filter(p) == o.FlatMap(x => if p(x) then Optional<T>.Of(x) else Optional<T>.Empty())
  {
  }

  /** The predicate is only ever applied to a Present value: two predicates
      give the same `filter` on every Optional exactly when they agree on
      every value but `null`. */
  lemma FilterDeterminedByPresentValues<T>(p: Nullable<T> -> bool, q: Nullable<T> -> bool)
    ensures (forall o: Optional<T> :: o.Filter(p) == o.Filter(q)) <==>
            (forall x: Nullable<T> :: !x.Null? ==> p(x) == q(x))
  {
    if forall o: Optional<T> :: o.Filter(p) == o.Filter(q) {
      forall x: Nullable<T> | !x.Null?
        ensures p(x) == q(x)
      {
        assert Optional<T>.Of(x).Filter(p) == Optional<T>.Of(x).Filter(q);
      }
    }
  }

  /** Chaining `ifPresent` and `ifEmpty`, and `if` with both handlers, fire
      exactly one handler; `if` is `ifPresent` followed by `ifEmpty`. */
  lemma ChainedHandlersFireOnce<T>(o: Optional<T>)
    ensures |o.IfPresent().calls + o.IfPresent().receiver.IfEmpty().calls| == 1
    ensures o.If(true).calls == o.IfPresent().calls + o.IfPresent().receiver.IfEmpty().calls
    ensures o.If(false).calls == o.IfPresent().calls
  {
  }

  /** `fromThrower` cannot tell one thrown value from another. */
  lemma FromThrowerDiscardsThrown<T, E>(t1: E, t2: E)
    ensures Optional<T>.FromThrower(Threw(t1)) == Optional<T>.FromThrower(Threw(t2)) == Optional<T>.Empty()
  {
  }
}

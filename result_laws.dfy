/**
 Properties of Result that relate several operations or hold for all inputs:
 the ok/err states of the constructors, `else`/`elseErr` as total extractors,
 the functor and monad laws of the combinators on both slots, the
 well-formedness invariant, which handler `if` fires, and how the `??` in
 `fromThrowerAsync` differs from `fromThrower`.
 */
module ResultLaws {
  import opened JsRuntime
  import opened ExceptNoMore

  /** `ok` and `err` of a payload other than `null` are Ok xor Err and hand the
      payload back; `ok(null)` and `err(null)` are both neither Ok nor Err. */
  lemma OkXorErr<TOk, TErr>(v: Nullable<TOk>, e: Nullable<TErr>)
    ensures !v.Null? ==> Result<TOk, TErr>.Ok(v).IsOk() && !Result<TOk, TErr>.Ok(v).IsErr()
    ensures !v.Null? ==> Result<TOk, TErr>.Ok(v).Unwrap() == Returned(v)
    ensures !e.Null? ==> Result<TOk, TErr>.Err(e).IsErr() && !Result<TOk, TErr>.Err(e).IsOk()
    ensures !e.Null? ==> Result<TOk, TErr>.Err(e).UnwrapErr() == Returned(e)
    ensures Result<TOk, TErr>.Ok(Null) == Result<TOk, TErr>.Err(Null)
    ensures !Result<TOk, TErr>.Ok(Null).IsOk() && !Result<TOk, TErr>.Ok(Null).IsErr()
  {
  }

  /** The getters `isOk` and `isErr` hold exactly when `unwrap` and
      `unwrapErr` return, and `isOk` is what `toOptional` keeps; on a
      well-formed Result they never hold together. */
  lemma GettersAgreeWithExtractors<TOk, TErr>(r: Result<TOk, TErr>)
    ensures r.IsOk() <==> r.Unwrap().Returned?
    ensures r.IsErr() <==> r.UnwrapErr().Returned?
    ensures r.IsOk() <==> r.ToOptional().IsPresent()
    ensures r.WellFormed() ==> !(r.IsOk() && r.IsErr())
  {
  }

  /** `else` and `elseErr` are the total forms of `unwrap` and `unwrapErr`. */
  lemma ElseIsTotalUnwrap<TOk, TErr>(r: Result<TOk, TErr>, okFallback: Nullable<TOk>, errFallback: Nullable<TErr>)
    ensures r.Else(okFallback) == match r.Unwrap() case Returned(x) => x case Threw(_) => okFallback
    ensures r.ElseErr(errFallback) == match r.UnwrapErr() case Returned(x) => x case Threw(_) => errFallback
  {
  }

  /** Mapping the identity over either slot changes exactly the well-formed
      Results not at all. */
  lemma MapIdentity<TOk, TErr>(r: Result<TOk, TErr>)
    ensures r.Map(x => x) == r <==> r.WellFormed()
    ensures r.MapErr(x => x) == r <==> r.WellFormed()
  {
  }

  /** Functor composition of `map` holds exactly when the `null` collapse of
      `ok` cannot tell the two sides apart. */
  lemma MapComposition<TOk, U, V, TErr>(r: Result<TOk, TErr>, f: Nullable<TOk> -> Nullable<U>, g: Nullable<U> -> Nullable<V>)
    ensures r.Map(f).Map(g) == r.Map(x => g(f(x))) <==>
              !r.IsOk() || !f(r.okValue).Null? || g(Null).Null?
  {
  }

  /** The mirror image for `mapErr`. */
  lemma MapErrComposition<TOk, TErr, U, V>(r: Result<TOk, TErr>, f: Nullable<TErr> -> Nullable<U>, g: Nullable<U> -> Nullable<V>)
    ensures r.MapErr(f).MapErr(g) == r.MapErr(x => g(f(x))) <==>
              !r.IsErr() || !f(r.errValue).Null? || g(Null).Null?
  {
  }

  /** `map` never looks at its callback unless Ok, `mapErr` unless Err. */
  lemma MapIgnoresCallbackOffState<TOk, TErr, U>(r: Result<TOk, TErr>,
                                                 f: Nullable<TOk> -> Nullable<U>, g: Nullable<TOk> -> Nullable<U>,
                                                 h: Nullable<TErr> -> Nullable<U>, k: Nullable<TErr> -> Nullable<U>)
    ensures !r.IsOk() ==> r.Map(f) == r.Map(g)
    ensures !r.IsErr() ==> r.MapErr(h) == r.MapErr(k)
  {
  }

  /** `map(f)` is `flatMap` of `f` followed by `ok`, and `mapErr(f)` is
      `flatMapErr` of `f` followed by `err`. */
  lemma MapIsFlatMapOfOk<TOk, TErr, U>(r: Result<TOk, TErr>, f: Nullable<TOk> -> Nullable<U>, h: Nullable<TErr> -> Nullable<U>)
    ensures r.Map(f) == r.FlatMap(x => Result<U, TErr>.Ok(f(x)))
    ensures r.MapErr(h) == r.FlatMapErr(x => Result<TOk, U>.Err(h(x)))
  {
  }

  /** Monad left identity of `flatMap` and `flatMapErr`, for every payload but
      `null`. */
  lemma FlatMapLeftIdentity<TOk, TErr, U>(v: Nullable<TOk>, e: Nullable<TErr>,
                                          f: Nullable<TOk> -> Result<U, TErr>, h: Nullable<TErr> -> Result<TOk, U>)
    ensures !v.Null? ==> Result<TOk, TErr>.Ok(v).FlatMap(f) == f(v)
    ensures !e.Null? ==> Result<TOk, TErr>.Err(e).FlatMapErr(h) == h(e)
  {
  }

  /** Monad right identity holds exactly for the well-formed Results. */
  lemma FlatMapRightIdentity<TOk, TErr>(r: Result<TOk, TErr>)
    ensures r.FlatMap(x => Result<TOk, TErr>.Ok(x)) == r <==> r.WellFormed()
    ensures r.FlatMapErr(x => Result<TOk, TErr>.Err(x)) == r <==> r.WellFormed()
  {
  }

  /** Monad associativity of `flatMap`. */
  lemma FlatMapAssociative<TOk, TErr, U, V>(r: Result<TOk, TErr>, f: Nullable<TOk> -> Result<U, TErr>, g: Nullable<U> -> Result<V, TErr>)
    ensures r.FlatMap(f).FlatMap(g) == r.FlatMap(x => f(x).FlatMap(g))
  {
  }

  /** Monad associativity of `flatMapErr`. */
  lemma FlatMapErrAssociative<TOk, TErr, U, V>(r: Result<TOk, TErr>, f: Nullable<TErr> -> Result<TOk, U>, g: Nullable<U> -> Result<TOk, V>)
    ensures r.FlatMapErr(f).FlatMapErr(g) == r.FlatMapErr(x => f(x).FlatMapErr(g))
  {
  }

  /** `flatMap` and `flatMapErr` keep the Result well-formed when their
      callback only builds well-formed Results. */
  lemma FlatMapPreservesWellFormed<TOk, TErr, U>(r: Result<TOk, TErr>, f: Nullable<TOk> -> Result<U, TErr>, h: Nullable<TErr> -> Result<TOk, U>)
    requires forall x :: f(x).WellFormed()
    requires forall x :: h(x).WellFormed()
    ensures r.FlatMap(f).WellFormed()
    ensures r.FlatMapErr(h).WellFormed()
  {
  }

  /** On a well-formed Result, `if` fires exactly the handler matching the
      state, the err-handler only when one is supplied, and nothing on a
      Result that is neither Ok nor Err. */
  lemma IfFiresMatchingHandler<TOk, TErr>(r: Result<TOk, TErr>, hasErrHandler: bool)
    requires r.WellFormed()
    ensures r.If(hasErrHandler).calls ==
              if r.IsOk() then [OkCall(r.okValue)]
              else if r.IsErr() && hasErrHandler then [ErrCall(r.errValue)]
              else []
  {
  }

  /** Chaining `ifOk` and `ifErr` on a Result that is Ok xor Err fires exactly
      one handler. */
  lemma ChainedHandlersFireOnce<TOk, TErr>(r: Result<TOk, TErr>)
    requires r.IsOk() != r.IsErr()
    ensures |r.IfOk().calls + r.IfOk().receiver.IfErr().calls| == 1
    ensures r.If(true).calls == r.IfOk().calls + r.IfOk().receiver.IfErr().calls
  {
  }

  /** A thrown `null` makes `fromThrower` build a Result that is neither Ok nor
      Err, while `fromThrowerAsync` builds an Err holding the synthetic
      `Error`. */
  lemma ThrownNullOutcomes<TOk, TErr>(newError: string -> TErr)
    ensures var r := Result<TOk, TErr>.FromThrower(Threw(Null)); !r.IsOk() && !r.IsErr()
    ensures Result<TOk, TErr>.FromThrowerAsync(Threw(Null), newError) ==
              Result<TOk, TErr>.Err(Defined(newError(EmptyRejection)))
  {
  }

  /** `fromThrowerAsync` agrees with `fromThrower` except on a thrown `null` or
      `undefined`. */
  lemma FromThrowerAsyncAgreement<TOk, TErr>(c: Completion<Nullable<TOk>, Nullable<TErr>>, newError: string -> TErr)
    ensures Result<TOk, TErr>.FromThrowerAsync(c, newError) == Result<TOk, TErr>.FromThrower(c) <==>
              !(c.Threw? && c.thrown.IsAbsent())
  {
  }
}

/**
 The conversion bridge between Optional and Result: `fromOptional`/`toResult`
 and `fromResult`/`toOptional`. Going Optional to Result and back is the
 identity; going Result to Optional and back loses the error payload.
 */
module ConversionLaws {
  import opened JsRuntime
  import opened ExceptNoMore

  /** `fromResult` undoes `fromOptional`, whatever the error supplied. */
  lemma FromResultUndoesFromOptional<T, TErr>(o: Optional<T>, e: Nullable<TErr>)
    ensures Optional<T>.FromResult(Result<T, TErr>.FromOptional(o, e)) == o
    ensures o.ToResult(e).ToOptional() == o
  {
  }

  /** For a fixed error, `fromOptional` is one-to-one: Optional<T> embeds in
      Result<T, TErr>. */
  lemma FromOptionalInjective<T, TErr>(o1: Optional<T>, o2: Optional<T>, e: Nullable<TErr>)
    requires Result<T, TErr>.FromOptional(o1, e) == Result<T, TErr>.FromOptional(o2, e)
    ensures o1 == o2
  {
    FromResultUndoesFromOptional(o1, e);
    FromResultUndoesFromOptional(o2, e);
  }

  /** `of(v).toResult(e).toOptional()` is `of(v)`. */
  lemma OfToResultToOptional<T, TErr>(v: Nullable<T>, e: Nullable<TErr>)
    ensures Optional<T>.Of(v).ToResult(e).ToOptional() == Optional<T>.Of(v)
  {
  }

  /** An Ok Result survives the trip through Optional; an Err Result comes
      back holding the second error, the first one lost. */
  lemma RoundTripThroughOptional<T, TErr>(v: Nullable<T>, e1: Nullable<TErr>, e2: Nullable<TErr>)
    ensures !v.Null? ==> Result<T, TErr>.Ok(v).ToOptional().ToResult(e2) == Result<T, TErr>.Ok(v)
    ensures Result<T, TErr>.Err(e1).ToOptional().ToResult(e2) == Result<T, TErr>.Err(e2)
    ensures Result<T, TErr>.Err(e1).ToOptional() == Result<T, TErr>.Err(e2).ToOptional()
  {
  }

  /** Result to Optional and back gives the same Result exactly for an Ok
      Result with an empty err slot, and for `err(e)` itself. */
  lemma FromOptionalOfFromResult<T, TErr>(r: Result<T, TErr>, e: Nullable<TErr>)
    ensures Result<T, TErr>.FromOptional(Optional<T>.FromResult(r), e) == r <==>
              r == Result<T, TErr>.Err(e) || (r.IsOk() && !r.IsErr())
  {
  }

  /** The Results `fromOptional(·, e)` can build are exactly the Ok Results
      with an empty err slot, and `err(e)`. */
  lemma FromOptionalImage<T, TErr>(r: Result<T, TErr>, e: Nullable<TErr>)
    ensures (exists o :: Result<T, TErr>.FromOptional(o, e) == r) <==>
              r == Result<T, TErr>.Err(e) || (r.IsOk() && !r.IsErr())
  {
    if r == Result<T, TErr>.Err(e) || (r.IsOk() && !r.IsErr()) {
      FromOptionalOfFromResult(r, e);
      assert Result<T, TErr>.FromOptional(Optional<T>.FromResult(r), e) == r;
    }
  }

  /** `toOptional` commutes with `map`. */
  lemma ToOptionalCommutesWithMap<T, TErr, U>(r: Result<T, TErr>, f: Nullable<T> -> Nullable<U>)
    ensures r.Map(f).ToOptional() == r.ToOptional().Map(f)
  {
  }

  /** `Optional.fromThrower` is `Result.fromThrower` with the error dropped,
      and so is `Result.fromThrowerAsync`. */
  lemma FromThrowerThroughResult<T, E>(c: Completion<Nullable<T>, Nullable<E>>, newError: string -> E)
    ensures Optional<T>.FromThrower(c) == Result<T, E>.FromThrower(c).ToOptional()
    ensures Optional<T>.FromThrower(c) == Result<T, E>.FromThrowerAsync(c, newError).ToOptional()
  {
  }
}

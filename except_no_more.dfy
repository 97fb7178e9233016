/**
 The two immutable wrapper types, Optional and Result, and the conversions
 between them. They depend on each other, so they share one module.

 Both keep the source's storage: an Optional has one nullable slot and is
 Empty exactly when that slot holds `null`; a Result has an ok slot and an err
 slot, each read as populated when it is not `null`. `undefined` is a value
 like any other for these `=== null` tests, and only `ofNullable` and the
 `??` in `fromThrowerAsync` treat it as absent.
 */
module ExceptNoMore {
  import opened JsRuntime

  /** Messages of the `Error` objects that the source itself creates. */
  const EmptyOptionalUnwrap := "Cannot call unwrap on empty optional"
  const ErrResultUnwrap := "Cannot call unwrap on error result"
  const OkResultUnwrapErr := "Cannot call unwrapErr on ok result"
  const EmptyRejection := "Catched empty exception, this may indicate a Promise that rejected and did not pass any error"

  /** One invocation of a handler given to `ifPresent`, `ifEmpty` or `if`. */
  datatype OptionalCall<T> = PresentCall(arg: Nullable<T>) | EmptyCall

  /** One invocation of a handler given to `ifOk`, `ifErr` or `if`. */
  datatype ResultCall<TOk, TErr> = OkCall(okArg: Nullable<TOk>) | ErrCall(errArg: Nullable<TErr>)

  /** What a conditional handler yields: the wrapper it returns for chaining,
      and the handler invocations it made, in order. */
  datatype Chained<W, C> = Chained(receiver: W, calls: seq<C>)

  /** `Optional<T>`: a single slot that is Empty when it holds `null`. */
  datatype Optional<T> = Optional(value: Nullable<T>) {

    /** `isEmpty`: the slot holds `null`. */
    predicate IsEmpty() {
      value.Null?
    }

    /** `isPresent`: the negation of `isEmpty`. */
    predicate IsPresent() {
      !IsEmpty()
    }

    /** `unwrap()`: the value, or an `Error` thrown on an Empty Optional. */
    function Unwrap(): (u: Completion<Nullable<T>, Error>)
      ensures u.Threw? <==> IsEmpty()
      ensures u.Threw? ==> u.thrown == Error(EmptyOptionalUnwrap)
      ensures u.Returned? ==> !u.value.Null?
    {
      if IsEmpty() then Threw(Error(EmptyOptionalUnwrap)) else Returned(value)
    }

    /** `unwrapNullable()`: never throws; `null` exactly when Empty, otherwise
        what `unwrap()` returns. */
    function UnwrapNullable(): (x: Nullable<T>)
      ensures x.Null? <==> IsEmpty()
      ensures !x.Null? ==> Unwrap() == Returned(x)
    {
      value
    }

    /** `Optional.of(value)`: Present unless the value is `null`, and the value
        is what `unwrapNullable` gives back. */
    static function Of(x: Nullable<T>): (o: Optional<T>)
      ensures o.IsPresent() <==> !x.Null?
      ensures o.UnwrapNullable() == x
      ensures !x.Null? ==> o.Unwrap() == Returned(x)
    {
      Optional(x)
    }

    /** `Optional.empty()`. */
    static function Empty(): (o: Optional<T>)
      ensures o.IsEmpty()
      ensures o.Unwrap() == Threw(Error(EmptyOptionalUnwrap))
    {
      Optional(Null)
    }

    /** `Optional.ofNullable(value)`: Empty exactly for `null` and `undefined`. */
    static function OfNullable(x: Nullable<T>): (o: Optional<T>)
      ensures o.IsEmpty() <==> x.IsAbsent()
      ensures o.IsPresent() ==> o.Unwrap() == Returned(x)
    {
      if x.Undefined? || x.Null? then Empty() else Of(x)
    }

    /** `Optional.fromResult(result)`: Present exactly when the Result is Ok,
        and then holding what the Result's `unwrap()` returns. */
    static function FromResult<TErr>(r: Result<T, TErr>): (o: Optional<T>)
      ensures o.IsPresent() <==> r.IsOk()
      ensures r.IsOk() ==> o.Unwrap() == r.Unwrap()
    {
      if r.IsOk() then Of(r.Unwrap().value) else Empty()
    }

    /** `Optional.fromThrower(callback)`, given how the callback ended: what it
        returned is wrapped by `of`, and whatever it threw is discarded. */
    static function FromThrower<E>(c: Completion<Nullable<T>, E>): (o: Optional<T>)
      ensures c.Threw? ==> o.IsEmpty()
      ensures c.Returned? ==> (o.IsPresent() <==> !c.value.Null?)
      ensures c.Returned? && !c.value.Null? ==> o.Unwrap() == Returned(c.value)
    {
      match c
      case Returned(x) => Of(x)
      case Threw(_) => Empty()
    }

    /** `toResult(errIfEmpty)`: Ok with the value when Present, otherwise an
        Err holding `errIfEmpty`. */
    function ToResult<TErr>(errIfEmpty: Nullable<TErr>): (r: Result<T, TErr>)
      ensures r.IsOk() <==> IsPresent()
      ensures IsPresent() ==> r.Unwrap() == Unwrap() && !r.IsErr()
      ensures IsEmpty() ==> r == Result<T, TErr>.Err(errIfEmpty)
    {
      Result<T, TErr>.FromOptional(this, errIfEmpty)
    }

    /** `else(value)`: never throws; what `unwrap()` returns when Present,
        otherwise the fallback. */
    function Else(fallback: Nullable<T>): (x: Nullable<T>)
      ensures IsEmpty() ==> x == fallback
      ensures IsPresent() ==> Unwrap() == Returned(x)
    {
      if IsEmpty() then fallback else value
    }

    /** `map(f)`: Empty stays Empty and `f` is not applied; a Present value is
        passed to `f` and the result is wrapped by `of`. */
    function Map<O>(f: Nullable<T> -> Nullable<O>): (r: Optional<O>)
      ensures IsEmpty() ==> r.IsEmpty()
      ensures IsPresent() ==> (r.IsPresent() <==> !f(value).Null?)
      ensures IsPresent() ==> r.UnwrapNullable() == f(value)
    {
      if IsEmpty() then Optional<O>.Empty() else Optional<O>.Of(f(value))
    }

    /** `flatMap(f)`: Empty stays Empty and `f` is not applied; on a Present
        value the result is `f`'s Optional itself, not wrapped again. */
    function FlatMap<O>(f: Nullable<T> -> Optional<O>): (r: Optional<O>)
      ensures IsEmpty() ==> r.IsEmpty()
      ensures IsPresent() ==> r == f(value)
    {
      if IsEmpty() then Optional<O>.Empty() else f(value)
    }

    /** `filter(predicate)`: the receiver itself when it is Present and the
        predicate holds of its value, otherwise Empty. */
    function Filter(p: Nullable<T> -> bool): (r: Optional<T>)
      ensures r.IsPresent() <==> IsPresent() && p(value)
      ensures r.IsPresent() ==> r == this
    {
      if IsPresent() && p(value) then this else Empty()
    }

    /** `ifPresent(f)`: returns the receiver; calls `f` once, with the value,
        exactly when Present. */
    function IfPresent(): (c: Chained<Optional<T>, OptionalCall<T>>)
      ensures c.receiver == this
      ensures |c.calls| <= 1
      ensures c.calls != [] <==> IsPresent()
      ensures c.calls != [] ==> c.calls[0].PresentCall? && Unwrap() == Returned(c.calls[0].arg)
    {
      Chained(this, if IsPresent() then [PresentCall(value)] else [])
    }

    /** `ifEmpty(f)`: returns the receiver; calls `f` once exactly when Empty. */
    function IfEmpty(): (c: Chained<Optional<T>, OptionalCall<T>>)
      ensures c.receiver == this
      ensures c.calls == [] || c.calls == [EmptyCall]
      ensures c.calls != [] <==> IsEmpty()
    {
      Chained(this, if IsEmpty() then [EmptyCall] else [])
    }

    /** `if(fPresent, fEmpty?)`: runs `ifPresent(fPresent)` and then, when an
        empty-handler is supplied, `ifEmpty(fEmpty)`; returns the receiver.
        At most one handler fires, the one matching the state. */
    function If(hasEmptyHandler: bool): (c: Chained<Optional<T>, OptionalCall<T>>)
      ensures c.receiver == this
      ensures |c.calls| <= 1
      ensures IsPresent() ==> c.calls == [PresentCall(value)]
      ensures IsEmpty() ==> (c.calls == [EmptyCall] <==> hasEmptyHandler)
      ensures IsEmpty() && !hasEmptyHandler ==> c.calls == []
    {
      Chained(this, IfPresent().calls + (if hasEmptyHandler then IfEmpty().calls else []))
    }
  }

  /** `Result<TOk, TErr>`: an ok slot and an err slot, each populated when it
      does not hold `null`. */
  datatype Result<TOk, TErr> = Result(okValue: Nullable<TOk>, errValue: Nullable<TErr>) {

    /** `isOk`: the ok slot is not `null`. */
    predicate IsOk() {
      !okValue.Null?
    }

    /** `isErr`: the err slot is not `null`. */
    predicate IsErr() {
      !errValue.Null?
    }

    /** The private constructor is only ever called with one of its two
        arguments `null`, so no Result is both Ok and Err. */
    predicate WellFormed() {
      !(IsOk() && IsErr())
    }

    /** `unwrap()`: the ok slot, or an `Error` thrown when it is `null`. */
    function Unwrap(): (u: Completion<Nullable<TOk>, Error>)
      ensures u.Threw? <==> !IsOk()
      ensures u.Threw? ==> u.thrown == Error(ErrResultUnwrap)
      ensures u.Returned? ==> !u.value.Null?
    {
      if okValue.Null? then Threw(Error(ErrResultUnwrap)) else Returned(okValue)
    }

    /** `unwrapErr()`: the err slot, or an `Error` thrown when it is `null`. */
    function UnwrapErr(): (u: Completion<Nullable<TErr>, Error>)
      ensures u.Threw? <==> !IsErr()
      ensures u.Threw? ==> u.thrown == Error(OkResultUnwrapErr)
      ensures u.Returned? ==> !u.value.Null?
    {
      if errValue.Null? then Threw(Error(OkResultUnwrapErr)) else Returned(errValue)
    }

    /** `Result.ok(value)`: never Err; Ok unless the value is `null`, and then
        `unwrap()` gives the value back. */
    static function Ok(v: Nullable<TOk>): (r: Result<TOk, TErr>)
      ensures r.WellFormed() && !r.IsErr()
      ensures r.IsOk() <==> !v.Null?
      ensures !v.Null? ==> r.Unwrap() == Returned(v)
    {
      Result(v, Null)
    }

    /** `Result.err(value)`: never Ok; Err unless the value is `null`, and then
        `unwrapErr()` gives the value back. */
    static function Err(e: Nullable<TErr>): (r: Result<TOk, TErr>)
      ensures r.WellFormed() && !r.IsOk()
      ensures r.IsErr() <==> !e.Null?
      ensures !e.Null? ==> r.UnwrapErr() == Returned(e)
    {
      Result(Null, e)
    }

    /** `Result.fromOptional(optional, errIfEmpty)`: Ok with the Optional's
        value when it is Present, otherwise `err(errIfEmpty)`. */
    static function FromOptional(optional: Optional<TOk>, errIfEmpty: Nullable<TErr>): (r: Result<TOk, TErr>)
      ensures r.WellFormed()
      ensures r.IsOk() <==> optional.IsPresent()
      ensures optional.IsPresent() ==> r.Unwrap() == optional.Unwrap()
      ensures optional.IsEmpty() ==> r == Err(errIfEmpty)
    {
      if optional.IsEmpty() then Err(errIfEmpty) else Ok(optional.Unwrap().value)
    }

    /** `Result.fromThrower(callback)`, given how the callback ended: what it
        returned is wrapped by `ok`, what it threw by `err`. A thrown `null`
        therefore yields a Result that is neither Ok nor Err. */
    static function FromThrower(c: Completion<Nullable<TOk>, Nullable<TErr>>): (r: Result<TOk, TErr>)
      ensures r.WellFormed()
      ensures c.Returned? ==> !r.IsErr() && (r.IsOk() <==> !c.value.Null?)
      ensures c.Returned? && !c.value.Null? ==> r.Unwrap() == Returned(c.value)
      ensures c.Threw? ==> !r.IsOk() && (r.IsErr() <==> !c.thrown.Null?)
      ensures c.Threw? && !c.thrown.Null? ==> r.UnwrapErr() == Returned(c.thrown)
    {
      match c
      case Returned(x) => Ok(x)
      case Threw(t) => Err(t)
    }

    /** `Result.fromThrowerAsync(callback)`, given how the awaited callback
        ended. As `fromThrower`, except that a thrown `null` or `undefined` is
        replaced by `newError` applied to the fixed message: the host's
        `new Error(message)`. So a throw always yields an Err. `newError` is
        how a `JsRuntime.Error` is seen as a value of the error type `TErr`. */
    static function FromThrowerAsync(c: Completion<Nullable<TOk>, Nullable<TErr>>, newError: string -> TErr): (r: Result<TOk, TErr>)
      ensures r.WellFormed()
      ensures c.Returned? ==> r == FromThrower(c)
      ensures c.Threw? ==> r.IsErr() && !r.IsOk()
      ensures c.Threw? && !c.thrown.IsAbsent() ==> r.UnwrapErr() == Returned(c.thrown)
      ensures c.Threw? && c.thrown.IsAbsent() ==> r.UnwrapErr() == Returned(Defined(newError(EmptyRejection)))
    {
      match c
      case Returned(x) => Ok(x)
      case Threw(t) => Err(if t.IsAbsent() then Defined(newError(EmptyRejection)) else t)
    }

    /** `toOptional()`: Present exactly when Ok, holding what `unwrap()`
        returns; the err slot is discarded. */
    function ToOptional(): (o: Optional<TOk>)
      ensures o.IsPresent() <==> IsOk()
      ensures IsOk() ==> o.Unwrap() == Unwrap()
    {
      Optional<TOk>.FromResult(this)
    }

    /** `else(value)`: never throws; what `unwrap()` returns when Ok,
        otherwise the fallback. */
    function Else(fallback: Nullable<TOk>): (x: Nullable<TOk>)
      ensures !IsOk() ==> x == fallback
      ensures IsOk() ==> Unwrap() == Returned(x)
    {
      if IsOk() then okValue else fallback
    }

    /** `elseErr(value)`: never throws; what `unwrapErr()` returns when Err,
        otherwise the fallback. */
    function ElseErr(fallback: Nullable<TErr>): (x: Nullable<TErr>)
      ensures !IsErr() ==> x == fallback
      ensures IsErr() ==> UnwrapErr() == Returned(x)
    {
      if IsErr() then errValue else fallback
    }

    /** `ifOk(f)`: returns the receiver; calls `f` once, with the ok value,
        exactly when Ok. */
    function IfOk(): (c: Chained<Result<TOk, TErr>, ResultCall<TOk, TErr>>)
      ensures c.receiver == this
      ensures |c.calls| <= 1
      ensures c.calls != [] <==> IsOk()
      ensures c.calls != [] ==> c.calls[0].OkCall? && Unwrap() == Returned(c.calls[0].okArg)
    {
      Chained(this, if IsOk() then [OkCall(okValue)] else [])
    }

    /** `ifErr(f)`: returns the receiver; calls `f` once, with the err value,
        exactly when Err. */
    function IfErr(): (c: Chained<Result<TOk, TErr>, ResultCall<TOk, TErr>>)
      ensures c.receiver == this
      ensures |c.calls| <= 1
      ensures c.calls != [] <==> IsErr()
      ensures c.calls != [] ==> c.calls[0].ErrCall? && UnwrapErr() == Returned(c.calls[0].errArg)
    {
      Chained(this, if IsErr() then [ErrCall(errValue)] else [])
    }

    /** `if(fOk, fErr?)`: runs `ifOk(fOk)` and then, when an err-handler is
        supplied, `ifErr(fErr)`; returns the receiver. On a well-formed Result
        at most one handler fires, the one matching the state. */
    function If(hasErrHandler: bool): (c: Chained<Result<TOk, TErr>, ResultCall<TOk, TErr>>)
      ensures c.receiver == this
      ensures WellFormed() ==> |c.calls| <= 1
      ensures IsOk() ==> c.calls != [] && c.calls[0] == OkCall(okValue)
      ensures WellFormed() && IsOk() ==> c.calls == [OkCall(okValue)]
      ensures !IsOk() && IsErr() ==> (c.calls == [ErrCall(errValue)] <==> hasErrHandler)
      ensures !IsOk() && !(IsErr() && hasErrHandler) ==> c.calls == []
      ensures !hasErrHandler ==> forall call <- c.calls :: call.OkCall?
    {
      Chained(this, IfOk().calls + (if hasErrHandler then IfErr().calls else []))
    }

    /** `map(f)`: on Ok the ok value is passed to `f` and the result wrapped by
        `ok`; otherwise `err` of the err slot, without applying `f`. */
    function Map<TOk2>(f: Nullable<TOk> -> Nullable<TOk2>): (r: Result<TOk2, TErr>)
      ensures r.WellFormed()
      ensures IsOk() ==> !r.IsErr() && (r.IsOk() <==> !f(okValue).Null?)
      ensures IsOk() && !f(okValue).Null? ==> r.Unwrap() == Returned(f(okValue))
      ensures !IsOk() ==> !r.IsOk() && r.UnwrapErr() == UnwrapErr()
    {
      if IsOk() then Result<TOk2, TErr>.Ok(f(okValue)) else Result<TOk2, TErr>.Err(errValue)
    }

    /** `mapErr(f)`: the mirror image of `map` on the err slot. */
    function MapErr<TErr2>(f: Nullable<TErr> -> Nullable<TErr2>): (r: Result<TOk, TErr2>)
      ensures r.WellFormed()
      ensures IsErr() ==> !r.IsOk() && (r.IsErr() <==> !f(errValue).Null?)
      ensures IsErr() && !f(errValue).Null? ==> r.UnwrapErr() == Returned(f(errValue))
      ensures !IsErr() ==> !r.IsErr() && r.Unwrap() == Unwrap()
    {
      if IsErr() then Result<TOk, TErr2>.Err(f(errValue)) else Result<TOk, TErr2>.Ok(okValue)
    }

    /** `flatMap(f)`: on Ok the result is `f`'s Result itself, not wrapped
        again; otherwise `err` of the err slot, without applying `f`. */
    function FlatMap<TOk2>(f: Nullable<TOk> -> Result<TOk2, TErr>): (r: Result<TOk2, TErr>)
      ensures IsOk() ==> r == f(okValue)
      ensures !IsOk() ==> r == Result<TOk2, TErr>.Err(errValue)
    {
      if IsOk() then f(okValue) else Result<TOk2, TErr>.Err(errValue)
    }

    /** `flatMapErr(f)`: the mirror image of `flatMap` on the err slot. */
    function FlatMapErr<TErr2>(f: Nullable<TErr> -> Result<TOk, TErr2>): (r: Result<TOk, TErr2>)
      ensures IsErr() ==> r == f(errValue)
      ensures !IsErr() ==> r == Result<TOk, TErr2>.Ok(okValue)
    {
      if IsErr() then f(errValue) else Result<TOk, TErr2>.Ok(okValue)
    }
  }
}

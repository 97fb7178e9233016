# exceptnomore in Dafny

This project models the two immutable wrapper types of the TypeScript library
`exceptnomore`:

- `Optional<T>` is a value that is either Present or Empty.
- `Result<TOk, TErr>` is a value that is either Ok or Err.

They convert into each other and depend on each other, so both live in one
module, `ExceptNoMore` (`except_no_more.dfy`). The lemmas sit in three modules
beside it:

- `OptionalLaws`
- `ResultLaws`
- `ConversionLaws` (the bridge between the two types)

`JsRuntime` (`js_runtime.dfy`) holds the small part of JavaScript that the
types can observe.

## Modelling choices

- **Storage is the source's nullable slots, not a tagged union.**
  - A JavaScript value is `Nullable<T> = Null | Undefined | Defined(T)`.
  - `Optional` has one slot, `value`. It is Empty exactly when that slot is `Null`.
  - `Result` has two slots, `okValue` and `errValue`. Each counts as populated when it is not `Null`.
- **`null` and `undefined` are kept apart**, because the source tests `=== null` on the slots but treats both as absent elsewhere. As a result:
  - `Optional.of(undefined)` is Present.
  - `Optional.of(null)` is Empty.
  - `Result.ok(undefined)` is Ok.
  - `Result.ok(null)` and `Result.err(null)` are the same Result, and it is neither Ok nor Err.
  - `ofNullable` and the `??` in `fromThrowerAsync` treat both `null` and `undefined` as absent (`Nullable.IsAbsent`).
- **Well-formedness.** `Result.WellFormed` says that no Result is both Ok and Err. The private constructor always receives one `null` argument, so every constructor and combinator keeps this property. A Result that is neither Ok nor Err can still occur, and the lemmas state the laws with that case included.
- **The getters** `isEmpty` and `isPresent` are the predicates `Optional.IsEmpty` and `Optional.IsPresent`. `isOk` and `isErr` are `Result.IsOk` and `Result.IsErr`. Their properties are stated in `OptionalLaws.PresentXorEmpty` and `ResultLaws.GettersAgreeWithExtractors`, and in every contract that uses them.
- **Callbacks are total Dafny functions over `Nullable`.** The source passes `this.value!` to them, which can be `undefined`.
- **How a call ends** is `Completion<T, E> = Returned(T) | Threw(E)`.
  - `fromThrower` takes the callback's completion as its argument.
  - `unwrap` and `unwrapErr` yield `Threw(Error(message))`, with the source's exact messages.
  - `Result.fromThrowerAsync` uses `newError: string -> TErr` to build its synthetic error: this is the host's `new Error(message)`, applied to the source's message. It is the same kind of `Error` that `unwrap` throws, here seen as a value of the error type `TErr`.
- **Conditional handlers** (`ifPresent`, `ifEmpty`, `ifOk`, `ifErr`, `if`) return `Chained(receiver, calls)`. This records which handler is called and with which argument. What the handler then does is not modelled.
  - The optional second handler of `if` becomes a boolean argument saying whether it was supplied.

## Model

| member | source | states |
|---|---|---|
| `ExceptNoMore.Optional.Unwrap` | src/optional.ts:98-103 | throws exactly when Empty, with the error message "Cannot call unwrap on empty optional"; otherwise returns a non-null value |
| `ExceptNoMore.Optional.UnwrapNullable` | src/optional.ts:108-110 | never throws; is `null` exactly when Empty, and otherwise returns what `unwrap` returns |
| `ExceptNoMore.Optional.Of` | src/optional.ts:25-27 | Present exactly when the value is not `null` (so `undefined` is Present); `unwrapNullable` and `unwrap` give the value back |
| `ExceptNoMore.Optional.Empty` | src/optional.ts:90-92 | is Empty, and its `unwrap` throws the empty-optional error |
| `ExceptNoMore.Optional.OfNullable` | src/optional.ts:81-85 | Empty exactly when the input is `null` or `undefined`; otherwise `unwrap` returns the input |
| `ExceptNoMore.Optional.FromResult` | src/optional.ts:34-38 | Present exactly when the Result is Ok, and then `unwrap` agrees with the Result's `unwrap` |
| `ExceptNoMore.Optional.FromThrower` | src/optional.ts:46-52 | Empty on any throw; on a return it is Present exactly when the returned value is not `null`, and then holds that value |
| `ExceptNoMore.Optional.ToResult` | src/optional.ts:131-133 | Ok exactly when Present, with the same unwrapped value and no error; when Empty it equals `err(errIfEmpty)` |
| `ExceptNoMore.Optional.Else` | src/optional.ts:140-142 | never throws; returns the fallback when Empty, and otherwise what `unwrap` returns |
| `ExceptNoMore.Optional.Map` | src/optional.ts:151-157 | Empty stays Empty; on Present, the result is Present exactly when `f` does not return `null`, and it holds `f`'s result |
| `ExceptNoMore.Optional.FlatMap` | src/optional.ts:179-185 | Empty stays Empty; on Present the result is `f`'s Optional itself, not wrapped again |
| `ExceptNoMore.Optional.Filter` | src/optional.ts:278-284 | Present exactly when the receiver is Present and the predicate holds of its value; then it is the receiver itself |
| `ExceptNoMore.Optional.IfPresent` | src/optional.ts:205-210 | returns the receiver; calls the handler at most once, exactly when Present, with the value `unwrap` returns |
| `ExceptNoMore.Optional.IfEmpty` | src/optional.ts:227-232 | returns the receiver; calls the handler at most once, exactly when Empty |
| `ExceptNoMore.Optional.If` | src/optional.ts:250-257 | returns the receiver; at most one handler fires; the present-handler fires, with the value, exactly when Present; the empty-handler fires exactly when Empty and supplied |
| `ExceptNoMore.Result.Unwrap` | src/result.ts:109-114 | throws exactly when the ok slot is `null`, with the error message "Cannot call unwrap on error result"; otherwise returns the non-null ok value |
| `ExceptNoMore.Result.UnwrapErr` | src/result.ts:120-125 | throws exactly when the err slot is `null`, with the error message "Cannot call unwrapErr on ok result"; otherwise returns the non-null err value |
| `ExceptNoMore.Result.Ok` | src/result.ts:29-31 | well-formed and never Err; Ok exactly when the value is not `null`, and then `unwrap` gives the value back |
| `ExceptNoMore.Result.Err` | src/result.ts:37-39 | well-formed and never Ok; Err exactly when the value is not `null`, and then `unwrapErr` gives the value back |
| `ExceptNoMore.Result.FromOptional` | src/result.ts:47-49 | well-formed; Ok exactly when the Optional is Present, with the same unwrapped value; when the Optional is Empty it equals `err(errIfEmpty)` |
| `ExceptNoMore.Result.FromThrower` | src/result.ts:55-65 | well-formed; a return gives a Result that is never Err and is Ok with the value unless it is `null`; a throw gives one that is never Ok and is Err with the thrown value unless it is `null` |
| `ExceptNoMore.Result.FromThrowerAsync` | src/result.ts:70-80 | well-formed; a return gives what `fromThrower` gives; a throw always gives an Err holding the thrown value, or the synthetic `Error` with the source's message when `null` or `undefined` was thrown |
| `ExceptNoMore.Result.ToOptional` | src/result.ts:132-134 | Present exactly when Ok, and then `unwrap` agrees with the Result's `unwrap` |
| `ExceptNoMore.Result.Else` | src/result.ts:141-143 | never throws; returns the fallback unless Ok, and otherwise what `unwrap` returns |
| `ExceptNoMore.Result.ElseErr` | src/result.ts:150-152 | never throws; returns the fallback unless Err, and otherwise what `unwrapErr` returns |
| `ExceptNoMore.Result.IfOk` | src/result.ts:158-163 | returns the receiver; calls the handler at most once, exactly when Ok, with the value `unwrap` returns |
| `ExceptNoMore.Result.IfErr` | src/result.ts:180-185 | returns the receiver; calls the handler at most once, exactly when Err, with the value `unwrapErr` returns |
| `ExceptNoMore.Result.If` | src/result.ts:203-210 | returns the receiver; on a well-formed Result at most one handler fires; on Ok (well-formed) exactly the ok-handler fires, with the ok value; on Err the err-handler fires exactly when supplied; nothing fires unless the Result is Ok, or is Err with an err-handler supplied |
| `ExceptNoMore.Result.Map` | src/result.ts:232-234 | well-formed; on Ok the result is never Err, and is Ok with `f`'s result unless that result is `null`; otherwise the result is not Ok and keeps the receiver's `unwrapErr` |
| `ExceptNoMore.Result.MapErr` | src/result.ts:252-254 | the mirror image of `Map` on the err slot |
| `ExceptNoMore.Result.FlatMap` | src/result.ts:272-278 | on Ok the result is `f`'s Result itself, not wrapped again; otherwise it is `err` of the err slot |
| `ExceptNoMore.Result.FlatMapErr` | src/result.ts:300-306 | on Err the result is `f`'s Result itself; otherwise it is `ok` of the ok slot |
| `OptionalLaws.PresentXorEmpty` | src/optional.ts:115-123 | exactly one of `isPresent` and `isEmpty` holds, and `isPresent` holds exactly when `unwrap` returns |
| `OptionalLaws.OfUnwrapRoundTrip` | src/optional.ts:25-27 | `of(v).unwrap()` returns `v` for a defined `v` and for `undefined`; `of(null)` equals `empty()`, whose `unwrap` throws |
| `OptionalLaws.OfNullableIsOfButForUndefined` | src/optional.ts:81-85 | `ofNullable(x)` equals `of(x)`, except that `undefined` gives `empty()` |
| `OptionalLaws.OfNullableImage` | src/optional.ts:81-85 | `ofNullable` can build exactly the Optionals whose slot is not `undefined` |
| `OptionalLaws.ElseIsTotalUnwrap` | src/optional.ts:140-142 | `else(x)` is what `unwrap` returns, or `x` where `unwrap` throws; `unwrapNullable()` is `else(null)` |
| `OptionalLaws.MapIdentity` | src/optional.ts:151-157 | mapping the identity gives back the same Optional |
| `OptionalLaws.MapComposition` | src/optional.ts:151-157 | `map(f).map(g) == map(g∘f)` holds exactly when the Optional is Empty, or `f` does not return `null` on its value, or `g(null)` is `null` |
| `OptionalLaws.MapIgnoresCallbackOnEmpty` | src/optional.ts:152-153 | on Empty, `map` gives `empty()` whatever the callback |
| `OptionalLaws.MapIsFlatMapOf` | src/optional.ts:151-185 | `map(f)` equals `flatMap(x => of(f(x)))` |
| `OptionalLaws.FlatMapLeftIdentity` | src/optional.ts:179-185 | `of(x).flatMap(f)` is `f(x)`, and is `empty()` when `x` is `null` |
| `OptionalLaws.FlatMapRightIdentity` | src/optional.ts:179-185 | `flatMap(of)` gives back the same Optional |
| `OptionalLaws.FlatMapAssociative` | src/optional.ts:179-185 | `flatMap(f).flatMap(g)` equals `flatMap(x => f(x).flatMap(g))` |
| `OptionalLaws.FilterIdempotent` | src/optional.ts:278-284 | `filter(p).filter(p)` equals `filter(p)` |
| `OptionalLaws.FilterConjunction` | src/optional.ts:278-284 | `filter(p).filter(q)` equals `filter(x => p(x) && q(x))` |
| `OptionalLaws.FilterIsFlatMap` | src/optional.ts:278-284 | `filter(p)` equals `flatMap` of "keep the value if `p` holds, else `empty()`" |
| `OptionalLaws.FilterDeterminedByPresentValues` | src/optional.ts:278-284 | two predicates give the same `filter` on every Optional exactly when they agree on every value other than `null` |
| `OptionalLaws.ChainedHandlersFireOnce` | src/optional.ts:205-257 | `ifPresent(..).ifEmpty(..)` fires exactly one handler; `if` with both handlers fires the same calls, and without an empty-handler it fires only `ifPresent`'s calls |
| `OptionalLaws.FromThrowerDiscardsThrown` | src/optional.ts:46-52 | `fromThrower` gives `empty()` for every thrown value |
| `ResultLaws.OkXorErr` | src/result.ts:29-39 | `ok(v)` for a non-null `v` is Ok and not Err, and `unwrap` returns `v`; the same holds, mirrored, for `err(e)`; `ok(null)` equals `err(null)` and is neither Ok nor Err |
| `ResultLaws.GettersAgreeWithExtractors` | src/result.ts:94-103 | `isOk` holds exactly when `unwrap` returns and when `toOptional` is Present; `isErr` holds exactly when `unwrapErr` returns; on a well-formed Result the two never hold together |
| `ResultLaws.ElseIsTotalUnwrap` | src/result.ts:141-152 | `else` and `elseErr` are what `unwrap` and `unwrapErr` return, or the fallback where those throw |
| `ResultLaws.MapIdentity` | src/result.ts:232-254 | mapping the identity over either slot gives back the same Result exactly when the Result is well-formed |
| `ResultLaws.MapComposition` | src/result.ts:232-234 | `map(f).map(g) == map(g∘f)` holds exactly when the Result is not Ok, or `f` does not return `null`, or `g(null)` is `null` |
| `ResultLaws.MapErrComposition` | src/result.ts:252-254 | the mirror image of `MapComposition` for `mapErr` |
| `ResultLaws.MapIgnoresCallbackOffState` | src/result.ts:232-254 | unless Ok, `map` does not depend on its callback; unless Err, `mapErr` does not either |
| `ResultLaws.MapIsFlatMapOfOk` | src/result.ts:232-306 | `map(f)` equals `flatMap(x => ok(f(x)))`, and `mapErr(f)` equals `flatMapErr(x => err(f(x)))` |
| `ResultLaws.FlatMapLeftIdentity` | src/result.ts:272-306 | `ok(v).flatMap(f)` is `f(v)`, and `err(e).flatMapErr(h)` is `h(e)`, for non-null payloads |
| `ResultLaws.FlatMapRightIdentity` | src/result.ts:272-306 | `flatMap(ok)` and `flatMapErr(err)` give back the same Result exactly when it is well-formed |
| `ResultLaws.FlatMapAssociative` | src/result.ts:272-278 | `flatMap(f).flatMap(g)` equals `flatMap(x => f(x).flatMap(g))` |
| `ResultLaws.FlatMapErrAssociative` | src/result.ts:300-306 | `flatMapErr(f).flatMapErr(g)` equals `flatMapErr(x => f(x).flatMapErr(g))` |
| `ResultLaws.FlatMapPreservesWellFormed` | src/result.ts:272-306 | `flatMap` and `flatMapErr` with callbacks that build only well-formed Results give well-formed Results |
| `ResultLaws.IfFiresMatchingHandler` | src/result.ts:203-210 | on a well-formed Result, `if` calls the ok-handler with the ok value on Ok; it calls the err-handler with the err value on Err only when that handler is supplied; otherwise it calls nothing |
| `ResultLaws.ChainedHandlersFireOnce` | src/result.ts:158-210 | on a Result that is Ok xor Err, `ifOk(..).ifErr(..)` fires exactly one handler, and so does `if` with both handlers |
| `ResultLaws.ThrownNullOutcomes` | src/result.ts:55-80 | a thrown `null` makes `fromThrower` build a Result that is neither Ok nor Err, while `fromThrowerAsync` gives `err` of the synthetic `Error` |
| `ResultLaws.FromThrowerAsyncAgreement` | src/result.ts:70-80 | `fromThrowerAsync` equals `fromThrower` exactly when the callback did not throw `null` or `undefined` |
| `ConversionLaws.FromResultUndoesFromOptional` | src/optional.ts:34-38 | `fromResult(fromOptional(o, e))` is `o`, and `o.toResult(e).toOptional()` is `o` |
| `ConversionLaws.FromOptionalInjective` | src/result.ts:47-49 | for a fixed error, `fromOptional` maps different Optionals to different Results |
| `ConversionLaws.OfToResultToOptional` | src/optional.ts:131-133 | `of(v).toResult(e).toOptional()` equals `of(v)` |
| `ConversionLaws.RoundTripThroughOptional` | src/result.ts:132-134 | `ok(v).toOptional().toResult(e2)` gives back `ok(v)` for non-null `v`; `err(e1).toOptional().toResult(e2)` is `err(e2)`, so the first error is lost; every two Err Results give the same Optional |
| `ConversionLaws.FromOptionalOfFromResult` | src/result.ts:47-49 | `fromOptional(fromResult(r), e)` is `r` exactly when `r` is `err(e)`, or is Ok with an empty err slot |
| `ConversionLaws.FromOptionalImage` | src/result.ts:47-49 | `fromOptional(·, e)` can build exactly `err(e)` and the Ok Results whose err slot is empty |
| `ConversionLaws.ToOptionalCommutesWithMap` | src/result.ts:232-234 | `r.map(f).toOptional()` equals `r.toOptional().map(f)` |
| `ConversionLaws.FromThrowerThroughResult` | src/optional.ts:46-52 | `Optional.fromThrower` equals `Result.fromThrower` followed by `toOptional`, and also equals `Result.fromThrowerAsync` followed by `toOptional` |

## Left out

- The `*Async` combinators and handlers (`mapAsync`, `flatMapAsync`, `filterAsync`, `ifPresentAsync`, `ifEmptyAsync`, `ifAsync`, `mapErrAsync`, `flatMapErrAsync`, `ifOkAsync`, `ifErrAsync`) and `Optional.fromThrowerAsync` are not modelled. Once the callback's promise has resolved, each one makes the same case split as its synchronous twin. Awaiting, scheduling and rejection belong to the host runtime.
- `fromPromise` (src/optional.ts:72-74, src/result.ts:87-89) is not modelled. It only hands a promise to `fromThrowerAsync`, which is modelled on the callback's settled outcome.
- The console logging in `Result.fromThrower` and `fromThrowerAsync`, which depends on `process.env.NODE_ENV`, is not modelled. It is I/O. In a host that defines `process`, it does not affect the returned Result. In a host with no `process` global, the `process?.env` test in the catch block (src/result.ts:59, src/result.ts:75) throws a ReferenceError. `fromThrower` then throws and `fromThrowerAsync` rejects instead of returning an Err. The model does not capture this.
- What handler callbacks do (their side effects and return values) is not modelled. The model records only which handler is called and with which argument.
- A callback that itself throws inside `map`, `flatMap` or `filter` is not modelled. The source does not catch such a throw, so it is outside the library's behaviour.
- `instanceof` checks and the identity of `Error` objects are not modelled. An `Error` is its message, and the synthetic error of `fromThrowerAsync` is `newError` applied to that message.
- The TypeScript `this` identity that `ifPresent`, `ifOk` and `filter` return is modelled as value equality: `Chained.receiver == this`, and `Filter(..) == this`.

# Validation error store

A model of the core of `pojo-validator`, a small TypeScript validation utility.
A `Validator` owns an error store: a mapping from field name to the ordered list
of error messages recorded for that field. `validate(model, fieldsToCheck?)`
builds a `ValidationState` over *the same* store object and runs the
application's validation routine on it. The routine records errors through the
state's primitives `addError`, `check`, `clearErrors` and `singleCheck`.
`validate` then returns `!hasErrors()`. The store lives as long as the
Validator, so errors recorded by one `validate` call stay visible to the next.

Modules, one per source file:

- `ValidationErrors` (`src/ValidationErrors.ts`): the store as a class
  `ErrorStore` holding a `map<string, seq<string>>`, the queries `ErrorsOf` and
  `AnyErrors`, and `Grows`, the "keys never lost, lists only appended to" order.
- `ValidationStates` (`src/ValidationState.ts`): the pure effects `Added`,
  `Cleared`, `Checked` and `SingleChecked` of the four primitives, the class
  `ValidationState` whose methods update the shared store through those
  effects, and lemmas about them.
- `ValidationCallbacks` (`src/ValidationCallback.ts`): the validation routine,
  represented by the sequence of calls (`Op`) it makes on its state. `ApplyOps`
  gives the store after those calls, and `Fired` is an independent reference
  definition of the messages they record per field. `Run` performs the calls
  on a `ValidationState`.
- `Validators` (`src/Validator.ts`): the class `Validator`. Its store is a
  `const` reference, created empty and never replaced. `Validate` shares that
  reference with the `ValidationState` it creates.

The model follows the code where the doc comments say otherwise:

- `clearErrors` (src/ValidationState.ts:28-32) only inserts an empty list when
  the field is absent. It does not empty an existing list, although its doc
  comment says "Clear all errors for field". So `singleCheck` keeps earlier
  messages (`SingleCheckDoesNotReset`), and repeating a pass does not return
  the same store (`RepeatedSingleCheckAccumulates`). None of the four
  primitives empties a list, so once the store holds an error, every later
  `validate` whose routine only uses those primitives returns false
  (`ErrorsPersist` and the last `ensures` of `Validate`). A caller can still
  reset a field by emptying its list through the live references that
  `errors()` and `errorsFor` return; that path is not modelled (see
  "## Left out").
- `validate` returns `!hasErrors()` (src/Validator.ts:32), so true means
  "no errors". Its doc comment (src/Validator.ts:20) says the opposite.
- `check` takes only a predicate `() => boolean`. It is modelled as a total
  Dafny function `() -> bool` that is evaluated once.
- None of the files contains a batch rule-table operation.

## Model

| member | source | states |
|---|---|---|
| `ValidationErrors.ErrorStore.constructor` | src/Validator.ts:13 | the store a Validator creates (`{}`) has no keys |
| `ValidationErrors.ErrorsOf` | src/Validator.ts:45-47 | `errorsFor`'s value: the stored list for a key, and a non-empty result only for a key (so `[]` for an absent field) |
| `ValidationErrors.AnyErrors` | src/Validator.ts:52-62 | `hasErrors`'s value: true iff `errorsFor` of some field is non-empty, so keys with an empty list do not count |
| `ValidationErrors.EmptyStore` | src/Validator.ts:12-15 | the empty store a Validator starts with has no errors, and `errorsFor` gives `[]` for every field |
| `ValidationErrors.GrowsKeepsErrors` | src/ValidationState.ts:28-56 | a store that only grew from one with errors still has errors |
| `ValidationStates.Added` | src/ValidationState.ts:50-56 | `addError(f, msg)` leaves the keys as the old ones plus `f`, makes `f`'s list the old list (or `[]`) followed by `msg`, and keeps every other list |
| `ValidationStates.Cleared` | src/ValidationState.ts:28-32 | `clearErrors(f)` makes `f` a key, puts `[]` there only when `f` was absent, and keeps every existing list including `f`'s |
| `ValidationStates.Checked` | src/ValidationState.ts:18-22 | `check(f, c, msg)`: when `c` holds `f` becomes a key and gains `msg` at the end; otherwise keys and `f`'s list are unchanged; other lists are kept and the store only grows |
| `ValidationStates.SingleChecked` | src/ValidationState.ts:40-43 | `singleCheck(f, c, msg)`: the keys become the old keys plus `f`, `f`'s list is its old list (or `[]`) followed by `msg` exactly when `c` held, other lists are kept |
| `ValidationStates.ValidationState.constructor` | src/ValidationState.ts:8-10 | the state refers to the very store object it was given |
| `ValidationStates.ValidationState.Check` | src/ValidationState.ts:18-22 | when the predicate holds the store becomes exactly what `addError` gives; otherwise it is unchanged |
| `ValidationStates.ValidationState.ClearErrors` | src/ValidationState.ts:28-32 | the new store is `Cleared` of the old one |
| `ValidationStates.ValidationState.SingleCheck` | src/ValidationState.ts:40-43 | the new store is `clearErrors(f)` followed by `check(f, condition, msg)` applied to the old one |
| `ValidationStates.ValidationState.AddError` | src/ValidationState.ts:50-56 | the new store is `Added` of the old one |
| `ValidationStates.ValidationState.Errors` | src/ValidationState.ts:61-63 | returns the same store object the state holds, not a copy |
| `ValidationStates.ErrorsOfAdded` | src/ValidationState.ts:50-56 | read through `errorsFor`, `addError(f, msg)` appends `msg` to `f` and changes no other field |
| `ValidationStates.ClearedIdempotent` | src/ValidationState.ts:28-32 | `clearErrors` twice equals `clearErrors` once, and `f` is a key afterwards |
| `ValidationStates.ClearedInvisible` | src/ValidationState.ts:28-32 | `clearErrors` changes neither `errorsFor` of any field nor `hasErrors` |
| `ValidationStates.SingleCheckedAppends` | src/ValidationState.ts:40-43 | after `singleCheck(f, c, msg)`, the keys are the old ones plus `f`, its list is the old list followed by `msg` exactly when `c` held (so `msg` is last), other fields are unchanged and the store only grew |
| `ValidationStates.CheckAccumulatesInOrder` | src/ValidationState.ts:18-22 | two failing `check`s on one field append both messages in call order |
| `ValidationStates.SingleCheckDoesNotReset` | src/ValidationState.ts:40-43 | a failing `singleCheck` then a passing one on a field leaves the first message, so the store still has errors |
| `ValidationCallbacks.Run` | src/Validator.ts:30 | running the routine's calls on a state changes the shared store to `ApplyOps` of the old store |
| `ValidationCallbacks.ApplyOp` | src/ValidationState.ts:18-56 | performing any one primitive keeps every key and only appends to lists |
| `ValidationCallbacks.ApplyOps` | src/Validator.ts:30 | the store after the routine's calls, in order; no sequence of primitive calls removes a key or shortens a list |
| `ValidationCallbacks.ApplyOpEffect` | src/ValidationState.ts:18-56 | each primitive adds at most its own field as a key, appends only to that field's list, and only grows the store |
| `ValidationCallbacks.ApplyOpsKeys` | src/ValidationState.ts:28-56 | the keys after a pass are the old keys plus the field of every call other than a passing `check` |
| `ValidationCallbacks.ApplyOpsContents` | src/ValidationState.ts:18-56 | each field's list after a pass is its old list followed by the messages the pass recorded for it, in call order |
| `ValidationCallbacks.FiredEmptyIff` | src/ValidationState.ts:18-56 | a pass records nothing for `f` iff none of its calls on `f` records a message |
| `ValidationCallbacks.UntouchedField` | src/Validator.ts:28-30 | a field the routine never names keeps its list and its presence or absence |
| `ValidationCallbacks.ErrorsPersist` | src/ValidationState.ts:28-56 | once the store has an error, no pass removes all errors |
| `ValidationCallbacks.NoErrorsIff` | src/Validator.ts:27-33 | after a pass the store is free of errors iff it was before and no call recorded a message |
| `ValidationCallbacks.StaleFieldKeepsErrors` | src/Validator.ts:22-33 | errors of a field the pass does not name remain, so the store still has errors whatever the checked fields did |
| `ValidationCallbacks.RepeatedSingleCheckAccumulates` | src/ValidationState.ts:40-43 | repeating a pass of one failing `singleCheck` appends the message a second time |
| `Validators.Validator.constructor` | src/Validator.ts:12-15 | the store is a fresh object with no keys, and the routine is the one given |
| `Validators.Validator.Validate` | src/Validator.ts:27-33 | the store (still the same object) becomes the old store with the routine's calls applied, the result is true iff no field has a non-empty list afterwards, and it is false whenever the store already had errors |
| `Validators.Validator.Errors` | src/Validator.ts:38-40 | returns the Validator's own store object, not a copy |
| `Validators.Validator.ErrorsFor` | src/Validator.ts:45-47 | the stored list when the field is a key, `[]` otherwise |
| `Validators.Validator.HasErrors` | src/Validator.ts:52-62 | true iff some key maps to a non-empty list; keys with an empty list do not count |

## Left out

- The validation routine as arbitrary code (src/ValidationCallback.ts:6): it is a function of the model and the optional field list that returns the calls it makes on the state. A routine that throws, inspects the state between calls or keeps other state is not modelled.
- Exceptions from a predicate passed to `check` or `singleCheck`: predicates are total, side-effect-free functions.
- `Validators.Validator.HasErrors`: visits the keys in an arbitrary order rather than in `Object.keys` order. The result does not depend on the order.
- JavaScript object details: prototype keys, `null` versus `undefined` versus a missing key, and key order. A key is either in the map or not.
- Array aliasing: message lists are values (`seq`). In the source the array that `errorsFor` returns is the live one, and a caller could mutate it or the object that `errors()` returns, for example empty a list so that the next `validate` returns true again. Only the shared store reference itself is modelled; the model's claims that errors persist hold for stores changed only through the four primitives.

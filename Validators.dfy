/** The Validator: owns one error store for its whole lifetime, runs its
    validation routine over that store and answers queries about it. */
module Validators {
  import opened ValidationErrors
  import opened ValidationStates
  import opened ValidationCallbacks

  class Validator<T> {
    /** The store, created empty and never replaced. */
    const store: ErrorStore
    /** The routine, given as the calls it makes for a model and an optional field subset. */
    const validating: (T, Option<seq<Field>>) -> seq<Op>

    constructor (validating: (T, Option<seq<Field>>) -> seq<Op>)
      ensures fresh(store) && store.m == map[]
      ensures this.validating == validating
    {
      store := new ErrorStore();
      this.validating := validating;
    }

    /** Runs the routine on a ValidationState over this Validator's own store,
        then reports whether the store is free of errors. The store is
        neither cleared nor replaced: its only changes are the routine's calls. */
    method Validate(model: T, fieldsToCheck: Option<seq<Field>>) returns (ok: bool)
      modifies store
      ensures store.m == ApplyOps(old(store.m), validating(model, fieldsToCheck))
      ensures ok == !AnyErrors(store.m)
      ensures old(AnyErrors(store.m)) ==> !ok
    {
      var builder := new ValidationState(store);
      Run(builder, validating(model, fieldsToCheck));
      var failed := HasErrors();
      ok := !failed;
      if old(AnyErrors(store.m)) {
        ErrorsPersist(old(store.m), validating(model, fieldsToCheck));
      }
    }

    /** The live store, not a copy. */
    method Errors() returns (e: ErrorStore)
      ensures e == store
    {
      e := store;
    }

    /** The messages recorded for `fieldName`, or the empty list when it is not a key. */
    method ErrorsFor(fieldName: Field) returns (r: seq<Message>)
      ensures r == ErrorsOf(store.m, fieldName)
    {
      if fieldName in store.m {
        r := store.m[fieldName];
      } else {
        r := [];
      }
    }

    /** Scans the fields for one with a non-empty list. */
    method HasErrors() returns (b: bool)
      ensures b == AnyErrors(store.m)
    {
      var keys := store.m.Keys;
      while keys != {}
        invariant keys <= store.m.Keys
        invariant forall k :: k in store.m && k !in keys ==> store.m[k] == []
        decreases keys
      {
        var key :| key in keys;
        if |store.m[key]| > 0 {
          return true;
        }
        keys := keys - {key};
      }
      return false;
    }
  }
}

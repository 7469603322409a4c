/** The ValidationState: a handle on a shared error store through which a
    validation routine records, checks and (nominally) clears field errors. */
module ValidationStates {
  import opened ValidationErrors

  /** The store after `addError(f, msg)`: `f`'s list (created empty if absent)
      with `msg` appended, everything else as it was. */
  function Added(m: Errors, f: Field, msg: Message): (r: Errors)
    ensures r.Keys == m.Keys + {f}
    ensures r[f] == ErrorsOf(m, f) + [msg]
    ensures forall g :: g in m && g != f ==> r[g] == m[g]
    ensures Grows(m, r)
  {
    m[f := ErrorsOf(m, f) + [msg]]
  }

  /** The store after `clearErrors(f)`: an empty list is inserted only when
      `f` is absent; an existing list is left as it is. */
  function Cleared(m: Errors, f: Field): (r: Errors)
    ensures r.Keys == m.Keys + {f}
    ensures f !in m ==> r[f] == []
    ensures forall g :: g in m ==> r[g] == m[g]
    ensures Grows(m, r)
  {
    if f in m then m else m[f := []]
  }

  /** The store after `check(f, condition, msg)` whose predicate evaluated to `c`. */
  function Checked(m: Errors, f: Field, c: bool, msg: Message): (r: Errors)
    ensures r.Keys == if c then m.Keys + {f} else m.Keys
    ensures ErrorsOf(r, f) == ErrorsOf(m, f) + (if c then [msg] else [])
    ensures forall g :: g in m && g != f ==> r[g] == m[g]
    ensures Grows(m, r)
  {
    if c then Added(m, f, msg) else m
  }

  /** The store after `singleCheck(f, condition, msg)` whose predicate evaluated to `c`. */
  function SingleChecked(m: Errors, f: Field, c: bool, msg: Message): (r: Errors)
    ensures r.Keys == m.Keys + {f}
    ensures r[f] == ErrorsOf(m, f) + (if c then [msg] else [])
    ensures forall g :: g in m && g != f ==> r[g] == m[g]
    ensures Grows(m, r)
  {
    Checked(Cleared(m, f), f, c, msg)
  }

  class ValidationState {
    /** The store this state works on; it is never replaced. */
    const store: ErrorStore

    constructor (errors: ErrorStore)
      ensures store == errors
    {
      store := errors;
    }

    /** Evaluates `condition` once; records `errorMessage` for `field` when it holds. */
    method Check(field: Field, condition: () -> bool, errorMessage: Message)
      modifies store
      ensures condition() ==> store.m == Added(old(store.m), field, errorMessage)
      ensures !condition() ==> store.m == old(store.m)
    {
      if condition() {
        AddError(field, errorMessage);
      }
    }

    /** Makes sure `field` has a list; existing messages are not removed. */
    method ClearErrors(field: Field)
      modifies store
      ensures store.m == Cleared(old(store.m), field)
    {
      if field !in store.m {
        store.m := store.m[field := []];
      }
    }

    /** `ClearErrors(field)` followed by `Check(field, condition, errorMessage)`. */
    method SingleCheck(field: Field, condition: () -> bool, errorMessage: Message)
      modifies store
      ensures store.m == Checked(Cleared(old(store.m), field), field, condition(), errorMessage)
    {
      ClearErrors(field);
      Check(field, condition, errorMessage);
    }

    /** Appends `errorMessage` to `field`'s list, creating the list when absent. */
    method AddError(field: Field, errorMessage: Message)
      modifies store
      ensures store.m == Added(old(store.m), field, errorMessage)
    {
      if field !in store.m {
        store.m := store.m[field := []];
      }
      store.m := store.m[field := store.m[field] + [errorMessage]];
    }

    /** The live store, not a copy. */
    method Errors() returns (e: ErrorStore)
      ensures e == store
    {
      e := store;
    }
  }

  /** Read through `errorsFor`, `addError` changes only `f`'s list, by one message at the end. */
  lemma ErrorsOfAdded(m: Errors, f: Field, msg: Message, g: Field)
    ensures ErrorsOf(Added(m, f, msg), g) == if g == f then ErrorsOf(m, f) + [msg] else ErrorsOf(m, g)
  {
  }

  /** `clearErrors` is idempotent. */
  lemma ClearedIdempotent(m: Errors, f: Field)
    ensures Cleared(Cleared(m, f), f) == Cleared(m, f)
    ensures f in Cleared(m, f)
  {
  }

  /** `clearErrors` cannot be observed through `errorsFor` or `hasErrors`:
      the only thing it adds is an empty list, which counts as no errors. */
  lemma {:induction false} ClearedInvisible(m: Errors, f: Field)
    ensures forall g :: ErrorsOf(Cleared(m, f), g) == ErrorsOf(m, g)
    ensures AnyErrors(Cleared(m, f)) <==> AnyErrors(m)
  {
    var r := Cleared(m, f);
    if AnyErrors(r) {
      var g :| g in r && r[g] != [];
      assert g in m && m[g] != [];
    }
    if AnyErrors(m) {
      var g :| g in m && m[g] != [];
      assert g in r && r[g] != [];
    }
  }

  /** `singleCheck` keeps the messages already recorded for `f`, appends
      `msg` exactly when the predicate held, and leaves `f` a key. */
  lemma {:induction false} SingleCheckedAppends(m: Errors, f: Field, c: bool, msg: Message)
    ensures f in SingleChecked(m, f, c, msg)
    ensures SingleChecked(m, f, c, msg).Keys == m.Keys + {f}
    ensures SingleChecked(m, f, c, msg)[f] == ErrorsOf(m, f) + (if c then [msg] else [])
    ensures c ==> SingleChecked(m, f, c, msg)[f][|SingleChecked(m, f, c, msg)[f]| - 1] == msg
    ensures forall g :: g != f ==> ErrorsOf(SingleChecked(m, f, c, msg), g) == ErrorsOf(m, g)
    ensures Grows(m, SingleChecked(m, f, c, msg))
  {
    var cl := Cleared(m, f);
    assert ErrorsOf(cl, f) == ErrorsOf(m, f);
    if c {
      GrowsTransitive(m, cl, Added(cl, f, msg));
    }
  }

  /** Two failing checks on one field record both messages, in call order. */
  lemma {:induction false} CheckAccumulatesInOrder(m: Errors, f: Field, a: Message, b: Message)
    ensures ErrorsOf(Checked(Checked(m, f, true, a), f, true, b), f) == ErrorsOf(m, f) + [a, b]
  {
    assert ErrorsOf(m, f) + [a] + [b] == ErrorsOf(m, f) + [a, b];
  }

  /** A failing `singleCheck` followed by a passing one on the same field
      still leaves the first message: `singleCheck` does not reset a field. */
  lemma {:induction false} SingleCheckDoesNotReset(m: Errors, f: Field, a: Message, b: Message)
    ensures ErrorsOf(SingleChecked(SingleChecked(m, f, true, a), f, false, b), f) == ErrorsOf(m, f) + [a]
    ensures AnyErrors(SingleChecked(SingleChecked(m, f, true, a), f, false, b))
  {
    SingleCheckedAppends(m, f, true, a);
    var m1 := SingleChecked(m, f, true, a);
    SingleCheckedAppends(m1, f, false, b);
    var m2 := SingleChecked(m1, f, false, b);
    assert f in m2 && m2[f] != [];
  }
}

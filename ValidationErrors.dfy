/** The error store: a mapping from field name to the ordered list of messages
    recorded for it, shared by reference between a Validator and the
    ValidationState objects it hands out. */
module ValidationErrors {

  type Field = string
  type Message = string
  type Errors = map<Field, seq<Message>>

  /** The mutable store object; both the Validator and every ValidationState
      built over it hold a reference to the same instance. */
  class ErrorStore {
    var m: Errors

    /** A fresh store holds no field at all (the `{}` literal). */
    constructor ()
      ensures m == map[]
    {
      m := map[];
    }
  }

  /** The list for `f`, or the empty list when `f` is not a key. */
  function ErrorsOf(m: Errors, f: Field): (r: seq<Message>)
    ensures f in m ==> r == m[f]
    ensures r != [] ==> f in m
  {
    if f in m then m[f] else []
  }

  /** Some field has a non-empty list; fields present with an empty list do not count. */
  predicate AnyErrors(m: Errors)
    ensures AnyErrors(m) <==> exists f :: ErrorsOf(m, f) != []
  {
    exists f :: f in m && ErrorsOf(m, f) != []
  }

  /** `m2` extends `m1`: no key is lost and every list only grows at its end. */
  predicate Grows(m1: Errors, m2: Errors)
  {
    forall f :: f in m1 ==> f in m2 && m1[f] <= m2[f]
  }

  lemma EmptyStore(f: Field)
    ensures !AnyErrors(map[]) && ErrorsOf(map[], f) == []
  {
  }

  lemma GrowsReflexive(m: Errors)
    ensures Grows(m, m)
  {
  }

  lemma GrowsTransitive(m1: Errors, m2: Errors, m3: Errors)
    requires Grows(m1, m2) && Grows(m2, m3)
    ensures Grows(m1, m3)
  {
  }

  /** Once a message is recorded, a grown store still has errors. */
  lemma {:induction false} GrowsKeepsErrors(m1: Errors, m2: Errors)
    requires Grows(m1, m2) && AnyErrors(m1)
    ensures AnyErrors(m2)
  {
    var f :| f in m1 && m1[f] != [];
    assert m2[f][0] == m1[f][0];
  }
}

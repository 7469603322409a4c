/** The validation routine a Validator runs. The routine is application code;
    here it is represented by the sequence of calls it makes on the
    ValidationState it is handed, in the order it makes them. */
module ValidationCallbacks {
  import opened ValidationErrors
  import opened ValidationStates

  datatype Option<T> = None | Some(value: T)

  /** One call the routine makes on its ValidationState. A predicate passed to
      `check` or `singleCheck` is kept as a function and evaluated when the
      call is performed. */
  datatype Op =
    | AddError(field: Field, message: Message)
    | Check(field: Field, condition: () -> bool, message: Message)
    | ClearErrors(field: Field)
    | SingleCheck(field: Field, condition: () -> bool, message: Message)

  /** The messages one call appends to its field's list. */
  function Appended(op: Op): seq<Message>
  {
    match op
    case AddError(_, msg) => [msg]
    case Check(_, c, msg) => if c() then [msg] else []
    case ClearErrors(_) => []
    case SingleCheck(_, c, msg) => if c() then [msg] else []
  }

  /** The store after performing one call. */
  function ApplyOp(m: Errors, op: Op): (r: Errors)
    ensures Grows(m, r)
  {
    match op
    case AddError(f, msg) => Added(m, f, msg)
    case Check(f, c, msg) => Checked(m, f, c(), msg)
    case ClearErrors(f) => Cleared(m, f)
    case SingleCheck(f, c, msg) => SingleChecked(m, f, c(), msg)
  }

  /** The store after performing the calls in order. */
  function ApplyOps(m: Errors, ops: seq<Op>): (r: Errors)
    ensures Grows(m, r)
    decreases |ops|
  {
    if ops == [] then m else ApplyOp(ApplyOps(m, ops[..|ops| - 1]), ops[|ops| - 1])
  }

  /** A call leaves its field a key: every call except a `check` whose predicate is false. */
  predicate MakesKey(op: Op)
  {
    !(op.Check? && !op.condition())
  }

  /** The fields the calls name. */
  function Fields(ops: seq<Op>): set<Field>
  {
    set i | 0 <= i < |ops| :: ops[i].field
  }

  /** The fields the calls leave as keys. */
  function KeyedFields(ops: seq<Op>): set<Field>
  {
    set i | 0 <= i < |ops| && MakesKey(ops[i]) :: ops[i].field
  }

  /** Reference definition: the messages the calls record for `f`, in call order. */
  function Fired(ops: seq<Op>, f: Field): seq<Message>
    decreases |ops|
  {
    if ops == [] then []
    else Fired(ops[..|ops| - 1], f) + (if ops[|ops| - 1].field == f then Appended(ops[|ops| - 1]) else [])
  }

  /** Performs the calls one by one on `state`, as the routine would. */
  method Run(state: ValidationState, ops: seq<Op>)
    modifies state.store
    ensures state.store.m == ApplyOps(old(state.store.m), ops)
  {
    var i := 0;
    while i < |ops|
      invariant 0 <= i <= |ops|
      invariant state.store.m == ApplyOps(old(state.store.m), ops[..i])
    {
      assert ops[..i + 1][..i] == ops[..i];
      match ops[i] {
        case AddError(f, msg) => state.AddError(f, msg);
        case Check(f, c, msg) => state.Check(f, c, msg);
        case ClearErrors(f) => state.ClearErrors(f);
        case SingleCheck(f, c, msg) => state.SingleCheck(f, c, msg);
      }
      i := i + 1;
    }
    assert ops[..|ops|] == ops;
  }

  /** One call adds its field as a key (unless it is a passing `check`),
      appends its messages to that field only, and changes nothing else. */
  lemma {:induction false} ApplyOpEffect(m: Errors, op: Op)
    ensures ApplyOp(m, op).Keys == m.Keys + (if MakesKey(op) then {op.field} else {})
    ensures forall g :: ErrorsOf(ApplyOp(m, op), g) == ErrorsOf(m, g) + (if op.field == g then Appended(op) else [])
    ensures Grows(m, ApplyOp(m, op))
  {
    match op
    case AddError(f, msg) =>
    case Check(f, c, msg) =>
    case ClearErrors(f) =>
    case SingleCheck(f, c, msg) => SingleCheckedAppends(m, f, c(), msg);
  }

  /** The keys afterwards are the old keys plus the field of every call that
      leaves one: `clearErrors`, `singleCheck`, `addError` and a failing `check`. */
  lemma {:induction false} ApplyOpsKeys(m: Errors, ops: seq<Op>)
    ensures ApplyOps(m, ops).Keys == m.Keys + KeyedFields(ops)
    decreases |ops|
  {
    if ops != [] {
      var init := ops[..|ops| - 1];
      ApplyOpsKeys(m, init);
      ApplyOpEffect(ApplyOps(m, init), ops[|ops| - 1]);
      KeyedFieldsSnoc(ops);
    }
  }

  lemma {:induction false} KeyedFieldsSnoc(ops: seq<Op>)
    requires ops != []
    ensures KeyedFields(ops) == KeyedFields(ops[..|ops| - 1])
      + (if MakesKey(ops[|ops| - 1]) then {ops[|ops| - 1].field} else {})
  {
    var init := ops[..|ops| - 1];
    var last := ops[|ops| - 1];
    forall g | g in KeyedFields(ops) ensures g in KeyedFields(init) || (MakesKey(last) && g == last.field) {
      var i :| 0 <= i < |ops| && MakesKey(ops[i]) && ops[i].field == g;
      if i < |ops| - 1 {
        assert init[i] == ops[i];
      }
    }
    forall g | g in KeyedFields(init) ensures g in KeyedFields(ops) {
      var i :| 0 <= i < |init| && MakesKey(init[i]) && init[i].field == g;
      assert ops[i] == init[i];
    }
  }

  /** Each list afterwards is its old contents followed by the messages the
      calls record for that field, in call order. */
  lemma {:induction false} ApplyOpsContents(m: Errors, ops: seq<Op>, g: Field)
    ensures ErrorsOf(ApplyOps(m, ops), g) == ErrorsOf(m, g) + Fired(ops, g)
    decreases |ops|
  {
    if ops != [] {
      var init := ops[..|ops| - 1];
      var last := ops[|ops| - 1];
      ApplyOpsContents(m, init, g);
      ApplyOpEffect(ApplyOps(m, init), last);
      assert ErrorsOf(m, g) + Fired(init, g) + (if last.field == g then Appended(last) else [])
          == ErrorsOf(m, g) + (Fired(init, g) + (if last.field == g then Appended(last) else []));
    }
  }

  /** `f` gets no new message exactly when no call on `f` records one. */
  lemma {:induction false} FiredEmptyIff(ops: seq<Op>, f: Field)
    ensures Fired(ops, f) == [] <==> forall i :: 0 <= i < |ops| && ops[i].field == f ==> Appended(ops[i]) == []
    decreases |ops|
  {
    if ops != [] {
      var init := ops[..|ops| - 1];
      FiredEmptyIff(init, f);
      forall i | 0 <= i < |init| ensures init[i] == ops[i] { }
    }
  }

  /** A field no call names keeps its list and its presence or absence. */
  lemma {:induction false} UntouchedField(m: Errors, ops: seq<Op>, g: Field)
    requires g !in Fields(ops)
    ensures ErrorsOf(ApplyOps(m, ops), g) == ErrorsOf(m, g)
    ensures g in ApplyOps(m, ops) <==> g in m
  {
    ApplyOpsKeys(m, ops);
    ApplyOpsContents(m, ops, g);
    FiredEmptyIff(ops, g);
    assert g !in KeyedFields(ops);
  }

  /** Recorded errors are never lost: once the store has one, it keeps having one. */
  lemma {:induction false} ErrorsPersist(m: Errors, ops: seq<Op>)
    requires AnyErrors(m)
    ensures AnyErrors(ApplyOps(m, ops))
  {
    GrowsKeepsErrors(m, ApplyOps(m, ops));
  }

  /** The store is free of errors after the calls exactly when it was free of
      errors before and no call recorded a message. */
  lemma {:induction false} NoErrorsIff(m: Errors, ops: seq<Op>)
    ensures !AnyErrors(ApplyOps(m, ops)) <==> !AnyErrors(m) && forall i :: 0 <= i < |ops| ==> Appended(ops[i]) == []
  {
    var r := ApplyOps(m, ops);
    if AnyErrors(m) {
      ErrorsPersist(m, ops);
    } else if i :| 0 <= i < |ops| && Appended(ops[i]) != [] {
      var g := ops[i].field;
      FiredEmptyIff(ops, g);
      ApplyOpsContents(m, ops, g);
      assert ErrorsOf(r, g) != [];
    } else {
      forall g ensures ErrorsOf(r, g) == [] {
        FiredEmptyIff(ops, g);
        ApplyOpsContents(m, ops, g);
        assert ErrorsOf(m, g) == [];
      }
    }
  }

  /** A field that already has errors and that no call names keeps them, so
      the store still has errors even if every field the calls check passes. */
  lemma {:induction false} StaleFieldKeepsErrors(m: Errors, ops: seq<Op>, g: Field)
    requires ErrorsOf(m, g) != [] && g !in Fields(ops)
    ensures ErrorsOf(ApplyOps(m, ops), g) == ErrorsOf(m, g)
    ensures AnyErrors(ApplyOps(m, ops))
  {
    UntouchedField(m, ops, g);
  }

  /** Repeating a pass made of one failing `singleCheck` does not give the
      same store twice: the second pass appends the message again. */
  lemma {:induction false} RepeatedSingleCheckAccumulates(m: Errors, f: Field, msg: Message)
    ensures ErrorsOf(ApplyOps(ApplyOps(m, [SingleCheck(f, () => true, msg)]), [SingleCheck(f, () => true, msg)]), f)
         == ErrorsOf(m, f) + [msg, msg]
  {
    var ops := [SingleCheck(f, () => true, msg)];
    assert Fired(ops, f) == [msg] by {
      assert ops[..0] == [];
    }
    ApplyOpsContents(m, ops, f);
    ApplyOpsContents(ApplyOps(m, ops), ops, f);
  }
}

/** Any history of operations on the state object, checkpoint restarts included. */
module StateDriver {
  import opened StateSpec
  import opened StateRuns
  import opened States
  import opened TwoMaps
  import StateLaws

  /** Writes a checkpoint and starts again from it: none of the old objects, and the same layers if they are sound. */
  method Restart(state: State) returns (next: State)
    requires state.Linked()
    ensures next.Linked() && next.K == state.K && fresh(next.Repr())
    ensures next.Now() == Restore(state.K, Persist(state.Now()))
    ensures Sound(state.K, state.Now()) ==> next.Now() == state.Now()
  {
    hide State.Linked, Restore, Persist, RootsHold;
    if Sound(state.K, state.Now()) {
      StateLaws.RestartIsUnobservable(state.K, state.Now());
    }
    var p := state.Persisted();
    next := new State.FromPersisted(state.K, p);
  }

  /** Any operation on any state. */
  method Perform(state: State, op: Op) returns (next: State, out: Output)
    requires state.Linked()
    modifies state.Repr()
    ensures next.Linked() && next.K == state.K
    ensures fresh(next.Repr() - old(state.Repr()))
    ensures next.Now() == old(Step(state.K, state.Now(), op))
    ensures out == old(Answer(state.K, state.Now(), op))
  {
    hide State.Linked, StateSpec.Set, StateSpec.Get, StateSpec.ReadPrefix, StateSpec.DeletePrefix, Committed,
      AfterFailedDelete, StateSpec.Commit, Restore, Persist;
    next := state;
    match op {
      case SetOp(k, v) =>
        var r := state.Set(k, v);
        out := if r.Ok? then Done else Failed;
      case GetOp(k) =>
        var r := state.Get(k);
        out := if r.Ok? then Value(r.value) else Failed;
      case ReadOp(p) =>
        var r := state.ReadPrefix(p);
        out := if r.Ok? then Listing(r.value) else Failed;
      case DeleteOp(p) =>
        var r := state.DeletePrefix(p);
        out := if r.Ok? then Listing(r.value) else Failed;
      case CommitOp =>
        var r := state.Commit();
        out := if r.Ok? then Root(r.value) else Failed;
      case RestartOp =>
        next := Restart(state);
        out := Done;
    }
  }

  /**
   * Runs any history on any state. The answers are those of the layered specification, a sound state stays sound,
   * and wherever flat answers are promised they are those of the two flat maps, across every rotation and restart.
   */
  method Execute(start: State, ops: seq<Op>) returns (end: State, outs: seq<Output>)
    requires start.Linked()
    modifies start.Repr()
    ensures end.Linked() && end.K == start.K
    ensures outs == old(Answers(start.K, start.Now(), ops))
    ensures end.Now() == old(Final(start.K, start.Now(), ops))
    ensures old(Sound(start.K, start.Now())) ==> Sound(end.K, end.Now())
    ensures old(Inv(start.K, start.Now()) && IsToldRun(start.K, start.Now(), ops)) ==>
      RunsAsTwo(old(TwoOf(start.K, start.Now())), ops, outs)
  {
    hide Inv, Sound, State.Linked, IsToldRun, RunsAsTwo, TwoOf, Step, Answer, Answers, Final, State.Repr;
    end := start;
    outs := [];
    ghost var K, s := start.K, start.Now();
    assert ops[0..] == ops;
    for i := 0 to |ops|
      invariant end.Linked() && end.K == K
      invariant forall o :: o in end.Repr() ==> o in old(start.Repr()) || fresh(o)
      invariant outs + Answers(K, end.Now(), ops[i..]) == Answers(K, s, ops)
      invariant Final(K, end.Now(), ops[i..]) == Final(K, s, ops)
    {
      assert ops[i..] == [ops[i]] + ops[i + 1..];
      RunFrom(K, end.Now(), ops[i], ops[i + 1..]);
      ghost var before := end.Repr();
      var out;
      label Before:
      end, out := Perform(end, ops[i]);
      forall o | o in end.Repr()
        ensures o in old(start.Repr()) || fresh(o)
      {
        if o !in before {
          assert o in end.Repr() - before;
          assert fresh@Before(o);
        }
      }
      outs := outs + [out];
    }
    assert ops[|ops|..] == [];
    RunOfNothing(K, end.Now());
    if Sound(K, s) {
      RunKeepsSound(K, s, ops);
    }
    if Inv(K, s) && IsToldRun(K, s, ops) {
      RunIsTwoMaps(K, s, ops);
    }
  }
}

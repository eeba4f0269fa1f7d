/**
 The getitem iterator adaptor: an iterator over any object that supports item
 access, or over a method bound to a receiver. Each step asks for the element
 at the current cursor; a raised StopIteration or IndexError ends the
 iteration, any other exception passes through to the caller unchanged.
 */
module GetItemIter {
  import opened Objects

  /** The runtime operations the adaptor calls but does not define. They are
      parameters of each step, so code that runs between two steps may hand
      the next step a different world. */
  datatype Env = Env(
    // mp_obj_subscr(base, index, MP_OBJ_SENTINEL): load base[index]
    subscr: (Obj, Obj) -> Outcome,
    // mp_call_method_n_kw: call a method on a receiver with positional arguments
    callMethod: (Obj, Obj, seq<Obj>) -> Outcome)

  /** What one step gives its caller: a value, the stop sentinel
      (MP_OBJ_STOP_ITERATION), or an exception raised out of the step. */
  datatype IterStep = Yield(v: Obj) | Stop | Raise(exc: Exc)

  /** The result of one step together with the cursor it leaves behind. */
  datatype Transition = Transition(step: IterStep, cursor: nat)

  /** The access a step attempts: `target[cursor]` without a receiver,
      `target(recv, cursor)` with one. */
  function Attempt(target: Obj, recv: Option<Obj>, cursor: nat, env: Env): Outcome {
    match recv
    case None => env.subscr(target, SmallInt(cursor))
    case Some(self) => env.callMethod(target, self, [SmallInt(cursor)])
  }

  /** The two exception types that end an iteration. The test is on the exact
      type: a subclass of either does not end it. */
  predicate EndsIteration(t: TypeId) {
    t == StopIterationType || t == IndexErrorType
  }

  /** One call of it_iternext, from the cursor before the call. */
  function IterNext(target: Obj, recv: Option<Obj>, cursor: nat, env: Env): (tr: Transition)
    ensures tr.step.Yield? <==> Attempt(target, recv, cursor, env).Value?
    ensures tr.step.Yield? ==> Attempt(target, recv, cursor, env) == Value(tr.step.v)
    ensures tr.cursor == if tr.step.Yield? then cursor + 1 else cursor
    ensures tr.step.Stop? <==>
      Attempt(target, recv, cursor, env).Raised? && EndsIteration(Attempt(target, recv, cursor, env).exc.typ)
    ensures tr.step.Raise? ==>
      Attempt(target, recv, cursor, env) == Raised(tr.step.exc) && !EndsIteration(tr.step.exc.typ)
  {
    match Attempt(target, recv, cursor, env)
    case Value(v) => Transition(Yield(v), cursor + 1)
    case Raised(e) =>
      if EndsIteration(e.typ) then Transition(Stop, cursor) else Transition(Raise(e), cursor)
  }

  /** The steps of a run and the cursor it ends at. */
  datatype Trace = Trace(steps: seq<IterStep>, cursor: nat)

  /** The number of values among a run's steps. */
  function CountYields(steps: seq<IterStep>): nat {
    if steps == [] then 0 else (if steps[0].Yield? then 1 else 0) + CountYields(steps[1..])
  }

  /** `k` successive steps against an unchanging environment. The cursor ends
      exactly as many places further on as the run produced values. */
  function Run(target: Obj, recv: Option<Obj>, cursor: nat, env: Env, k: nat): (r: Trace)
    ensures |r.steps| == k
    ensures r.cursor == cursor + CountYields(r.steps)
    decreases k
  {
    if k == 0 then Trace([], cursor)
    else
      var first := IterNext(target, recv, cursor, env);
      var rest := Run(target, recv, first.cursor, env, k - 1);
      assert ([first.step] + rest.steps)[1..] == rest.steps;
      Trace([first.step] + rest.steps, rest.cursor)
  }

  /** The steps that produce the values `vs` in order. */
  function Yields(vs: seq<Obj>): seq<IterStep> {
    seq(|vs|, i requires 0 <= i < |vs| => Yield(vs[i]))
  }

  /** From cursor `c`, an object whose accesses give `vs[c..]` and then end the
      iteration is drained in order, then stopped, with the cursor at `|vs|`. */
  lemma {:induction false} DrainFrom(target: Obj, recv: Option<Obj>, env: Env, vs: seq<Obj>, c: nat)
    requires c <= |vs|
    requires forall i :: c <= i < |vs| ==> Attempt(target, recv, i, env) == Value(vs[i])
    requires Attempt(target, recv, |vs|, env).Raised?
    requires EndsIteration(Attempt(target, recv, |vs|, env).exc.typ)
    ensures Run(target, recv, c, env, |vs| - c + 1) == Trace(Yields(vs[c..]) + [Stop], |vs|)
    decreases |vs| - c
  {
    if c == |vs| {
      assert vs[c..] == [];
    } else {
      DrainFrom(target, recv, env, vs, c + 1);
      assert vs[c..] == [vs[c]] + vs[c + 1..];
      assert Yields(vs[c..]) == [Yield(vs[c])] + Yields(vs[c + 1..]);
    }
  }

  /** Item-access mode: a target with `target[i] == vs[i]` below `|vs|` and an
      IndexError at `|vs|` yields exactly `vs`, then stops, with cursor `|vs|`. */
  lemma SequenceIteration(target: Obj, env: Env, vs: seq<Obj>, err: seq<Obj>)
    requires forall i :: 0 <= i < |vs| ==> env.subscr(target, SmallInt(i)) == Value(vs[i])
    requires env.subscr(target, SmallInt(|vs|)) == Raised(Exc(IndexErrorType, err))
    ensures Run(target, None, 0, env, |vs| + 1) == Trace(Yields(vs) + [Stop], |vs|)
  {
    DrainFrom(target, None, env, vs, 0);
    assert vs[0..] == vs;
  }

  /** Bound-method mode: a method that, called on `self` with the cursor, gives
      `vs[i]` below `|vs|` and raises StopIteration at `|vs|` yields exactly `vs`. */
  lemma MethodIteration(meth: Obj, self: Obj, env: Env, vs: seq<Obj>, err: seq<Obj>)
    requires forall i :: 0 <= i < |vs| ==> env.callMethod(meth, self, [SmallInt(i)]) == Value(vs[i])
    requires env.callMethod(meth, self, [SmallInt(|vs|)]) == Raised(Exc(StopIterationType, err))
    ensures Run(meth, Some(self), 0, env, |vs| + 1) == Trace(Yields(vs) + [Stop], |vs|)
  {
    DrainFrom(meth, Some(self), env, vs, 0);
    assert vs[0..] == vs;
  }

  /** No "done" flag is kept: once a step stops, every further step against the
      same environment retries the same cursor and stops again. */
  lemma {:induction false} StopRepeats(target: Obj, recv: Option<Obj>, c: nat, env: Env, k: nat)
    requires IterNext(target, recv, c, env).step == Stop
    ensures Run(target, recv, c, env, k) == Trace(seq(k, _ => Stop), c)
    decreases k
  {
    if k > 0 {
      StopRepeats(target, recv, c, env, k - 1);
      assert seq(k, _ => Stop) == [Stop] + seq(k - 1, _ => Stop);
    }
  }

  /** An exception of a user subclass of IndexError or StopIteration is not the
      exact type, so it passes through unchanged and the cursor stays put. */
  lemma SubclassPropagates(target: Obj, recv: Option<Obj>, c: nat, env: Env, id: nat, args: seq<Obj>)
    requires Attempt(target, recv, c, env) == Raised(Exc(UserType(id, IndexErrorType), args))
      || Attempt(target, recv, c, env) == Raised(Exc(UserType(id, StopIterationType), args))
    ensures IterNext(target, recv, c, env) == Transition(Raise(Attempt(target, recv, c, env).exc), c)
  {
  }

  /** The adaptor object (mp_obj_getitem_iter_t). Its target and receiver are
      fixed at construction, so its mode never changes; only the cursor moves. */
  class GetItemIterator {
    const target: Obj
    const recv: Option<Obj>
    var cursor: nat

    /** mp_obj_new_getitem_iter: keep both slots as given, start at cursor 0. */
    constructor (target: Obj, recv: Option<Obj>)
      ensures this.target == target && this.recv == recv && cursor == 0
    {
      this.target := target;
      this.recv := recv;
      cursor := 0;
    }

    /** The type's getiter slot is the identity: the adaptor is its own iterator. */
    method GetIter() returns (it: GetItemIterator)
      ensures it == this
    {
      it := this;
    }

    /** it_iternext: attempt the access at the cursor; on a value advance the
        cursor by one; on StopIteration or IndexError give the stop sentinel;
        re-raise anything else. The cursor moves only when a value is produced. */
    method Next(env: Env) returns (step: IterStep)
      modifies this
      ensures Transition(step, cursor) == IterNext(target, recv, old(cursor), env)
      ensures recv.None? && step.Yield? ==> env.subscr(target, SmallInt(old(cursor))) == Value(step.v)
      ensures recv.Some? && step.Yield? ==>
        env.callMethod(target, recv.value, [SmallInt(old(cursor))]) == Value(step.v)
      ensures cursor == if step.Yield? then old(cursor) + 1 else old(cursor)
    {
      var outcome: Outcome;
      if recv.None? {
        outcome := env.subscr(target, SmallInt(cursor));
      } else {
        outcome := env.callMethod(target, recv.value, [SmallInt(cursor)]);
      }
      match outcome {
        case Value(v) =>
          cursor := cursor + 1;
          step := Yield(v);
        case Raised(e) =>
          if e.typ == StopIterationType || e.typ == IndexErrorType {
            step := Stop;
          } else {
            step := Raise(e);
          }
      }
    }
  }
}

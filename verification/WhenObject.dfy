/**
 `when` as the code runs it: a counter and arrays filled in place by the callbacks that it leaves with
 its inputs, and a Deferred that they settle. Each step is the one that `When.Step` says.
 */
module WhenObject {
  import opened Wrappers
  import opened When
  import opened DeferredObject

  method NewArrays<C, V>(slots: seq<Slot<V>>) returns (a: array<Option<C>>, b: array<Slot<V>>)
    ensures fresh(a) && fresh(b) && a[..] == Unset(|slots|, None) && b[..] == slots
  {
    a := new Option<C>[|slots|](i => None);
    b := new Slot<V>[|slots|](i requires 0 <= i < |slots| => slots[i]);
  }

  class Gathering<C(!new), V(!new)> {
    var remaining: int
    const contexts: array<Option<C>>
    const values: array<Slot<V>>
    const progressContexts: array<Option<C>>
    const progressValues: array<Slot<V>>
    const master: Deferral<Message<C, V>>
    ghost var inputs: seq<Input<C, V>>
    ghost var reason: Option<Message<C, V>>

    ghost function Repr(): set<object> {
      {this, contexts, values, progressContexts, progressValues, master, master.done, master.fail, master.progress}
    }

    ghost function Abs(): State<C, V>
      reads Repr()
    {
      State(remaining, contexts[..], values[..], progressContexts[..], progressValues[..], master.Abs(), inputs, reason)
    }

    /** Arrays of its own, one place for each input, and a master of its own. */
    ghost predicate Parts()
      reads Repr()
    {
      && contexts != progressContexts && values != progressValues
      && contexts.Length == values.Length == progressContexts.Length == progressValues.Length == |inputs|
      && master.Valid()
    }

    ghost predicate Valid()
      reads Repr()
    {
      Parts() && Inv(Abs())
    }

    /** The arrays and the master, before set-up. */
    constructor (arguments: seq<Input<C, V>>)
      ensures Parts() && inputs == arguments && Abs() == Initial(arguments)
      ensures fresh(contexts) && fresh(values) && fresh(progressContexts) && fresh(progressValues)
      ensures fresh(master) && fresh(master.done) && fresh(master.fail) && fresh(master.progress)
    {
      hide D.Consistent, D.Init, Unset, Slots, Deferral.Valid, Deferral.Abs;
      var cs, vs := NewArrays<C, V>(Slots(arguments));
      var pcs, pvs := NewArrays<C, V>(Unset(|arguments|, Hole));
      contexts, values, progressContexts, progressValues := cs, vs, pcs, pvs;
      master := new Deferral();
      remaining, inputs, reason := |arguments|, arguments, None;
      new;
    }

    /** The rest of `when`. */
    method SetUpAll(arguments: seq<Input<C, V>>)
      requires Parts() && inputs == arguments && Abs() == Initial(arguments) && !Lone(arguments)
      modifies Repr()
      ensures Valid() && Abs() == Started(arguments)
    {
      hide Initial, Inv, SetUpFrom, Concluded;
      StartedOk(arguments);
      if |arguments| > 1 {
        AttendAll(arguments);
      } else {
        // a lone plain value, or nothing: the count starts at zero
        remaining := 0;
      }
      Conclude();
    }

    /** The set-up loop. */
    method AttendAll(arguments: seq<Input<C, V>>)
      requires Parts() && inputs == arguments && Shaped(Abs())
      modifies Repr()
      ensures Parts() && Shaped(Abs()) && Abs() == SetUpFrom(old(Abs()), 0)
    {
      hide SetUp;
      var b := 0;
      while b < |arguments|
        invariant 0 <= b <= |arguments| && inputs == arguments && Parts() && Shaped(Abs())
        invariant SetUpFrom(Abs(), b) == SetUpFrom(old(Abs()), 0)
      {
        Attend(b, arguments[b]);
        b := b + 1;
      }
    }

    /** `resolveWith` at the end, if nothing is left to wait for. */
    method Conclude()
      requires Parts()
      modifies Repr()
      ensures Parts() && Abs() == Concluded(old(Abs()))
    {
      hide D.Consistent, D.Step;
      if remaining == 0 {
        master.Settle(D.Done, Values(contexts[..], values[..]));
      }
    }

    /** One turn of the set-up loop: `done`, `fail` and `progress` of a promise, in this order. */
    method Attend(i: nat, input: Input<C, V>)
      requires Parts() && i < |inputs| && inputs[i] == input && Shaped(Abs())
      modifies Repr()
      ensures Parts() && Abs() == SetUp(old(Abs()), i) && inputs == old(inputs)
    {
      hide Arrive, Refuse, Report;
      if input.Plain? {
        remaining := remaining - 1;
      } else {
        Settle(i, input.now);
        if input.before.Some? {
          OnProgress(i, input.before.value.0, input.before.value.1);
        }
      }
    }

    /** What a promise that may have settled does to the callbacks left on its done and fail lists. */
    method Settle(i: nat, now: Status<C, V>)
      requires Parts() && i < |inputs| && inputs[i].Promise?
      modifies Repr()
      ensures Parts() && |inputs| == |old(inputs)| && Abs() == Answered(old(Abs()), i, now)
    {
      hide Arrive, Refuse, Report;
      match now
      case Awaiting =>
      case Resolved(ctx, args) => OnResolved(i, ctx, args);
      case Rejected(ctx, args) => OnRejected(i, ctx, args);
    }

    /** The callback left on the done list of input i. */
    method OnResolved(i: nat, ctx: C, args: seq<V>)
      requires Parts() && i < |inputs| && inputs[i].Promise?
      modifies Repr()
      ensures Parts() && |inputs| == |old(inputs)| && Abs() == Arrive(old(Abs()), i, ctx, args)
    {
      hide D.Step, D.Consistent, Pack;
      contexts[i] := Some(ctx);
      values[i] := Pack(args);
      remaining := remaining - 1;
      inputs := Settled(inputs, i, Resolved(ctx, args));
      if remaining == 0 {
        master.Settle(D.Done, Values(contexts[..], values[..]));
      }
    }

    /** The master's `reject`, left on the fail list of input i. */
    method OnRejected(i: nat, ctx: C, args: seq<V>)
      requires Parts() && i < |inputs| && inputs[i].Promise?
      modifies Repr()
      ensures Parts() && |inputs| == |old(inputs)| && Abs() == Refuse(old(Abs()), i, ctx, args)
    {
      hide D.Step, D.Consistent, Pack;
      inputs := Settled(inputs, i, Rejected(ctx, args));
      reason := if reason.Some? then reason else Some(Reason(ctx, args));
      master.Settle(D.Fail, Reason(ctx, args));
    }

    /** The callback left on the progress list of input i. */
    method OnProgress(i: nat, ctx: C, args: seq<V>)
      requires Parts() && i < |inputs|
      modifies Repr()
      ensures Parts() && |inputs| == |old(inputs)| && Abs() == Report(old(Abs()), i, ctx, args)
    {
      hide D.Step, D.Consistent, Pack;
      progressContexts[i] := Some(ctx);
      progressValues[i] := Pack(args);
      master.Settle(D.Progress, Values(progressContexts[..], progressValues[..]));
    }

    /** Whatever happens after set-up, to the inputs or by the master's users. */
    method Handle(e: Event<C, V>)
      requires Valid() && CanHappen(Abs(), e)
      modifies Repr()
      ensures Valid() && Abs() == Step(old(Abs()), e)
    {
      hide Inv, D.Step, D.Consistent, Arrive, Refuse, Report;
      StepKeeps(Abs(), e);
      match e
      case InputResolved(i, ctx, args) => OnResolved(i, ctx, args);
      case InputRejected(i, ctx, args) => OnRejected(i, ctx, args);
      case InputReports(i, ctx, args) => OnProgress(i, ctx, args);
      case MasterRegisters(n, users) => master.Register(n, users);
      case MasterFinishes => master.Finish();
    }
  }

  /** `when` for any number of inputs but a single promise, which it hands back as it is. */
  method Gather<C(!new), V(!new)>(arguments: seq<Input<C, V>>) returns (g: Gathering<C, V>)
    requires !Lone(arguments)
    ensures fresh(g) && g.Valid() && g.Abs() == Started(arguments)
  {
    hide D.Consistent, Inv, Initial, Started;
    g := new Gathering(arguments);
    g.SetUpAll(arguments);
  }
}

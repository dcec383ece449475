/**
 * Listener objects that decide for themselves whether to handle an event
 * (src/Listener/AbstractAwareListener.php, src/Listener/AbstractDynamicListener.php).
 * The subclass's `acceptEvent` answer is a parameter `accepted` (a method name
 * or null), the methods the object has are the set `methods`, and what the
 * listener does is recorded as a sequence of `Action`s.
 */
module Listeners {
  import opened Wrappers
  import opened Values

  /** A call the listener makes on itself. */
  datatype Action =
    | Initialize
      /** `$this->method(eventName, event, manager, ...args)` */
    | Forward(handler: string, eventName: string, args: seq<Value>)

  /** The answer of `acceptEvent` names an existing method. */
  predicate Forwardable(accepted: Option<string>, methods: set<string>) {
    accepted.Some? && accepted.value in methods
  }

  // ---------------------------------------------------------------------
  // AbstractAwareListener

  /** `__invoke`: forwards the event to the method `acceptEvent` names, when
      there is such a method; does nothing otherwise. */
  function AwareInvoke(accepted: Option<string>, methods: set<string>, eventName: string, args: seq<Value>)
    : (r: seq<Action>)
    ensures r != [] <==> Forwardable(accepted, methods)
    ensures forall a | a in r ::
      && a.Forward? && Some(a.handler) == accepted && a.handler in methods
      && a.eventName == eventName && a.args == args
    ensures |r| <= 1
  {
    if Forwardable(accepted, methods) then [Forward(accepted.value, eventName, args)] else []
  }

  /** `getEventName`: an aware listener listens on the manager's global event name. */
  function GetEventName(globalEventName: string): (r: Option<string>)
    ensures r.Some? && r.value == globalEventName
  {
    Some(globalEventName)
  }

  /** `getPriority`: no priority of its own (null). */
  function GetPriority(): (r: Option<int>)
    ensures r.None?
  {
    None
  }

  // ---------------------------------------------------------------------
  // AbstractDynamicListener

  /** One `__invoke` of a dynamic listener whose flag is `initialized`: an
      accepted event first initializes the listener if that has not happened
      yet, then forwards. Returns the new flag and the actions. */
  function DynamicStep(initialized: bool, accepted: Option<string>, methods: set<string>,
                       eventName: string, args: seq<Value>): (bool, seq<Action>)
  {
    if Forwardable(accepted, methods) then
      (true, (if initialized then [] else [Initialize]) + [Forward(accepted.value, eventName, args)])
    else (initialized, [])
  }

  /** One incoming event: the event name, its arguments and what `acceptEvent` answers. */
  datatype Incoming = Incoming(eventName: string, args: seq<Value>, accepted: Option<string>)

  /** The flag and the actions after a listener with flag `initialized` receives `calls` in order. */
  function DynamicRun(initialized: bool, methods: set<string>, calls: seq<Incoming>): (bool, seq<Action>) {
    if calls == [] then (initialized, [])
    else
      var prev := DynamicRun(initialized, methods, calls[..|calls| - 1]);
      var c := calls[|calls| - 1];
      var step := DynamicStep(prev.0, c.accepted, methods, c.eventName, c.args);
      (step.0, prev.1 + step.1)
  }

  /** The aware listener's actions over `calls`. */
  function AwareRun(methods: set<string>, calls: seq<Incoming>): seq<Action> {
    if calls == [] then []
    else
      var c := calls[|calls| - 1];
      AwareRun(methods, calls[..|calls| - 1]) + AwareInvoke(c.accepted, methods, c.eventName, c.args)
  }

  /** The actions without the initializations. */
  function Forwards(actions: seq<Action>): (r: seq<Action>)
    ensures forall a | a in r :: a.Forward?
    ensures |r| <= |actions|
  {
    if actions == [] then []
    else
      var last := actions[|actions| - 1];
      Forwards(actions[..|actions| - 1]) + (if last.Forward? then [last] else [])
  }

  lemma {:induction false} ForwardsAppend(a: seq<Action>, b: seq<Action>)
    ensures Forwards(a + b) == Forwards(a) + Forwards(b)
  {
    if b != [] {
      var last := |b| - 1;
      assert (a + b)[..|a + b| - 1] == a + b[..last];
      ForwardsAppend(a, b[..last]);
    } else {
      assert a + b == a;
    }
  }

  /** Initialization is invisible to the forwarding: a dynamic listener forwards
      exactly what an aware listener with the same answers forwards. */
  lemma {:induction false} DynamicForwardsAsAware(initialized: bool, methods: set<string>, calls: seq<Incoming>)
    ensures Forwards(DynamicRun(initialized, methods, calls).1) == AwareRun(methods, calls)
  {
    if calls != [] {
      var last := |calls| - 1;
      DynamicForwardsAsAware(initialized, methods, calls[..last]);
      var prev := DynamicRun(initialized, methods, calls[..last]);
      var c := calls[last];
      var step := DynamicStep(prev.0, c.accepted, methods, c.eventName, c.args);
      ForwardsAppend(prev.1, step.1);
      StepForwards(prev.0, c.accepted, methods, c.eventName, c.args);
    }
  }

  /** One step forwards what the aware listener forwards. */
  lemma StepForwards(initialized: bool, accepted: Option<string>, methods: set<string>,
                     eventName: string, args: seq<Value>)
    ensures Forwards(DynamicStep(initialized, accepted, methods, eventName, args).1)
      == AwareInvoke(accepted, methods, eventName, args)
  {
  }

  /** How many initializations `actions` holds. */
  function InitCount(actions: seq<Action>): nat {
    if actions == [] then 0
    else
      var last := actions[|actions| - 1];
      InitCount(actions[..|actions| - 1]) + (if last == Initialize then 1 else 0)
  }

  lemma {:induction false} InitCountAppend(a: seq<Action>, b: seq<Action>)
    ensures InitCount(a + b) == InitCount(a) + InitCount(b)
  {
    if b != [] {
      var last := |b| - 1;
      assert (a + b)[..|a + b| - 1] == a + b[..last];
      InitCountAppend(a, b[..last]);
    } else {
      assert a + b == a;
    }
  }

  /** A new listener initializes at most once, exactly when some event was
      forwarded, and before anything is forwarded; once an event has been
      forwarded the listener stays initialized. */
  lemma {:induction false} InitializeOnce(methods: set<string>, calls: seq<Incoming>)
    ensures var run := DynamicRun(false, methods, calls);
      && InitCount(run.1) == (if run.0 then 1 else 0)
      && (run.0 <==> run.1 != [])
      && (run.1 != [] ==> run.1[0] == Initialize)
      && (forall i | 0 < i < |run.1| :: run.1[i].Forward?)
  {
    if calls != [] {
      var last := |calls| - 1;
      InitializeOnce(methods, calls[..last]);
      var prev := DynamicRun(false, methods, calls[..last]);
      var c := calls[last];
      var step := DynamicStep(prev.0, c.accepted, methods, c.eventName, c.args);
      InitCountAppend(prev.1, step.1);
      var run := DynamicRun(false, methods, calls);
      assert run.1 == prev.1 + step.1;
      if Forwardable(c.accepted, methods) && !prev.0 {
        assert prev.1 == [];
        assert InitCount(step.1) == 1 by {
          InitCountAppend([Initialize], [Forward(c.accepted.value, c.eventName, c.args)]);
        }
      }
      forall i | 0 < i < |run.1| ensures run.1[i].Forward? {
        if i >= |prev.1| {
          assert run.1[i] == step.1[i - |prev.1|];
        } else {
          assert run.1[i] == prev.1[i];
        }
      }
    }
  }

  /** The dynamic listener object: its flag starts false and becomes true at the
      first accepted event. */
  class DynamicListener {
    /** The methods the object has (`method_exists`). */
    const methods: set<string>
    var initialized: bool

    constructor (methods: set<string>)
      ensures this.methods == methods && !initialized
    {
      this.methods := methods;
      initialized := false;
    }

    /** `isInitialized`. */
    function IsInitialized(): (b: bool)
      reads this
      ensures b == initialized
    {
      initialized
    }

    /** `__invoke`: an accepted event initializes the listener first if needed,
        then is forwarded. */
    method Invoke(eventName: string, args: seq<Value>, accepted: Option<string>) returns (actions: seq<Action>)
      modifies this
      ensures (initialized, actions) == DynamicStep(old(initialized), accepted, methods, eventName, args)
    {
      actions := [];
      if accepted.Some? && accepted.value in methods {
        if !IsInitialized() {
          actions := [Initialize];
          initialized := true;
        }
        actions := actions + [Forward(accepted.value, eventName, args)];
      }
    }
  }

  // ---------------------------------------------------------------------
  // The flag as declared

  /** The outcome of `__invoke` with the flag as declared. */
  datatype Invoked = Done(initialized: Option<bool>, actions: seq<Action>) | TypeError

  /** `__invoke` with the flag as declared: the property has no initial value,
      so it starts null, and `isInitialized(): bool` cannot return null. */
  function InvokeAsWritten(initialized: Option<bool>, accepted: Option<string>, methods: set<string>,
                           eventName: string, args: seq<Value>): (r: Invoked)
    ensures Forwardable(accepted, methods) && initialized.None? ==> r.TypeError?
    ensures initialized.Some? ==>
      var step := DynamicStep(initialized.value, accepted, methods, eventName, args);
      r == Done(Some(step.0), step.1)
    ensures !Forwardable(accepted, methods) ==> r == Done(initialized, [])
  {
    if Forwardable(accepted, methods) then
      match initialized
      case None => TypeError
      case Some(b) =>
        Done(Some(true), (if b then [] else [Initialize]) + [Forward(accepted.value, eventName, args)])
    else Done(initialized, [])
  }

  /** A new listener as declared never forwards anything: every event it accepts
      ends in a TypeError before the listener initializes, and the flag stays
      null; the corrected listener forwards the same event. */
  lemma FreshListenerThrows(methods: set<string>, eventName: string, args: seq<Value>, m: string)
    requires m in methods
    ensures InvokeAsWritten(None, Some(m), methods, eventName, args) == TypeError
    ensures DynamicStep(false, Some(m), methods, eventName, args)
      == (true, [Initialize, Forward(m, eventName, args)])
  {
    assert [Initialize] + [Forward(m, eventName, args)] == [Initialize, Forward(m, eventName, args)];
  }
}

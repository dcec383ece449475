/**
 * The listener registry and the dispatch loop that every event manager mixes
 * in (src/EventManagerTrait.php). Listeners are opaque; what a listener does
 * when called is reduced to whether it stops the event's propagation, and
 * every call is recorded as an `Invocation`.
 */
module Events {
  import opened Wrappers
  import opened Values
  import opened Collection

  type ListenerId = nat

  /** A registered callable: a listener itself, or the closure `addOnce` wraps
      around one. A closure's identity is the sequence number of its own
      registration. */
  datatype Callable = Plain(id: ListenerId) | Once(token: nat, target: ListenerId)

  /** The listener that actually runs when `c` is called. */
  function Target(c: Callable): ListenerId {
    match c
    case Plain(id) => id
    case Once(_, target) => target
  }

  type Bucket = seq<Entry<Callable>>
  type Registry = map<string, Bucket>

  /** One call `listener(eventName, event, manager, ...args)`; event and manager
      are those of the trigger that made it. */
  datatype Invocation = Invocation(listener: ListenerId, eventName: string, args: seq<Value>)

  /** PHP truthiness of an optional event-name argument: null, "" and "0" are false. */
  predicate Falsy(name: Option<string>) {
    name.None? || name.value == "" || name.value == "0"
  }

  /** The event carrier: only its propagation flag is part of the model. */
  class Event {
    var propagationStopped: bool

    constructor ()
      ensures !propagationStopped
    {
      propagationStopped := false;
    }
  }

  // ---------------------------------------------------------------------
  // The registry as a value

  /** The bucket of `name`, empty when there is none. */
  function Get(reg: Registry, name: string): Bucket {
    if name in reg then reg[name] else []
  }

  /** `getListeners(name)`: the callables of bucket `name` in delivery order. */
  function Listeners(reg: Registry, name: string): (r: seq<Callable>)
    ensures name !in reg ==> r == []
    ensures |r| == |Get(reg, name)|
  {
    if name !in reg then [] else Items(reg[name])
  }

  /** Bucket `n` is ordered, and every sequence number in it was handed out before `next`. */
  ghost predicate BucketOk(reg: Registry, n: string, next: nat)
    requires n in reg
  {
    Sorted(reg[n]) && AddedBefore(reg[n], next)
  }

  /** Every bucket is well formed. */
  ghost predicate WellFormed(reg: Registry, next: nat) {
    forall n {:trigger BucketOk(reg, n, next)} | n in reg :: BucketOk(reg, n, next)
  }

  /** Every `addOnce` wrapper in the registry was made before `next`: its token,
      the sequence number of its registration, is at most the last one handed out. */
  ghost predicate TokensIssued(reg: Registry, next: nat) {
    forall n, e | n in reg && e in reg[n] && e.item.Once? :: e.item.token < next
  }

  /** Callable `c` is registered in no bucket other than `name`. */
  ghost predicate OnlyIn(reg: Registry, c: Callable, name: string) {
    forall n, e | n in reg && n != name && e in reg[n] :: e.item != c
  }

  /** `addListener`: `e` joins bucket `name`, creating it on first use. */
  function Added(reg: Registry, name: string, e: Entry<Callable>): Registry {
    reg[name := Insert(Get(reg, name), e)]
  }

  /** `removeListener(l, name)`: from bucket `name` only when the name is truthy,
      otherwise from every bucket. */
  function RemovedFrom(reg: Registry, l: Callable, name: Option<string>): Registry {
    if !Falsy(name) then
      if name.value in reg then reg[name.value := Remove(reg[name.value], l)] else reg
    else RemovedEverywhere(reg, l)
  }

  /** Every bucket loses `l`. */
  function RemovedEverywhere(reg: Registry, l: Callable): Registry {
    map n | n in reg :: Remove(reg[n], l)
  }

  /** `removeAllListeners(name)`: drop bucket `name` when the name is truthy,
      otherwise every bucket. */
  function Cleared(reg: Registry, name: Option<string>): Registry {
    if !Falsy(name) then reg - {name.value} else map[]
  }

  /** A new bucket gets the new entry alone; an existing one keeps its order
      with the entry at its insertion point; no other bucket changes. */
  lemma AddedChangesOnlyItsBucket(reg: Registry, name: string, e: Entry<Callable>, next: nat)
    requires WellFormed(reg, next) && e.seqNo == next
    ensures var r := Added(reg, name, e);
      && r.Keys == reg.Keys + {name}
      && (forall n | n in reg && n != name :: r[n] == reg[n])
      && (name !in reg ==> Listeners(r, name) == [e.item])
      && WellFormed(r, next + 1)
      && multiset(r[name]) == multiset(Get(reg, name)) + multiset{e}
  {
    var b := Get(reg, name);
    if name in reg {
      assert BucketOk(reg, name, next);
    }
    InsertKeepsSorted(b, e);
    var r: Registry := Added(reg, name, e);
    forall i | 0 <= i < |r[name]| ensures r[name][i].seqNo < next + 1 {
      assert r[name][i] in multiset(r[name]);
      if r[name][i] != e {
        assert r[name][i] in b;
      }
    }
    forall n | n in r ensures BucketOk(r, n, next + 1) {
      if n != name {
        assert BucketOk(reg, n, next);
      } else if name in reg {
        assert BucketOk(reg, name, next);
      }
    }
  }

  /** Removing with a truthy name touches only that bucket; with a falsy name it
      touches every bucket. Either way `l` is gone from every touched bucket, the
      other entries stay, and the registry stays well formed. */
  lemma RemovedFromSpec(reg: Registry, l: Callable, name: Option<string>, next: nat)
    requires WellFormed(reg, next)
    ensures var r := RemovedFrom(reg, l, name);
      && r.Keys == reg.Keys
      && WellFormed(r, next)
      && (forall n | n in reg ::
            if Falsy(name) || n == name.value then
              l !in Items(r[n]) && forall e :: e in r[n] <==> e in reg[n] && e.item != l
            else r[n] == reg[n])
  {
    var r := RemovedFrom(reg, l, name);
    forall n | n in reg
      ensures BucketOk(r, n, next)
      ensures Falsy(name) || n == name.value ==>
        l !in Items(r[n]) && forall e :: e in r[n] <==> e in reg[n] && e.item != l
    {
      assert BucketOk(reg, n, next);
      RemoveKeepsSorted(reg[n], l);
      RemoveShrinks(reg[n], l);
      forall e ensures e in Remove(reg[n], l) <==> e in reg[n] && e.item != l {
        RemoveDropsExactly(reg[n], l, e);
      }
    }
  }

  /** Clearing one truthy name leaves the other buckets alone; a falsy name
      (including "0") empties the whole registry. */
  lemma ClearedSpec(reg: Registry, name: Option<string>, probe: string, next: nat)
    requires WellFormed(reg, next)
    ensures WellFormed(Cleared(reg, name), next)
    ensures Falsy(name) ==> Listeners(Cleared(reg, name), probe) == []
    ensures !Falsy(name) ==> Listeners(Cleared(reg, name), name.value) == []
    ensures !Falsy(name) && probe != name.value ==>
      Listeners(Cleared(reg, name), probe) == Listeners(reg, probe)
  {
    var r := Cleared(reg, name);
    forall n | n in r ensures BucketOk(r, n, next) {
      assert BucketOk(reg, n, next);
    }
  }

  /** The registration sequence of the ordering fixture: listeners 0..5 added
      to "my.event" with priorities 10, -2, 5, -5, -3, 5. They come back lowest
      priority first, the two listeners of priority 5 in the order they were added. */
  lemma DocumentedOrder()
    ensures var reg := Added(Added(Added(Added(Added(Added(map[],
        "my.event", Entry(10, 0, Plain(0))),
        "my.event", Entry(-2, 1, Plain(1))),
        "my.event", Entry(5, 2, Plain(2))),
        "my.event", Entry(-5, 3, Plain(3))),
        "my.event", Entry(-3, 4, Plain(4))),
        "my.event", Entry(5, 5, Plain(5)));
      && Listeners(reg, "my.event") == [Plain(3), Plain(4), Plain(1), Plain(2), Plain(5), Plain(0)]
      && Listeners(reg, "no.listeners") == []
  {
    var e0, e1, e2 := Entry(10, 0, Plain(0)), Entry(-2, 1, Plain(1)), Entry(5, 2, Plain(2));
    var e3, e4, e5 := Entry(-5, 3, Plain(3)), Entry(-3, 4, Plain(4)), Entry(5, 5, Plain(5));
    FixtureBucket();
    var r1 := Added(map[], "my.event", e0);
    var r2 := Added(r1, "my.event", e1);
    var r3 := Added(r2, "my.event", e2);
    var r4 := Added(r3, "my.event", e3);
    var r5 := Added(r4, "my.event", e4);
    var r6 := Added(r5, "my.event", e5);
    assert Get(r1, "my.event") == Insert([], e0);
    assert Get(r2, "my.event") == Insert(Get(r1, "my.event"), e1);
    assert Get(r3, "my.event") == Insert(Get(r2, "my.event"), e2);
    assert Get(r4, "my.event") == Insert(Get(r3, "my.event"), e3);
    assert Get(r5, "my.event") == Insert(Get(r4, "my.event"), e4);
    assert Get(r6, "my.event") == Insert(Get(r5, "my.event"), e5);
    assert "no.listeners" !in r1 && "no.listeners" !in r2 && "no.listeners" !in r3;
    assert "no.listeners" !in r4 && "no.listeners" !in r5 && "no.listeners" !in r6;
    var b := r6["my.event"];
    assert b == [e3, e4, e1, e2, e5, e0];
    var ls := Listeners(r6, "my.event");
    assert ls == Items(b);
    assert ls == [Plain(3), Plain(4), Plain(1), Plain(2), Plain(5), Plain(0)];
  }

  /** The bucket of the ordering fixture, entry by entry. */
  lemma FixtureBucket()
    ensures Insert(Insert(Insert(Insert(Insert(Insert([],
      Entry(10, 0, Plain(0))), Entry(-2, 1, Plain(1))), Entry(5, 2, Plain(2))),
      Entry(-5, 3, Plain(3))), Entry(-3, 4, Plain(4))), Entry(5, 5, Plain(5)))
      == [Entry(-5, 3, Plain(3)), Entry(-3, 4, Plain(4)), Entry(-2, 1, Plain(1)), Entry(5, 2, Plain(2)),
          Entry(5, 5, Plain(5)), Entry(10, 0, Plain(0))]
  {
    var b1 := Insert([], Entry(10, 0, Plain(0)));
    assert b1 == [Entry(10, 0, Plain(0))];
    var b2 := Insert(b1, Entry(-2, 1, Plain(1)));
    assert b2 == [Entry(-2, 1, Plain(1)), Entry(10, 0, Plain(0))];
    var b3 := Insert(b2, Entry(5, 2, Plain(2)));
    assert Insert(b2[1..], Entry(5, 2, Plain(2))) == [Entry(5, 2, Plain(2)), Entry(10, 0, Plain(0))];
    assert b3 == [Entry(-2, 1, Plain(1)), Entry(5, 2, Plain(2)), Entry(10, 0, Plain(0))];
    var b4 := Insert(b3, Entry(-5, 3, Plain(3)));
    assert b4 == [Entry(-5, 3, Plain(3)), Entry(-2, 1, Plain(1)), Entry(5, 2, Plain(2)), Entry(10, 0, Plain(0))];
    var b5 := Insert(b4, Entry(-3, 4, Plain(4)));
    assert Insert(b4[1..], Entry(-3, 4, Plain(4))) == [Entry(-3, 4, Plain(4))] + b4[1..];
    assert b5 == [Entry(-5, 3, Plain(3)), Entry(-3, 4, Plain(4)), Entry(-2, 1, Plain(1)), Entry(5, 2, Plain(2)),
                  Entry(10, 0, Plain(0))];
    var b6 := Insert(b5, Entry(5, 5, Plain(5)));
    assert Insert(b5[4..], Entry(5, 5, Plain(5))) == [Entry(5, 5, Plain(5)), Entry(10, 0, Plain(0))];
    assert Insert(b5[3..], Entry(5, 5, Plain(5))) == [b5[3]] + Insert(b5[4..], Entry(5, 5, Plain(5)));
    assert Insert(b5[2..], Entry(5, 5, Plain(5))) == [b5[2]] + Insert(b5[3..], Entry(5, 5, Plain(5)));
    assert Insert(b5[1..], Entry(5, 5, Plain(5))) == [b5[1]] + Insert(b5[2..], Entry(5, 5, Plain(5)));
    assert b6 == [Entry(-5, 3, Plain(3)), Entry(-3, 4, Plain(4)), Entry(-2, 1, Plain(1)), Entry(5, 2, Plain(2)),
                  Entry(5, 5, Plain(5)), Entry(10, 0, Plain(0))];
  }

  // ---------------------------------------------------------------------
  // One pass of the dispatch loop, as a value

  /** How many listeners of `ls` run: each runs, and the loop stops right after
      the first one that leaves the event stopped. `stopped` is the flag before
      the next listener runs. */
  function RunLength(ls: seq<Callable>, stopped: bool, stops: ListenerId -> bool): (k: nat)
    ensures k <= |ls|
  {
    if ls == [] then 0
    else if stopped || stops(Target(ls[0])) then 1
    else 1 + RunLength(ls[1..], false, stops)
  }

  /** The event is stopped after the `j`-th listener of the pass has run. */
  predicate StoppedAt(ls: seq<Callable>, stopped: bool, stops: ListenerId -> bool, j: nat)
    requires j < |ls|
  {
    (j == 0 && stopped) || stops(Target(ls[j]))
  }

  /** The pass is the shortest prefix ending with a listener after which the
      event is stopped, or the whole list when there is none; an event that
      comes in already stopped still reaches its first listener. */
  lemma {:induction false} RunLengthSpec(ls: seq<Callable>, stopped: bool, stops: ListenerId -> bool)
    ensures var k := RunLength(ls, stopped, stops);
      && (k == 0 <==> ls == [])
      && (forall j | 0 <= j < k - 1 :: !StoppedAt(ls, stopped, stops, j))
      && (k < |ls| ==> 0 < k && StoppedAt(ls, stopped, stops, k - 1))
  {
    if ls != [] && !stopped && !stops(Target(ls[0])) {
      RunLengthSpec(ls[1..], false, stops);
      var k := RunLength(ls, stopped, stops);
      forall j | 0 <= j < k - 1 ensures !StoppedAt(ls, stopped, stops, j) {
        if j > 0 { assert !StoppedAt(ls[1..], false, stops, j - 1); }
      }
      if k < |ls| { assert StoppedAt(ls[1..], false, stops, k - 2); }
    }
  }

  /** The callables that run when bucket `name` of `reg` is triggered. */
  function Ran(reg: Registry, name: string, stopped: bool, stops: ListenerId -> bool): seq<Callable> {
    var ls := Listeners(reg, name);
    ls[..RunLength(ls, stopped, stops)]
  }

  /** The calls made for the callables `ran`: a wrapper calls its target with the same arguments. */
  function Invocations(ran: seq<Callable>, name: string, args: seq<Value>): (r: seq<Invocation>)
    ensures |r| == |ran|
    ensures forall j | 0 <= j < |ran| :: r[j] == Invocation(Target(ran[j]), name, args)
  {
    if ran == [] then [] else Invocations(ran[..|ran| - 1], name, args) + [Invocation(Target(ran[|ran| - 1]), name, args)]
  }

  /** The flag after the callables `ran` ran, starting from `stopped`: once set it stays set. */
  predicate StoppedAfter(ran: seq<Callable>, stopped: bool, stops: ListenerId -> bool)
    decreases |ran|
  {
    if ran == [] then stopped
    else StoppedAfter(ran[..|ran| - 1], stopped, stops) || stops(Target(ran[|ran| - 1]))
  }

  /** The event ends stopped exactly when it came in stopped or one of the
      listeners that ran stopped it. */
  lemma {:induction false} StoppedAfterSpec(ran: seq<Callable>, stopped: bool, stops: ListenerId -> bool)
    ensures StoppedAfter(ran, stopped, stops) <==> stopped || exists j | 0 <= j < |ran| :: stops(Target(ran[j]))
    decreases |ran|
  {
    if ran != [] {
      var init := ran[..|ran| - 1];
      StoppedAfterSpec(init, stopped, stops);
      if exists j | 0 <= j < |init| :: stops(Target(init[j])) {
        var j :| 0 <= j < |init| && stops(Target(init[j]));
        assert ran[j] == init[j];
      }
      if exists j | 0 <= j < |ran| :: stops(Target(ran[j])) {
        var j :| 0 <= j < |ran| && stops(Target(ran[j]));
        if j < |init| { assert init[j] == ran[j]; }
      }
    }
  }

  /** The registry after the callables `ran` ran: each `addOnce` wrapper among
      them has called `removeListener(itself, name)`. */
  function AfterRun(reg: Registry, ran: seq<Callable>, name: string): Registry
    decreases |ran|
  {
    if ran == [] then reg
    else
      var before := AfterRun(reg, ran[..|ran| - 1], name);
      var c := ran[|ran| - 1];
      if c.Once? then RemovedFrom(before, c, Some(name)) else before
  }

  /** Registering `e` keeps every wrapper's token issued, when `e`'s own is. */
  lemma AddedKeepsTokens(reg: Registry, name: string, e: Entry<Callable>, next: nat)
    requires WellFormed(reg, next) && e.seqNo == next
    requires TokensIssued(reg, next) && (e.item.Once? ==> e.item.token <= next)
    ensures TokensIssued(Added(reg, name, e), next + 1)
  {
    var r := Added(reg, name, e);
    AddedChangesOnlyItsBucket(reg, name, e, next);
    forall n, x: Entry<Callable> | n in r && x in r[n] && x.item.Once? ensures x.item.token < next + 1 {
      if n == name {
        assert x in multiset(r[n]);
      }
    }
  }

  /** A wrapper with a token not issued yet, once registered in bucket `name`,
      is in that bucket alone. */
  lemma FreshWrapperOnlyIn(reg: Registry, name: string, e: Entry<Callable>, next: nat)
    requires TokensIssued(reg, next) && e.item.Once? && e.item.token == next
    ensures OnlyIn(Added(reg, name, e), e.item, name)
  {
  }

  /** Removing a listener keeps every remaining wrapper's token issued. */
  lemma RemovedKeepsTokens(reg: Registry, l: Callable, name: Option<string>, next: nat)
    requires TokensIssued(reg, next)
    ensures TokensIssued(RemovedFrom(reg, l, name), next)
  {
    var r := RemovedFrom(reg, l, name);
    forall n, x: Entry<Callable> | n in r && x in r[n] && x.item.Once? ensures x.item.token < next {
      RemoveDropsExactly(reg[n], l, x);
    }
  }

  /** A wrapper's self-removal only drops entries, and drops every entry of
      `l` from bucket `name`. */
  lemma RemovedFromNamed(reg: Registry, l: Callable, name: string)
    ensures var r := RemovedFrom(reg, l, Some(name));
      && r.Keys == reg.Keys
      && (forall n, e | n in r && e in r[n] :: e in reg[n])
      && l !in Listeners(r, name)
      && (forall d | d !in Listeners(reg, name) :: d !in Listeners(r, name))
  {
    var r := RemovedFrom(reg, l, Some(name));
    forall n, e | n in r && e in r[n] ensures e in reg[n] {
      RemoveDropsExactly(reg[n], l, e);
    }
    if name in reg {
      RemoveShrinks(reg[name], l);
      forall d | d in Listeners(r, name) ensures d in Listeners(reg, name) {
        var i :| 0 <= i < |r[name]| && r[name][i].item == d;
        assert r[name][i] in reg[name];
        var m :| 0 <= m < |reg[name]| && reg[name][m] == r[name][i];
        assert Listeners(reg, name)[m] == d;
      }
    }
  }

  /** A pass only removes entries: every entry left in any bucket was there
      before, and a wrapper that ran is gone from the triggered bucket. */
  lemma {:induction false} AfterRunRemovesRanWrappers(reg: Registry, ran: seq<Callable>, name: string)
    ensures var r := AfterRun(reg, ran, name);
      && r.Keys == reg.Keys
      && (forall n, e | n in r && e in r[n] :: e in reg[n])
      && (forall c | c in ran && c.Once? :: c !in Listeners(r, name))
    decreases |ran|
  {
    if ran != [] {
      var init := ran[..|ran| - 1];
      var c := ran[|ran| - 1];
      AfterRunRemovesRanWrappers(reg, init, name);
      var before := AfterRun(reg, init, name);
      if c.Once? {
        RemovedFromNamed(before, c, name);
      }
      forall d | d in ran && d.Once? && d != c ensures d in init {
        var j :| 0 <= j < |ran| && ran[j] == d;
        assert init[j] == d;
      }
    }
  }

  /** Every entry of the triggered bucket stays, except those of a wrapper that ran. The other buckets are untouched: a wrapper removes
      itself from the triggered bucket only when the name is truthy, and from
      every bucket when it is `""` or `"0"`, where it is registered in the
      triggered bucket alone (as `addOnce` leaves it, see `AddOnce`). */
  lemma {:induction false} AfterRunKeepsTheRest(reg: Registry, ran: seq<Callable>, name: string, e: Entry<Callable>)
    requires name in reg && e in reg[name] && !(e.item.Once? && e.item in ran)
    ensures AfterRun(reg, ran, name).Keys == reg.Keys
    ensures e in AfterRun(reg, ran, name)[name]
    ensures (!Falsy(Some(name)) || forall c | c in ran && c.Once? :: OnlyIn(reg, c, name)) ==>
      forall n | n in reg && n != name :: AfterRun(reg, ran, name)[n] == reg[n]
    decreases |ran|
  {
    if ran != [] {
      var init := ran[..|ran| - 1];
      assert forall d | d in init :: d in ran;
      AfterRunKeepsTheRest(reg, init, name, e);
      var c := ran[|ran| - 1];
      var before := AfterRun(reg, init, name);
      if c.Once? {
        RemoveDropsExactly(before[name], c, e);
      }
      if !Falsy(Some(name)) || forall d | d in ran && d.Once? :: OnlyIn(reg, d, name) {
        assert forall d | d in init :: d in ran;
        forall n | n in reg && n != name ensures AfterRun(reg, ran, name)[n] == reg[n] {
          if c.Once? && Falsy(Some(name)) {
            assert OnlyIn(reg, c, name);
            RemoveAbsent(before[n], c);
          }
        }
      }
    }
  }

  /** The `addOnce` guarantee: a wrapper that ran in one trigger of `name` is not
      among the callables a following trigger of `name` runs, whatever the
      event's flags are. */
  lemma OnceRunsAtMostOnce(reg: Registry, name: string, first: bool, second: bool,
                           stops: ListenerId -> bool, w: Callable)
    requires w.Once? && w in Ran(reg, name, first, stops)
    ensures w !in Ran(AfterRun(reg, Ran(reg, name, first, stops), name), name, second, stops)
  {
    var ran := Ran(reg, name, first, stops);
    var reg1 := AfterRun(reg, ran, name);
    AfterRunRemovesRanWrappers(reg, ran, name);
    var ls := Listeners(reg1, name);
    assert w !in ls;
  }

  // ---------------------------------------------------------------------
  // The trait's state and operations

  class EventManager {
    /** Event name to priority bucket (`$listeners`). */
    var listeners: Registry
    /** The next sequence number the collections hand out. */
    var nextSeq: nat

    ghost predicate Valid()
      reads this
    {
      WellFormed(listeners, nextSeq) && TokensIssued(listeners, nextSeq)
    }

    constructor ()
      ensures Valid() && listeners == map[] && nextSeq == 0
    {
      listeners := map[];
      nextSeq := 0;
    }

    /** `getListeners`. */
    function GetListeners(eventName: string): (r: seq<Callable>)
      reads this
      ensures r == Listeners(listeners, eventName)
    {
      Listeners(listeners, eventName)
    }

    /** `addListener`: registers `listener` in bucket `eventName` only and returns the manager.
        A wrapper passed in exists already, or is the one `addOnce` is registering. */
    method AddListener(eventName: string, listener: Callable, priority: int) returns (self: EventManager)
      requires Valid()
      requires listener.Once? ==> listener.token <= nextSeq
      modifies this
      ensures Valid() && self == this
      ensures listeners == Added(old(listeners), eventName, Entry(priority, old(nextSeq), listener))
      ensures nextSeq == old(nextSeq) + 1
    {
      AddedChangesOnlyItsBucket(listeners, eventName, Entry(priority, nextSeq, listener), nextSeq);
      AddedKeepsTokens(listeners, eventName, Entry(priority, nextSeq, listener), nextSeq);
      if eventName !in listeners {
        assert Insert([], Entry(priority, nextSeq, listener)) == [Entry(priority, nextSeq, listener)];
        listeners := listeners[eventName := [Entry(priority, nextSeq, listener)]];
      } else {
        listeners := listeners[eventName := Insert(listeners[eventName], Entry(priority, nextSeq, listener))];
      }
      nextSeq := nextSeq + 1;
      self := this;
    }

    /** `addOnce`: registers a fresh wrapper around `listener`; the wrapper's
        identity is the sequence number of its registration. */
    method AddOnce(eventName: string, listener: ListenerId, priority: int) returns (self: EventManager)
      requires Valid()
      modifies this
      ensures Valid() && self == this
      ensures listeners == Added(old(listeners), eventName, Entry(priority, old(nextSeq), Once(old(nextSeq), listener)))
      ensures nextSeq == old(nextSeq) + 1
      ensures OnlyIn(listeners, Once(old(nextSeq), listener), eventName)
    {
      var wrapper := Once(nextSeq, listener);
      FreshWrapperOnlyIn(listeners, eventName, Entry(priority, nextSeq, wrapper), nextSeq);
      self := AddListener(eventName, wrapper, priority);
    }

    /** `removeListener`: from one bucket for a truthy name, from all otherwise. */
    method RemoveListener(listener: Callable, eventName: Option<string>) returns (self: EventManager)
      requires Valid()
      modifies this
      ensures Valid() && self == this && nextSeq == old(nextSeq)
      ensures listeners == RemovedFrom(old(listeners), listener, eventName)
    {
      RemovedFromSpec(listeners, listener, eventName, nextSeq);
      RemovedKeepsTokens(listeners, listener, eventName, nextSeq);
      if !Falsy(eventName) {
        if eventName.value in listeners {
          listeners := listeners[eventName.value := Remove(listeners[eventName.value], listener)];
        }
      } else {
        RemoveEverywhere(listener);
      }
      self := this;
    }

    /** The falsy-name branch of `removeListener`: every bucket in turn loses `listener`. */
    method RemoveEverywhere(listener: Callable)
      modifies this
      ensures listeners == RemovedEverywhere(old(listeners), listener)
      ensures nextSeq == old(nextSeq)
    {
      ghost var target := RemovedEverywhere(listeners, listener);
      var pending := listeners.Keys;
      while pending != {}
        invariant pending <= listeners.Keys == old(listeners).Keys == target.Keys
        invariant nextSeq == old(nextSeq)
        invariant forall n | n in listeners ::
          listeners[n] == if n in pending then old(listeners)[n] else target[n]
        decreases pending
      {
        var n :| n in pending;
        listeners := listeners[n := Remove(listeners[n], listener)];
        pending := pending - {n};
      }
      assert listeners == target;
    }

    /** `removeAllListeners`: one bucket for a truthy name, all otherwise. */
    method RemoveAllListeners(eventName: Option<string>) returns (self: EventManager)
      requires Valid()
      modifies this
      ensures Valid() && self == this && nextSeq == old(nextSeq)
      ensures listeners == Cleared(old(listeners), eventName)
    {
      ClearedSpec(listeners, eventName, "", nextSeq);
      if !Falsy(eventName) {
        if eventName.value in listeners {
          listeners := listeners - {eventName.value};
        }
      } else {
        listeners := map[];
      }
      self := this;
    }

    /** The body of the dispatch loop for callable `c`: a wrapper removes itself
        from bucket `eventName` before running, the call is recorded, and the
        listener may stop the event. */
    method Visit(c: Callable, eventName: string, args: seq<Value>, stops: ListenerId -> bool,
                 r: Event, calls: seq<Invocation>) returns (calls': seq<Invocation>)
      requires Valid()
      modifies this, r
      ensures Valid() && nextSeq == old(nextSeq)
      ensures listeners == if c.Once? then RemovedFrom(old(listeners), c, Some(eventName)) else old(listeners)
      ensures calls' == calls + [Invocation(Target(c), eventName, args)]
      ensures r.propagationStopped == (old(r.propagationStopped) || stops(Target(c)))
    {
      if c.Once? {
        var _ := RemoveListener(c, Some(eventName));
      }
      calls' := calls + [Invocation(Target(c), eventName, args)];
      if stops(Target(c)) {
        r.propagationStopped := true;
      }
    }

    /** `trigger`: calls the listeners of `eventName` fetched at the start, in
        order, and stops right after the first one that leaves the event stopped.
        Returns the event passed in, or a fresh one. */
    method Trigger(eventName: string, event: Event?, args: seq<Value>, stops: ListenerId -> bool)
      returns (r: Event, calls: seq<Invocation>)
      requires Valid()
      modifies this, event
      ensures Valid() && nextSeq == old(nextSeq)
      ensures event != null ==> r == event
      ensures event == null ==> fresh(r)
      ensures var stopped := event != null && old(event.propagationStopped);
        var ran := Ran(old(listeners), eventName, stopped, stops);
        && calls == Invocations(ran, eventName, args)
        && listeners == AfterRun(old(listeners), ran, eventName)
        && r.propagationStopped == StoppedAfter(ran, stopped, stops)
    {
      if event == null {
        r := new Event();
      } else {
        r := event;
      }
      ghost var reg0 := listeners;
      ghost var stopped0 := r.propagationStopped;
      var snapshot := GetListeners(eventName);
      ghost var n := RunLength(snapshot, stopped0, stops);
      calls := [];
      var i := 0;
      PassStart(snapshot, reg0, eventName, args, stopped0, stops);
      while i < |snapshot|
        invariant Valid() && nextSeq == old(nextSeq)
        invariant event != null ==> r == event
        invariant event == null ==> fresh(r)
        invariant PassSoFar(snapshot, reg0, eventName, args, stopped0, stops, i, r.propagationStopped, calls, listeners)
        invariant i > 0 ==> !r.propagationStopped
        decreases |snapshot| - i
      {
        var c := snapshot[i];
        ghost var flag := r.propagationStopped;
        ghost var reg := listeners;
        ghost var calls0 := calls;
        calls := Visit(c, eventName, args, stops, r, calls);
        PassNext(snapshot, reg0, eventName, args, stopped0, stops, i, flag, calls0, reg,
                 r.propagationStopped, calls, listeners);
        i := i + 1;
        if r.propagationStopped {
          break;
        }
      }
      PassEnd(snapshot, reg0, eventName, args, stopped0, stops, i, r.propagationStopped, calls, listeners);
    }
  }

  /** What the dispatch loop has done after the first `i` callables of `snapshot`:
      the flag, the calls made and the registry as the pass leaves them. */
  ghost predicate PassSoFar(snapshot: seq<Callable>, reg0: Registry, name: string, args: seq<Value>,
                            stopped0: bool, stops: ListenerId -> bool,
                            i: nat, flag: bool, calls: seq<Invocation>, reg: Registry)
  {
    && i <= RunLength(snapshot, stopped0, stops)
    && flag == StoppedAfter(snapshot[..i], stopped0, stops)
    && (if i > 0 && flag then i == RunLength(snapshot, stopped0, stops)
        else RunLength(snapshot, stopped0, stops) == i + RunLength(snapshot[i..], flag, stops))
    && calls == Invocations(snapshot[..i], name, args)
    && reg == AfterRun(reg0, snapshot[..i], name)
  }

  lemma PassStart(snapshot: seq<Callable>, reg0: Registry, name: string, args: seq<Value>,
                  stopped0: bool, stops: ListenerId -> bool)
    ensures PassSoFar(snapshot, reg0, name, args, stopped0, stops, 0, stopped0, [], reg0)
  {
  }

  /** One turn of the loop keeps `PassSoFar`, or ends the pass exactly at its run length. */
  lemma PassNext(snapshot: seq<Callable>, reg0: Registry, name: string, args: seq<Value>,
                 stopped0: bool, stops: ListenerId -> bool,
                 i: nat, flag: bool, calls: seq<Invocation>, reg: Registry,
                 flag': bool, calls': seq<Invocation>, reg': Registry)
    requires i < |snapshot| && (i > 0 ==> !flag)
    requires PassSoFar(snapshot, reg0, name, args, stopped0, stops, i, flag, calls, reg)
    requires flag' == (flag || stops(Target(snapshot[i])))
    requires calls' == calls + [Invocation(Target(snapshot[i]), name, args)]
    requires reg' == if snapshot[i].Once? then RemovedFrom(reg, snapshot[i], Some(name)) else reg
    ensures PassSoFar(snapshot, reg0, name, args, stopped0, stops, i + 1, flag', calls', reg')
  {
    PassStep(reg0, snapshot, i, name, args);
    StoppedStep(snapshot, i, stopped0, stops);
    RunLengthStep(snapshot, i, flag, stops);
  }

  /** When the loop ends, the pass made is the run of `snapshot`. */
  lemma PassEnd(snapshot: seq<Callable>, reg0: Registry, name: string, args: seq<Value>,
                stopped0: bool, stops: ListenerId -> bool,
                i: nat, flag: bool, calls: seq<Invocation>, reg: Registry)
    requires PassSoFar(snapshot, reg0, name, args, stopped0, stops, i, flag, calls, reg)
    requires i == |snapshot| || (i > 0 && flag)
    ensures var ran := snapshot[..RunLength(snapshot, stopped0, stops)];
      && calls == Invocations(ran, name, args)
      && reg == AfterRun(reg0, ran, name)
      && flag == StoppedAfter(ran, stopped0, stops)
  {
  }

  /** One more callable of the pass: its call is appended, and a wrapper removes itself. */
  lemma PassStep(reg: Registry, ls: seq<Callable>, i: nat, name: string, args: seq<Value>)
    requires i < |ls|
    ensures AfterRun(reg, ls[..i + 1], name) ==
      if ls[i].Once? then RemovedFrom(AfterRun(reg, ls[..i], name), ls[i], Some(name)) else AfterRun(reg, ls[..i], name)
    ensures Invocations(ls[..i + 1], name, args) == Invocations(ls[..i], name, args) + [Invocation(Target(ls[i]), name, args)]
  {
    assert ls[..i + 1][..i] == ls[..i];
  }

  /** The flag after one more callable of the pass. */
  lemma StoppedStep(ls: seq<Callable>, i: nat, stopped: bool, stops: ListenerId -> bool)
    requires i < |ls|
    ensures StoppedAfter(ls[..i + 1], stopped, stops) == (StoppedAfter(ls[..i], stopped, stops) || stops(Target(ls[i])))
  {
    assert ls[..i + 1][..i] == ls[..i];
  }

  /** Unfolding `RunLength` at position `i` of a pass. */
  lemma RunLengthStep(ls: seq<Callable>, i: nat, stopped: bool, stops: ListenerId -> bool)
    requires i < |ls|
    ensures RunLength(ls[i..], stopped, stops) ==
      if stopped || stops(Target(ls[i])) then 1 else 1 + RunLength(ls[i + 1..], false, stops)
  {
  }
}

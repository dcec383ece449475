/**
 * The event manager that lets a class declare its own listeners
 * (src/SubscribableEventManager.php). Each declared subscription is offered
 * to a chain of subscriber handlers in priority order until one claims it;
 * the built-in handler claims `[priority, eventName, callable]` arrays and
 * registers them. What a custom handler decides is a parameter `claims`.
 */
module Subscribers {
  import opened Wrappers
  import opened Values
  import opened Collection
  import opened Events

  /** A subscriber handler: the built-in one, or a custom callable. */
  datatype Handler = Default | Custom(id: nat)

  /** What offering one subscription to the chain came to. */
  datatype Claim =
    | NotClaimed
      /** the built-in handler registered `listener` under `name` */
    | Register(name: string, listener: ListenerId, priority: int)
      /** custom handler `id` accepted it */
    | ByCustom(id: nat)
      /** the built-in handler passed a non-callable array on to `addListener`,
          whose `callable` parameter rejects it with a TypeError */
    | BadCallable

  /** What `subscribeClass` hands back: its boolean, or the TypeError that
      escaped while handling subscription `index`. */
  datatype Outcome = Returned(b: bool) | TypeError(index: nat)

  /** The warning raised for a subscription no handler claimed. */
  datatype Warning = Warning(index: nat, className: string)

  // ---------------------------------------------------------------------
  // The built-in handler

  /** `array_shift` on a list: the first element, or null when the array is
      empty, and what is left of the array. */
  function Shift(a: seq<Value>): (Value, seq<Value>) {
    if a == [] then (Null, []) else (a[0], a[1..])
  }

  /** The array after `k` successive `array_shift`s. */
  function Shifts(a: seq<Value>, k: nat): seq<Value> {
    if k == 0 then a else Shifts(Shift(a).1, k - 1)
  }

  /** Element `k` of a list, or null past its end. */
  function Nth(a: seq<Value>, k: nat): Value {
    if k < |a| then a[k] else Null
  }

  /** Shift number `k + 1` yields element `k` of the original array while there
      is one and null after that; the array left is the suffix after it. */
  lemma {:induction false} SuccessiveShifts(a: seq<Value>, k: nat)
    ensures k < |a| ==> Shift(Shifts(a, k)).0 == a[k]
    ensures k >= |a| ==> Shift(Shifts(a, k)).0 == Null
    ensures Shifts(a, k) == if k <= |a| then a[k..] else []
  {
    if k > 0 {
      SuccessiveShifts(Shift(a).1, k - 1);
      if a != [] {
        assert Shift(a).1 == a[1..];
        if k <= |a| {
          assert a[1..][k - 1..] == a[k..];
        }
        if k < |a| {
          assert a[1..][k - 1] == a[k];
        }
      }
    }
  }

  predicate IsDigit(c: char) {
    '0' <= c <= '9'
  }

  predicate IsDigits(s: string) {
    |s| > 0 && forall i | 0 <= i < |s| :: IsDigit(s[i])
  }

  /** The number a string of decimal digits denotes. */
  function DigitsValue(s: string): nat
    requires IsDigits(s)
  {
    var d := s[|s| - 1] as int - '0' as int;
    if |s| == 1 then d else DigitsValue(s[..|s| - 1]) * 10 + d
  }

  /** The digit character for `d`. */
  function Digit(d: nat): char
    requires d < 10
  {
    ('0' as int + d) as char
  }

  /** The decimal notation of `n`, without leading zeros. */
  function DecimalString(n: nat): string
    decreases n
  {
    if n < 10 then [Digit(n)] else DecimalString(n / 10) + [Digit(n % 10)]
  }

  /** Reading the decimal notation of a number gives the number back. */
  lemma {:induction false} DigitsRoundTrip(n: nat)
    ensures IsDigits(DecimalString(n))
    ensures DigitsValue(DecimalString(n)) == n
    decreases n
  {
    if n >= 10 {
      DigitsRoundTrip(n / 10);
      var s := DecimalString(n);
      assert s[..|s| - 1] == DecimalString(n / 10);
    }
  }

  /** A leading zero does not change the number a digit string denotes. */
  lemma {:induction false} LeadingZero(s: string)
    requires IsDigits(s)
    ensures IsDigits("0" + s)
    ensures DigitsValue("0" + s) == DigitsValue(s)
  {
    var z := "0" + s;
    assert z[..|z| - 1] == "0" + s[..|s| - 1];
    if |s| > 1 {
      LeadingZero(s[..|s| - 1]);
    }
  }

  /** `is_numeric`: an integer, or a string of decimal digits with an optional sign. */
  predicate IsNumeric(v: Value) {
    match v
    case Int(_) => true
    case Str(s) => IsDigits(s) || (|s| > 1 && (s[0] == '-' || s[0] == '+') && IsDigits(s[1..]))
    case _ => false
  }

  /** The `int` that `addListener`'s priority parameter receives. */
  function NumericValue(v: Value): int
    requires IsNumeric(v)
  {
    match v
    case Int(i) => i
    case Str(s) =>
      if IsDigits(s) then DigitsValue(s)
      else if s[0] == '-' then -(DigitsValue(s[1..]) as int)
      else DigitsValue(s[1..])
  }

  /** Every integer written in decimal, with or without a sign, is numeric and
      is coerced back to itself. */
  lemma NumericStrings(n: int)
    ensures var digits := DecimalString(if n < 0 then -n else n);
      && IsNumeric(Str(if n < 0 then "-" + digits else digits))
      && NumericValue(Str(if n < 0 then "-" + digits else digits)) == n
      && (n >= 0 ==> IsNumeric(Str("+" + digits)) && NumericValue(Str("+" + digits)) == n)
  {
    var digits := DecimalString(if n < 0 then -n else n);
    DigitsRoundTrip(if n < 0 then -n else n);
    assert ("-" + digits)[1..] == digits;
    assert ("+" + digits)[1..] == digits;
  }

  /** The built-in handler on `sub`: it claims an array whose first three
      elements are a number, a string and something callable or an array; the
      third must really be callable, or `addListener` throws. */
  function DefaultClaim(sub: Value): (c: Claim)
    ensures c.ByCustom? ==> false
    ensures c != NotClaimed <==>
      && sub.Arr?
      && IsNumeric(Nth(sub.elems, 0))
      && Nth(sub.elems, 1).Str?
      && (Nth(sub.elems, 2).Call? || Nth(sub.elems, 2).Arr?)
    ensures c.Register? ==>
      && Nth(sub.elems, 1) == Str(c.name)
      && Nth(sub.elems, 2) == Call(c.listener)
      && c.priority == NumericValue(Nth(sub.elems, 0))
    ensures c == BadCallable ==> Nth(sub.elems, 2).Arr?
  {
    if !sub.Arr? then NotClaimed
    else
      var (priority, rest1) := Shift(sub.elems);
      var (eventName, rest2) := Shift(rest1);
      var (callable, _) := Shift(rest2);
      SuccessiveShifts(sub.elems, 0);
      SuccessiveShifts(sub.elems, 1);
      SuccessiveShifts(sub.elems, 2);
      assert priority == Nth(sub.elems, 0);
      assert eventName == Nth(sub.elems, 1);
      assert callable == Nth(sub.elems, 2);
      if IsNumeric(priority) && eventName.Str? && (callable.Call? || callable.Arr?) then
        if callable.Call? then Register(eventName.s, callable.id, NumericValue(priority))
        else BadCallable
      else NotClaimed
  }

  /** Handler `h` accepts `sub` (the built-in one possibly by throwing). */
  predicate Accepts(h: Handler, sub: Value, claims: (nat, Value) -> bool) {
    match h
    case Default => DefaultClaim(sub) != NotClaimed
    case Custom(id) => claims(id, sub)
  }

  /** What handler `h` does with `sub` once it accepts it. */
  function ClaimOf(h: Handler, sub: Value): Claim {
    match h
    case Default => DefaultClaim(sub)
    case Custom(id) => ByCustom(id)
  }

  /** `$handle($subscriber)`: the handlers are asked in order and the first that
      accepts decides. */
  function Offer(hs: seq<Handler>, sub: Value, claims: (nat, Value) -> bool): Claim {
    if hs == [] then NotClaimed
    else if Accepts(hs[0], sub, claims) then ClaimOf(hs[0], sub)
    else Offer(hs[1..], sub, claims)
  }

  /** A subscription stays unclaimed exactly when no handler accepts it; otherwise
      the first handler that accepts decides, and none before it accepted. */
  lemma {:induction false} OfferSpec(hs: seq<Handler>, sub: Value, claims: (nat, Value) -> bool)
    ensures Offer(hs, sub, claims) == NotClaimed <==>
      forall i | 0 <= i < |hs| :: !Accepts(hs[i], sub, claims)
    ensures Offer(hs, sub, claims) != NotClaimed ==>
      exists i | 0 <= i < |hs| ::
        && Accepts(hs[i], sub, claims)
        && (forall j | 0 <= j < i :: !Accepts(hs[j], sub, claims))
        && Offer(hs, sub, claims) == ClaimOf(hs[i], sub)
  {
    if hs != [] {
      OfferSpec(hs[1..], sub, claims);
      if Accepts(hs[0], sub, claims) {
        assert DefaultClaim(sub) != NotClaimed || hs[0].Custom?;
      } else {
        forall i | 0 <= i < |hs| && i > 0 ensures hs[i] == hs[1..][i - 1] { }
        if Offer(hs, sub, claims) != NotClaimed {
          var i :| 0 <= i < |hs[1..]| && Accepts(hs[1..][i], sub, claims)
            && (forall j | 0 <= j < i :: !Accepts(hs[1..][j], sub, claims))
            && Offer(hs[1..], sub, claims) == ClaimOf(hs[1..][i], sub);
          assert forall j | 0 <= j < i + 1 :: !Accepts(hs[j], sub, claims) by {
            forall j | 0 <= j < i + 1 ensures !Accepts(hs[j], sub, claims) {
              if j > 0 { assert hs[j] == hs[1..][j - 1]; }
            }
          }
          assert Accepts(hs[i + 1], sub, claims);
        }
      }
    }
  }

  // ---------------------------------------------------------------------
  // `subscribeClass` as a value

  /** The claim of every subscription, in declaration order. */
  function Claims(hs: seq<Handler>, subs: seq<Value>, claims: (nat, Value) -> bool): (cs: seq<Claim>)
    ensures |cs| == |subs|
    ensures forall i | 0 <= i < |subs| :: cs[i] == Offer(hs, subs[i], claims)
  {
    seq(|subs|, i requires 0 <= i < |subs| => Offer(hs, subs[i], claims))
  }

  /** Index of the first subscription whose handling throws, or `|cs|`. */
  function FirstThrow(cs: seq<Claim>): (k: nat)
    ensures k <= |cs|
    ensures k < |cs| ==> cs[k] == BadCallable
    ensures forall j | 0 <= j < k :: cs[j] != BadCallable
  {
    if cs == [] then 0
    else if cs[0] == BadCallable then 0
    else 1 + FirstThrow(cs[1..])
  }

  /** The warnings for the unclaimed subscriptions among `cs`. */
  function Warnings(cs: seq<Claim>, className: string): seq<Warning> {
    if cs == [] then []
    else
      var last := |cs| - 1;
      Warnings(cs[..last], className)
        + (if cs[last] == NotClaimed then [Warning(last, className)] else [])
  }

  predicate Ascending(ws: seq<Warning>) {
    forall a, b | 0 <= a < b < |ws| :: ws[a].index < ws[b].index
  }

  /** A warning is raised for subscription `i` exactly when it went unclaimed,
      once, and the warnings come in declaration order. */
  lemma {:induction false} WarningsSpec(cs: seq<Claim>, className: string)
    ensures forall w | w in Warnings(cs, className) ::
      w.className == className && w.index < |cs| && cs[w.index] == NotClaimed
    ensures forall i | 0 <= i < |cs| && cs[i] == NotClaimed :: Warning(i, className) in Warnings(cs, className)
    ensures Ascending(Warnings(cs, className))
  {
    if cs != [] {
      var last := |cs| - 1;
      WarningsSpec(cs[..last], className);
      var ws := Warnings(cs, className);
      var pre := Warnings(cs[..last], className);
      forall w | w in pre ensures w.index < last && cs[w.index] == NotClaimed {
        assert cs[..last][w.index] == cs[w.index];
      }
      forall i | 0 <= i < |cs| && cs[i] == NotClaimed ensures Warning(i, className) in ws {
        if i < last { assert cs[..last][i] == cs[i]; }
      }
      assert Ascending(pre);
      forall a, b | 0 <= a < b < |ws| ensures ws[a].index < ws[b].index {
        assert ws[a] == pre[a];
        if b >= |pre| {
          assert ws[b] == Warning(last, className);
          assert pre[a] in pre;
          assert pre[a].index < last;
        } else {
          assert ws[b] == pre[b];
          assert pre[a].index < pre[b].index;
        }
      }
    }
  }

  /** The registry after the built-in handler's registration for one claim. */
  function Applied(reg: Registry, next: nat, c: Claim): (Registry, nat) {
    if c.Register? then (Added(reg, c.name, Entry(c.priority, next, Plain(c.listener))), next + 1)
    else (reg, next)
  }

  /** The registry after the registrations of all claims `cs`, in order. */
  function Replayed(reg: Registry, next: nat, cs: seq<Claim>): (Registry, nat) {
    if cs == [] then (reg, next)
    else
      var prev := Replayed(reg, next, cs[..|cs| - 1]);
      Applied(prev.0, prev.1, cs[|cs| - 1])
  }

  /** Replaying registrations keeps the registry well formed under the new
      counter, never moves the counter back, and creates the bucket of every
      registered name. */
  lemma {:induction false} ReplayedSpec(reg: Registry, next: nat, cs: seq<Claim>)
    requires WellFormed(reg, next)
    ensures var r := Replayed(reg, next, cs);
      && WellFormed(r.0, r.1)
      && r.1 >= next
      && reg.Keys <= r.0.Keys
      && (forall i | 0 <= i < |cs| && cs[i].Register? :: cs[i].name in r.0)
  {
    if cs != [] {
      var last := |cs| - 1;
      ReplayedSpec(reg, next, cs[..last]);
      var prev := Replayed(reg, next, cs[..last]);
      if cs[last].Register? {
        AddedChangesOnlyItsBucket(prev.0, cs[last].name,
          Entry(cs[last].priority, prev.1, Plain(cs[last].listener)), prev.1);
      }
      forall i | 0 <= i < |cs| && cs[i].Register? ensures cs[i].name in Replayed(reg, next, cs).0 {
        if i < last { assert cs[..last][i] == cs[i]; }
      }
    }
  }

  /** The built-in handler alone on `[13, "myEvent", callable 7]` registers
      listener 7 for "myEvent" at priority 13; a missing callable, a non-string
      name or a non-array subscription are not claimed; a numeric string is a
      number, with or without a sign. */
  lemma DefaultHandlerFixture()
    ensures Offer([Default], Arr([Int(13), Str("myEvent"), Call(7)]), (id, s) => false)
      == Register("myEvent", 7, 13)
    ensures Offer([Default], Arr([Str("5"), Str("myEvent"), Call(7)]), (id, s) => false)
      == Register("myEvent", 7, 5)
    ensures Offer([Default], Arr([Str("+5"), Str("e"), Call(7)]), (id, s) => false)
      == Register("e", 7, 5)
    ensures Offer([Default], Arr([Int(13), Str("myEvent")]), (id, s) => false) == NotClaimed
    ensures Offer([Default], Arr([Int(13), Int(4), Call(7)]), (id, s) => false) == NotClaimed
    ensures Offer([Default], Str("myEvent"), (id, s) => false) == NotClaimed
    ensures Offer([Default], Arr([Int(13), Str("myEvent"), Arr([])]), (id, s) => false) == BadCallable
  {
  }

  // ---------------------------------------------------------------------
  // The handler chain

  /** The chain is ordered, its sequence numbers are below `next`, and the
      built-in handler, added first at priority 0, is still in it. */
  ghost predicate ChainOk(hs: seq<Entry<Handler>>, next: nat) {
    Sorted(hs) && AddedBefore(hs, next) && Entry(0, 0, Default) in hs
  }

  class SubscribableEventManager {
    /** The registry and dispatch loop this manager inherits. */
    const core: EventManager
    var subscriberHandlers: seq<Entry<Handler>>
    var nextHandlerSeq: nat

    ghost predicate Valid()
      reads this, core
    {
      core.Valid() && ChainOk(subscriberHandlers, nextHandlerSeq)
    }

    /** A new manager: empty registry, the built-in handler alone at priority 0. */
    constructor ()
      ensures Valid() && fresh(core) && core.listeners == map[]
      ensures subscriberHandlers == [Entry(0, 0, Default)] && nextHandlerSeq == 1
    {
      core := new EventManager();
      subscriberHandlers := [Entry(0, 0, Default)];
      nextHandlerSeq := 1;
    }

    /** `addSubscriberHandler`: the handler joins the chain after every handler
        of lower or equal priority; the registry does not change. */
    method AddSubscriberHandler(id: nat, priority: int)
      requires Valid()
      modifies this
      ensures Valid()
      ensures subscriberHandlers == Insert(old(subscriberHandlers), Entry(priority, old(nextHandlerSeq), Custom(id)))
      ensures nextHandlerSeq == old(nextHandlerSeq) + 1
      ensures unchanged(core)
    {
      InsertKeepsSorted(subscriberHandlers, Entry(priority, nextHandlerSeq, Custom(id)));
      var hs := Insert(subscriberHandlers, Entry(priority, nextHandlerSeq, Custom(id)));
      assert Entry(0, 0, Default) in multiset(hs);
      forall i | 0 <= i < |hs| ensures hs[i].seqNo < nextHandlerSeq + 1 {
        assert hs[i] in multiset(hs);
        if hs[i] != Entry(priority, nextHandlerSeq, Custom(id)) {
          assert hs[i] in subscriberHandlers;
        }
      }
      subscriberHandlers := hs;
      nextHandlerSeq := nextHandlerSeq + 1;
    }

    /** `removeSubscriberHandler`: every entry of that handler leaves the chain;
        the built-in handler, which callers cannot name, stays. */
    method RemoveSubscriberHandler(id: nat)
      requires Valid()
      modifies this
      ensures Valid()
      ensures subscriberHandlers == Remove(old(subscriberHandlers), Custom(id))
      ensures nextHandlerSeq == old(nextHandlerSeq)
      ensures unchanged(core)
    {
      RemoveKeepsSorted(subscriberHandlers, Custom(id));
      RemoveDropsExactly(subscriberHandlers, Custom(id), Entry(0, 0, Default));
      subscriberHandlers := Remove(subscriberHandlers, Custom(id));
    }

    /** `$handle($subscriber)`: asks the handlers in chain order; the built-in
        handler registers what it claims before answering. */
    method Handle(sub: Value, claims: (nat, Value) -> bool) returns (c: Claim)
      requires Valid()
      modifies core
      ensures Valid()
      ensures c == Offer(Items(subscriberHandlers), sub, claims)
      ensures (core.listeners, core.nextSeq) == Applied(old(core.listeners), old(core.nextSeq), c)
    {
      var hs := Items(subscriberHandlers);
      var i := 0;
      while i < |hs|
        invariant 0 <= i <= |hs|
        invariant Offer(hs, sub, claims) == Offer(hs[i..], sub, claims)
        invariant core.listeners == old(core.listeners) && core.nextSeq == old(core.nextSeq)
      {
        assert hs[i..][1..] == hs[i + 1..];
        if hs[i] == Default {
          c := DefaultClaim(sub);
          if c.Register? {
            var _ := core.AddListener(c.name, Plain(c.listener), c.priority);
            return;
          } else if c == BadCallable {
            return;
          }
        } else if claims(hs[i].id, sub) {
          c := ByCustom(hs[i].id);
          return;
        }
        i := i + 1;
      }
      c := NotClaimed;
    }

    /** `subscribeClass`: `decl` is what the class's `getEventListeners` returns,
        `None` when it has no such method. Nothing declared: false. Otherwise
        every subscription is offered to the chain in turn, a warning is raised
        for each one nobody claims, and the answer is true; a TypeError from the
        built-in handler ends the call, keeping what was registered before. */
    method SubscribeClass(className: string, decl: Option<seq<Value>>, claims: (nat, Value) -> bool)
      returns (result: Outcome, warnings: seq<Warning>)
      requires Valid()
      modifies core
      ensures Valid()
      ensures decl.None? || decl == Some([]) ==>
        result == Returned(false) && warnings == [] && core.listeners == old(core.listeners)
      ensures decl.Some? && decl.value != [] ==>
        var cs := Claims(Items(subscriberHandlers), decl.value, claims);
        var stop := FirstThrow(cs);
        && result == (if stop < |cs| then TypeError(stop) else Returned(true))
        && warnings == Warnings(cs[..stop], className)
        && (core.listeners, core.nextSeq) == Replayed(old(core.listeners), old(core.nextSeq), cs[..stop])
    {
      warnings := [];
      if decl.None? || decl.value == [] {
        return Returned(false), [];
      }
      var subs := decl.value;
      ghost var cs := Claims(Items(subscriberHandlers), subs, claims);
      var i := 0;
      while i < |subs|
        invariant 0 <= i <= |subs| && Valid()
        invariant forall j | 0 <= j < i :: cs[j] != BadCallable
        invariant warnings == Warnings(cs[..i], className)
        invariant (core.listeners, core.nextSeq) == Replayed(old(core.listeners), old(core.nextSeq), cs[..i])
        invariant subscriberHandlers == old(subscriberHandlers)
      {
        var c := Handle(subs[i], claims);
        assert cs[..i + 1][..i] == cs[..i];
        if c == BadCallable {
          return TypeError(i), warnings;
        }
        if c == NotClaimed {
          warnings := warnings + [Warning(i, className)];
        }
        i := i + 1;
      }
      assert cs[..i] == cs;
      result := Returned(true);
    }
  }
}

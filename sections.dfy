/**
 * The section router (src/SectionEventManager.php): a dotted event name whose
 * first segment names a registered section is handed, without that segment,
 * to the section's event manager; any other name is dispatched by the
 * router's own registry.
 */
module Sections {
  import opened Wrappers
  import opened Values
  import opened Events

  // ---------------------------------------------------------------------
  // `explode(".", name)` and `implode(".", parts)`

  /** The dot-separated segments of `s`; there is always at least one. */
  function Split(s: string): (parts: seq<string>)
    ensures |parts| >= 1
    decreases |s|
  {
    if s == [] then [[]]
    else
      var rest := Split(s[1..]);
      if s[0] == '.' then [[]] + rest else [[s[0]] + rest[0]] + rest[1..]
  }

  /** The segments glued back together with dots. */
  function Join(parts: seq<string>): string
    decreases |parts|
  {
    if parts == [] then []
    else if |parts| == 1 then parts[0]
    else parts[0] + "." + Join(parts[1..])
  }

  /** Splitting and joining back gives the name unchanged, and no segment holds a dot. */
  lemma {:induction false} JoinSplit(s: string)
    ensures Join(Split(s)) == s
    ensures forall k | 0 <= k < |Split(s)| :: '.' !in Split(s)[k]
    decreases |s|
  {
    if s != [] {
      JoinSplit(s[1..]);
      var rest := Split(s[1..]);
      if s[0] == '.' {
        assert Split(s) == [[]] + rest;
        assert s == [] + "." + s[1..];
        forall k | 0 <= k < |Split(s)| ensures '.' !in Split(s)[k] {
          if k > 0 { assert Split(s)[k] == rest[k - 1]; }
        }
      } else {
        var parts := Split(s);
        assert parts == [[s[0]] + rest[0]] + rest[1..];
        if |rest| == 1 {
          assert s == [s[0]] + s[1..];
        } else {
          assert Join(rest) == rest[0] + "." + Join(rest[1..]);
          assert parts[1..] == rest[1..];
          assert s == [s[0]] + s[1..];
        }
        forall k | 0 <= k < |parts| ensures '.' !in parts[k] {
          if k > 0 { assert parts[k] == rest[k]; }
        }
      }
    }
  }

  /** A segment without dots followed by a dot is split off as the first segment. */
  lemma {:induction false} SplitAfterSegment(a: string, b: string)
    requires '.' !in a
    ensures Split(a + "." + b) == [a] + Split(b)
    decreases |a|
  {
    if a == [] {
      assert a + "." + b == "." + b;
      assert ("." + b)[1..] == b;
    } else {
      SplitAfterSegment(a[1..], b);
      assert (a + "." + b)[1..] == a[1..] + "." + b;
      assert [a[0]] + a[1..] == a;
    }
  }

  /** When a name has more than one segment, it is its first segment, a dot and
      the rest of the segments joined: so the rest is strictly shorter. */
  lemma SplitFirst(s: string)
    requires |Split(s)| > 1
    ensures s == Split(s)[0] + "." + Join(Split(s)[1..])
    ensures |Join(Split(s)[1..])| < |s|
  {
    JoinSplit(s);
  }

  // ---------------------------------------------------------------------
  // The routing decision

  /** Where `trigger(name)` goes on a router whose sections are `sections`:
      `Some((section, rest))` hands `rest` to that section's manager, `None`
      dispatches `name` locally. */
  function Route(sections: set<string>, name: string): (r: Option<(string, string)>)
    ensures r.Some? ==> r.value.0 in sections && name == r.value.0 + "." + r.value.1
    ensures r.Some? ==> |r.value.1| < |name|
  {
    var parts := Split(name);
    if |parts| > 1 && parts[0] in sections then
      SplitFirst(name);
      Some((parts[0], Join(parts[1..])))
    else None
  }

  /** A name is delegated exactly when it is a registered section without dots,
      a dot, and a rest; the rest is then everything after the first dot. A
      single-segment name is never delegated, even if a section bears it. */
  lemma RouteSpec(sections: set<string>, name: string, section: string, rest: string)
    ensures Route(sections, name) == Some((section, rest)) <==>
      section in sections && '.' !in section && name == section + "." + rest
    ensures '.' !in name ==> Route(sections, name) == None
  {
    var parts := Split(name);
    JoinSplit(name);
    if Route(sections, name) == Some((section, rest)) {
      SplitFirst(name);
    }
    if section in sections && '.' !in section && name == section + "." + rest {
      SplitAfterSegment(section, rest);
      JoinSplit(rest);
      assert parts[1..] == Split(rest);
    }
    if '.' !in name && |parts| > 1 {
      SplitFirst(name);
    }
  }

  /** `triggerSection(section, name)` with a registered section whose name has no
      dot hands exactly `name` to that section's manager. */
  lemma TriggerSectionRoutes(sections: set<string>, section: string, name: string)
    requires section in sections && '.' !in section
    ensures Route(sections, section + "." + name) == Some((section, name))
  {
    RouteSpec(sections, section + "." + name, section, name);
  }

  /** The routing of the nested-section fixture: "my" and "event" are sections. */
  lemma NestedRoutingFixture()
    ensures Route({"my"}, "my.event") == Some(("my", "event"))
    ensures Route({"event"}, "event") == None
    ensures Route({"my"}, "my.event.event") == Some(("my", "event.event"))
    ensures Route({"event"}, "event.event") == Some(("event", "event"))
  {
    assert "my" + "." + "event" == "my.event";
    assert "my" + "." + "event.event" == "my.event.event";
    assert "event" + "." + "event" == "event.event";
    TriggerSectionRoutes({"my"}, "my", "event");
    TriggerSectionRoutes({"my"}, "my", "event.event");
    TriggerSectionRoutes({"event"}, "event", "event");
    RouteSpec({"event"}, "event", "", "");
  }

  // ---------------------------------------------------------------------
  // The router's state

  /** A section's manager: a plain event manager or another router. */
  datatype ManagerRef = PlainManager(em: EventManager) | SectionManager(sm: SectionEventManager)

  /** `world` holds every router reachable from its members, and `ems` every
      registry they dispatch into: their own and those of plain section managers. */
  ghost predicate Closed(world: set<SectionEventManager>, ems: set<EventManager>)
    reads world
  {
    forall sm | sm in world ::
      && sm.core in ems
      && forall k | k in sm.sectionEventManagers ::
           match sm.sectionEventManagers[k]
           case PlainManager(em) => em in ems
           case SectionManager(sub) => sub in world
  }

  /** The registry that finally dispatches `trigger(name)` on `m`, and the name
      it dispatches: the name is always a suffix of the original. */
  function Resolve(m: ManagerRef, name: string, world: set<SectionEventManager>, ghost ems: set<EventManager>)
    : (r: (EventManager, string))
    requires Closed(world, ems)
    requires m.SectionManager? ==> m.sm in world
    requires m.PlainManager? ==> m.em in ems
    reads world
    ensures r.0 in ems
    ensures |r.1| <= |name| && name[|name| - |r.1|..] == r.1
    decreases |name|
  {
    match m
    case PlainManager(em) => (em, name)
    case SectionManager(sm) =>
      match Route(sm.sectionEventManagers.Keys, name)
      case Some((section, rest)) =>
        var r := Resolve(sm.sectionEventManagers[section], rest, world, ems);
        assert name == section + "." + rest;
        assert name[|name| - |rest|..] == rest;
        assert name[|name| - |r.1|..] == rest[|rest| - |r.1|..];
        r
      case None => (sm.core, name)
  }

  /** What one `trigger` did to the registries `ems`: registry `target` ran its
      pass for `local` (the calls, the wrappers' self-removal, the event's flag)
      and no other registry changed. */
  twostate predicate Dispatched(target: EventManager, local: string, event: Event?, new r: Event,
                                calls: seq<Invocation>, args: seq<Value>, stops: ListenerId -> bool,
                                ems: set<EventManager>)
    reads target, r, ems
  {
    var stopped := event != null && old(event.propagationStopped);
    var ran := Ran(old(target.listeners), local, stopped, stops);
    && calls == Invocations(ran, local, args)
    && target.listeners == AfterRun(old(target.listeners), ran, local)
    && r.propagationStopped == StoppedAfter(ran, stopped, stops)
    && forall em {:trigger em.listeners} | em in ems && em != target :: em.listeners == old(em.listeners)
  }

  /** Registry `target`, one of `ems`, runs its own `trigger` for `local`. */
  method Dispatch(target: EventManager, local: string, event: Event?, args: seq<Value>,
                  stops: ListenerId -> bool, ghost ems: set<EventManager>)
    returns (r: Event, calls: seq<Invocation>)
    requires target in ems
    requires forall em | em in ems :: em.Valid()
    modifies target, event
    ensures forall em | em in ems :: em.Valid()
    ensures event != null ==> r == event
    ensures event == null ==> fresh(r)
    ensures Dispatched(target, local, event, r, calls, args, stops, ems)
  {
    r, calls := target.Trigger(local, event, args, stops);
  }

  class SectionEventManager {
    /** Section name to the manager events of that section go to. */
    var sectionEventManagers: map<string, ManagerRef>
    /** The router's own registry and dispatch loop. */
    const core: EventManager

    constructor ()
      ensures sectionEventManagers == map[]
      ensures fresh(core) && core.Valid() && core.listeners == map[]
    {
      sectionEventManagers := map[];
      core := new EventManager();
    }

    /** `addSectionEventManager`: registers or replaces the manager of a section. */
    method AddSectionEventManager(sectionName: string, eventManager: ManagerRef)
      modifies this
      ensures sectionEventManagers == old(sectionEventManagers)[sectionName := eventManager]
      ensures SectionExists(sectionName) && GetEventManager(sectionName) == Some(eventManager)
    {
      sectionEventManagers := sectionEventManagers[sectionName := eventManager];
    }

    /** `removeSection`: forgets a section; nothing happens when it is absent. */
    method RemoveSection(sectionName: string)
      modifies this
      ensures sectionEventManagers == old(sectionEventManagers) - {sectionName}
      ensures !SectionExists(sectionName)
    {
      if SectionExists(sectionName) {
        sectionEventManagers := sectionEventManagers - {sectionName};
      }
    }

    /** `sectionExists`. */
    function SectionExists(sectionName: string): (b: bool)
      reads this
      ensures b <==> sectionName in sectionEventManagers
    {
      sectionName in sectionEventManagers
    }

    /** `getEventManager`: the section's manager, or null when the section is not registered. */
    function GetEventManager(sectionName: string): (r: Option<ManagerRef>)
      reads this
      ensures r.None? <==> !SectionExists(sectionName)
      ensures r.Some? ==> r.value == sectionEventManagers[sectionName]
    {
      if sectionName in sectionEventManagers then Some(sectionEventManagers[sectionName]) else None
    }

    /** `trigger`: a name whose first segment is a registered section goes, without
        that segment, to the section's manager, whose result is returned; any other
        name is dispatched by this router's own registry under the full name. Only
        the registry that `Resolve` picks changes. */
    method Trigger(eventName: string, event: Event?, args: seq<Value>, stops: ListenerId -> bool,
                   ghost world: set<SectionEventManager>, ghost ems: set<EventManager>)
      returns (r: Event, calls: seq<Invocation>)
      requires this in world && Closed(world, ems)
      requires forall em | em in ems :: em.Valid()
      modifies ems, event
      ensures forall em | em in ems :: em.Valid()
      ensures event != null ==> r == event
      ensures event == null ==> fresh(r)
      ensures var res := old(Resolve(SectionManager(this), eventName, world, ems));
        Dispatched(res.0, res.1, event, r, calls, args, stops, ems)
      decreases |eventName|
    {
      ghost var res := Resolve(SectionManager(this), eventName, world, ems);
      var sections := Split(eventName);
      if |sections| > 1 && SectionExists(sections[0]) {
        var section := sections[0];
        var rest := Join(sections[1..]);
        assert res == Resolve(sectionEventManagers[section], rest, world, ems) by {
          assert Route(sectionEventManagers.Keys, eventName) == Some((section, rest));
        }
        match sectionEventManagers[section]
        case PlainManager(em) =>
          r, calls := Dispatch(em, rest, event, args, stops, ems);
        case SectionManager(sm) =>
          r, calls := sm.Trigger(rest, event, args, stops, world, ems);
      } else {
        assert res == (core, eventName) by {
          assert Route(sectionEventManagers.Keys, eventName) == None;
        }
        r, calls := Dispatch(core, eventName, event, args, stops, ems);
      }
    }

    /** `triggerSection`: `trigger` of the name `sectionName.eventName`. */
    method TriggerSection(sectionName: string, eventName: string, event: Event?, args: seq<Value>,
                          stops: ListenerId -> bool,
                          ghost world: set<SectionEventManager>, ghost ems: set<EventManager>)
      returns (r: Event, calls: seq<Invocation>)
      requires this in world && Closed(world, ems)
      requires forall em | em in ems :: em.Valid()
      modifies ems, event
      ensures forall em | em in ems :: em.Valid()
      ensures event != null ==> r == event
      ensures event == null ==> fresh(r)
      ensures var res := old(Resolve(SectionManager(this), sectionName + "." + eventName, world, ems));
        Dispatched(res.0, res.1, event, r, calls, args, stops, ems)
    {
      var name := sectionName + "." + eventName;
      r, calls := Trigger(name, event, args, stops, world, ems);
    }
  }
}

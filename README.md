# php-event-manager in Dafny

A model of the synchronous, in-process event dispatcher of `tasoftch/php-event-manager`:

- the listener registry and dispatch loop that every event manager mixes in (`EventManagerTrait`);
- the section router (`SectionEventManager`), which hands a dotted event name such as `my.event` to the manager registered for section `my`;
- the subscribable manager (`SubscribableEventManager`), which offers each listener declaration of a class to a priority-ordered chain of subscriber handlers;
- the two abstract listener bases. `AbstractAwareListener` forwards an event only when it accepts it. `AbstractDynamicListener` also initializes itself once, on the first accepted event.

Modules:

| file | module | models |
|---|---|---|
| `wrappers.dfy` | `Wrappers` | `Option` (PHP `null` or a value) |
| `values.dfy` | `Values` | the PHP values a subscription declaration can hold |
| `collection.dfy` | `Collection` | the priority collection: entries `(priority, sequence number, item)` kept in ascending priority, ties in order of addition |
| `events.dfy` | `Events` | the trait as class `EventManager`, the event as class `Event`, and the registry and one dispatch pass as values |
| `sections.dfy` | `Sections` | `explode`/`implode` on dots, the routing decision, and class `SectionEventManager` |
| `subscribers.dfy` | `Subscribers` | the built-in handler, the handler chain and class `SubscribableEventManager` |
| `listeners.dfy` | `Listeners` | the aware listener's guard and class `DynamicListener` |

Modelling choices:

- **Listeners are opaque numbers.** A registered callable is `Plain(id)` or the closure `addOnce` builds, `Once(token, target)`. The token is the sequence number of the closure's own registration, so two wrappers made by `addOnce` on one manager are never equal. A manager's registry only ever holds wrappers whose token it has handed out (`TokensIssued`), so a wrapper `addOnce` makes is, right after, in its own bucket alone (`OnlyIn`).
- **Listener effects are parameters.** What a listener does is reduced to `stops(id)`: whether it leaves the event stopped. Every call is recorded as an `Invocation(listener, eventName, args)`.
- **Other undecidable answers are parameters too:**
  - a custom subscriber handler's verdict is `claims(id, subscription)`;
  - a listener's `acceptEvent` answer is `accepted`;
  - the methods an object has are a set of names;
  - a class's `getEventListeners` result is `Option<seq<Value>>`, where `None` means the method does not exist.
- **PHP truthiness of an optional event name is `Falsy`.** `null`, `""` and `"0"` are all false, so `removeListener(l, "0")` and `removeAllListeners("0")` act on every bucket, exactly as the PHP code does.
- **The trait is composition.** `SectionEventManager` and `SubscribableEventManager` hold their own `EventManager` as `core`. `trigger` with no section is `core.Trigger`. The subscribable manager's `addListener` is `core.AddListener`.
- **A section's manager is a `ManagerRef`.** It is a plain registry, `PlainManager(em)`, or another router, `SectionManager(sm)`. A subscribable manager used as a section manager is its `core`.
- **Delegation is bounded by the name.** Router `Trigger` recurses with the name strictly shortening at each hop. The ghost sets `world` (routers) and `ems` (registries) name everything a dispatch may reach. `Resolve` names the one registry that finally runs and the name it runs under, and every other registry is unchanged.

## Model

| member | source | states |
|---|---|---|
| Collection.Insert | src/EventManagerTrait.php:52-54 | `add(priority, item)` (also src/SubscribableEventManager.php:71) grows the collection by exactly one entry; `InsertKeepsSorted` shows that entry is the new one and every old one stays, and `InsertAtInsertionPoint` where it lands |
| Collection.Remove | src/EventManagerTrait.php:86 | `remove(item)` (also src/SubscribableEventManager.php:80) deletes every occurrence of the item: the collection does not grow, and every surviving entry was there before and does not hold the item; `RemoveDropsExactly` adds that every other entry survives |
| Collection.Items | src/EventManagerTrait.php:124 | the ordered elements are the items of the entries, one per entry, in collection order |
| Collection.InsertionPoint | src/EventManagerTrait.php:52-54 | the position where `add` inserts is within the collection |
| Collection.InsertAtInsertionPoint | src/EventManagerTrait.php:52-54 | `add(p, x)` places the entry after every entry of priority at most `p`, ties included, and before every entry of higher priority; the other entries keep their order |
| Collection.InsertKeepsSorted | src/EventManagerTrait.php:52-54 | `add` keeps the ascending-priority, first-added-first order and adds exactly the one entry |
| Collection.RemoveDropsExactly | src/EventManagerTrait.php:86 | after `remove(x)` an entry is present iff it was present and does not hold `x` |
| Collection.RemoveKeepsSorted | src/EventManagerTrait.php:86 | `remove` keeps the remaining entries ordered |
| Collection.RemoveShrinks | src/EventManagerTrait.php:86 | `remove(x)` never grows a bucket and leaves no `x` in its ordered elements |
| Events.Listeners | src/EventManagerTrait.php:119-125 | `getListeners` of a name without a bucket is empty; otherwise it has one callable per entry |
| Events.AddedChangesOnlyItsBucket | src/EventManagerTrait.php:50-57 | `addListener` creates the bucket on first use holding only the new listener, changes no other bucket, adds exactly one entry, and keeps every bucket ordered |
| Events.RemovedFromSpec | src/EventManagerTrait.php:83-94 | for a truthy name only that bucket loses the listener, and nothing changes if the bucket is absent; for a falsy name (`null`, `""`, `"0"`) every bucket loses it; all other entries stay and buckets stay ordered |
| Events.ClearedSpec | src/EventManagerTrait.php:103-111 | a truthy name empties only its bucket; a falsy name empties the registry, so `getListeners` of any name is empty |
| Events.DocumentedOrder | src/EventManagerTrait.php:42-43 | listeners added with priorities 10, -2, 5, -5, -3, 5 come back lowest priority first, the two of priority 5 in order of addition; an unknown name has none |
| Events.RunLength | src/EventManagerTrait.php:143-147 | a pass runs at most all the listeners fetched |
| Events.RunLengthSpec | src/EventManagerTrait.php:143-147 | the pass is empty only for an empty bucket; no listener before the last one run left the event stopped; if the pass ended early, the last listener that ran left it stopped; an event that arrives stopped still reaches its first listener |
| Events.Invocations | src/EventManagerTrait.php:144 | each listener that ran is called once, in order, with the event name and the trigger's arguments; a wrapper calls its target |
| Events.StoppedAfterSpec | src/EventManagerTrait.php:139-148 | the returned event is stopped iff it came in stopped or a listener that ran stopped it |
| Events.RemovedFromNamed | src/EventManagerTrait.php:83-87 | a wrapper's self-removal only drops entries and leaves none of the wrapper in its bucket |
| Events.AfterRunRemovesRanWrappers | src/EventManagerTrait.php:67-73 | after a pass, no entry is new and every `addOnce` wrapper that ran is gone from the triggered bucket |
| Events.AfterRunKeepsTheRest | src/EventManagerTrait.php:67-73 | a pass removes nothing but the wrappers that ran: every other entry of the triggered bucket stays, including plain listeners that ran; the other buckets are untouched when the name is truthy, and for a falsy name (`""`, `"0"`) when every wrapper that ran sits in the triggered bucket alone, as `addOnce` leaves it; a wrapper also registered elsewhere is removed from every bucket, as `removeListener($l, "0")` does |
| Events.OnceRunsAtMostOnce | src/EventManagerTrait.php:67-73 | a wrapper that ran in one trigger is not among those the next trigger of the same name runs |
| Events.Event.constructor | src/EventManagerTrait.php:139-141 | a fresh event is not stopped |
| Events.EventManager.constructor | src/EventManagerTrait.php:39 | a new manager has no buckets |
| Events.EventManager.GetListeners | src/EventManagerTrait.php:119-125 | `getListeners` is the bucket's callables in delivery order |
| Events.EventManager.AddListener | src/EventManagerTrait.php:50-57 | the registry becomes `Added(old, name, entry)` with a fresh sequence number; the registry stays ordered and holds only wrappers already made; the manager is returned |
| Events.EventManager.AddOnce | src/EventManagerTrait.php:67-73 | registers a fresh wrapper around the listener through `addListener`, and the wrapper is in no bucket but `eventName` |
| Events.FreshWrapperOnlyIn | src/EventManagerTrait.php:68-72 | a wrapper not made before, registered in one bucket, is in no other bucket |
| Events.EventManager.RemoveListener | src/EventManagerTrait.php:83-94 | the registry becomes `RemovedFrom(old, listener, name)` and stays ordered; the manager is returned |
| Events.EventManager.RemoveEverywhere | src/EventManagerTrait.php:89-91 | the loop over all buckets removes the listener from each |
| Events.EventManager.RemoveAllListeners | src/EventManagerTrait.php:103-111 | the registry becomes `Cleared(old, name)`; the manager is returned |
| Events.EventManager.Visit | src/EventManagerTrait.php:143-147 | one step of the loop: a wrapper removes itself from its bucket, the call is recorded, the flag is set if the listener stops the event |
| Events.EventManager.Trigger | src/EventManagerTrait.php:138-149 | returns the event given or a fresh one; the calls are those of `Ran` on the registry at the start; the registry ends as `AfterRun`; the flag is `StoppedAfter` |
| Events.PassNext | src/EventManagerTrait.php:143-147 | one loop turn keeps the pass invariant |
| Events.PassEnd | src/EventManagerTrait.php:143-148 | at loop exit the calls, the registry and the flag are those of the whole pass |
| Sections.Split | src/SectionEventManager.php:82 | `explode(".", name)` yields at least one segment |
| Sections.JoinSplit | src/SectionEventManager.php:82-84 | `implode` undoes `explode`, and no segment holds a dot |
| Sections.SplitAfterSegment | src/SectionEventManager.php:82 | a dot-free segment followed by a dot is split off first |
| Sections.SplitFirst | src/SectionEventManager.php:82-84 | with two or more segments the rest joined is exactly the suffix after the first dot, so it is shorter |
| Sections.Route | src/SectionEventManager.php:82-88 | a delegation goes to a registered section, the name is that section, a dot and the rest, and the rest is strictly shorter |
| Sections.RouteSpec | src/SectionEventManager.php:82-88 | a name is delegated with `(section, rest)` iff the section is registered, dot-free, and the name is `section.rest`; a single-segment name is never delegated |
| Sections.TriggerSectionRoutes | src/SectionEventManager.php:100-103 | `triggerSection(s, n)` with a registered dot-free `s` hands exactly `n` to `s`'s manager |
| Sections.NestedRoutingFixture | src/SectionEventManager.php:82-88 | "my.event" goes to "my" as "event"; "event" alone stays local although a section "event" exists; "my.event.event" goes to "my" as "event.event" |
| Sections.Resolve | src/SectionEventManager.php:80-89 | the registry that finally dispatches is one of the known registries, and the name it runs is a suffix of the original |
| Sections.Dispatch | src/SectionEventManager.php:85-88 | a registry's own trigger changes that registry only, as its pass says |
| Sections.SectionEventManager.constructor | src/SectionEventManager.php:38 | a new router has no sections and an empty own registry |
| Sections.SectionEventManager.AddSectionEventManager | src/SectionEventManager.php:50-52 | the section maps to the manager, replacing any earlier one; afterwards it exists and `getEventManager` returns it |
| Sections.SectionEventManager.RemoveSection | src/SectionEventManager.php:58-61 | the section is gone and the other sections are untouched; removing an absent section changes nothing |
| Sections.SectionEventManager.SectionExists | src/SectionEventManager.php:69-71 | true iff the section is registered |
| Sections.SectionEventManager.GetEventManager | src/SectionEventManager.php:73-75 | null iff the section is not registered, else its manager |
| Sections.SectionEventManager.Trigger | src/SectionEventManager.php:80-89 | the registry `Resolve` picks runs its pass under the name `Resolve` gives and no other registry changes; the event given is returned, or a fresh one |
| Sections.SectionEventManager.TriggerSection | src/SectionEventManager.php:100-103 | is `trigger("section.name")` |
| Subscribers.SuccessiveShifts | src/SubscribableEventManager.php:51-53 | the k-th successive `array_shift` of a list yields its element k-1 while there is one and null after that, and leaves the suffix after it |
| Subscribers.DigitsRoundTrip | src/SubscribableEventManager.php:54-55 | the value read from the decimal notation of any natural number is that number |
| Subscribers.LeadingZero | src/SubscribableEventManager.php:54-55 | a leading zero does not change the value of a digit string (`"007"` is 7) |
| Subscribers.NumericStrings | src/SubscribableEventManager.php:54-55 | every integer written in decimal, with a `-` when negative or a `+` when not, is numeric and becomes that integer as the priority |
| Subscribers.DefaultClaim | src/SubscribableEventManager.php:49-60 | the built-in handler claims exactly an array whose first three elements are numeric, a string, and callable or an array; it registers the callable under that name and priority; a non-callable array there makes `addListener` throw |
| Subscribers.OfferSpec | src/SubscribableEventManager.php:94-100 | a subscription is unclaimed iff no handler accepts it; otherwise the first accepting handler in chain order decides |
| Subscribers.Claims | src/SubscribableEventManager.php:102-103 | the reference definition `SubscribeClass` follows: each subscription is offered to the chain on its own, in declaration order; what each offer yields is `OfferSpec` |
| Subscribers.FirstThrow | src/SubscribableEventManager.php:102-105 | the first subscription whose handling throws, if any; none before it throws |
| Subscribers.WarningsSpec | src/SubscribableEventManager.php:102-105 | one warning per unclaimed subscription, naming its index and the class, in declaration order |
| Subscribers.ReplayedSpec | src/SubscribableEventManager.php:55 | the built-in handler's registrations keep the registry ordered and each registered name has a bucket |
| Subscribers.DefaultHandlerFixture | src/SubscribableEventManager.php:49-60 | `[13, "myEvent", callable]` registers under "myEvent" at 13; a numeric string is a priority; a short array, a non-string name or a non-array are refused; a non-callable array throws |
| Subscribers.SubscribableEventManager.constructor | src/SubscribableEventManager.php:42-61 | the chain holds only the built-in handler, at priority 0, and the registry is empty |
| Subscribers.SubscribableEventManager.AddSubscriberHandler | src/SubscribableEventManager.php:70-72 | the handler joins the chain at its priority, after the handlers of lower or equal priority; the registry does not change |
| Subscribers.SubscribableEventManager.RemoveSubscriberHandler | src/SubscribableEventManager.php:79-81 | every entry of the handler leaves the chain, the built-in handler stays, and the registry does not change |
| Subscribers.SubscribableEventManager.Handle | src/SubscribableEventManager.php:94-100 | the result is the first claim along the chain, and the registry changes only by the built-in handler's registration |
| Subscribers.SubscribableEventManager.SubscribeClass | src/SubscribableEventManager.php:89-110 | returns false, registering nothing, when the class declares nothing; otherwise returns true with one warning per unclaimed subscription and the registrations of all claims in order, unless the built-in handler throws, which ends the call after the earlier registrations |
| Listeners.AwareInvoke | src/Listener/AbstractAwareListener.php:55-60 | forwards iff `acceptEvent` names an existing method, and then to that method with the same event name and arguments; otherwise it does nothing |
| Listeners.GetEventName | src/Listener/AbstractAwareListener.php:65-68 | the manager's global event name |
| Listeners.GetPriority | src/Listener/AbstractAwareListener.php:73-76 | null |
| Listeners.DynamicForwardsAsAware | src/Listener/AbstractDynamicListener.php:55-64 | over any run of events a dynamic listener forwards exactly what an aware listener forwards |
| Listeners.StepForwards | src/Listener/AbstractDynamicListener.php:57-62 | one invocation forwards what the aware guard forwards |
| Listeners.InitializeOnce | src/Listener/AbstractDynamicListener.php:57-62 | a new listener initializes at most once, exactly when something was forwarded, before the first forward, and the flag then stays true |
| Listeners.DynamicListener.constructor | src/Listener/AbstractDynamicListener.php:37 | the flag starts false |
| Listeners.DynamicListener.IsInitialized | src/Listener/AbstractDynamicListener.php:42-45 | returns the flag |
| Listeners.DynamicListener.Invoke | src/Listener/AbstractDynamicListener.php:55-64 | the new flag and actions are `DynamicStep`: initialize only when accepted and not yet initialized, then forward; a rejected event changes nothing |
| Listeners.InvokeAsWritten | src/Listener/AbstractDynamicListener.php:37-58 | with the flag still null an accepted event throws a TypeError; otherwise it behaves like the corrected step |
| Listeners.FreshListenerThrows | src/Listener/AbstractDynamicListener.php:37-45 | a new listener as declared throws on its first accepted event, where the corrected one initializes and forwards |

## Left out

- The priority collection is an external library whose source is not part of this model. It is replaced by `Collection`, ordered ascending by priority with ties in order of addition. `remove(x)` is modelled as dropping every entry that holds `x`.
- `EventManager.php`, `Event/Event.php` and `EventInterface` are not part of this model. So the model has no global-listener dispatch, no value for `GLOBAL_EVENT_NAME` (a parameter of `GetEventName`) and no current-event stack. It also does not apply `EventNameAwareInterface` name or priority overrides at registration.
- Listener execution is abstracted as `stops` and the call trace. Exceptions thrown by listeners, listeners that trigger or change registrations re-entrantly, and by-reference arguments are not modelled.
- Custom subscriber handlers are reduced to their verdict `claims`. Any listeners they register themselves, and any exceptions they throw, are not modelled.
- IsNumeric: accepts integers and decimal-digit strings with an optional `+` or `-` sign. PHP also accepts leading whitespace, trailing whitespace (PHP 8), decimal points, exponents and float values; the model leaves such a subscription unclaimed and warns, where PHP registers it. Coercing a fractional or out-of-range value to `int` is not modelled either.
- `is_callable` is the `Call` value. String function names are not told apart from other strings.
- `getEventListeners` results are lists indexed from 0. String keys and non-array truthy results are not modelled.
- A user error handler that turns the warning into an exception is not modelled; the warnings are returned as a log.
- `method_exists` is membership in a set of names. PHP compares method names case-insensitively; the model compares them exactly.
- Events.EventManager.AddListener: a wrapper registered in a manager other than the one whose `addOnce` made it is not modelled. In PHP the closure's `$this` is its maker, so it removes itself from the maker's bucket and stays registered in the other manager. The model has it remove itself from the manager that triggers it, and requires its number to be one that manager has handed out.
- An `addOnce` wrapper's closure identity is its registration number. Wrapping a wrapper again, and removing a wrapper from outside, are not modelled.
- Sections.SectionEventManager.Trigger: covers only section managers that are plain registries or routers, and assumes the ghost sets `world` and `ems` close over every reachable router and registry.

## Findings

| source | as written | input that shows it | evidently intended | confidence | as-written member | corrected member |
|---|---|---|---|---|---|---|
| src/Listener/AbstractDynamicListener.php:37-45 | `$initialized` has no initial value, so it is null until the first initialization, and `isInitialized(): bool` cannot return null: the first accepted event throws a TypeError before `initialize()` runs, and the flag never becomes true | a new listener whose `acceptEvent` returns the name of one of its methods | the flag starts false, so the first accepted event initializes the listener once and then forwards | high, not executed | Listeners.FreshListenerThrows | Listeners.DynamicListener.Invoke |

/** Per-tenant concurrency slots. A call first looks up (or creates) its tenant's shared counter
    under the map lock and only then, without the lock, raises that counter with a
    compare-and-swap loop; a slot keeps its counter alive and lowers it when dropped, also after
    the tenant was evicted from the map. Every lock section and every atomic access is one step. */
module TenantSlots {
  import opened Counting
  import opened Words

  /** `AtomicU32::fetch_sub(1)` wraps around. */
  function FetchSub(x: U32): U32 { if x == 0 then U32_MAX else x - 1 }

  type CounterId = int
  type CallId = int

  /** A shared counter and the tenant it was created for. */
  datatype Counter = Counter(tenant: string, value: U32)

  datatype Phase =
    | Entering                                  // before the map lookup
    | Bound(counter: CounterId)                 // counter cloned, not yet read
    | Trying(counter: CounterId, seen: U32)     // about to test the limit and exchange
    | Holding(counter: CounterId)               // the slot is live
    | Unlimited                                 // limit 0: a slot without a counter
    | Refused(counter: CounterId)               // TenantAtCapacity
    | Released(counter: CounterId)              // the slot was dropped

  datatype Call = Call(tenant: string, limit: U32, phase: Phase)

  datatype State = State(table: map<string, CounterId>, counters: map<CounterId, Counter>,
                         next: CounterId, calls: map<CallId, Call>)

  datatype Event =
    | Enter(call: CallId, tenant: string, limit: U32)
    | Lookup(call: CallId)
    | Access(call: CallId, spurious: bool)
    | Drop(call: CallId)
    | Evict(evicted: string)

  const START := State(map[], map[], 0, map[])

  function SetPhase(s: State, id: CallId, phase: Phase): State
    requires id in s.calls
  {
    s.(calls := s.calls[id := s.calls[id].(phase := phase)])
  }

  function LookupStep(s: State, id: CallId): State
    requires id in s.calls
  {
    var q := s.calls[id];
    if q.limit == 0 then SetPhase(s, id, Unlimited)
    else if q.tenant in s.table then SetPhase(s, id, Bound(s.table[q.tenant]))
    else
      SetPhase(State(s.table[q.tenant := s.next], s.counters[s.next := Counter(q.tenant, 0)], s.next + 1, s.calls),
               id, Bound(s.next))
  }

  function SetValue(s: State, c: CounterId, v: U32): State
    requires c in s.counters
  {
    s.(counters := s.counters[c := s.counters[c].(value := v)])
  }

  /** `fetch_update`: read, then exchange while the value read is below the limit. */
  function AccessStep(s: State, id: CallId, spurious: bool): State
    requires id in s.calls
  {
    var q := s.calls[id];
    match q.phase
    case Bound(c) =>
      if c in s.counters then SetPhase(s, id, Trying(c, s.counters[c].value)) else s
    case Trying(c, seen) =>
      if c !in s.counters then s
      else if seen >= q.limit then SetPhase(s, id, Refused(c))
      else if s.counters[c].value == seen && !spurious then SetPhase(SetValue(s, c, seen + 1), id, Holding(c))
      else SetPhase(s, id, Trying(c, s.counters[c].value))
    case _ => s
  }

  function DropStep(s: State, id: CallId): State
    requires id in s.calls
  {
    match s.calls[id].phase
    case Holding(c) =>
      if c in s.counters then SetPhase(SetValue(s, c, FetchSub(s.counters[c].value)), id, Released(c)) else s
    case _ => s
  }

  /** An event that cannot happen leaves the state alone, so every event sequence is a run. */
  function Apply(s: State, ev: Event): State {
    match ev
    case Enter(id, tenant, limit) =>
      if id in s.calls then s else s.(calls := s.calls[id := Call(tenant, limit, Entering)])
    case Lookup(id) =>
      if id in s.calls && s.calls[id].phase.Entering? then LookupStep(s, id) else s
    case Access(id, spurious) => if id in s.calls then AccessStep(s, id, spurious) else s
    case Drop(id) => if id in s.calls then DropStep(s, id) else s
    case Evict(tenant) => s.(table := s.table - {tenant})
  }

  function After(s: State, run: seq<Event>): State
    decreases |run|
  {
    if run == [] then s else After(Apply(s, run[0]), run[1..])
  }

  // ----- What the counters mean -----

  ghost function LiveOn(c: CounterId): Call -> bool { (q: Call) => q.phase == Holding(c) }

  /** Live counted slots bound to counter `c`. */
  ghost function Live(s: State, c: CounterId): nat { Count(s.calls, LiveOn(c)) }

  predicate HasCounter(q: Call) {
    q.phase.Bound? || q.phase.Trying? || q.phase.Holding? || q.phase.Refused? || q.phase.Released?
  }

  ghost predicate WellBound(s: State) {
    && 0 <= s.next
    && (forall c :: c in s.counters ==> 0 <= c < s.next)
    && (forall t :: t in s.table ==> s.table[t] in s.counters && s.counters[s.table[t]].tenant == t)
    && (forall id :: id in s.calls && HasCounter(s.calls[id]) ==>
          && s.calls[id].phase.counter in s.counters
          && s.counters[s.calls[id].phase.counter].tenant == s.calls[id].tenant)
  }

  ghost predicate Exact(s: State) {
    forall c :: c in s.counters ==> s.counters[c].value == Live(s, c)
  }

  ghost predicate Inv(s: State) { WellBound(s) && Exact(s) }

  /** Moving one call from one phase to another moves only the counts of the counters it holds. */
  lemma LiveMoves(s: State, id: CallId, q: Call, c: CounterId)
    ensures Count(s.calls[id := q], LiveOn(c))
            == Live(s, c) - (if id in s.calls && s.calls[id].phase == Holding(c) then 1 else 0)
               + (if q.phase == Holding(c) then 1 else 0)
  {
    CountUpdate(s.calls, LiveOn(c), id, q);
  }

  lemma NoneOnUnknown(s: State, c: CounterId)
    requires WellBound(s) && c !in s.counters
    ensures Live(s, c) == 0
  {
    forall id | id in s.calls ensures !LiveOn(c)(s.calls[id]) {
      assert s.calls[id].phase == Holding(c) ==> HasCounter(s.calls[id]);
    }
    CountZero(s.calls, LiveOn(c));
  }

  // ----- The shape of a step -----

  /** The first call of a tenant without a counter makes a new one. */
  ghost predicate Creates(s: State, id: CallId, s': State)
    requires id in s.calls
  {
    var q := s.calls[id];
    && q.phase.Entering? && q.tenant !in s.table
    && s' == State(s.table[q.tenant := s.next], s.counters[s.next := Counter(q.tenant, 0)], s.next + 1,
                   s.calls[id := q.(phase := Bound(s.next))])
  }

  /** Any other step of a call moves its phase, never to another counter, and moves each counter
      exactly as the call's hold on it. */
  ghost predicate Moves(s: State, id: CallId, s': State)
    requires id in s.calls
  {
    var q := s.calls[id];
    && s'.table == s.table && s'.next == s.next
    && id in s'.calls && s'.calls == s.calls[id := s'.calls[id]]
    && var q' := s'.calls[id];
       && q' == q.(phase := q'.phase)
       && (if HasCounter(q) then HasCounter(q') && q'.phase.counter == q.phase.counter
           else HasCounter(q') ==> q.tenant in s.table && q'.phase == Bound(s.table[q.tenant]))
       && s'.counters.Keys == s.counters.Keys
       && forall c :: c in s.counters ==>
            && s'.counters[c].tenant == s.counters[c].tenant
            && s'.counters[c].value == s.counters[c].value - (if q.phase == Holding(c) then 1 else 0)
                                                           + (if q'.phase == Holding(c) then 1 else 0)
  }

  ghost predicate Shape(s: State, ev: Event, s': State) {
    || s' == s
    || match ev
       case Evict(tenant) => s' == s.(table := s.table - {tenant})
       case Enter(id, tenant, limit) =>
         id !in s.calls && s' == s.(calls := s.calls[id := Call(tenant, limit, Entering)])
       case _ => ev.call in s.calls && (Creates(s, ev.call, s') || Moves(s, ev.call, s'))
  }

  lemma LookupHasShape(s: State, id: CallId)
    requires id in s.calls && s.calls[id].phase.Entering?
    ensures Creates(s, id, LookupStep(s, id)) || Moves(s, id, LookupStep(s, id))
  {
  }

  lemma AccessHasShape(s: State, id: CallId, spurious: bool)
    requires id in s.calls
    ensures AccessStep(s, id, spurious) == s || Moves(s, id, AccessStep(s, id, spurious))
  {
  }

  /** No underflow: a live slot finds its counter above zero. */
  lemma DropHasShape(s: State, id: CallId)
    requires id in s.calls && WellBound(s) && Exact(s)
    ensures DropStep(s, id) == s || Moves(s, id, DropStep(s, id))
  {
    if s.calls[id].phase.Holding? {
      assert HasCounter(s.calls[id]);
      CountPositive(s.calls, LiveOn(s.calls[id].phase.counter), id);
    }
  }

  lemma StepHasShape(s: State, ev: Event)
    requires Inv(s)
    ensures Shape(s, ev, Apply(s, ev))
  {
    match ev
    case Lookup(id) => if id in s.calls && s.calls[id].phase.Entering? { LookupHasShape(s, id); }
    case Access(id, spurious) => if id in s.calls { AccessHasShape(s, id, spurious); }
    case Drop(id) => if id in s.calls { DropHasShape(s, id); }
    case _ =>
  }

  lemma ShapeKeepsExact(s: State, ev: Event, s': State)
    requires Inv(s) && Shape(s, ev, s')
    ensures Exact(s')
  {
    if !ev.Evict? && s' != s {
      forall c | c in s'.counters ensures s'.counters[c].value == Live(s', c) {
        LiveMoves(s, ev.call, s'.calls[ev.call], c);
        if c !in s.counters { NoneOnUnknown(s, c); }
      }
    }
  }

  lemma CreateKeepsBinding(s: State, id: CallId, s': State)
    requires WellBound(s) && id in s.calls && Creates(s, id, s')
    ensures WellBound(s')
  {
    assert s.next !in s.counters;
    forall j | j in s'.calls && HasCounter(s'.calls[j])
      ensures s'.calls[j].phase.counter in s'.counters
      ensures s'.counters[s'.calls[j].phase.counter].tenant == s'.calls[j].tenant
    {
      if j != id { assert HasCounter(s.calls[j]); }
    }
  }

  lemma MoveKeepsBinding(s: State, id: CallId, s': State)
    requires WellBound(s) && id in s.calls && Moves(s, id, s')
    ensures WellBound(s')
  {
    forall j | j in s'.calls && HasCounter(s'.calls[j])
      ensures s'.calls[j].phase.counter in s'.counters
      ensures s'.counters[s'.calls[j].phase.counter].tenant == s'.calls[j].tenant
    {
      if j != id || HasCounter(s.calls[id]) { assert HasCounter(s.calls[j]); }
    }
  }

  lemma ShapeKeepsBinding(s: State, ev: Event, s': State)
    requires WellBound(s) && Shape(s, ev, s')
    ensures WellBound(s') && s.next <= s'.next
  {
    if !ev.Evict? && !ev.Enter? && s' != s {
      if Creates(s, ev.call, s') { CreateKeepsBinding(s, ev.call, s'); } else { MoveKeepsBinding(s, ev.call, s'); }
    }
  }

  lemma StepKeepsInv(s: State, ev: Event)
    requires Inv(s)
    ensures Inv(Apply(s, ev))
  {
    StepHasShape(s, ev);
    ShapeKeepsExact(s, ev, Apply(s, ev));
    ShapeKeepsBinding(s, ev, Apply(s, ev));
  }

  lemma {:induction false} InvariantFrom(s: State, run: seq<Event>)
    requires Inv(s)
    ensures Inv(After(s, run))
    decreases |run|
  {
    if run != [] {
      StepKeepsInv(s, run[0]);
      InvariantFrom(Apply(s, run[0]), run[1..]);
    }
  }

  /** In every run each counter equals the live slots bound to it, through evictions and changing
      limits; so a drop never finds it at zero. */
  lemma CountersAreExact(run: seq<Event>, c: CounterId)
    ensures var s := After(START, run);
            c in s.counters ==>
              && s.counters[c].value == Live(s, c)
              && forall id :: id in s.calls && s.calls[id].phase == Holding(c) ==> s.counters[c].value > 0
  {
    InvariantFrom(START, run);
    var s := After(START, run);
    forall id | id in s.calls && s.calls[id].phase == Holding(c) ensures Live(s, c) > 0 {
      CountPositive(s.calls, LiveOn(c), id);
    }
  }

  /** Right after an admission under limit L the counter is at most L. */
  lemma AdmissionRespectsLimit(run: seq<Event>, ev: Event, id: CallId)
    requires var s, s' := After(START, run), Apply(After(START, run), ev);
             && id in s'.calls && s'.calls[id].phase.Holding?
             && !(id in s.calls && s.calls[id].phase.Holding?)
    ensures var s' := Apply(After(START, run), ev);
            && s'.calls[id].phase.counter in s'.counters
            && 0 < s'.counters[s'.calls[id].phase.counter].value <= s'.calls[id].limit
            && s'.counters[s'.calls[id].phase.counter].value == Live(s', s'.calls[id].phase.counter)
  {
    InvariantFrom(START, run);
    StepKeepsInv(After(START, run), ev);
    StepHasShape(After(START, run), ev);
  }

  // ----- Eviction -----

  /** `c` exists but no tenant leads to it any more. */
  ghost predicate Detached(s: State, c: CounterId) {
    c in s.counters && forall t :: t in s.table ==> s.table[t] != c
  }

  ghost function BoundTo(s: State, c: CounterId): set<CallId> {
    set id | id in s.calls && HasCounter(s.calls[id]) && s.calls[id].phase.counter == c
  }

  lemma EvictDetaches(s: State, tenant: string)
    requires WellBound(s) && tenant in s.table
    ensures Detached(Apply(s, Evict(tenant)), s.table[tenant])
  {
  }

  lemma StepKeepsDetached(s: State, ev: Event, s': State, c: CounterId)
    requires WellBound(s) && Detached(s, c) && Shape(s, ev, s')
    ensures Detached(s', c) && BoundTo(s', c) == BoundTo(s, c)
  {
    assert c != s.next;
    forall id ensures id in BoundTo(s', c) <==> id in BoundTo(s, c) {
      if id in s'.calls && (ev.Evict? || id != ev.call) {
        assert id in s.calls && s'.calls[id] == s.calls[id];
      }
    }
  }

  lemma {:induction false} DetachedForGood(s: State, run: seq<Event>, c: CounterId)
    requires Inv(s) && Detached(s, c)
    ensures Detached(After(s, run), c) && BoundTo(After(s, run), c) == BoundTo(s, c)
    decreases |run|
  {
    if run != [] {
      var s' := Apply(s, run[0]);
      StepKeepsInv(s, run[0]);
      StepHasShape(s, run[0]);
      StepKeepsDetached(s, run[0], s', c);
      DetachedForGood(s', run[1..], c);
    }
  }

  /** A step of a call that is not bound to `c` leaves `c` alone. */
  lemma StepTouchesOwnCounter(s: State, ev: Event, c: CounterId)
    requires c in s.counters && !ev.Evict? && Inv(s)
    requires ev.call !in BoundTo(s, c) && ev.call !in BoundTo(Apply(s, ev), c)
    ensures c in Apply(s, ev).counters && Apply(s, ev).counters[c] == s.counters[c]
  {
    StepHasShape(s, ev);
  }

  /** Once a tenant is evicted, its old counter is never handed out again: whatever runs next, the
      calls bound to it are those that were bound before, and they are bound to no other, so they
      never touch the counter that replaces it. */
  lemma EvictionSeparates(history: seq<Event>, tenant: string, run: seq<Event>)
    requires tenant in After(START, history).table
    ensures var s := After(START, history);
            var former, s' := s.table[tenant], After(Apply(s, Evict(tenant)), run);
            && (tenant in s'.table ==> s'.table[tenant] != former)
            && BoundTo(s', former) == BoundTo(s, former)
            && forall id, c :: id in BoundTo(s, former) && id in BoundTo(s', c) ==> c == former
  {
    var s := After(START, history);
    InvariantFrom(START, history);
    var evicted := Apply(s, Evict(tenant));
    StepKeepsInv(s, Evict(tenant));
    EvictDetaches(s, tenant);
    DetachedForGood(evicted, run, s.table[tenant]);
    assert BoundTo(evicted, s.table[tenant]) == BoundTo(s, s.table[tenant]);
  }

  // ----- How many slots a tenant can hold -----

  ghost function LiveOf(tenant: string): Call -> bool {
    (q: Call) => q.tenant == tenant && q.phase.Holding?
  }

  /** Live counted slots of the tenant. */
  ghost function Slots(s: State, tenant: string): nat { Count(s.calls, LiveOf(tenant)) }

  ghost function Owned(counters: map<CounterId, Counter>, tenant: string): set<CounterId> {
    set c | c in counters && counters[c].tenant == tenant
  }

  /** Every counter that was made for the tenant so far. */
  ghost function CountersOf(s: State, tenant: string): set<CounterId> { Owned(s.counters, tenant) }

  function Evictions(run: seq<Event>, tenant: string): nat {
    if run == [] then 0
    else (if run[0] == Evict(tenant) then 1 else 0) + Evictions(run[1..], tenant)
  }

  /** Every call of the tenant asks under a limit of at most `cap`. */
  predicate LimitedTo(run: seq<Event>, tenant: string, cap: U32) {
    forall i :: 0 <= i < |run| && run[i].Enter? && run[i].tenant == tenant ==> run[i].limit <= cap
  }

  ghost predicate Capped(s: State, tenant: string, cap: U32) {
    && (forall id :: id in s.calls && s.calls[id].tenant == tenant ==> s.calls[id].limit <= cap)
    && (forall c :: c in CountersOf(s, tenant) ==> s.counters[c].value <= cap)
  }

  lemma StepKeepsCapped(s: State, ev: Event, s': State, tenant: string, cap: U32)
    requires WellBound(s) && Shape(s, ev, s') && AdmitsUnderLimit(s, ev, s')
    requires Capped(s, tenant, cap) && (ev.Enter? && ev.tenant == tenant ==> ev.limit <= cap)
    ensures Capped(s', tenant, cap)
  {
    forall c | c in CountersOf(s', tenant) ensures s'.counters[c].value <= cap {
      if c in s.counters && s'.counters[c].value > s.counters[c].value {
        assert HasCounter(s'.calls[ev.call]) && HasCounter(s.calls[ev.call]);
      }
    }
  }

  /** A counter that a step raises is raised to at most the limit of the call. */
  ghost predicate AdmitsUnderLimit(s: State, ev: Event, s': State) {
    forall c :: c in s.counters && c in s'.counters && s'.counters[c].value > s.counters[c].value ==>
      && !ev.Evict? && ev.call in s.calls && ev.call in s'.calls
      && s'.calls[ev.call].phase == Holding(c) && s'.counters[c].value <= s.calls[ev.call].limit
  }

  lemma StepAdmitsUnderLimit(s: State, ev: Event)
    requires WellBound(s) && Shape(s, ev, Apply(s, ev))
    ensures AdmitsUnderLimit(s, ev, Apply(s, ev))
  {
  }

  lemma CreateOwns(s: State, id: CallId, s': State, tenant: string)
    requires WellBound(s) && id in s.calls && Creates(s, id, s')
    ensures |CountersOf(s', tenant)| + (if tenant in s'.table then 0 else 1)
            <= |CountersOf(s, tenant)| + (if tenant in s.table then 0 else 1)
  {
    var mine := CountersOf(s, tenant);
    if s.calls[id].tenant == tenant {
      NewCounter(s.counters, s.next, tenant, tenant);
      assert |mine + {s.next}| == |mine| + 1;
    } else {
      NewCounter(s.counters, s.next, s.calls[id].tenant, tenant);
    }
  }

  lemma NewCounter(counters: map<CounterId, Counter>, c: CounterId, creator: string, tenant: string)
    requires c !in counters
    ensures Owned(counters[c := Counter(creator, 0)], tenant)
            == Owned(counters, tenant) + if creator == tenant then {c} else {}
  {
  }

  lemma SameOwners(s: State, s': State, tenant: string)
    requires s'.counters.Keys == s.counters.Keys
    requires forall c :: c in s.counters ==> s'.counters[c].tenant == s.counters[c].tenant
    ensures CountersOf(s', tenant) == CountersOf(s, tenant)
  {
    forall c ensures c in CountersOf(s', tenant) <==> c in CountersOf(s, tenant) {
      if c in s.counters { assert s'.counters[c].tenant == s.counters[c].tenant; }
    }
  }

  /** Spare evictions: a tenant owns one counter more than it was evicted, at most. */
  lemma StepKeepsOwned(s: State, ev: Event, s': State, tenant: string)
    requires WellBound(s) && Shape(s, ev, s')
    ensures |CountersOf(s', tenant)| + (if tenant in s'.table then 0 else 1)
            <= |CountersOf(s, tenant)| + (if tenant in s.table then 0 else 1) + (if ev == Evict(tenant) then 1 else 0)
  {
    if !ev.Evict? && !ev.Enter? && s' != s && Creates(s, ev.call, s') {
      CreateOwns(s, ev.call, s', tenant);
    } else {
      SameOwners(s, s', tenant);
    }
  }

  lemma {:induction false} OwnedFrom(s: State, run: seq<Event>, tenant: string, cap: U32)
    requires Inv(s) && Capped(s, tenant, cap) && LimitedTo(run, tenant, cap)
    ensures Capped(After(s, run), tenant, cap)
    ensures |CountersOf(After(s, run), tenant)|
            <= |CountersOf(s, tenant)| + (if tenant in s.table then 0 else 1) + Evictions(run, tenant)
    decreases |run|
  {
    if run != [] {
      StepKeepsInv(s, run[0]);
      StepHasShape(s, run[0]);
      StepAdmitsUnderLimit(s, run[0]);
      StepKeepsCapped(s, run[0], Apply(s, run[0]), tenant, cap);
      StepKeepsOwned(s, run[0], Apply(s, run[0]), tenant);
      OwnedFrom(Apply(s, run[0]), run[1..], tenant, cap);
    }
  }

  ghost function LiveOnAny(cs: set<CounterId>): Call -> bool {
    (q: Call) => q.phase.Holding? && q.phase.counter in cs
  }

  /** Counters bounded one by one bound the slots they hold together. */
  lemma {:induction false} SlotsOnCounters(calls: map<CallId, Call>, cs: set<CounterId>, cap: nat)
    requires forall c :: c in cs ==> Count(calls, LiveOn(c)) <= cap
    ensures Count(calls, LiveOnAny(cs)) <= cap * |cs|
    decreases |cs|
  {
    if c :| c in cs {
      var rest := cs - {c};
      SlotsOnCounters(calls, rest, cap);
      CountSplit(calls, LiveOnAny(cs), LiveOn(c), LiveOnAny(rest));
      assert |cs| == |rest| + 1;
      OneMore(cap, |rest|);
    } else {
      CountZero(calls, LiveOnAny(cs));
    }
  }

  lemma OneMore(cap: nat, n: nat)
    ensures cap * (n + 1) == cap * n + cap
  {
  }

  /** A tenant whose calls ask under limits up to `cap` holds at most `cap` slots per counter it ever
      had: `cap` while it is not evicted, and `cap` more for each eviction. */
  lemma TenantBound(run: seq<Event>, tenant: string, cap: U32)
    requires LimitedTo(run, tenant, cap)
    ensures Slots(After(START, run), tenant) <= cap * (1 + Evictions(run, tenant))
  {
    var s := After(START, run);
    var owned := |CountersOf(s, tenant)|;
    OwnedFromStart(run, tenant, cap);
    LiveWithinCounters(s, tenant, cap);
    Monotone(cap, owned, 1 + Evictions(run, tenant));
  }

  lemma OwnedFromStart(run: seq<Event>, tenant: string, cap: U32)
    requires LimitedTo(run, tenant, cap)
    ensures Inv(After(START, run)) && Capped(After(START, run), tenant, cap)
    ensures |CountersOf(After(START, run), tenant)| <= 1 + Evictions(run, tenant)
  {
    InvariantFrom(START, run);
    assert CountersOf(START, tenant) == {};
    assert Capped(START, tenant, cap);
    OwnedFrom(START, run, tenant, cap);
  }

  lemma LiveWithinCounters(s: State, tenant: string, cap: U32)
    requires Inv(s) && Capped(s, tenant, cap)
    ensures Slots(s, tenant) <= cap * |CountersOf(s, tenant)|
  {
    forall c | c in CountersOf(s, tenant) ensures Count(s.calls, LiveOn(c)) <= cap {
      assert s.counters[c].value == Live(s, c);
    }
    SlotsOnCounters(s.calls, CountersOf(s, tenant), cap);
    SlotsAreOnOwnCounters(s, tenant);
  }

  lemma SlotsAreOnOwnCounters(s: State, tenant: string)
    requires Inv(s)
    ensures Where(s.calls, LiveOf(tenant)) == Where(s.calls, LiveOnAny(CountersOf(s, tenant)))
  {
    forall id | id in s.calls
      ensures LiveOf(tenant)(s.calls[id]) <==> LiveOnAny(CountersOf(s, tenant))(s.calls[id])
    {
      assert s.calls[id].phase.Holding? ==> HasCounter(s.calls[id]);
    }
  }

  lemma Monotone(cap: nat, a: nat, b: nat)
    requires a <= b
    ensures cap * a <= cap * b
  {
  }

  // ----- Runs that fill counters -----

  lemma {:induction false} AfterConcat(s: State, first: seq<Event>, second: seq<Event>)
    ensures After(s, first + second) == After(After(s, first), second)
    decreases |first|
  {
    if first == [] {
      assert first + second == second;
    } else {
      assert (first + second)[1..] == first[1..] + second;
      AfterConcat(Apply(s, first[0]), first[1..], second);
    }
  }

  lemma {:induction false} EvictionsConcat(first: seq<Event>, second: seq<Event>, tenant: string)
    ensures Evictions(first + second, tenant) == Evictions(first, tenant) + Evictions(second, tenant)
    decreases |first|
  {
    if first == [] {
      assert first + second == second;
    } else {
      assert (first + second)[1..] == first[1..] + second;
      EvictionsConcat(first[1..], second, tenant);
    }
  }

  lemma {:induction false} NoEvictions(run: seq<Event>, tenant: string)
    requires forall i :: 0 <= i < |run| ==> !run[i].Evict?
    ensures Evictions(run, tenant) == 0
    decreases |run|
  {
    if run != [] { NoEvictions(run[1..], tenant); }
  }

  /** A run in which the tenant asks under limits up to `cap` and is evicted `n` times. */
  predicate Allowed(run: seq<Event>, tenant: string, cap: U32, n: nat) {
    LimitedTo(run, tenant, cap) && Evictions(run, tenant) == n
  }

  /** Two runs one after the other. */
  lemma Then(s: State, first: seq<Event>, second: seq<Event>, tenant: string, cap: U32, m: nat, n: nat)
    requires Allowed(first, tenant, cap, m) && Allowed(second, tenant, cap, n)
    ensures Allowed(first + second, tenant, cap, m + n)
    ensures After(s, first + second) == After(After(s, first), second)
  {
    EvictionsConcat(first, second, tenant);
    AfterConcat(s, first, second);
  }

  /** What the counter that the tenant leads to shows. */
  function Taken(s: State, tenant: string): nat {
    if tenant in s.table && s.table[tenant] in s.counters then s.counters[s.table[tenant]].value else 0
  }

  /** A call without interference. */
  function Taking(id: CallId, tenant: string, limit: U32): seq<Event> {
    [Enter(id, tenant, limit), Lookup(id), Access(id, false), Access(id, false)]
  }

  lemma AfterFour(s: State, a: Event, b: Event, c: Event, d: Event)
    ensures After(s, [a, b, c, d]) == Apply(Apply(Apply(Apply(s, a), b), c), d)
  {
    var run := [a, b, c, d];
    assert run[1..] == [b, c, d] && run[1..][1..] == [c, d];
    assert run[1..][1..][1..] == [d] && run[1..][1..][1..][1..] == [];
    assert After(s, run) == After(Apply(s, a), [b, c, d]) == After(Apply(Apply(s, a), b), [c, d])
           == After(Apply(Apply(Apply(s, a), b), c), [d]);
  }

  lemma TakingIsAllowed(id: CallId, tenant: string, cap: U32)
    ensures Allowed(Taking(id, tenant, cap), tenant, cap, 0)
  {
    NoEvictions(Taking(id, tenant, cap), tenant);
  }

  /** The tenant's counter after the lookup of a call. */
  lemma LookupBinds(s: State, id: CallId, tenant: string, limit: U32)
    requires WellBound(s) && id !in s.calls && limit > 0
    ensures var s' := Apply(Apply(s, Enter(id, tenant, limit)), Lookup(id));
            && tenant in s'.table && s'.table[tenant] in s'.counters
            && s'.counters[s'.table[tenant]].value == Taken(s, tenant)
            && s'.calls == s.calls[id := Call(tenant, limit, Bound(s'.table[tenant]))]
  {
  }

  /** Two accesses without interference take the slot. */
  lemma AccessesTake(s: State, id: CallId, c: CounterId)
    requires id in s.calls && s.calls[id].phase == Bound(c)
    requires c in s.counters && s.counters[c].value < s.calls[id].limit
    ensures var s' := Apply(Apply(s, Access(id, false)), Access(id, false));
            && s'.table == s.table && s'.counters == s.counters[c := s.counters[c].(value := s.counters[c].value + 1)]
            && s'.calls == s.calls[id := s.calls[id].(phase := Holding(c))]
  {
  }

  lemma TakingWorks(s: State, id: CallId, tenant: string, limit: U32)
    requires WellBound(s) && id !in s.calls && Taken(s, tenant) < limit
    ensures var s' := After(s, Taking(id, tenant, limit));
            && tenant in s'.table && s'.calls == s.calls[id := Call(tenant, limit, Holding(s'.table[tenant]))]
            && Taken(s', tenant) == Taken(s, tenant) + 1
  {
    AfterFour(s, Enter(id, tenant, limit), Lookup(id), Access(id, false), Access(id, false));
    LookupBinds(s, id, tenant, limit);
    var bound := Apply(Apply(s, Enter(id, tenant, limit)), Lookup(id));
    AccessesTake(bound, id, bound.table[tenant]);
  }

  /** As long as the tenant's counter has room, `n` more calls take `n` more slots. */
  lemma {:induction false} Fill(s: State, tenant: string, cap: U32, n: nat) returns (run: seq<Event>)
    requires Inv(s) && Taken(s, tenant) + n <= cap
    ensures Allowed(run, tenant, cap, 0) && Inv(After(s, run)) && Slots(After(s, run), tenant) == Slots(s, tenant) + n
    decreases n
  {
    run := [];
    if n > 0 {
      var id := UnusedKey(s.calls.Keys);
      var taking := Taking(id, tenant, cap);
      TakingWorks(s, id, tenant, cap);
      TakingIsAllowed(id, tenant, cap);
      InvariantFrom(s, taking);
      var next := After(s, taking);
      CountUpdate(s.calls, LiveOf(tenant), id, next.calls[id]);
      var rest := Fill(next, tenant, cap, n - 1);
      run := taking + rest;
      Then(s, taking, rest, tenant, cap, 0, 0);
    }
  }

  lemma EvictIsAllowed(tenant: string, cap: U32)
    ensures Allowed([Evict(tenant)], tenant, cap, 1)
  {
    assert [Evict(tenant)][1..] == [];
  }

  lemma AfterSnoc(s: State, run: seq<Event>, ev: Event)
    ensures After(s, run + [ev]) == Apply(After(s, run), ev)
  {
    AfterConcat(s, run, [ev]);
    assert [ev][1..] == [];
  }

  /** After any history that leaves the tenant without a counter, it fills a new one. */
  lemma FillNew(history: seq<Event>, tenant: string, cap: U32, m: nat) returns (run: seq<Event>)
    requires tenant !in After(START, history).table && Allowed(history, tenant, cap, m)
    ensures Allowed(run, tenant, cap, m)
    ensures Slots(After(START, run), tenant) == Slots(After(START, history), tenant) + cap
  {
    InvariantFrom(START, history);
    var fill := Fill(After(START, history), tenant, cap, cap);
    run := history + fill;
    Then(START, history, fill, tenant, cap, m, 0);
  }

  lemma ThenEvicted(history: seq<Event>, tenant: string, cap: U32, m: nat)
    requires Allowed(history, tenant, cap, m)
    ensures var run := history + [Evict(tenant)];
            && Allowed(run, tenant, cap, m + 1) && tenant !in After(START, run).table
            && Slots(After(START, run), tenant) == Slots(After(START, history), tenant)
  {
    EvictIsAllowed(tenant, cap);
    Then(START, history, [Evict(tenant)], tenant, cap, m, 1);
    AfterSnoc(START, history, Evict(tenant));
  }

  /** `n` times `cap`. */
  function Times(cap: nat, n: nat): nat { if n == 0 then 0 else Times(cap, n - 1) + cap }

  lemma {:induction false} TimesIs(cap: nat, n: nat)
    ensures Times(cap, n) == cap * n
  {
    if n > 0 {
      TimesIs(cap, n - 1);
      OneMore(cap, n - 1);
    }
  }

  /** A full counter per eviction. */
  lemma {:induction false} Rounds(tenant: string, cap: U32, n: nat) returns (run: seq<Event>)
    ensures Allowed(run, tenant, cap, n) && tenant !in After(START, run).table
    ensures Slots(After(START, run), tenant) == Times(cap, n)
  {
    if n == 0 {
      run := [];
      CountZero(START.calls, LiveOf(tenant));
    } else {
      var before := Rounds(tenant, cap, n - 1);
      var full := FillNew(before, tenant, cap, n - 1);
      ThenEvicted(full, tenant, cap, n - 1);
      run := full + [Evict(tenant)];
    }
  }

  /** The bound is tight: for every limit and every number of evictions some run reaches it. */
  lemma TenantBoundIsReached(tenant: string, cap: U32, n: nat)
    ensures exists run :: Allowed(run, tenant, cap, n) && Slots(After(START, run), tenant) == cap * (1 + n)
  {
    var before := Rounds(tenant, cap, n);
    var run := FillNew(before, tenant, cap, n);
    TimesIs(cap, n);
    OneMore(cap, n);
  }

  lemma StartInv()
    ensures Inv(START)
  {
  }

  // ----- When an eviction lets a tenant exceed its limit -----

  /** A call that has or may still take a slot on the counter it is bound to. */
  predicate CanHold(q: Call) {
    q.phase.Holding? || q.phase.Bound? || (q.phase.Trying? && q.phase.seen < q.limit)
  }

  ghost predicate SomeCanHold(s: State, tenant: string) {
    exists id :: id in s.calls && s.calls[id].tenant == tenant && CanHold(s.calls[id])
  }

  /** Only calls with a limit ever look at a counter. */
  ghost predicate Limited(s: State) {
    forall id :: id in s.calls && HasCounter(s.calls[id]) ==> s.calls[id].limit > 0
  }

  lemma {:induction false} LimitedFrom(s: State, run: seq<Event>)
    requires Limited(s)
    ensures Limited(After(s, run))
    decreases |run|
  {
    if run != [] {
      StepKeepsLimited(s, run[0]);
      LimitedFrom(Apply(s, run[0]), run[1..]);
    }
  }

  lemma StepKeepsLimited(s: State, ev: Event)
    requires Limited(s)
    ensures Limited(Apply(s, ev))
  {
    forall id | id in Apply(s, ev).calls && HasCounter(Apply(s, ev).calls[id])
      ensures Apply(s, ev).calls[id].limit > 0
    {
      if id in s.calls && HasCounter(s.calls[id]) { assert s.calls[id].limit > 0; }
    }
  }

  /** What the tenant's former counters and calls come to: nothing leads to the counters `former` any
      more, the calls on them are done or about to be refused, and every other counter of the tenant is
      the one it leads to. */
  ghost predicate Confined(s: State, tenant: string, former: set<CounterId>) {
    && former <= CountersOf(s, tenant)
    && (tenant in s.table ==> s.table[tenant] !in former)
    && (forall c :: c in CountersOf(s, tenant) && c !in former ==> tenant in s.table && s.table[tenant] == c)
    && (forall id :: id in s.calls && HasCounter(s.calls[id]) && s.calls[id].phase.counter in former ==>
          !CanHold(s.calls[id]))
  }

  lemma CountersStayConfined(s: State, ev: Event, s': State, tenant: string, former: set<CounterId>)
    requires WellBound(s) && Shape(s, ev, s') && ev != Evict(tenant) && Confined(s, tenant, former)
    ensures former <= CountersOf(s', tenant) && (tenant in s'.table ==> s'.table[tenant] !in former)
    ensures forall c :: c in CountersOf(s', tenant) && c !in former ==> tenant in s'.table && s'.table[tenant] == c
  {
    if !ev.Evict? && !ev.Enter? && s' != s && Creates(s, ev.call, s') {
      NewCounter(s.counters, s.next, s.calls[ev.call].tenant, tenant);
      assert s.next !in former;
    } else {
      SameOwners(s, s', tenant);
    }
  }

  lemma CallsStayConfined(s: State, ev: Event, tenant: string, former: set<CounterId>, id: CallId)
    requires WellBound(s) && Confined(s, tenant, former)
    requires var s' := Apply(s, ev);
             id in s'.calls && HasCounter(s'.calls[id]) && s'.calls[id].phase.counter in former
    ensures !CanHold(Apply(s, ev).calls[id])
  {
    assert s.next !in former;
    assert forall t :: t in s.table && s.table[t] in former ==> s.counters[s.table[t]].tenant == tenant;
    if id in s.calls && HasCounter(s.calls[id]) {
      assert s.calls[id].phase.counter in former ==> !CanHold(s.calls[id]);
    }
  }

  lemma {:induction false} ConfinedFrom(s: State, run: seq<Event>, tenant: string, former: set<CounterId>)
    requires Inv(s) && Confined(s, tenant, former) && Evictions(run, tenant) == 0
    ensures Confined(After(s, run), tenant, former)
    decreases |run|
  {
    if run != [] {
      var s' := Apply(s, run[0]);
      StepKeepsInv(s, run[0]);
      StepHasShape(s, run[0]);
      CountersStayConfined(s, run[0], s', tenant, former);
      forall id | id in s'.calls && HasCounter(s'.calls[id]) && s'.calls[id].phase.counter in former
        ensures !CanHold(s'.calls[id])
      {
        CallsStayConfined(s, run[0], tenant, former, id);
      }
      ConfinedFrom(s', run[1..], tenant, former);
    }
  }

  /** Then all slots of the tenant are on the counter it leads to. */
  lemma ConfinedIsCapped(s: State, tenant: string, former: set<CounterId>, cap: U32)
    requires Inv(s) && Confined(s, tenant, former) && Capped(s, tenant, cap)
    ensures Slots(s, tenant) <= cap
  {
    forall id | id in s.calls && LiveOf(tenant)(s.calls[id])
      ensures tenant in s.table && s.calls[id].phase == Holding(s.table[tenant])
    {
      assert HasCounter(s.calls[id]) && CanHold(s.calls[id]);
      assert s.calls[id].phase.counter in CountersOf(s, tenant);
    }
    if tenant in s.table {
      var c := s.table[tenant];
      assert c in CountersOf(s, tenant) && s.counters[c].value == Live(s, c);
      assert Where(s.calls, LiveOf(tenant)) <= Where(s.calls, LiveOn(c));
      SubsetSize(Where(s.calls, LiveOf(tenant)), Where(s.calls, LiveOn(c)));
    } else {
      CountZero(s.calls, LiveOf(tenant));
    }
  }

  /** Without slots on its counter, a call that can take one does so in two accesses at most. */
  lemma LoneCallTakes(s: State, id: CallId) returns (run: seq<Event>)
    requires id in s.calls && CanHold(s.calls[id]) && !s.calls[id].phase.Holding? && s.calls[id].limit > 0
    requires s.calls[id].phase.counter in s.counters && s.counters[s.calls[id].phase.counter].value == 0
    ensures forall i :: 0 <= i < |run| ==> run[i] == Access(id, false)
    ensures After(s, run).table == s.table && id in After(s, run).calls
    ensures var q := After(s, run).calls[id]; q.tenant == s.calls[id].tenant && q.phase.Holding?
  {
    var access := Access(id, false);
    var once := [access];
    assert once[1..] == [];
    var s1 := Apply(s, access);
    assert After(s, once) == s1;
    if s1.calls[id].phase.Holding? {
      run := once;
    } else {
      run := [access, access];
      assert run[1..] == once;
      assert After(s, run) == After(s1, once) == Apply(s1, access);
    }
  }

  /** From a state in which the tenant leads nowhere but a call of it holds or can take a slot, the
      tenant can get one slot more than its limit. */
  lemma ExceedsIfSomeCanHold(s: State, tenant: string, cap: U32) returns (run: seq<Event>)
    requires Inv(s) && Limited(s) && tenant !in s.table && SomeCanHold(s, tenant)
    ensures Allowed(run, tenant, cap, 0) && Slots(After(s, run), tenant) > cap
  {
    var first: seq<Event> := [];
    if forall id :: id in s.calls ==> !LiveOf(tenant)(s.calls[id]) {
      var id :| id in s.calls && s.calls[id].tenant == tenant && CanHold(s.calls[id]);
      assert HasCounter(s.calls[id]);
      NoneLiveOn(s, tenant, s.calls[id].phase.counter);
      first := LoneCallTakes(s, id);
    }
    var mid := After(s, first);
    NoEvictions(first, tenant);
    InvariantFrom(s, first);
    var holder :| holder in mid.calls && LiveOf(tenant)(mid.calls[holder]);
    CountPositive(mid.calls, LiveOf(tenant), holder);
    var rest := Fill(mid, tenant, cap, cap);
    run := first + rest;
    Then(s, first, rest, tenant, cap, 0, 0);
  }

  lemma NoneLiveOn(s: State, tenant: string, c: CounterId)
    requires Inv(s) && c in CountersOf(s, tenant) && forall id :: id in s.calls ==> !LiveOf(tenant)(s.calls[id])
    ensures s.counters[c].value == 0
  {
    forall id | id in s.calls ensures !LiveOn(c)(s.calls[id]) {
      assert s.calls[id].phase == Holding(c) ==> HasCounter(s.calls[id]);
    }
    CountZero(s.calls, LiveOn(c));
  }

  /** Otherwise it keeps to its limit until the next eviction. */
  lemma KeepsToLimitOtherwise(history: seq<Event>, run: seq<Event>, tenant: string, cap: U32)
    requires LimitedTo(history, tenant, cap) && Allowed(run, tenant, cap, 0)
    requires !SomeCanHold(Apply(After(START, history), Evict(tenant)), tenant)
    ensures Slots(After(Apply(After(START, history), Evict(tenant)), run), tenant) <= cap
  {
    var before := After(START, history);
    var s := Apply(before, Evict(tenant));
    OwnedFromStart(history, tenant, cap);
    StepKeepsInv(before, Evict(tenant));
    var former := CountersOf(s, tenant);
    forall id | id in s.calls && HasCounter(s.calls[id]) && s.calls[id].phase.counter in former
      ensures !CanHold(s.calls[id])
    {
      assert s.calls[id].tenant == tenant;
    }
    assert Confined(s, tenant, former);
    ConfinedFrom(s, run, tenant, former);
    InvariantFrom(s, run);
    assert Capped(s, tenant, cap);
    OwnedFrom(s, run, tenant, cap);
    ConfinedIsCapped(After(s, run), tenant, former, cap);
  }

  /** After any history under a limit and an eviction, the tenant can come to hold more slots than its
      limit without another eviction if and only if at the eviction one of its calls holds a slot, or
      has looked up a counter and may still take a slot on it. */
  lemma EvictionExceedsIff(history: seq<Event>, tenant: string, cap: U32)
    requires LimitedTo(history, tenant, cap)
    ensures var s := Apply(After(START, history), Evict(tenant));
            (exists run :: Allowed(run, tenant, cap, 0) && Slots(After(s, run), tenant) > cap)
            <==> SomeCanHold(s, tenant)
  {
    var s := Apply(After(START, history), Evict(tenant));
    StartInv();
    InvariantFrom(START, history);
    StepKeepsInv(After(START, history), Evict(tenant));
    LimitedFrom(START, history);
    if SomeCanHold(s, tenant) {
      var run := ExceedsIfSomeCanHold(s, tenant, cap);
    } else {
      forall run | Allowed(run, tenant, cap, 0) ensures Slots(After(s, run), tenant) <= cap {
        KeepsToLimitOtherwise(history, run, tenant, cap);
      }
    }
  }

  // ----- Refusals, slots without a counter, and returns -----

  /** Call `id` looks at counter `c` and is not decided yet. */
  predicate Deciding(s: State, id: CallId, c: CounterId) {
    id in s.calls && (s.calls[id].phase == Bound(c) || (s.calls[id].phase.Trying? && s.calls[id].phase.counter == c))
  }

  /** Before event `k`, call `id` was being decided on counter `c`, which showed `seen`. */
  predicate SawAt(run: seq<Event>, id: CallId, c: CounterId, seen: int, k: int) {
    && 0 <= k < |run|
    && var s := After(START, run[..k]);
       Deciding(s, id, c) && c in s.counters && s.counters[c].value == seen
  }

  lemma AfterLast(run: seq<Event>)
    requires run != []
    ensures After(START, run) == Apply(After(START, run[..|run| - 1]), run[|run| - 1])
  {
    assert run == run[..|run| - 1] + [run[|run| - 1]];
    AfterSnoc(START, run[..|run| - 1], run[|run| - 1]);
  }

  lemma SawEarlier(run: seq<Event>, id: CallId, c: CounterId, seen: int, k: int)
    requires run != [] && SawAt(run[..|run| - 1], id, c, seen, k)
    ensures SawAt(run, id, c, seen, k)
  {
    assert run[..|run| - 1][..k] == run[..k];
  }

  /** A value to act on is read from the counter that the call is bound to. */
  lemma TryingComesFromRead(s: State, ev: Event, id: CallId)
    requires id in Apply(s, ev).calls && Apply(s, ev).calls[id].phase.Trying?
    ensures var phase := Apply(s, ev).calls[id].phase;
            || (id in s.calls && s.calls[id].phase == phase)
            || (Deciding(s, id, phase.counter) && phase.counter in s.counters
                && s.counters[phase.counter].value == phase.seen)
  {
  }

  lemma RefusedComesFromLimit(s: State, ev: Event, id: CallId)
    requires id in Apply(s, ev).calls && Apply(s, ev).calls[id].phase.Refused?
    ensures id in s.calls && s.calls[id].limit == Apply(s, ev).calls[id].limit
    ensures var c, phase := Apply(s, ev).calls[id].phase.counter, s.calls[id].phase;
            phase == Refused(c) || (phase.Trying? && phase.counter == c && phase.seen >= s.calls[id].limit)
  {
  }

  lemma {:induction false} SeenWasShown(run: seq<Event>, id: CallId) returns (k: int)
    requires id in After(START, run).calls && After(START, run).calls[id].phase.Trying?
    ensures var phase := After(START, run).calls[id].phase; SawAt(run, id, phase.counter, phase.seen, k)
    decreases |run|
  {
    var prefix, last := run[..|run| - 1], run[|run| - 1];
    var before, phase := After(START, prefix), After(START, run).calls[id].phase;
    AfterLast(run);
    TryingComesFromRead(before, last, id);
    if id in before.calls && before.calls[id].phase == phase {
      k := SeenWasShown(prefix, id);
      SawEarlier(run, id, phase.counter, phase.seen, k);
    } else {
      k := |run| - 1;
    }
  }

  /** A refusal is honest: at an instant between the call's lookup and its refusal, the counter it was
      refused on held at least as many live slots as the call's limit, which is never zero. A lost or
      spuriously failed exchange refuses nobody. */
  lemma {:induction false} RefusalIsHonest(run: seq<Event>, id: CallId) returns (k: int)
    requires id in After(START, run).calls && After(START, run).calls[id].phase.Refused?
    ensures var q := After(START, run).calls[id];
            && 0 <= k < |run|
            && var s := After(START, run[..k]);
               Deciding(s, id, q.phase.counter) && 0 < q.limit <= Live(s, q.phase.counter)
    decreases |run|
  {
    var prefix, last := run[..|run| - 1], run[|run| - 1];
    var before, q := After(START, prefix), After(START, run).calls[id];
    AfterLast(run);
    RefusedComesFromLimit(before, last, id);
    if before.calls[id].phase.Refused? {
      k := RefusalIsHonest(prefix, id);
    } else {
      k := SeenWasShown(prefix, id);
      CountersAreExact(prefix[..k], q.phase.counter);
      LimitedFrom(START, run);
    }
    assert prefix[..k] == run[..k];
  }

  /** A call that is left alone is decided within two accesses: it takes a slot if the value it acts on
      and the counter are below its limit. */
  lemma TwoAccessesDecide(s: State, id: CallId, c: CounterId)
    requires WellBound(s) && Deciding(s, id, c)
    ensures var s' := Apply(Apply(s, Access(id, false)), Access(id, false));
            var q, q' := s.calls[id], s'.calls[id];
            && id in s'.calls && (q'.phase == Holding(c) || q'.phase == Refused(c))
            && (q'.phase == Holding(c) <==>
                  s.counters[c].value < q.limit && (q.phase.Trying? ==> q.phase.seen < q.limit))
  {
    assert HasCounter(s.calls[id]) && c in s.counters;
  }

  /** A call under limit zero gets a slot without a counter, and no other call does. */
  ghost predicate ZeroIsFree(s: State) {
    forall id :: id in s.calls ==>
      if s.calls[id].limit == 0 then s.calls[id].phase.Entering? || s.calls[id].phase.Unlimited?
      else !s.calls[id].phase.Unlimited?
  }

  lemma StepKeepsZeroFree(s: State, ev: Event)
    requires ZeroIsFree(s)
    ensures ZeroIsFree(Apply(s, ev))
  {
    forall id | id in Apply(s, ev).calls
      ensures var q := Apply(s, ev).calls[id];
              if q.limit == 0 then q.phase.Entering? || q.phase.Unlimited? else !q.phase.Unlimited?
    {
      if id in s.calls { assert s.calls[id].limit == Apply(s, ev).calls[id].limit; }
    }
  }

  lemma {:induction false} ZeroIsUnlimited(run: seq<Event>, id: CallId)
    requires id in After(START, run).calls
    ensures var q := After(START, run).calls[id];
            if q.limit == 0 then q.phase.Entering? || q.phase.Unlimited? else !q.phase.Unlimited?
  {
    ZeroFreeFrom(START, run);
  }

  lemma {:induction false} ZeroFreeFrom(s: State, run: seq<Event>)
    requires ZeroIsFree(s)
    ensures ZeroIsFree(After(s, run))
    decreases |run|
  {
    if run != [] {
      StepKeepsZeroFree(s, run[0]);
      ZeroFreeFrom(Apply(s, run[0]), run[1..]);
    }
  }

  /** Dropping a slot gives it back: its counter and its tenant hold one less, every other counter as
      many as before. */
  lemma DropGivesBack(run: seq<Event>, id: CallId, other: CounterId)
    requires id in After(START, run).calls && After(START, run).calls[id].phase.Holding?
    ensures var s, s' := After(START, run), After(START, run + [Drop(id)]);
            var c, tenant := s.calls[id].phase.counter, s.calls[id].tenant;
            && c in s'.counters && s'.counters[c].value == Live(s', c) == Live(s, c) - 1
            && Slots(s', tenant) == Slots(s, tenant) - 1
            && (other in s.counters && other != c ==> other in s'.counters && s'.counters[other] == s.counters[other])
  {
    var s := After(START, run);
    var c := s.calls[id].phase.counter;
    StartInv();
    InvariantFrom(START, run);
    AfterSnoc(START, run, Drop(id));
    assert HasCounter(s.calls[id]);
    StepKeepsInv(s, Drop(id));
    var q := s.calls[id].(phase := Released(c));
    CountUpdate(s.calls, LiveOn(c), id, q);
    CountUpdate(s.calls, LiveOf(s.calls[id].tenant), id, q);
  }
}

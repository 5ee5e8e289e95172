/** The protocol of Node as a state machine: its states and its steps. The state keeps, beside the tables, what has been
    expressed and a log of what happened. */
module NodeSpec {
  // States.

  datatype ConnectStatus = Unconnected | ConnectRequested | ConnectComplete

  /** What a registration carries to the response: its id, and which callbacks are set. */
  datatype Registration = Registration(id: nat, hasOnInterest: bool, hasOnSuccess: bool)

  /** The callbacks of an interest: the application's, or those of a prefix registration. */
  datatype Callbacks = Application | Response(registration: Registration)

  /** An interest that was expressed: whether its callbacks are set, whether it has a lifetime, whether its
      encoding is too large to send, and whether it is under the local timeout prefix, which is never sent. */
  datatype Expressed<I> = Expressed(id: nat, interest: I, callbacks: Callbacks, hasOnTimeout: bool,
                                    hasOnNack: bool, hasLifetime: bool, oversize: bool, local: bool)

  /** An interest filter, with the registration that created it, or 0. */
  datatype Filter = Filter(id: nat, owner: nat)

  datatype Prefix = Prefix(id: nat, filterId: nat)

  datatype Event =
    | Attempted(id: nat)                           // reached the pending interest table
    | Dropped(id: nat)                             // not added, since it was already removed
    | Removed(id: nat)                             // removed from the table by the application
    | GotData(id: nat)                             // onData called
    | GotNack(id: nat)                             // onNetworkNack called
    | TimedOut(id: nat, called: bool)              // timed out, onTimeout called if it is set
    | Sent(id: nat)                                // sent to the transport
    | RegisterSucceeded(id: nat, called: bool)     // registered, onRegisterSuccess called if it is set
    | RegisterFailed(id: nat)                      // onRegisterFailed called
    | RegisterWithdrawn(id: nat)                   // registered, but already removed: nothing called

  datatype State<I> = State(
    async: bool,
    status: ConnectStatus,
    queue: seq<Expressed<I>>,       // the interests to express when connected
    ran: nat,                       // how many of them have been expressed
    connects: nat,                  // how often the transport was asked to connect
    connectedFired: bool,           // whether it has reported the connection
    pit: seq<Expressed<I>>,
    removeRequests: seq<nat>,
    timers: seq<Expressed<I>>,
    filters: seq<Filter>,
    prefixes: seq<Prefix>,
    prefixRemoveRequests: seq<nat>,
    lastId: nat,
    expressed: seq<Expressed<I>>,   // everything expressed, in order
    log: seq<Event>)

  function Initial<I>(async: bool): State<I> {
    State(async, Unconnected, [], 0, 0, false, [], [], [], [], [], [], 0, [], [])
  }

  // Steps.

  /** What a Data packet says to a registration that waits for it. */
  datatype Reply = Malformed | Status(code: nat)

  /** Which entries of the pending interest table an operation takes out. */
  datatype Selector<!I> = ByData(matches: I -> bool) | ByNack(same: I -> bool) | ById(id: nat)

  predicate Selects<I>(sel: Selector<I>, e: Expressed<I>) {
    match sel
    case ByData(matches) => matches(e.interest)
    case ByNack(same) => e.hasOnNack && same(e.interest)
    case ById(id) => e.id == id
  }

  /** The selected entries, the last one first, as the backward loops collect them. */
  function Matched<I>(es: seq<Expressed<I>>, sel: Selector<I>): seq<Expressed<I>> {
    if es == [] then []
    else
      var last := es[|es| - 1];
      (if Selects(sel, last) then [last] else []) + Matched(es[..|es| - 1], sel)
  }

  function Unmatched<I>(es: seq<Expressed<I>>, sel: Selector<I>): seq<Expressed<I>> {
    if es == [] then []
    else
      var last := es[|es| - 1];
      Unmatched(es[..|es| - 1], sel) + if Selects(sel, last) then [] else [last]
  }

  function RemoveFirst(s: seq<nat>, x: nat): seq<nat> {
    if s == [] then [] else if s[0] == x then s[1..] else [s[0]] + RemoveFirst(s[1..], x)
  }

  function AddRequest(s: seq<nat>, x: nat): seq<nat> { if x in s then s else s + [x] }

  function WithoutFilter(filters: seq<Filter>, id: nat): seq<Filter> {
    if filters == [] then []
    else
      var last := filters[|filters| - 1];
      WithoutFilter(filters[..|filters| - 1], id) + if last.id == id then [] else [last]
  }

  /** expressInterestHelper. It throws when the encoding is too large, with the entry already added. */
  function Attempt<I>(s: State<I>, e: Expressed<I>): (r: (State<I>, bool))
    ensures r.0 == s.(removeRequests := r.0.removeRequests, pit := r.0.pit, timers := r.0.timers, log := r.0.log)
  {
    if e.id in s.removeRequests then
      (s.(removeRequests := RemoveFirst(s.removeRequests, e.id), log := s.log + [Attempted(e.id), Dropped(e.id)]), false)
    else
      var added := s.(pit := s.pit + [e], log := s.log + [Attempted(e.id)],
                      timers := if e.hasOnTimeout || e.hasLifetime then s.timers + [e] else s.timers);
      if e.local then (added, false)
      else if e.oversize then (added, true)
      else (added.(log := added.log + [Sent(e.id)]), false)
  }

  function Express<I>(s: State<I>, e: Expressed<I>): State<I> {
    var noted := s.(expressed := s.expressed + [e]);
    match s.status
    case ConnectComplete => Attempt(noted, e).0
    case _ =>
      if !s.async then
        var (after, threw) := Attempt(noted.(connects := s.connects + 1), e);
        if threw then after else after.(status := ConnectComplete)
      else if s.status == Unconnected then
        noted.(status := ConnectRequested, queue := s.queue + [e], connects := s.connects + 1)
      else noted.(queue := s.queue + [e])
  }

  /** onConnected: express what is queued, in order, until one throws. */
  function RunQueue<I>(s: State<I>): State<I>
    decreases |s.queue| - s.ran
  {
    if s.ran >= |s.queue| then s.(queue := [], ran := 0, status := ConnectComplete)
    else
      var (after, threw) := Attempt(s.(ran := s.ran + 1), s.queue[s.ran]);
      if threw then after else RunQueue(after)
  }

  /** RegisterResponse: the reply to a registration. */
  function Respond<I>(s: State<I>, reg: Registration, reply: Reply): (r: State<I>)
    ensures r == s.(lastId := r.lastId, filters := r.filters, prefixes := r.prefixes,
                    prefixRemoveRequests := r.prefixRemoveRequests, log := r.log)
    ensures s.lastId <= r.lastId
  {
    if reply != Status(200) then s.(log := s.log + [RegisterFailed(reg.id)])
    else if reg.id == 0 then s.(log := s.log + [RegisterSucceeded(0, reg.hasOnSuccess)])
    else
      var filterId := if reg.hasOnInterest then s.lastId + 1 else 0;
      var lastId := if reg.hasOnInterest then s.lastId + 1 else s.lastId;
      var filters := if reg.hasOnInterest then s.filters + [Filter(filterId, reg.id)] else s.filters;
      if reg.id in s.prefixRemoveRequests then
        s.(lastId := lastId, prefixRemoveRequests := RemoveFirst(s.prefixRemoveRequests, reg.id),
           filters := if filterId > 0 then WithoutFilter(filters, filterId) else filters,
           log := s.log + [RegisterWithdrawn(reg.id)])
      else
        s.(lastId := lastId, filters := filters, prefixes := s.prefixes + [Prefix(reg.id, filterId)],
           log := s.log + [RegisterSucceeded(reg.id, reg.hasOnSuccess)])
  }

  /** Call onData for an entry; that of a command interest handles the reply. */
  function DeliverOne<I>(s: State<I>, e: Expressed<I>, reply: Reply): (r: State<I>)
    ensures r == s.(lastId := r.lastId, filters := r.filters, prefixes := r.prefixes,
                    prefixRemoveRequests := r.prefixRemoveRequests, log := r.log)
    ensures s.lastId <= r.lastId
  {
    var called := s.(log := s.log + [GotData(e.id)]);
    if e.callbacks.Response? then Respond(called, e.callbacks.registration, reply) else called
  }

  function Deliver<I>(s: State<I>, es: seq<Expressed<I>>, reply: Reply): (r: State<I>)
    ensures r == s.(lastId := r.lastId, filters := r.filters, prefixes := r.prefixes,
                    prefixRemoveRequests := r.prefixRemoveRequests, log := r.log)
    ensures s.lastId <= r.lastId
    decreases |es|
  {
    if es == [] then s else Deliver(DeliverOne(s, es[0], reply), es[1..], reply)
  }

  function NackEvents<I>(es: seq<Expressed<I>>): seq<Event> {
    if es == [] then [] else [GotNack(es[0].id)] + NackEvents(es[1..])
  }

  function RemovedEvents<I>(es: seq<Expressed<I>>): seq<Event> {
    if es == [] then [] else [Removed(es[0].id)] + RemovedEvents(es[1..])
  }

  /** processInterestTimeout: nothing happens if the entry is no longer in the table. */
  function Timeout<I>(s: State<I>, e: Expressed<I>): (r: State<I>)
    ensures r == s.(pit := r.pit, log := r.log)
  {
    if |Matched(s.pit, ById(e.id))| == 0 then s
    else
      var out := s.(pit := Unmatched(s.pit, ById(e.id)), log := s.log + [TimedOut(e.id, e.hasOnTimeout)]);
      if e.callbacks.Response? then out.(log := out.log + [RegisterFailed(e.callbacks.registration.id)]) else out
  }

  function RemovePending<I>(s: State<I>, id: nat): (r: State<I>)
    ensures r == s.(pit := r.pit, log := r.log, removeRequests := r.removeRequests)
  {
    var found := Matched(s.pit, ById(id));
    if |found| == 0 then s.(removeRequests := AddRequest(s.removeRequests, id))
    else s.(pit := Unmatched(s.pit, ById(id)), log := s.log + RemovedEvents(found))
  }

  /** The filters after the filter of each removed prefix entry is unset. */
  function UnsetRelated(prefixes: seq<Prefix>, id: nat, filters: seq<Filter>): seq<Filter> {
    if prefixes == [] then filters
    else
      var last := prefixes[|prefixes| - 1];
      UnsetRelated(prefixes[..|prefixes| - 1], id,
                   if last.id == id && last.filterId > 0 then WithoutFilter(filters, last.filterId) else filters)
  }

  function WithoutPrefix(prefixes: seq<Prefix>, id: nat): seq<Prefix> {
    if prefixes == [] then []
    else
      var last := prefixes[|prefixes| - 1];
      WithoutPrefix(prefixes[..|prefixes| - 1], id) + if last.id == id then [] else [last]
  }

  function RemoveRegistered<I>(s: State<I>, id: nat): (r: State<I>)
    ensures r == s.(filters := r.filters, prefixes := r.prefixes, prefixRemoveRequests := r.prefixRemoveRequests)
  {
    var rest := WithoutPrefix(s.prefixes, id);
    if rest == s.prefixes then s.(prefixRemoveRequests := AddRequest(s.prefixRemoveRequests, id))
    else s.(prefixes := rest, filters := UnsetRelated(s.prefixes, id, s.filters))
  }

  /** The command interest of a registration: its timeout callback is set and its nack callback is not. */
  function CommandInterest<I>(id: nat, reg: Registration, interest: I, oversize: bool): Expressed<I> {
    Expressed(id, interest, Response(reg), true, false, true, oversize, false)
  }

  datatype Step<!I> =
    | NewId
    | ExpressInterest(e: Expressed<I>)
    | Connected
    | DataArrives(matches: I -> bool, reply: Reply)
    | NackArrives(same: I -> bool)
    | TimerFires(k: nat)
    | RemovePendingInterest(id: nat)
    | RegisterPrefix(registration: Registration, interest: I, oversize: bool)
    | RemoveRegisteredPrefix(id: nat)
    | SetFilter(id: nat)
    | UnsetFilter(id: nat)

  /** What callers and the transport promise: an id is issued before it is used and is used for one interest or
      registration, though a registration may have none, and an asked-for connection is reported once. */
  ghost predicate Enabled<I>(s: State<I>, step: Step<I>) {
    match step
    case ExpressInterest(e) => 0 < e.id <= s.lastId && e.id !in Ids(s.expressed) && e.callbacks.Application?
    case Connected => s.async && s.connects > 0 && !s.connectedFired
    case TimerFires(k) => k < |s.timers|
    case RegisterPrefix(reg, _, _) => reg.id <= s.lastId && reg.id !in RegistrationIds(s.expressed)
    case _ => true
  }

  function Apply<I>(s: State<I>, step: Step<I>): State<I> {
    match step
    case NewId => s.(lastId := s.lastId + 1)
    case ExpressInterest(e) => Express(s, e)
    case Connected => RunQueue(s.(connectedFired := true))
    case DataArrives(matches, reply) =>
      Deliver(s.(pit := Unmatched(s.pit, ByData(matches))), Matched(s.pit, ByData(matches)), reply)
    case NackArrives(same) =>
      s.(pit := Unmatched(s.pit, ByNack(same)), log := s.log + NackEvents(Matched(s.pit, ByNack(same))))
    case TimerFires(k) =>
      if k < |s.timers| then Timeout(s.(timers := s.timers[..k] + s.timers[k + 1..]), s.timers[k]) else s
    case RemovePendingInterest(id) => RemovePending(s, id)
    case RegisterPrefix(reg, interest, oversize) =>
      Express(s.(lastId := s.lastId + 1), CommandInterest(s.lastId + 1, reg, interest, oversize))
    case RemoveRegisteredPrefix(id) => RemoveRegistered(s, id)
    case SetFilter(id) => s.(filters := s.filters + [Filter(id, 0)])
    case UnsetFilter(id) => s.(filters := WithoutFilter(s.filters, id))
  }

  // Views of entries and events.

  /** The ids that each element contributes, in order. */
  function Collect<T>(s: seq<T>, f: T -> seq<nat>): seq<nat> {
    if s == [] then [] else Collect(s[..|s| - 1], f) + f(s[|s| - 1])
  }

  function IdOf<I>(e: Expressed<I>): seq<nat> { [e.id] }

  /** A registration without an id is not recorded, and not told from others. */
  function Issued(id: nat): seq<nat> { if id == 0 then [] else [id] }

  function RegistrationOf<I>(e: Expressed<I>): seq<nat> {
    if e.callbacks.Response? then Issued(e.callbacks.registration.id) else []
  }

  /** The interest whose callback an event calls. */
  function CalledBy(ev: Event): seq<nat> {
    match ev
    case GotData(id) => [id]
    case GotNack(id) => [id]
    case TimedOut(id, called) => if called then [id] else []
    case _ => []
  }

  /** The interest that an event ends. */
  function EndedBy(ev: Event): seq<nat> {
    match ev
    case Dropped(id) => [id]
    case Removed(id) => [id]
    case GotData(id) => [id]
    case GotNack(id) => [id]
    case TimedOut(id, _) => [id]
    case _ => []
  }

  function AttemptedBy(ev: Event): seq<nat> { if ev.Attempted? then [ev.id] else [] }

  /** The registration that an event settles. */
  function SettledBy(ev: Event): seq<nat> {
    match ev
    case RegisterSucceeded(id, _) => Issued(id)
    case RegisterFailed(id) => Issued(id)
    case RegisterWithdrawn(id) => Issued(id)
    case _ => []
  }

  function Ids<I>(es: seq<Expressed<I>>): seq<nat> { Collect(es, IdOf) }

  function RegistrationIds<I>(es: seq<Expressed<I>>): seq<nat> { Collect(es, RegistrationOf) }

  function Called(log: seq<Event>): seq<nat> { Collect(log, CalledBy) }

  function Ended(log: seq<Event>): seq<nat> { Collect(log, EndedBy) }

  function Attempts(log: seq<Event>): seq<nat> { Collect(log, AttemptedBy) }

  function Settled(log: seq<Event>): seq<nat> { Collect(log, SettledBy) }

  lemma {:induction false} CollectAppend<T>(a: seq<T>, b: seq<T>, f: T -> seq<nat>)
    ensures Collect(a + b, f) == Collect(a, f) + Collect(b, f)
  {
    if b == [] {
      assert a + b == a;
    } else {
      var last := b[|b| - 1];
      assert (a + b)[..|a + b| - 1] == a + b[..|b| - 1];
      CollectAppend(a, b[..|b| - 1], f);
    }
  }

  lemma CollectOne<T>(s: seq<T>, x: T, f: T -> seq<nat>)
    ensures Collect(s + [x], f) == Collect(s, f) + f(x)
    ensures Collect([x], f) == f(x)
  {
    assert (s + [x])[..|s + [x]| - 1] == s;
    assert [x][..0] == [];
  }

  lemma SplitWith(m: seq<nat>, u: seq<nat>, c: seq<nat>, x: seq<nat>)
    requires multiset(m) + multiset(u) == multiset(c)
    ensures multiset(x + m) + multiset(u) == multiset(c + x)
    ensures multiset(m) + multiset(u + x) == multiset(c + x)
  {
    assert multiset(x + m) == multiset(x) + multiset(m);
    assert multiset(u + x) == multiset(u) + multiset(x);
    assert multiset(c + x) == multiset(c) + multiset(x);
  }

  /** Taking entries out of a table loses none and repeats none. */
  lemma {:induction false} Partition<I>(es: seq<Expressed<I>>, sel: Selector<I>, f: Expressed<I> -> seq<nat>)
    ensures multiset(Collect(Matched(es, sel), f)) + multiset(Collect(Unmatched(es, sel), f)) == multiset(Collect(es, f))
  {
    if |es| > 0 {
      var rest, last := es[..|es| - 1], es[|es| - 1];
      var m, u := Matched(rest, sel), Unmatched(rest, sel);
      Partition(rest, sel, f);
      SplitWith(Collect(m, f), Collect(u, f), Collect(rest, f), f(last));
      assert Collect(es, f) == Collect(rest, f) + f(last);
      if Selects(sel, last) {
        assert Matched(es, sel) == [last] + m && Unmatched(es, sel) == u;
        assert Collect([last] + m, f) == f(last) + Collect(m, f) by {
          CollectAppend([last], m, f);
          CollectOne(rest, last, f);
        }
      } else {
        assert Matched(es, sel) == m && Unmatched(es, sel) == u + [last];
        CollectOne(u, last, f);
      }
      hide Collect, Matched, Unmatched;
    }
  }

  lemma {:induction false} NoneMatched<I>(es: seq<Expressed<I>>, sel: Selector<I>)
    requires |Matched(es, sel)| == 0
    ensures Unmatched(es, sel) == es
  {
    if |es| > 0 {
      var rest, last := es[..|es| - 1], es[|es| - 1];
      assert Matched(es, sel) == (if Selects(sel, last) then [last] else []) + Matched(rest, sel);
      assert Unmatched(es, sel) == Unmatched(rest, sel) + if Selects(sel, last) then [] else [last];
      hide Matched, Unmatched, Selects;
      NoneMatched(rest, sel);
      assert es == rest + [last];
    }
  }
}

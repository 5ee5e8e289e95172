/** The ledger of the Node protocol: each operation hands every interest on exactly once. */
module NodeLedger {
  import opened NodeSpec

  // What one operation does to the interests and registrations it handles.

  /** The interests that are pending or ended. */
  function Handled<I>(s: State<I>): multiset<nat> { multiset(Ids(s.pit)) + multiset(Ended(s.log)) }

  function HandledRegistrations<I>(s: State<I>): multiset<nat> {
    multiset(RegistrationIds(s.pit)) + multiset(Settled(s.log))
  }

  /** What calls and could still call callbacks. */
  function Callable<I>(s: State<I>): multiset<nat> { multiset(Called(s.log)) + multiset(Ids(s.pit)) }

  lemma LogOne(log: seq<Event>, ev: Event)
    ensures Called(log + [ev]) == Called(log) + CalledBy(ev)
    ensures Ended(log + [ev]) == Ended(log) + EndedBy(ev)
    ensures Attempts(log + [ev]) == Attempts(log) + AttemptedBy(ev)
    ensures Settled(log + [ev]) == Settled(log) + SettledBy(ev)
  {
    CollectOne(log, ev, CalledBy);
    CollectOne(log, ev, EndedBy);
    CollectOne(log, ev, AttemptedBy);
    CollectOne(log, ev, SettledBy);
  }

  lemma IdsOne<I>(es: seq<Expressed<I>>, e: Expressed<I>)
    ensures Ids(es + [e]) == Ids(es) + [e.id] && Ids([e] + es) == [e.id] + Ids(es)
    ensures RegistrationIds(es + [e]) == RegistrationIds(es) + RegistrationOf(e)
    ensures RegistrationIds([e] + es) == RegistrationOf(e) + RegistrationIds(es)
  {
    CollectOne(es, e, IdOf);
    CollectOne(es, e, RegistrationOf);
    CollectAppend([e], es, IdOf);
    CollectAppend([e], es, RegistrationOf);
  }

  lemma AttemptLog<I>(s: State<I>, e: Expressed<I>)
    ensures var t := Attempt(s, e).0; var dropped := e.id in s.removeRequests;
      && t.pit == (if dropped then s.pit else s.pit + [e])
      && Ended(t.log) == Ended(s.log) + (if dropped then [e.id] else [])
      && Called(t.log) == Called(s.log) && Settled(t.log) == Settled(s.log)
      && Attempts(t.log) == Attempts(s.log) + [e.id]
  {
    hide Called, Ended, Attempts, Settled;
    var t, attempted := Attempt(s, e).0, s.log + [Attempted(e.id)];
    LogOne(s.log, Attempted(e.id));
    if e.id in s.removeRequests {
      LogOne(attempted, Dropped(e.id));
      assert t.log == attempted + [Dropped(e.id)];
    } else {
      LogOne(attempted, Sent(e.id));
      assert t.log == attempted || t.log == attempted + [Sent(e.id)];
    }
  }

  /** An attempt hands exactly one interest over, calling nothing: to the table, or to its end if it was removed. */
  lemma AttemptEffect<I>(s: State<I>, e: Expressed<I>)
    ensures var t := Attempt(s, e).0;
      && Handled(t) == Handled(s) + multiset{e.id}
      && HandledRegistrations(t) <= HandledRegistrations(s) + multiset(RegistrationOf(e))
      && Called(t.log) == Called(s.log) && Settled(t.log) == Settled(s.log)
      && Attempts(t.log) == Attempts(s.log) + [e.id]
  {
    AttemptLog(s, e);
    hide Attempt, Ids, RegistrationIds, Called, Ended, Attempts, Settled;
    IdsOne(s.pit, e);
  }

  /** The reply to a registration settles it once. */
  lemma RespondEffect<I>(s: State<I>, reg: Registration, reply: Reply)
    ensures var t := Respond(s, reg, reply);
      && Settled(t.log) == Settled(s.log) + Issued(reg.id)
      && Called(t.log) == Called(s.log) && Ended(t.log) == Ended(s.log) && Attempts(t.log) == Attempts(s.log)
  {
    hide Ids, RegistrationIds, Called, Ended, Attempts, Settled;
    LogOne(s.log, RegisterFailed(reg.id));
    LogOne(s.log, RegisterSucceeded(reg.id, reg.hasOnSuccess));
    LogOne(s.log, RegisterWithdrawn(reg.id));
    hide Called, Ended, Attempts, Settled;
  }

  lemma DeliverOneEffect<I>(s: State<I>, e: Expressed<I>, reply: Reply)
    ensures var t := DeliverOne(s, e, reply);
      && Called(t.log) == Called(s.log) + [e.id] && Ended(t.log) == Ended(s.log) + [e.id]
      && Settled(t.log) == Settled(s.log) + RegistrationOf(e) && Attempts(t.log) == Attempts(s.log)
  {
    hide Called, Ended, Attempts, Settled;
    LogOne(s.log, GotData(e.id));
    if e.callbacks.Response? {
      RespondEffect(s.(log := s.log + [GotData(e.id)]), e.callbacks.registration, reply);
    }
  }

  /** Each extracted entry's onData is called once. */
  lemma {:induction false} DeliverEffect<I>(s: State<I>, es: seq<Expressed<I>>, reply: Reply)
    ensures var t := Deliver(s, es, reply);
      && Called(t.log) == Called(s.log) + Ids(es) && Ended(t.log) == Ended(s.log) + Ids(es)
      && Settled(t.log) == Settled(s.log) + RegistrationIds(es) && Attempts(t.log) == Attempts(s.log)
    decreases |es|
  {
    if |es| == 0 {
      assert Deliver(s, es, reply) == s && Ids(es) == [] && RegistrationIds(es) == [];
      hide Deliver, Ids, RegistrationIds, Called, Ended, Attempts, Settled;
    } else {
      var e, rest := es[0], es[1..];
      assert Deliver(s, es, reply) == Deliver(DeliverOne(s, e, reply), rest, reply);
      hide Deliver, DeliverOne, RegistrationOf, Ids, RegistrationIds, Called, Ended, Attempts, Settled;
      DeliverOneEffect(s, e, reply);
      DeliverEffect(DeliverOne(s, e, reply), rest, reply);
      IdsOne(rest, e);
      assert [e] + rest == es;
      Associate(Called(s.log), [e.id], Ids(rest));
      Associate(Ended(s.log), [e.id], Ids(rest));
      Associate(Settled(s.log), RegistrationOf(e), RegistrationIds(rest));
    }
  }

  lemma Associate(a: seq<nat>, b: seq<nat>, c: seq<nat>)
    ensures (a + b) + c == a + (b + c)
  {
  }

  lemma {:induction false} NackEventsEffect<I>(log: seq<Event>, es: seq<Expressed<I>>)
    ensures var l := log + NackEvents(es);
      && Called(l) == Called(log) + Ids(es) && Ended(l) == Ended(log) + Ids(es)
      && Settled(l) == Settled(log) && Attempts(l) == Attempts(log)
    decreases |es|
  {
    if |es| == 0 {
      assert log + NackEvents(es) == log;
    } else {
      hide Ids, RegistrationIds, Called, Ended, Attempts, Settled;
      var first := GotNack(es[0].id);
      LogOne(log, first);
      NackEventsEffect(log + [first], es[1..]);
      assert log + NackEvents(es) == (log + [first]) + NackEvents(es[1..]);
      IdsOne(es[1..], es[0]);
      assert [es[0]] + es[1..] == es;
      Associate(Called(log), [es[0].id], Ids(es[1..]));
      Associate(Ended(log), [es[0].id], Ids(es[1..]));
    }
  }

  lemma {:induction false} RemovedEventsEffect<I>(log: seq<Event>, es: seq<Expressed<I>>)
    ensures var l := log + RemovedEvents(es);
      && Called(l) == Called(log) && Ended(l) == Ended(log) + Ids(es)
      && Settled(l) == Settled(log) && Attempts(l) == Attempts(log)
    decreases |es|
  {
    if |es| == 0 {
      assert log + RemovedEvents(es) == log;
    } else {
      hide Ids, RegistrationIds, Called, Ended, Attempts, Settled;
      var first := Removed(es[0].id);
      LogOne(log, first);
      RemovedEventsEffect(log + [first], es[1..]);
      assert log + RemovedEvents(es) == (log + [first]) + RemovedEvents(es[1..]);
      IdsOne(es[1..], es[0]);
      assert [es[0]] + es[1..] == es;
      Associate(Ended(log), [es[0].id], Ids(es[1..]));
    }
  }

  // The ledger: every interest expressed is accounted for.

  /** The interests still queued for the connection. */
  function Waiting<I>(s: State<I>): seq<Expressed<I>>
    requires s.ran <= |s.queue|
  {
    s.queue[s.ran..]
  }

  function Accounted<I>(s: State<I>): multiset<nat>
    requires s.ran <= |s.queue|
  {
    multiset(Ids(Waiting(s))) + Handled(s)
  }

  function AccountedRegistrations<I>(s: State<I>): multiset<nat>
    requires s.ran <= |s.queue|
  {
    multiset(RegistrationIds(Waiting(s))) + HandledRegistrations(s)
  }

  /** The attempts made, then those to be made. */
  function Order<I>(s: State<I>): seq<nat>
    requires s.ran <= |s.queue|
  {
    Attempts(s.log) + Ids(Waiting(s))
  }

  ghost predicate AtMostOnce(m: multiset<nat>) { forall x :: m[x] <= 1 }

  lemma HandedOver(first: seq<nat>, rest: seq<nat>, handled: multiset<nat>)
    ensures multiset(first + rest) + handled == multiset(rest) + (handled + multiset(first))
  {
    assert multiset(first + rest) == multiset(first) + multiset(rest);
  }

  lemma FirstAttempt<I>(s: State<I>)
    requires s.ran < |s.queue|
    ensures var t := Attempt(s.(ran := s.ran + 1), s.queue[s.ran]).0;
      && Accounted(t) == Accounted(s) && AccountedRegistrations(t) <= AccountedRegistrations(s)
      && Order(t) == Order(s) && Called(t.log) == Called(s.log) && Settled(t.log) == Settled(s.log)
  {
    hide Ids, RegistrationIds, Called, Ended, Attempts, Settled, RegistrationOf;
    var s', e := s.(ran := s.ran + 1), s.queue[s.ran];
    var t := Attempt(s', e).0;
    var rest := Waiting(t);
    assert Waiting(s) == [e] + rest;
    assert Handled(s') == Handled(s) && HandledRegistrations(s') == HandledRegistrations(s);
    hide Attempt, Waiting, Handled, HandledRegistrations;
    AttemptEffect(s', e);
    IdsOne(rest, e);
    HandedOver([e.id], Ids(rest), Handled(s));
    HandedOver(RegistrationOf(e), RegistrationIds(rest), HandledRegistrations(s));
    Associate(Attempts(s.log), [e.id], Ids(rest));
  }

  /** Running the queue attempts the waiting interests in order, and those it does not reach stay waiting. */
  lemma {:induction false} RunQueueEffect<I>(s: State<I>)
    requires s.ran <= |s.queue|
    ensures var t := RunQueue(s);
      && t.ran <= |t.queue|
      && Accounted(t) == Accounted(s) && AccountedRegistrations(t) <= AccountedRegistrations(s)
      && Order(t) == Order(s) && Called(t.log) == Called(s.log) && Settled(t.log) == Settled(s.log)
    decreases |s.queue| - s.ran
  {
    if s.ran < |s.queue| {
      var (t, threw) := Attempt(s.(ran := s.ran + 1), s.queue[s.ran]);
      assert RunQueue(s) == if threw then t else RunQueue(t);
      hide RunQueue, Attempt, Accounted, AccountedRegistrations, Order, Called, Settled;
      FirstAttempt(s);
      if !threw { RunQueueEffect(t); }
    } else {
      assert Waiting(s) == [] == Waiting(RunQueue(s));
    }
  }

  /** Taking entries out of the table and ending each of them, calling at most its own callback. */
  ghost predicate Takes<I>(s: State<I>, t: State<I>) {
    && Handled(t) == Handled(s) && HandledRegistrations(t) <= HandledRegistrations(s)
    && Callable(t) <= Callable(s) && multiset(Called(s.log)) <= multiset(Called(t.log))
    && Attempts(t.log) == Attempts(s.log)
  }

  lemma MovedSum(before: seq<nat>, left: seq<nat>, moved: seq<nat>, log: seq<nat>, part: seq<nat>)
    requires multiset(moved) + multiset(left) == multiset(before) && multiset(part) <= multiset(moved)
    ensures multiset(left) + multiset(log + moved) == multiset(before) + multiset(log)
    ensures multiset(left) + multiset(log + part) <= multiset(before) + multiset(log)
  {
    assert multiset(log + moved) == multiset(log) + multiset(moved);
    assert multiset(log + part) == multiset(log) + multiset(part);
  }

  lemma PartitionIds<I>(es: seq<Expressed<I>>, sel: Selector<I>)
    ensures multiset(Ids(Matched(es, sel))) + multiset(Ids(Unmatched(es, sel))) == multiset(Ids(es))
    ensures multiset(RegistrationIds(Matched(es, sel))) + multiset(RegistrationIds(Unmatched(es, sel)))
         == multiset(RegistrationIds(es))
  {
    Partition(es, sel, IdOf);
    Partition(es, sel, RegistrationOf);
  }

  lemma TakesSelected<I>(s: State<I>, t: State<I>, sel: Selector<I>, called: seq<nat>, settled: seq<nat>)
    requires t.pit == Unmatched(s.pit, sel)
    requires var out := Matched(s.pit, sel);
      && Ended(t.log) == Ended(s.log) + Ids(out) && Attempts(t.log) == Attempts(s.log)
      && Called(t.log) == Called(s.log) + called && multiset(called) <= multiset(Ids(out))
      && Settled(t.log) == Settled(s.log) + settled && multiset(settled) <= multiset(RegistrationIds(out))
    ensures Takes(s, t)
  {
    var out := Matched(s.pit, sel);
    PartitionIds(s.pit, sel);
    hide Matched, Unmatched, Ids, RegistrationIds, Called, Ended, Attempts, Settled;
    MovedSum(Ids(s.pit), Ids(t.pit), Ids(out), Ended(s.log), called);
    MovedSum(Ids(s.pit), Ids(t.pit), Ids(out), Called(s.log), called);
    MovedSum(RegistrationIds(s.pit), RegistrationIds(t.pit), RegistrationIds(out), Settled(s.log), settled);
  }

  lemma DataTakes<I>(s: State<I>, matches: I -> bool, reply: Reply)
    ensures Takes(s, Apply(s, DataArrives(matches, reply)))
  {
    var sel := ByData(matches);
    var out := s.(pit := Unmatched(s.pit, sel));
    assert Apply(s, DataArrives(matches, reply)) == Deliver(out, Matched(s.pit, sel), reply);
    DeliverEffect(out, Matched(s.pit, sel), reply);
    hide Apply, Deliver, Matched, Unmatched, Ids, RegistrationIds, Called, Ended, Attempts, Settled, Takes;
    TakesSelected(s, Deliver(out, Matched(s.pit, sel), reply), sel, Ids(Matched(s.pit, sel)),
                  RegistrationIds(Matched(s.pit, sel)));
  }

  lemma NackTakes<I>(s: State<I>, same: I -> bool)
    ensures Takes(s, Apply(s, NackArrives(same)))
  {
    var sel := ByNack(same);
    var t := s.(pit := Unmatched(s.pit, sel), log := s.log + NackEvents(Matched(s.pit, sel)));
    assert Apply(s, NackArrives(same)) == t;
    NackEventsEffect(s.log, Matched(s.pit, sel));
    hide Apply, NackEvents, Matched, Unmatched, Ids, RegistrationIds, Called, Ended, Attempts, Settled, Takes;
    TakesSelected(s, t, sel, Ids(Matched(s.pit, sel)), []);
  }

  lemma RemoveTakes<I>(s: State<I>, id: nat)
    ensures Takes(s, RemovePending(s, id))
  {
    var sel := ById(id);
    if |Matched(s.pit, sel)| > 0 {
      var t := s.(pit := Unmatched(s.pit, sel), log := s.log + RemovedEvents(Matched(s.pit, sel)));
      assert RemovePending(s, id) == t;
      RemovedEventsEffect(s.log, Matched(s.pit, sel));
      hide RemovePending, RemovedEvents, Matched, Unmatched, Ids, RegistrationIds, Called, Ended, Attempts, Settled,
        Takes;
      TakesSelected(s, t, sel, [], []);
    } else {
      assert RemovePending(s, id) == s.(removeRequests := AddRequest(s.removeRequests, id));
      hide RemovePending, Matched, AddRequest, Ids, RegistrationIds, Called, Ended, Attempts, Settled;
    }
  }

  /** An entry is taken out exactly when it is in the table and selected. */
  lemma {:induction false} MatchedMember<I>(es: seq<Expressed<I>>, sel: Selector<I>, e: Expressed<I>)
    ensures e in Matched(es, sel) <==> e in es && Selects(sel, e)
    ensures e in Unmatched(es, sel) <==> e in es && !Selects(sel, e)
  {
    if |es| > 0 {
      MatchedMember(es[..|es| - 1], sel, e);
      assert es == es[..|es| - 1] + [es[|es| - 1]];
    }
  }

  lemma {:induction false} IdsMembers<I>(es: seq<Expressed<I>>)
    ensures forall e :: e in es ==> e.id in Ids(es)
    ensures forall x :: x in Ids(es) ==> exists e :: e in es && e.id == x
    ensures |Ids(es)| == |es|
  {
    if |es| > 0 {
      var rest, last := es[..|es| - 1], es[|es| - 1];
      IdsMembers(rest);
      IdsOne(rest, last);
      assert es == rest + [last];
    }
  }

  /** With distinct ids, an entry of the table is the only one with its id. */
  lemma {:induction false} SameEntry<I>(es: seq<Expressed<I>>, a: Expressed<I>, b: Expressed<I>)
    requires AtMostOnce(multiset(Ids(es))) && a in es && b in es && a.id == b.id
    ensures a == b
  {
    var rest, last := es[..|es| - 1], es[|es| - 1];
    IdsOne(rest, last);
    IdsMembers(rest);
    assert es == rest + [last];
    assert multiset(Ids(es)) == multiset(Ids(rest)) + multiset{last.id};
    if a in rest && b in rest {
      assert AtMostOnce(multiset(Ids(rest))) by {
        forall x ensures multiset(Ids(rest))[x] <= 1 { assert multiset(Ids(es))[x] <= 1; }
      }
      SameEntry(rest, a, b);
    } else {
      assert multiset(Ids(es))[last.id] <= 1;
    }
  }

  lemma CountOne(s: seq<nat>, x: nat, y: nat)
    ensures multiset(s + [x])[y] == multiset(s)[y] + if x == y then 1 else 0
  {
    assert multiset(s + [x]) == multiset(s) + multiset{x};
  }

  lemma CountIdsLast<I>(es: seq<Expressed<I>>, id: nat)
    requires |es| > 0
    ensures var rest, last := es[..|es| - 1], es[|es| - 1];
      multiset(Ids(es))[id] == multiset(Ids(rest))[id] + if last.id == id then 1 else 0
  {
    var rest, last := es[..|es| - 1], es[|es| - 1];
    assert Ids(es) == Ids(rest) + [last.id];
    hide Ids;
    CountOne(Ids(rest), last.id, id);
  }

  lemma CountMatchedLast<I>(es: seq<Expressed<I>>, id: nat)
    requires |es| > 0
    ensures var rest, last := es[..|es| - 1], es[|es| - 1];
      |Matched(es, ById(id))| == |Matched(rest, ById(id))| + if last.id == id then 1 else 0
  {
  }

  lemma {:induction false} CountMatches<I>(es: seq<Expressed<I>>, id: nat)
    ensures |Matched(es, ById(id))| == multiset(Ids(es))[id]
  {
    if |es| > 0 {
      CountIdsLast(es, id);
      CountMatchedLast(es, id);
      hide Ids, Matched;
      CountMatches(es[..|es| - 1], id);
    } else {
      assert Matched(es, ById(id)) == [] && Ids(es) == [];
    }
  }

  lemma TimeoutEffect<I>(s: State<I>, e: Expressed<I>)
    requires |Matched(s.pit, ById(e.id))| > 0
    ensures var t := Timeout(s, e);
      && t.pit == Unmatched(s.pit, ById(e.id))
      && Ended(t.log) == Ended(s.log) + [e.id] && Attempts(t.log) == Attempts(s.log)
      && Called(t.log) == Called(s.log) + (if e.hasOnTimeout then [e.id] else [])
      && Settled(t.log) == Settled(s.log) + RegistrationOf(e)
  {
    hide Called, Ended, Attempts, Settled;
    var timedOut := TimedOut(e.id, e.hasOnTimeout);
    LogOne(s.log, timedOut);
    if e.callbacks.Response? { LogOne(s.log + [timedOut], RegisterFailed(e.callbacks.registration.id)); }
  }

  /** An entry that is alone with its id is the one matched by it. */
  lemma OnlyMatch<I>(es: seq<Expressed<I>>, e: Expressed<I>)
    requires AtMostOnce(multiset(Ids(es))) && |Matched(es, ById(e.id))| > 0
    requires forall p :: p in es && p.id == e.id ==> p == e
    ensures Matched(es, ById(e.id)) == [e]
  {
    hide Ids, Matched;
    var out := Matched(es, ById(e.id));
    CountMatches(es, e.id);
    assert multiset(Ids(es))[e.id] <= 1;
    MatchedMember(es, ById(e.id), out[0]);
  }

  lemma IdsOfOne<I>(e: Expressed<I>)
    ensures Ids([e]) == [e.id] && RegistrationIds([e]) == RegistrationOf(e)
  {
    IdsOne([], e);
    assert [] + [e] == [e] && Ids<I>([]) == [] && RegistrationIds<I>([]) == [];
  }

  /** A timer ends its entry if that is still in the table, and does nothing otherwise. */
  lemma TimeoutTakes<I>(s: State<I>, e: Expressed<I>)
    requires AtMostOnce(multiset(Ids(s.pit)))
    requires forall p :: p in s.pit && p.id == e.id ==> p == e
    ensures Takes(s, Timeout(s, e))
  {
    if |Matched(s.pit, ById(e.id))| > 0 {
      hide Timeout, Matched, Unmatched, Ids, RegistrationIds, RegistrationOf, Called, Ended, Attempts, Settled, Takes,
        AtMostOnce;
      OnlyMatch(s.pit, e);
      IdsOfOne(e);
      TimeoutEffect(s, e);
      TakesSelected(s, Timeout(s, e), ById(e.id), if e.hasOnTimeout then [e.id] else [], RegistrationOf(e));
    } else {
      assert Timeout(s, e) == s;
      hide Timeout, Matched;
    }
  }

  lemma EmptyQueue<I>(s: State<I>)
    requires s.queue == [] && s.ran == 0
    ensures Accounted(s) == Handled(s) && AccountedRegistrations(s) == HandledRegistrations(s)
    ensures Order(s) == Attempts(s.log)
  {
    assert Waiting(s) == [] && Ids<I>([]) == [] && RegistrationIds<I>([]) == [];
    hide Handled, HandledRegistrations, Attempts;
  }

  /** Expressing an interest when it need not wait attempts it. */
  lemma ExpressNowEffect<I>(s: State<I>, e: Expressed<I>)
    requires s.queue == [] && s.ran == 0 && (s.status == ConnectComplete || !s.async)
    ensures var t := Express(s, e);
      && t.queue == [] && t.ran == 0
      && Accounted(t) == Accounted(s) + multiset{e.id}
      && AccountedRegistrations(t) <= AccountedRegistrations(s) + multiset(RegistrationOf(e))
      && Order(t) == Order(s) + [e.id] && Called(t.log) == Called(s.log) && Settled(t.log) == Settled(s.log)
  {
    var t := Express(s, e);
    var noted := s.(expressed := s.expressed + [e]);
    var before := if s.status == ConnectComplete then noted else noted.(connects := s.connects + 1);
    var after := Attempt(before, e).0;
    assert t.pit == after.pit && t.log == after.log && t.queue == [] && t.ran == 0;
    assert Handled(t) == Handled(after) && HandledRegistrations(t) == HandledRegistrations(after);
    assert Handled(before) == Handled(s) && HandledRegistrations(before) == HandledRegistrations(s);
    hide Attempt, Express, Handled, HandledRegistrations, Accounted, AccountedRegistrations, Order, RegistrationOf,
      Called, Attempts, Settled;
    AttemptEffect(before, e);
    EmptyQueue(s);
    EmptyQueue(t);
  }

  lemma GrownSum(waiting: seq<nat>, more: seq<nat>, handled: multiset<nat>)
    ensures multiset(waiting + more) + handled == (multiset(waiting) + handled) + multiset(more)
  {
    assert multiset(waiting + more) == multiset(waiting) + multiset(more);
  }

  lemma QueueOne<I>(s: State<I>, t: State<I>, e: Expressed<I>)
    requires s.ran <= |s.queue| && t.queue == s.queue + [e] && t.ran == s.ran && t.pit == s.pit && t.log == s.log
    ensures Accounted(t) == Accounted(s) + multiset{e.id}
    ensures AccountedRegistrations(t) == AccountedRegistrations(s) + multiset(RegistrationOf(e))
    ensures Order(t) == Order(s) + [e.id]
  {
    assert Waiting(t) == Waiting(s) + [e];
    assert Handled(t) == Handled(s) && HandledRegistrations(t) == HandledRegistrations(s);
    hide Handled, HandledRegistrations, Waiting, RegistrationOf, Ids, RegistrationIds, Attempts;
    IdsOne(Waiting(s), e);
    GrownSum(Ids(Waiting(s)), [e.id], Handled(s));
    GrownSum(RegistrationIds(Waiting(s)), RegistrationOf(e), HandledRegistrations(s));
    Associate(Attempts(s.log), Ids(Waiting(s)), [e.id]);
  }

  /** Expressing an interest attempts it at once or queues it. */
  lemma ExpressEffect<I>(s: State<I>, e: Expressed<I>)
    requires s.ran <= |s.queue|
    requires s.status == ConnectComplete || !s.async ==> s.queue == []
    ensures var t := Express(s, e);
      && t.ran <= |t.queue|
      && Accounted(t) == Accounted(s) + multiset{e.id}
      && AccountedRegistrations(t) <= AccountedRegistrations(s) + multiset(RegistrationOf(e))
      && Order(t) == Order(s) + [e.id] && Called(t.log) == Called(s.log) && Settled(t.log) == Settled(s.log)
  {
    if s.status == ConnectComplete || !s.async {
      ExpressNowEffect(s, e);
    } else {
      QueueOne(s, Express(s, e), e);
    }
    hide Accounted, AccountedRegistrations, Order, RegistrationOf, Called, Settled;
  }
}

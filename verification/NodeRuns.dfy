/** What holds over every run of the Node protocol. */
module NodeRuns {
  import opened NodeSpec
  import opened NodeLedger
  import opened NodeInvariant

  // Registrations and the filters they make.

  lemma {:induction false} WithoutFilterMember(filters: seq<Filter>, id: nat, f: Filter)
    ensures f in WithoutFilter(filters, id) <==> f in filters && f.id != id
  {
    if filters != [] {
      WithoutFilterMember(filters[..|filters| - 1], id, f);
      assert filters == filters[..|filters| - 1] + [filters[|filters| - 1]];
    }
  }

  lemma {:induction false} WithoutPrefixMember(prefixes: seq<Prefix>, id: nat, p: Prefix)
    ensures p in WithoutPrefix(prefixes, id) <==> p in prefixes && p.id != id
    ensures |WithoutPrefix(prefixes, id)| <= |prefixes|
    ensures WithoutPrefix(prefixes, id) == prefixes <==> forall q :: q in prefixes ==> q.id != id
  {
    if prefixes != [] {
      var rest, last := prefixes[..|prefixes| - 1], prefixes[|prefixes| - 1];
      WithoutPrefixMember(rest, id, p);
      assert prefixes == rest + [last];
      if last.id == id {
        assert |WithoutPrefix(prefixes, id)| < |prefixes|;
      } else {
        assert WithoutPrefix(prefixes, id) == prefixes <==> WithoutPrefix(rest, id) == rest by {
          assert WithoutPrefix(prefixes, id)[..|WithoutPrefix(prefixes, id)| - 1] == WithoutPrefix(rest, id);
        }
      }
    }
  }

  function UnsetOne(last: Prefix, id: nat, filters: seq<Filter>): seq<Filter> {
    if last.id == id && last.filterId > 0 then WithoutFilter(filters, last.filterId) else filters
  }

  lemma UnsetOneMember(last: Prefix, id: nat, filters: seq<Filter>, f: Filter)
    ensures f in UnsetOne(last, id, filters) <==> f in filters && !(0 < f.id && Prefix(id, f.id) == last)
  {
    WithoutFilterMember(filters, last.filterId, f);
  }

  lemma LastMember<T>(s: seq<T>, x: T)
    requires |s| > 0
    ensures x in s <==> x in s[..|s| - 1] || x == s[|s| - 1]
  {
    assert s == s[..|s| - 1] + [s[|s| - 1]];
  }

  /** Removing a registration unsets exactly the filters that its prefix entries name. */
  lemma {:induction false} UnsetRelatedMember(prefixes: seq<Prefix>, id: nat, filters: seq<Filter>, f: Filter)
    ensures f in UnsetRelated(prefixes, id, filters)
       <==> f in filters && !(0 < f.id && Prefix(id, f.id) in prefixes)
  {
    if prefixes != [] {
      var rest, last := prefixes[..|prefixes| - 1], prefixes[|prefixes| - 1];
      assert UnsetRelated(prefixes, id, filters) == UnsetRelated(rest, id, UnsetOne(last, id, filters));
      hide UnsetRelated, UnsetOne;
      UnsetRelatedMember(rest, id, UnsetOne(last, id, filters), f);
      UnsetOneMember(last, id, filters, f);
      LastMember(prefixes, Prefix(id, f.id));
    }
  }

  lemma {:induction false} UnsetNone(prefixes: seq<Prefix>, id: nat, filters: seq<Filter>)
    requires forall p :: p in prefixes ==> p.id != id
    ensures UnsetRelated(prefixes, id, filters) == filters
  {
    if prefixes != [] { UnsetNone(prefixes[..|prefixes| - 1], id, filters); }
  }

  lemma RecordFilter(filters: seq<Filter>, prefixes: seq<Prefix>, id: nat, owner: nat)
    requires FiltersRecorded(filters, prefixes) && 0 < id
    ensures FiltersRecorded(filters + [Filter(id, owner)], prefixes + [Prefix(owner, id)])
    ensures FiltersRecorded(WithoutFilter(filters + [Filter(id, owner)], id), prefixes)
    ensures FiltersRecorded(filters, prefixes + [Prefix(owner, 0)])
    ensures FiltersRecorded(WithoutFilter(filters, id), prefixes)
  {
    forall f | f in WithoutFilter(filters + [Filter(id, owner)], id) ensures f in filters {
      WithoutFilterMember(filters + [Filter(id, owner)], id, f);
    }
    forall f | f in WithoutFilter(filters, id) ensures f in filters { WithoutFilterMember(filters, id, f); }
  }

  lemma SettledMore(prefixes: seq<Prefix>, more: seq<Prefix>, settled: seq<nat>, id: nat)
    requires PrefixesSettled(prefixes, settled) && forall p :: p in more ==> p in prefixes || p.id == id != 0
    ensures PrefixesSettled(more, settled + Issued(id))
  {
  }

  lemma RespondShape<I>(s: State<I>, reg: Registration, reply: Reply)
    ensures var t := Respond(s, reg, reply); var id := s.lastId + 1;
      || (t.filters == s.filters && (t.prefixes == s.prefixes || t.prefixes == s.prefixes + [Prefix(reg.id, 0)]))
      || (t.filters == s.filters + [Filter(id, reg.id)] && t.prefixes == s.prefixes + [Prefix(reg.id, id)])
      || (t.filters == WithoutFilter(s.filters + [Filter(id, reg.id)], id) && t.prefixes == s.prefixes)
    ensures reg.id == 0 ==> Respond(s, reg, reply).prefixes == s.prefixes
  {
    hide WithoutFilter;
  }

  lemma RespondRecorded<I>(s: State<I>, reg: Registration, reply: Reply)
    requires Recorded(s)
    ensures Recorded(Respond(s, reg, reply))
  {
    hide FiltersRecorded, PrefixesSettled, Settled, Respond, WithoutFilter;
    RespondEffect(s, reg, reply);
    RespondShape(s, reg, reply);
    RecordFilter(s.filters, s.prefixes, s.lastId + 1, reg.id);
    var t := Respond(s, reg, reply);
    assert FiltersRecorded(t.filters, t.prefixes);
    forall p | p in t.prefixes ensures p in s.prefixes || p.id == reg.id != 0 {}
    SettledMore(s.prefixes, t.prefixes, Settled(s.log), reg.id);
  }

  lemma {:induction false} DeliverRecorded<I>(s: State<I>, es: seq<Expressed<I>>, reply: Reply)
    requires Recorded(s)
    ensures Recorded(Deliver(s, es, reply))
    decreases |es|
  {
    if |es| > 0 {
      var e := es[0];
      var called := s.(log := s.log + [GotData(e.id)]);
      LogOne(s.log, GotData(e.id));
      assert Recorded(called);
      if e.callbacks.Response? { RespondRecorded(called, e.callbacks.registration, reply); }
      assert Recorded(DeliverOne(s, e, reply));
      hide Recorded, DeliverOne;
      DeliverRecorded(DeliverOne(s, e, reply), es[1..], reply);
    }
  }

  lemma RemoveRecorded<I>(s: State<I>, id: nat)
    requires Recorded(s)
    ensures var t := RemoveRegistered(s, id);
      && Recorded(t) && (forall p :: p in t.prefixes ==> p.id != id)
      && (forall f :: f in t.filters && f.owner != 0 ==> f.owner != id)
  {
    var t := RemoveRegistered(s, id);
    forall p ensures p in t.prefixes <==> p in s.prefixes && p.id != id { WithoutPrefixMember(s.prefixes, id, p); }
    forall f | f in t.filters && f.owner != 0
      ensures 0 < f.id && f.owner != id && Prefix(f.owner, f.id) in t.prefixes
    {
      UnsetRelatedMember(s.prefixes, id, s.filters, f);
    }
  }

  ghost predicate Within(a: seq<nat>, b: seq<nat>) { forall x :: x in a ==> x in b }

  lemma WithinMore(a: seq<nat>, more: seq<nat>)
    ensures Within(a, a) && Within(a, a + more)
  {
  }

  lemma ExpressSettles<I>(s: State<I>, e: Expressed<I>)
    requires Connection(s)
    ensures Within(Settled(s.log), Settled(Express(s, e).log))
  {
    WithinMore(Settled(s.log), []);
    ExpressEffect(s, e);
    hide *;
  }

  lemma RunQueueSettles<I>(s: State<I>)
    requires s.ran <= |s.queue|
    ensures Within(Settled(s.log), Settled(RunQueue(s).log))
  {
    WithinMore(Settled(s.log), []);
    RunQueueEffect(s);
    hide *;
  }

  lemma DeliverSettles<I>(s: State<I>, es: seq<Expressed<I>>, reply: Reply)
    ensures Within(Settled(s.log), Settled(Deliver(s, es, reply).log))
  {
    WithinMore(Settled(s.log), RegistrationIds(es));
    DeliverEffect(s, es, reply);
    hide *;
  }

  lemma EventsSettle<I>(log: seq<Event>, es: seq<Expressed<I>>)
    ensures Within(Settled(log), Settled(log + NackEvents(es))) && Within(Settled(log), Settled(log + RemovedEvents(es)))
  {
    WithinMore(Settled(log), []);
    NackEventsEffect(log, es);
    RemovedEventsEffect(log, es);
    hide *;
  }

  /** What is settled stays settled. */
  lemma SettledStays<I>(s: State<I>, step: Step<I>)
    requires Connection(s) && Enabled(s, step)
    ensures Within(Settled(s.log), Settled(Apply(s, step).log))
  {
    hide Settled, Within, Express, RunQueue, Deliver, Timeout, Matched, Unmatched, NackEvents, RemovedEvents;
    WithinMore(Settled(s.log), []);
    var t := Apply(s, step);
    match step
    case ExpressInterest(e) =>
      assert t == Express(s, e);
      ExpressSettles(s, e);
    case Connected =>
      assert t == RunQueue(s.(connectedFired := true));
      RunQueueSettles(s.(connectedFired := true));
    case DataArrives(matches, reply) =>
      var out := s.(pit := Unmatched(s.pit, ByData(matches)));
      assert t == Deliver(out, Matched(s.pit, ByData(matches)), reply);
      DeliverSettles(out, Matched(s.pit, ByData(matches)), reply);
    case NackArrives(same) =>
      assert t.log == s.log + NackEvents(Matched(s.pit, ByNack(same)));
      EventsSettle(s.log, Matched(s.pit, ByNack(same)));
    case TimerFires(k) =>
      var fired := s.(timers := s.timers[..k] + s.timers[k + 1..]);
      assert t == Timeout(fired, s.timers[k]);
      TimeoutSettles(fired, s.timers[k]);
    case RemovePendingInterest(id) =>
      EventsSettle(s.log, Matched(s.pit, ById(id)));
    case RegisterPrefix(reg, interest, oversize) =>
      var issued := s.(lastId := s.lastId + 1);
      var e := CommandInterest(s.lastId + 1, reg, interest, oversize);
      assert t == Express(issued, e);
      ConnectionFrame(s, issued);
      ExpressSettles(issued, e);
    case _ => assert t.log == s.log;
  }

  lemma TimeoutSettles<I>(s: State<I>, e: Expressed<I>)
    ensures Within(Settled(s.log), Settled(Timeout(s, e).log))
  {
    WithinMore(Settled(s.log), RegistrationOf(e));
    if |Matched(s.pit, ById(e.id))| > 0 {
      TimeoutEffect(s, e);
      hide Settled, Within, Timeout;
    } else {
      assert Timeout(s, e) == s;
    }
  }

  lemma RecordedFrame<I>(s: State<I>, t: State<I>)
    requires Recorded(s) && t.filters == s.filters && t.prefixes == s.prefixes
    requires Within(Settled(s.log), Settled(t.log))
    ensures Recorded(t)
  {
  }

  lemma StepRecorded<I>(s: State<I>, step: Step<I>)
    requires Connection(s) && Recorded(s) && Enabled(s, step)
    ensures Recorded(Apply(s, step))
  {
    assert s.ran <= |s.queue|;
    hide Recorded, Settled, Within, Connection, Express, RunQueue, Deliver, Timeout, RemoveRegistered;
    var t := Apply(s, step);
    SettledStays(s, step);
    WithinMore(Settled(s.log), []);
    match step
    case DataArrives(matches, reply) =>
      var out := s.(pit := Unmatched(s.pit, ByData(matches)));
      RecordedFrame(s, out);
      DeliverRecorded(out, Matched(s.pit, ByData(matches)), reply);
    case RemoveRegisteredPrefix(id) => RemoveRecorded(s, id);
    case SetFilter(id) => SetRecorded(s, id);
    case UnsetFilter(id) => SetRecorded(s, id);
    case Connected =>
      RunQueueFrame(s.(connectedFired := true));
      RecordedFrame(s, t);
    case _ =>
      StepKeepsRegistered(s, step);
      RecordedFrame(s, t);
  }

  lemma SetRecorded<I>(s: State<I>, id: nat)
    requires Recorded(s)
    ensures Recorded(s.(filters := s.filters + [Filter(id, 0)]))
    ensures Recorded(s.(filters := WithoutFilter(s.filters, id)))
  {
    forall f | f in WithoutFilter(s.filters, id) ensures f in s.filters { WithoutFilterMember(s.filters, id, f); }
  }

  lemma ExpressKeepsRegistered<I>(s: State<I>, e: Expressed<I>)
    ensures var t := Express(s, e);
      t.filters == s.filters && t.prefixes == s.prefixes && t.prefixRemoveRequests == s.prefixRemoveRequests
  {
    hide Attempt;
  }

  lemma StepKeepsRegistered<I>(s: State<I>, step: Step<I>)
    requires step.NewId? || step.ExpressInterest? || step.NackArrives? || step.TimerFires?
      || step.RemovePendingInterest? || step.RegisterPrefix?
    ensures Apply(s, step).filters == s.filters && Apply(s, step).prefixes == s.prefixes
    ensures Apply(s, step).prefixRemoveRequests == s.prefixRemoveRequests
  {
    hide Express, Timeout, RemovePending;
    match step
    case ExpressInterest(e) => ExpressKeepsRegistered(s, e);
    case RegisterPrefix(reg, interest, oversize) =>
      ExpressKeepsRegistered(s.(lastId := s.lastId + 1), CommandInterest(s.lastId + 1, reg, interest, oversize));
    case _ =>
  }

  /** Every step keeps the invariant. */
  lemma StepInv<I>(s: State<I>, step: Step<I>)
    requires Inv(s) && Enabled(s, step)
    ensures Inv(Apply(s, step))
  {
    hide WellIssued, Balanced, Timed, TimersAttempted, Recorded, Enabled, Apply;
    assert s.ran <= |s.queue|;
    hide Connection;
    StepWellIssued(s, step);
    StepBalanced(s, step);
    StepConnection(s, step);
    StepTimed(s, step);
    StepTimersAttempted(s, step);
    StepRecorded(s, step);
  }

  // Runs.

  function Run<I>(s: State<I>, steps: seq<Step<I>>): State<I>
    decreases |steps|
  {
    if |steps| == 0 then s else Run(Apply(s, steps[0]), steps[1..])
  }

  ghost predicate Allowed<I>(s: State<I>, steps: seq<Step<I>>)
    decreases |steps|
  {
    |steps| == 0 || (Enabled(s, steps[0]) && Allowed(Apply(s, steps[0]), steps[1..]))
  }

  lemma InitialInv<I>(async: bool)
    ensures Inv(Initial<I>(async))
  {
    var s := Initial<I>(async);
    assert Waiting(s) == [] && Ids<I>([]) == [] && RegistrationIds<I>([]) == [];
    assert Ended([]) == [] && Settled([]) == [] && Attempts([]) == [];
  }

  lemma StepAsync<I>(s: State<I>, step: Step<I>)
    requires s.ran <= |s.queue|
    ensures Apply(s, step).async == s.async
  {
    hide RunQueue, Attempt, Deliver, Timeout, RemovePending, RemoveRegistered;
    if step.Connected? { RunQueueFrame(s.(connectedFired := true)); }
  }

  lemma {:induction false} RunInv<I>(s: State<I>, steps: seq<Step<I>>)
    requires Inv(s) && Allowed(s, steps)
    ensures Inv(Run(s, steps)) && Run(s, steps).async == s.async && Rank(s.status) <= Rank(Run(s, steps).status)
    decreases |steps|
  {
    if |steps| > 0 {
      var t := Apply(s, steps[0]);
      StepInv(s, steps[0]);
      StepConnection(s, steps[0]);
      StepAsync(s, steps[0]);
      hide Inv, Rank, Enabled;
      RunInv(t, steps[1..]);
    }
  }

  /** The state after a run from the start. */
  ghost predicate Reaches<I>(async: bool, steps: seq<Step<I>>, s: State<I>) {
    Allowed(Initial(async), steps) && s == Run(Initial(async), steps)
  }

  lemma ReachableInv<I>(async: bool, steps: seq<Step<I>>, s: State<I>)
    requires Reaches(async, steps, s)
    ensures Inv(s) && s.async == async
  {
    InitialInv<I>(async);
    hide Inv, Run, Allowed;
    RunInv(Initial(async), steps);
  }

  // The life of an interest.

  lemma {:induction false} CalledAreEnded(log: seq<Event>)
    ensures multiset(Called(log)) <= multiset(Ended(log))
  {
    if log != [] {
      var rest, last := log[..|log| - 1], log[|log| - 1];
      CalledAreEnded(rest);
      LogOne(rest, last);
      assert log == rest + [last];
      assert multiset(CalledBy(last)) <= multiset(EndedBy(last));
      hide Called, Ended, CalledBy, EndedBy;
      assert multiset(Called(rest) + CalledBy(last)) == multiset(Called(rest)) + multiset(CalledBy(last));
      assert multiset(Ended(rest) + EndedBy(last)) == multiset(Ended(rest)) + multiset(EndedBy(last));
    }
  }

  lemma DistinctCount(s: seq<nat>, x: nat)
    requires AtMostOnce(multiset(s))
    ensures multiset(s)[x] == if x in s then 1 else 0
  {
    assert multiset(s)[x] <= 1;
    assert x in s <==> x in multiset(s);
  }

  /** Over any run, every interest expressed is exactly once waiting for the connection, pending or ended, and its
      callbacks are called at most once in all. */
  lemma Lifecycle<I>(async: bool, steps: seq<Step<I>>, s: State<I>, id: nat)
    requires Reaches(async, steps, s)
    ensures s.ran <= |s.queue|
    ensures multiset(Ids(Waiting(s)))[id] + multiset(Ids(s.pit))[id] + multiset(Ended(s.log))[id]
         == if id in Ids(s.expressed) then 1 else 0
    ensures multiset(Called(s.log))[id] <= multiset(Ended(s.log))[id] <= 1
  {
    ReachableInv(async, steps, s);
    CalledAreEnded(s.log);
    DistinctCount(Ids(s.expressed), id);
    assert Accounted(s)[id] == multiset(Ids(Waiting(s)))[id] + multiset(Ids(s.pit))[id] + multiset(Ended(s.log))[id];
    hide Ids, RegistrationIds, Called, Ended, Attempts, Settled;
  }

  lemma AllAttempted<I>(s: State<I>)
    requires Balanced(s) && Connection(s) && (s.status == ConnectComplete || !s.async)
    ensures Attempts(s.log) == Ids(s.expressed)
  {
    assert Waiting(s) == [] && Ids<I>([]) == [];
    hide Accounted, AccountedRegistrations, Attempts;
  }

  /** Over any run, the interests attempted are those expressed, in order, less those still waiting. */
  lemma AttemptsInOrder<I>(async: bool, steps: seq<Step<I>>, s: State<I>)
    requires Reaches(async, steps, s)
    ensures s.ran <= |s.queue| && Attempts(s.log) + Ids(Waiting(s)) == Ids(s.expressed)
    ensures s.status == ConnectComplete || !async ==> Attempts(s.log) == Ids(s.expressed)
  {
    ReachableInv(async, steps, s);
    hide Reaches, WellIssued, Connection, Timed, TimersAttempted, Recorded, Accounted, AccountedRegistrations, Attempts,
      Ids, Waiting;
    if s.status == ConnectComplete || !async { AllAttempted(s); }
  }
}

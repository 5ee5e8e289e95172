/** Which callback a packet, a timer or a removal calls, and what a reply to a registration leaves in the tables. */
module NodeOutcomes {
  import opened NodeSpec
  import opened NodeLedger
  import opened NodeInvariant
  import opened NodeRuns

  // Replies to registrations.

  /** The filters of registrations have ids that were issued. */
  ghost predicate OwnedIssued<I>(s: State<I>) { forall f :: f in s.filters && f.owner != 0 ==> f.id <= s.lastId }

  lemma RespondIssued<I>(s: State<I>, reg: Registration, reply: Reply)
    requires OwnedIssued(s)
    ensures OwnedIssued(Respond(s, reg, reply))
  {
    var t, made := Respond(s, reg, reply), Filter(s.lastId + 1, reg.id);
    forall f | f in t.filters ensures f in s.filters || (f == made && made.id <= t.lastId) {
      WithoutFilterMember(s.filters + [made], made.id, f);
    }
    hide WithoutFilter;
  }

  lemma {:induction false} DeliverIssued<I>(s: State<I>, es: seq<Expressed<I>>, reply: Reply)
    requires OwnedIssued(s)
    ensures OwnedIssued(Deliver(s, es, reply))
    decreases |es|
  {
    if |es| > 0 {
      var called := s.(log := s.log + [GotData(es[0].id)]);
      if es[0].callbacks.Response? { RespondIssued(called, es[0].callbacks.registration, reply); }
      assert OwnedIssued(DeliverOne(s, es[0], reply));
      hide OwnedIssued, DeliverOne;
      DeliverIssued(DeliverOne(s, es[0], reply), es[1..], reply);
    }
  }

  lemma FewerIssued<I>(s: State<I>, t: State<I>)
    requires OwnedIssued(s) && s.lastId <= t.lastId
    requires forall f :: f in t.filters && f.owner != 0 ==> f in s.filters
    ensures OwnedIssued(t)
  {
  }

  lemma StepIssued<I>(s: State<I>, step: Step<I>)
    requires OwnedIssued(s) && s.ran <= |s.queue| && Enabled(s, step)
    ensures OwnedIssued(Apply(s, step))
  {
    StepHolds(s, step);
    hide OwnedIssued, Enabled, Express, RunQueue, Deliver, Timeout, RemovePending, Holds, Fresh, Ids, RegistrationIds;
    var t := Apply(s, step);
    match step
    case DataArrives(matches, reply) =>
      var out := s.(pit := Unmatched(s.pit, ByData(matches)));
      FewerIssued(s, out);
      DeliverIssued(out, Matched(s.pit, ByData(matches)), reply);
    case RemoveRegisteredPrefix(id) =>
      forall f | f in t.filters ensures f in s.filters { UnsetRelatedMember(s.prefixes, id, s.filters, f); }
      FewerIssued(s, t);
    case UnsetFilter(id) =>
      forall f | f in t.filters ensures f in s.filters { WithoutFilterMember(s.filters, id, f); }
      FewerIssued(s, t);
    case SetFilter(id) => FewerIssued(s, t);
    case Connected =>
      RunQueueFrame(s.(connectedFired := true));
      FewerIssued(s, t);
    case _ =>
      StepKeepsRegistered(s, step);
      FewerIssued(s, t);
  }

  lemma {:induction false} RunIssued<I>(s: State<I>, steps: seq<Step<I>>)
    requires Inv(s) && OwnedIssued(s) && Allowed(s, steps)
    ensures OwnedIssued(Run(s, steps))
    decreases |steps|
  {
    if |steps| > 0 {
      assert s.ran <= |s.queue|;
      hide Inv, OwnedIssued, Enabled;
      StepIssued(s, steps[0]);
      StepInv(s, steps[0]);
      RunIssued(Apply(s, steps[0]), steps[1..]);
    }
  }

  lemma ReachableIssued<I>(async: bool, steps: seq<Step<I>>, s: State<I>)
    requires Reaches(async, steps, s)
    ensures Inv(s) && OwnedIssued(s)
  {
    InitialInv<I>(async);
    ReachableInv(async, steps, s);
    hide Inv, Run, Allowed;
    RunIssued(Initial(async), steps);
  }

  ghost predicate SamePrefixes(a: seq<Prefix>, b: seq<Prefix>, id: nat) {
    forall p: Prefix :: p.id == id ==> (p in a <==> p in b)
  }

  ghost predicate SameFilters(a: seq<Filter>, b: seq<Filter>, owner: nat) {
    forall f: Filter :: f.owner == owner ==> (f in a <==> f in b)
  }

  /** The longer log has more events, and none of them settles the registration. */
  ghost predicate Unsettled(log: seq<Event>, longer: seq<Event>, id: nat) {
    log <= longer && forall k :: |log| <= k < |longer| ==> SettledBy(longer[k]) != [id]
  }

  /** Nothing of the registration has changed, and it has not been settled. */
  ghost predicate Untouched<I>(s: State<I>, t: State<I>, id: nat) {
    && s.lastId <= t.lastId
    && (id in t.prefixRemoveRequests <==> id in s.prefixRemoveRequests)
    && SamePrefixes(s.prefixes, t.prefixes, id) && SameFilters(s.filters, t.filters, id) && Unsettled(s.log, t.log, id)
  }

  lemma UntouchedTwice<I>(s: State<I>, t: State<I>, u: State<I>, id: nat)
    requires Untouched(s, t, id) && Untouched(t, u, id)
    ensures Untouched(s, u, id)
  {
    forall k | |s.log| <= k < |u.log| ensures SettledBy(u.log[k]) != [id] {
      if k < |t.log| { assert u.log[k] == t.log[k]; }
    }
  }

  lemma LoggedUntouched<I>(s: State<I>, ev: Event, id: nat)
    requires SettledBy(ev) != [id]
    ensures Untouched(s, s.(log := s.log + [ev]), id)
  {
  }

  lemma FilterUnset(filters: seq<Filter>, made: Filter, f: Filter)
    ensures f in WithoutFilter(filters + [made], made.id) <==> f in filters && f.id != made.id
  {
    WithoutFilterMember(filters + [made], made.id, f);
    hide WithoutFilter;
  }

  lemma OtherFilters(filters: seq<Filter>, made: Filter, owner: nat)
    requires made.owner != owner && forall f :: f in filters && f.owner == owner ==> f.id < made.id
    ensures SameFilters(filters, filters + [made], owner)
    ensures SameFilters(filters, WithoutFilter(filters + [made], made.id), owner)
  {
    forall f: Filter | f.owner == owner ensures f in WithoutFilter(filters + [made], made.id) <==> f in filters {
      FilterUnset(filters, made, f);
    }
    hide WithoutFilter;
  }

  lemma SameTables(prefixes: seq<Prefix>, filters: seq<Filter>, more: Prefix, id: nat)
    requires more.id != id
    ensures SamePrefixes(prefixes, prefixes, id) && SamePrefixes(prefixes, prefixes + [more], id)
    ensures SameFilters(filters, filters, id)
  {
  }

  lemma UnsettledOne(log: seq<Event>, ev: Event, id: nat)
    ensures SettledBy(ev) != [id] ==> Unsettled(log, log + [ev], id)
  {
  }

  lemma RespondOther<I>(s: State<I>, reg: Registration, reply: Reply, id: nat)
    requires OwnedIssued(s) && 0 < id != reg.id
    ensures Untouched(s, Respond(s, reg, reply), id)
  {
    hide WithoutFilter, RemoveFirst, SamePrefixes, SameFilters, Unsettled;
    RemoveFirstKeeps(s.prefixRemoveRequests, reg.id, id);
    OtherFilters(s.filters, Filter(s.lastId + 1, reg.id), id);
    SameTables(s.prefixes, s.filters, Prefix(reg.id, if reg.hasOnInterest then s.lastId + 1 else 0), id);
    UnsettledOne(s.log, RegisterFailed(reg.id), id);
    UnsettledOne(s.log, RegisterWithdrawn(reg.id), id);
    UnsettledOne(s.log, RegisterSucceeded(reg.id, reg.hasOnSuccess), id);
    hide OwnedIssued;
  }

  lemma {:induction false} DeliverOther<I>(s: State<I>, es: seq<Expressed<I>>, reply: Reply, id: nat)
    requires OwnedIssued(s) && 0 < id && forall e :: e in es ==> RegistrationOf(e) != [id]
    ensures Untouched(s, Deliver(s, es, reply), id)
    decreases |es|
  {
    if |es| > 0 {
      var e, called, t := es[0], s.(log := s.log + [GotData(es[0].id)]), DeliverOne(s, es[0], reply);
      DeliverIssued(s, [e], reply);
      assert [e][1..] == [] && Deliver(s, [e], reply) == Deliver(t, [], reply) == t;
      LoggedUntouched(s, GotData(e.id), id);
      assert RegistrationOf(e) != [id];
      assert Deliver(s, es, reply) == Deliver(t, es[1..], reply);
      hide Untouched, Respond, Deliver;
      if e.callbacks.Response? {
        RespondOther(called, e.callbacks.registration, reply, id);
        UntouchedTwice(s, called, t, id);
      }
      DeliverOther(t, es[1..], reply, id);
      UntouchedTwice(s, t, Deliver(t, es[1..], reply), id);
    } else {
      assert Deliver(s, es, reply) == s;
    }
  }

  lemma {:induction false} DeliverSplit<I>(s: State<I>, a: seq<Expressed<I>>, e: Expressed<I>, b: seq<Expressed<I>>,
                                           reply: Reply)
    ensures Deliver(s, a + [e] + b, reply) == Deliver(DeliverOne(Deliver(s, a, reply), e, reply), b, reply)
    decreases |a|
  {
    hide DeliverOne;
    var es := a + [e] + b;
    if |a| == 0 {
      assert es[0] == e && es[1..] == b;
    } else {
      assert es[0] == a[0] && es[1..] == a[1..] + [e] + b;
      DeliverSplit(DeliverOne(s, a[0], reply), a[1..], e, b, reply);
    }
  }

  /** What a reply says to a registration: the event that it calls for. */
  function Outcome(reg: Registration, removed: bool, reply: Reply): Event {
    if reply != Status(200) then RegisterFailed(reg.id)
    else if removed then RegisterWithdrawn(reg.id)
    else RegisterSucceeded(reg.id, reg.hasOnSuccess)
  }

  /** The registration is in the tables: its entry, and its filter if it has an onInterest. */
  ghost predicate Registered<I>(s: State<I>, reg: Registration) {
    exists filterId: nat :: Prefix(reg.id, filterId) in s.prefixes
      && if reg.hasOnInterest then 0 < filterId && Filter(filterId, reg.id) in s.filters else filterId == 0
  }

  /** Nothing in the tables is of the registration. */
  ghost predicate NotRegistered<I>(s: State<I>, id: nat) {
    (forall p :: p in s.prefixes ==> p.id != id) && (forall f :: f in s.filters ==> f.owner != id)
  }

  lemma RespondItself<I>(s: State<I>, reg: Registration, reply: Reply)
    requires 0 < reg.id && NotRegistered(s, reg.id)
    ensures var t, removed := Respond(s, reg, reply), reg.id in s.prefixRemoveRequests;
      && t.log == s.log + [Outcome(reg, removed, reply)]
      && if reply == Status(200) && !removed then Registered(t, reg) else NotRegistered(t, reg.id)
  {
    var t, made := Respond(s, reg, reply), Filter(s.lastId + 1, reg.id);
    if reply == Status(200) {
      if reg.id in s.prefixRemoveRequests {
        RespondRemoved(s, reg);
      } else {
        hide WithoutFilter, RemoveFirst, NotRegistered;
        assert Prefix(reg.id, if reg.hasOnInterest then made.id else 0) in t.prefixes;
        assert reg.hasOnInterest ==> made in t.filters;
      }
    } else {
      assert t == s.(log := s.log + [RegisterFailed(reg.id)]);
    }
  }

  lemma RespondRemoved<I>(s: State<I>, reg: Registration)
    requires 0 < reg.id && NotRegistered(s, reg.id) && reg.id in s.prefixRemoveRequests
    ensures var t := Respond(s, reg, Status(200));
      t.log == s.log + [RegisterWithdrawn(reg.id)] && NotRegistered(t, reg.id)
  {
    var t, made := Respond(s, reg, Status(200)), Filter(s.lastId + 1, reg.id);
    assert t.prefixes == s.prefixes;
    assert t.filters == if reg.hasOnInterest then WithoutFilter(s.filters + [made], made.id) else s.filters;
    hide WithoutFilter, RemoveFirst, Respond;
    forall f | f in t.filters ensures f in s.filters { FilterUnset(s.filters, made, f); }
  }

  /** A pending registration is not in the tables yet. */
  lemma PendingNotRegistered<I>(s: State<I>, e: Expressed<I>, id: nat)
    requires Inv(s) && e in s.pit && RegistrationOf(e) == [id]
    ensures 0 < id && NotRegistered(s, id)
  {
    PendingUnsettled(s, e, id);
    forall p | p in s.prefixes ensures p.id != id {}
    forall f | f in s.filters ensures f.owner != id {
      assert f.owner == 0 || Prefix(f.owner, f.id) in s.prefixes;
    }
  }

  lemma PendingUnsettled<I>(s: State<I>, e: Expressed<I>, id: nat)
    requires Inv(s) && e in s.pit && RegistrationOf(e) == [id]
    ensures id !in Settled(s.log)
  {
    assert id in RegistrationIds(s.pit) by { CollectHas(s.pit, e, RegistrationOf, id); }
    assert AccountedRegistrations(s)[id] <= multiset(RegistrationIds(s.expressed))[id] <= 1;
    assert AccountedRegistrations(s)[id]
        >= multiset(RegistrationIds(s.pit))[id] + multiset(Settled(s.log))[id];
    hide RegistrationIds, Settled, Waiting, Ids;
  }

  lemma {:induction false} CollectHas<T>(s: seq<T>, x: T, f: T -> seq<nat>, id: nat)
    requires x in s && id in f(x)
    ensures id in Collect(s, f)
  {
    var rest, last := s[..|s| - 1], s[|s| - 1];
    if x != last {
      assert s == rest + [last];
      CollectHas(rest, x, f, id);
    }
  }

  /** The other entries that an operation takes out have other registrations. */
  lemma OthersDiffer<I>(s: State<I>, sel: Selector<I>, a: seq<Expressed<I>>, e: Expressed<I>, b: seq<Expressed<I>>,
                        id: nat)
    requires Inv(s) && Matched(s.pit, sel) == a + [e] + b && RegistrationOf(e) == [id]
    ensures forall x :: x in a || x in b ==> RegistrationOf(x) != [id]
  {
    PartitionIds(s.pit, sel);
    assert multiset(RegistrationIds(a + [e] + b))[id] <= multiset(RegistrationIds(s.pit))[id];
    assert AccountedRegistrations(s)[id] <= multiset(RegistrationIds(s.expressed))[id] <= 1;
    CollectAppend(a + [e], b, RegistrationOf);
    CollectOne(a, e, RegistrationOf);
    hide WellIssued, Balanced, Ids, Matched, Unmatched, Collect;
    forall x | x in a || x in b ensures RegistrationOf(x) != [id] {
      if RegistrationOf(x) == [id] {
        if x in a { CollectHas(a, x, RegistrationOf, id); } else { CollectHas(b, x, RegistrationOf, id); }
      }
    }
  }

  lemma DeliverToRegistration<I>(s: State<I>, a: seq<Expressed<I>>, e: Expressed<I>, b: seq<Expressed<I>>, reply: Reply)
    requires OwnedIssued(s) && e.callbacks.Response? && 0 < e.callbacks.registration.id
    requires NotRegistered(s, e.callbacks.registration.id)
    requires forall x :: x in a || x in b ==> RegistrationOf(x) != [e.callbacks.registration.id]
    ensures var t, reg := Deliver(s, a + [e] + b, reply), e.callbacks.registration;
      var removed := reg.id in s.prefixRemoveRequests;
      && SettledNow(s, t, reg.id, Outcome(reg, removed, reply))
      && if reply == Status(200) && !removed then Registered(t, reg) else NotRegistered(t, reg.id)
  {
    var reg := e.callbacks.registration;
    DeliverSplit(s, a, e, b, reply);
    DeliverOther(s, a, reply, reg.id);
    DeliverIssued(s, a, reply);
    var before := Deliver(s, a, reply);
    var called := before.(log := before.log + [GotData(e.id)]);
    LoggedUntouched(before, GotData(e.id), reg.id);
    UntouchedTwice(s, before, called, reg.id);
    assert NotRegistered(called, reg.id);
    RespondItself(called, reg, reply);
    RespondIssued(called, reg, reply);
    var after := Respond(called, reg, reply);
    assert DeliverOne(before, e, reply) == after;
    hide Deliver, DeliverOne, Respond, OwnedIssued;
    DeliverOther(after, b, reply, reg.id);
    var removed := reg.id in s.prefixRemoveRequests;
    SettledBetween(s, called, after, Deliver(after, b, reply), reg.id, Outcome(reg, removed, reply));
    TablesKept(after, Deliver(after, b, reply), reg);
  }

  /** Exactly one event since has settled the registration, and it is this one. */
  ghost predicate SettledNow<I>(s: State<I>, t: State<I>, id: nat, ev: Event) {
    && s.log <= t.log
    && exists k :: |s.log| <= k < |t.log| && t.log[k] == ev
         && forall j :: |s.log| <= j < |t.log| && j != k ==> SettledBy(t.log[j]) != [id]
  }

  lemma SettledBetween<I>(s: State<I>, called: State<I>, after: State<I>, t: State<I>, id: nat, ev: Event)
    requires Untouched(s, called, id) && after.log == called.log + [ev] && Untouched(after, t, id)
    ensures SettledNow(s, t, id, ev)
  {
    var k := |called.log|;
    assert t.log[..|after.log|] == after.log && t.log[k] == after.log[k] == ev;
    forall j | |s.log| <= j < |t.log| && j != k ensures SettledBy(t.log[j]) != [id] {
      if j < k { assert t.log[j] == after.log[j] == called.log[j]; }
    }
  }

  lemma TablesKept<I>(s: State<I>, t: State<I>, reg: Registration)
    requires Untouched(s, t, reg.id)
    ensures Registered(s, reg) ==> Registered(t, reg)
    ensures NotRegistered(s, reg.id) ==> NotRegistered(t, reg.id)
  {
  }

  /** A reply to a pending registration, in any state of any run. With status 200 it is registered, with its filter, and
      onRegisterSuccess is called if it is set; unless its removal was asked for, when nothing is called and nothing of
      it is left. With any other reply onRegisterFailed is called, and nothing of it is in the tables. No other event
      settles the registration. */
  lemma ReplyOutcome<I>(async: bool, steps: seq<Step<I>>, s: State<I>, matches: I -> bool, reply: Reply, e: Expressed<I>)
    requires Reaches(async, steps, s) && e in s.pit && matches(e.interest)
    requires e.callbacks.Response? && 0 < e.callbacks.registration.id
    ensures var t, reg := Apply(s, DataArrives(matches, reply)), e.callbacks.registration;
      if reply != Status(200) then SettledNow(s, t, reg.id, RegisterFailed(reg.id)) && NotRegistered(t, reg.id)
      else if reg.id in s.prefixRemoveRequests then
        SettledNow(s, t, reg.id, RegisterWithdrawn(reg.id)) && NotRegistered(t, reg.id)
      else SettledNow(s, t, reg.id, RegisterSucceeded(reg.id, reg.hasOnSuccess)) && Registered(t, reg)
  {
    var sel := ByData(matches);
    var es, out := Matched(s.pit, sel), s.(pit := Unmatched(s.pit, sel));
    assert Apply(s, DataArrives(matches, reply)) == Deliver(out, es, reply);
    MatchedMember(s.pit, sel, e);
    hide Reaches, Inv, OwnedIssued, Apply, Deliver, Matched, Unmatched, SettledNow, Registered, NotRegistered;
    ReachableIssued(async, steps, s);
    var a, b := Around(es, e);
    DeliverMatched(s, sel, a, e, b, reply);
  }

  lemma Around<T>(s: seq<T>, x: T) returns (a: seq<T>, b: seq<T>)
    requires x in s
    ensures s == a + [x] + b
  {
    var k :| 0 <= k < |s| && s[k] == x;
    a, b := s[..k], s[k + 1..];
  }

  lemma DeliverMatched<I>(s: State<I>, sel: Selector<I>, a: seq<Expressed<I>>, e: Expressed<I>, b: seq<Expressed<I>>,
                          reply: Reply)
    requires Inv(s) && OwnedIssued(s) && Matched(s.pit, sel) == a + [e] + b && e in s.pit
    requires e.callbacks.Response? && 0 < e.callbacks.registration.id
    ensures var t, reg := Deliver(s.(pit := Unmatched(s.pit, sel)), a + [e] + b, reply), e.callbacks.registration;
      if reply != Status(200) then SettledNow(s, t, reg.id, RegisterFailed(reg.id)) && NotRegistered(t, reg.id)
      else if reg.id in s.prefixRemoveRequests then
        SettledNow(s, t, reg.id, RegisterWithdrawn(reg.id)) && NotRegistered(t, reg.id)
      else SettledNow(s, t, reg.id, RegisterSucceeded(reg.id, reg.hasOnSuccess)) && Registered(t, reg)
  {
    var reg, out := e.callbacks.registration, s.(pit := Unmatched(s.pit, sel));
    assert RegistrationOf(e) == [reg.id] && OwnedIssued(out);
    hide Inv, OwnedIssued, Deliver, Matched, Unmatched, Registered;
    PendingNotRegistered(s, e, reg.id);
    OthersDiffer(s, sel, a, e, b, reg.id);
    assert NotRegistered(out, reg.id);
    hide NotRegistered;
    DeliverToRegistration(out, a, e, b, reply);
  }

  /** A reply with any other status than 200, or none, changes no table of filters or registrations. */
  lemma {:induction false} FailureChangesNothing<I>(s: State<I>, es: seq<Expressed<I>>, reply: Reply)
    requires reply != Status(200)
    ensures var t := Deliver(s, es, reply);
      && t.filters == s.filters && t.prefixes == s.prefixes && t.prefixRemoveRequests == s.prefixRemoveRequests
      && t.lastId == s.lastId
    decreases |es|
  {
    if |es| > 0 { FailureChangesNothing(DeliverOne(s, es[0], reply), es[1..], reply); }
  }

  /** A registration without an id is told the status and nothing is recorded of it. */
  lemma UnrecordedReply<I>(s: State<I>, reg: Registration, reply: Reply)
    requires reg.id == 0
    ensures Respond(s, reg, reply) == s.(log := s.log + [
      if reply == Status(200) then RegisterSucceeded(0, reg.hasOnSuccess) else RegisterFailed(0)])
  {
  }

  // Packets, timers and removals.

  /** A Data packet calls onData for exactly the pending interests it matches. */
  lemma DataCalls<I>(s: State<I>, matches: I -> bool, reply: Reply, id: nat)
    ensures var t := Apply(s, DataArrives(matches, reply));
      && s.log <= t.log
      && (GotData(id) in t.log[|s.log|..] <==> exists e :: e in s.pit && matches(e.interest) && e.id == id)
  {
    var sel := ByData(matches);
    DeliverCalls(s.(pit := Unmatched(s.pit, sel)), Matched(s.pit, sel), reply, id);
    forall e ensures e in Matched(s.pit, sel) <==> e in s.pit && matches(e.interest) { MatchedMember(s.pit, sel, e); }
    assert Apply(s, DataArrives(matches, reply))
        == Deliver(s.(pit := Unmatched(s.pit, sel)), Matched(s.pit, sel), reply);
    hide Deliver, Matched, Unmatched, Apply;
    if e :| e in s.pit && matches(e.interest) && e.id == id { assert e in Matched(s.pit, sel); }
  }

  lemma {:induction false} DeliverCalls<I>(s: State<I>, es: seq<Expressed<I>>, reply: Reply, id: nat)
    ensures var t := Deliver(s, es, reply);
      s.log <= t.log && (GotData(id) in t.log[|s.log|..] <==> exists e :: e in es && e.id == id)
    decreases |es|
  {
    if |es| == 0 {
      assert Deliver(s, es, reply) == s && s.log[|s.log|..] == [];
    } else {
      var e, rest, t := es[0], es[1..], DeliverOne(s, es[0], reply);
      var u := Deliver(t, rest, reply);
      assert Deliver(s, es, reply) == u;
      hide Deliver, DeliverOne;
      OneCalled(s, e, reply);
      DeliverCalls(t, rest, reply, id);
      AddedTwice(s.log, t.log, u.log, GotData(id));
      FirstOrRest(es, id);
    }
  }

  lemma AddedTwice(a: seq<Event>, b: seq<Event>, c: seq<Event>, ev: Event)
    requires a <= b && b <= c
    ensures a <= c && (ev in c[|a|..] <==> ev in b[|a|..] || ev in c[|b|..])
  {
    assert c[|a|..] == b[|a|..] + c[|b|..];
  }

  lemma FirstOrRest<I>(es: seq<Expressed<I>>, id: nat)
    requires |es| > 0
    ensures (exists e :: e in es && e.id == id) <==> es[0].id == id || exists e :: e in es[1..] && e.id == id
  {
    assert es == [es[0]] + es[1..];
  }

  lemma OneSettled<I>(s: State<I>, reg: Registration, reply: Reply)
    ensures exists ev: Event :: !ev.GotData? && Respond(s, reg, reply).log == s.log + [ev]
  {
    hide WithoutFilter, RemoveFirst;
    var log := Respond(s, reg, reply).log;
    assert log == s.log + [log[|s.log|]];
  }

  lemma OneCalled<I>(s: State<I>, e: Expressed<I>, reply: Reply)
    ensures var t := DeliverOne(s, e, reply);
      s.log <= t.log && forall id :: GotData(id) in t.log[|s.log|..] <==> id == e.id
  {
    var t, called := DeliverOne(s, e, reply), s.log + [GotData(e.id)];
    hide WithoutFilter, RemoveFirst;
    assert t.log == called || exists ev: Event :: !ev.GotData? && t.log == called + [ev] by {
      if e.callbacks.Response? { OneSettled(s.(log := called), e.callbacks.registration, reply); }
    }
    hide DeliverOne;
    if ev: Event :| !ev.GotData? && t.log == called + [ev] {
      assert t.log[|s.log|..] == [GotData(e.id), ev];
    } else {
      assert t.log[|s.log|..] == [GotData(e.id)];
    }
  }

  /** A Nack calls onNetworkNack for exactly the same interests that have one, and nothing else. */
  lemma NackCalls<I>(s: State<I>, same: I -> bool, ev: Event)
    ensures var t := Apply(s, NackArrives(same));
      && s.log <= t.log
      && (ev in t.log[|s.log|..]
          <==> exists e :: e in s.pit && e.hasOnNack && same(e.interest) && ev == GotNack(e.id))
  {
    var sel := ByNack(same);
    var es := Matched(s.pit, sel);
    NackEventsAre(es, ev);
    forall e ensures e in es <==> e in s.pit && e.hasOnNack && same(e.interest) { MatchedMember(s.pit, sel, e); }
    hide NackEvents, Matched, Unmatched;
    assert (s.log + NackEvents(es))[|s.log|..] == NackEvents(es);
  }

  lemma {:induction false} NackEventsAre<I>(es: seq<Expressed<I>>, ev: Event)
    ensures ev in NackEvents(es) <==> exists e :: e in es && ev == GotNack(e.id)
  {
    if es != [] {
      NackEventsAre(es[1..], ev);
      assert es == [es[0]] + es[1..];
    }
  }

  /** The timer of a pending interest ends it, calling onTimeout if it is set, and for a registration onRegisterFailed.
      The timer of any other does nothing. */
  lemma TimerOutcome<I>(s: State<I>, k: nat)
    requires Inv(s) && k < |s.timers|
    ensures var t, e := Apply(s, TimerFires(k)), s.timers[k];
      && t.timers == s.timers[..k] + s.timers[k + 1..]
      && if e in s.pit then
           && (forall p :: p in t.pit <==> p in s.pit && p != e)
           && t.log == s.log + [TimedOut(e.id, e.hasOnTimeout)]
                       + if e.callbacks.Response? then [RegisterFailed(e.callbacks.registration.id)] else []
         else t.pit == s.pit && t.log == s.log
  {
    var e := s.timers[k];
    assert e in s.expressed;
    InPit(s);
    TimeoutOutcome(s.(timers := s.timers[..k] + s.timers[k + 1..]), e);
    hide Inv, Timeout;
  }

  lemma TimeoutOutcome<I>(s: State<I>, e: Expressed<I>)
    requires forall p :: p in s.pit && p.id == e.id ==> p == e
    ensures var t := Timeout(s, e);
      && t.timers == s.timers
      && if e in s.pit then
           && (forall p :: p in t.pit <==> p in s.pit && p != e)
           && t.log == s.log + [TimedOut(e.id, e.hasOnTimeout)]
                       + if e.callbacks.Response? then [RegisterFailed(e.callbacks.registration.id)] else []
         else t == s
  {
    var sel := ById(e.id);
    forall p ensures p in Unmatched(s.pit, sel) <==> p in s.pit && p.id != e.id { MatchedMember(s.pit, sel, p); }
    forall p ensures p in Matched(s.pit, sel) <==> p in s.pit && p.id == e.id { MatchedMember(s.pit, sel, p); }
    hide Matched, Unmatched;
    var es, t := Matched(s.pit, sel), Timeout(s, e);
    assert e in es <==> e in s.pit;
    if |es| > 0 {
      MatchedMember(s.pit, sel, es[0]);
      assert es[0] == e;
      assert forall p :: p in t.pit <==> p in s.pit && p != e;
      var timedOut := s.log + [TimedOut(e.id, e.hasOnTimeout)];
      assert timedOut + [] == timedOut;
    } else {
      assert t == s;
    }
  }

  /** A removal by id ends the pending interests with the id and calls nothing. */
  lemma RemovalOutcome<I>(s: State<I>, id: nat, ev: Event)
    ensures var t := RemovePending(s, id);
      && s.log <= t.log && (forall p :: p in t.pit <==> p in s.pit && p.id != id)
      && (ev in t.log[|s.log|..] <==> ev == Removed(id) && exists e :: e in s.pit && e.id == id)
      && (id in t.removeRequests <==> id in s.removeRequests || forall e :: e in s.pit ==> e.id != id)
  {
    var sel, t := ById(id), RemovePending(s, id);
    var es := Matched(s.pit, sel);
    RemovedEventsAre(es, ev);
    forall p ensures p in Unmatched(s.pit, sel) <==> p in s.pit && p.id != id { MatchedMember(s.pit, sel, p); }
    forall p ensures p in es <==> p in s.pit && p.id == id { MatchedMember(s.pit, sel, p); }
    hide Matched, Unmatched, RemovedEvents;
    if |es| == 0 {
      assert t.log[|s.log|..] == [];
    } else {
      assert es[0] in es && t.log[|s.log|..] == RemovedEvents(es);
    }
  }

  lemma {:induction false} RemovedEventsAre<I>(es: seq<Expressed<I>>, ev: Event)
    ensures ev in RemovedEvents(es) <==> exists e :: e in es && ev == Removed(e.id)
  {
    if es != [] {
      RemovedEventsAre(es[1..], ev);
      assert es == [es[0]] + es[1..];
    }
  }

  // What is there for a reason.

  /** Only an interest with a timeout callback or a lifetime has a timer. */
  ghost predicate TimersTimed<I>(s: State<I>) { forall e :: e in s.timers ==> e.hasOnTimeout || e.hasLifetime }

  lemma {:induction false} RunQueueTimed<I>(s: State<I>)
    requires TimersTimed(s)
    ensures TimersTimed(RunQueue(s))
    decreases |s.queue| - s.ran
  {
    if s.ran < |s.queue| {
      var (t, threw) := Attempt(s.(ran := s.ran + 1), s.queue[s.ran]);
      assert TimersTimed(t);
      assert RunQueue(s) == if threw then t else RunQueue(t);
      hide RunQueue, Attempt, TimersTimed;
      if !threw { RunQueueTimed(t); }
    }
  }

  lemma ExpressTimed<I>(s: State<I>, e: Expressed<I>)
    requires TimersTimed(s)
    ensures TimersTimed(Express(s, e))
  {
  }

  lemma StepTimersTimed<I>(s: State<I>, step: Step<I>)
    requires TimersTimed(s)
    ensures TimersTimed(Apply(s, step))
  {
    hide Express, RunQueue, Deliver, Timeout;
    match step
    case ExpressInterest(e) => ExpressTimed(s, e);
    case RegisterPrefix(reg, interest, oversize) =>
      ExpressTimed(s.(lastId := s.lastId + 1), CommandInterest(s.lastId + 1, reg, interest, oversize));
    case Connected => RunQueueTimed(s.(connectedFired := true));
    case _ =>
  }

  /** Over any run, only the interests with a timeout callback or a lifetime have timers. */
  lemma {:induction false} OnlyTimed<I>(s: State<I>, steps: seq<Step<I>>)
    requires TimersTimed(s)
    ensures TimersTimed(Run(s, steps))
    decreases |steps|
  {
    if |steps| > 0 {
      StepTimersTimed(s, steps[0]);
      hide TimersTimed, Apply;
      OnlyTimed(Apply(s, steps[0]), steps[1..]);
    }
  }

  /** A transport that is not asynchronous has been asked to connect for each interest expressed, until one was attempted
      without an exception. */
  ghost predicate SyncConnects<I>(s: State<I>) {
    !s.async ==>
      && (s.status == Unconnected ==> s.connects == |s.expressed|)
      && (s.status == ConnectComplete ==> 1 <= s.connects <= |s.expressed|)
      && s.status != ConnectRequested && !s.connectedFired
  }

  lemma ExpressSync<I>(s: State<I>, e: Expressed<I>)
    requires SyncConnects(s)
    ensures SyncConnects(Express(s, e))
  {
    hide Attempt;
  }

  lemma StepSync<I>(s: State<I>, step: Step<I>)
    requires SyncConnects(s) && s.ran <= |s.queue| && Enabled(s, step)
    ensures SyncConnects(Apply(s, step)) && Apply(s, step).async == s.async
  {
    StepAsync(s, step);
    hide Express, RunQueue, Deliver, Timeout, RemovePending, RemoveRegistered, SyncConnects;
    match step
    case ExpressInterest(e) => ExpressSync(s, e);
    case RegisterPrefix(reg, interest, oversize) =>
      SyncFrame(s, s.(lastId := s.lastId + 1));
      ExpressSync(s.(lastId := s.lastId + 1), CommandInterest(s.lastId + 1, reg, interest, oversize));
    case Connected => assert SyncConnects(Apply(s, step)) by { IsAsync(Apply(s, step)); }
    case _ => SyncFrame(s, Apply(s, step));
  }

  lemma IsAsync<I>(s: State<I>)
    requires s.async
    ensures SyncConnects(s)
  {
  }

  lemma SyncFrame<I>(s: State<I>, t: State<I>)
    requires SyncConnects(s) && t.async == s.async && t.status == s.status && t.connects == s.connects
    requires t.expressed == s.expressed && t.connectedFired == s.connectedFired
    ensures SyncConnects(t)
  {
  }

  lemma {:induction false} RunSync<I>(s: State<I>, steps: seq<Step<I>>)
    requires Inv(s) && SyncConnects(s) && Allowed(s, steps)
    ensures SyncConnects(Run(s, steps))
    decreases |steps|
  {
    if |steps| > 0 {
      assert s.ran <= |s.queue|;
      hide Inv, SyncConnects, Enabled;
      StepSync(s, steps[0]);
      StepInv(s, steps[0]);
      RunSync(Apply(s, steps[0]), steps[1..]);
    }
  }

  /** Over any run with a transport that connects at once, it is asked to connect for each interest expressed until one
      is attempted without an exception, and never after that. */
  lemma ConnectsAtOnce<I>(steps: seq<Step<I>>, s: State<I>)
    requires Reaches(false, steps, s)
    ensures s.status == Unconnected ==> s.connects == |s.expressed|
    ensures s.status == ConnectComplete ==> 1 <= s.connects <= |s.expressed|
  {
    InitialInv<I>(false);
    ReachableInv(false, steps, s);
    hide Inv, Run, Allowed;
    RunSync(Initial(false), steps);
  }

  /** Setting a filter adds it, and unsetting one removes every filter with its id and no other. */
  lemma FilterSteps<I>(s: State<I>, id: nat, f: Filter)
    ensures f in Apply(s, SetFilter(id)).filters <==> f in s.filters || f == Filter(id, 0)
    ensures f in Apply(s, UnsetFilter(id)).filters <==> f in s.filters && f.id != id
  {
    WithoutFilterMember(s.filters, id, f);
  }

  /** A filter whose id has been issued stays until it is unset or a registration is removed. */
  lemma FilterStays<I>(s: State<I>, step: Step<I>, f: Filter)
    requires f in s.filters && f.id <= s.lastId && s.ran <= |s.queue| && Enabled(s, step)
    requires step != UnsetFilter(f.id) && !step.RemoveRegisteredPrefix?
    ensures f in Apply(s, step).filters
  {
    hide Express, RunQueue, Deliver, Timeout, RemovePending, Enabled;
    match step
    case DataArrives(matches, reply) =>
      DeliverKeeps(s.(pit := Unmatched(s.pit, ByData(matches))), Matched(s.pit, ByData(matches)), reply, f);
    case SetFilter(id) => FilterSteps(s, id, f);
    case UnsetFilter(id) => FilterSteps(s, id, f);
    case Connected => RunQueueFrame(s.(connectedFired := true));
    case _ => StepKeepsRegistered(s, step);
  }

  lemma {:induction false} DeliverKeeps<I>(s: State<I>, es: seq<Expressed<I>>, reply: Reply, f: Filter)
    requires f in s.filters && f.id <= s.lastId
    ensures f in Deliver(s, es, reply).filters
    decreases |es|
  {
    if |es| > 0 {
      var t := DeliverOne(s, es[0], reply);
      assert f in t.filters by {
        var e := es[0];
        if e.callbacks.Response? {
          FilterUnset(s.filters, Filter(s.lastId + 1, e.callbacks.registration.id), f);
        }
        hide WithoutFilter, RemoveFirst;
      }
      assert Deliver(s, es, reply) == Deliver(t, es[1..], reply);
      hide DeliverOne, Deliver;
      DeliverKeeps(t, es[1..], reply, f);
    }
  }
}

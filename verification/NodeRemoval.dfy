/** What removing an interest or a registration guarantees for the rest of a run, and what a stuck connection does. */
module NodeRemoval {
  import opened NodeSpec
  import opened NodeLedger
  import opened NodeInvariant
  import opened NodeRuns

  // A removed interest.

  /** The interest is not pending, and has ended or will be dropped when it is attempted. */
  ghost predicate Gone<I>(s: State<I>, id: nat) {
    id !in Ids(s.pit) && (id in s.removeRequests || id in Ended(s.log))
  }

  lemma RemoveIsGone<I>(s: State<I>, id: nat)
    ensures Gone(RemovePending(s, id), id)
  {
    var sel := ById(id);
    var t := RemovePending(s, id);
    CountMatches(s.pit, id);
    if |Matched(s.pit, sel)| > 0 {
      RemovedEventsEffect(s.log, Matched(s.pit, sel));
      var first := Matched(s.pit, sel)[0];
      MatchedMember(s.pit, sel, first);
      IdsMembers(Matched(s.pit, sel));
      IdsMembers(t.pit);
      hide Ids, Ended;
      assert first.id == id && id in Ids(Matched(s.pit, sel));
      forall e | e in t.pit ensures e.id != id { MatchedMember(s.pit, sel, e); }
    }
  }

  lemma TakesGone<I>(s: State<I>, t: State<I>, id: nat)
    requires Takes(s, t) && Gone(s, id) && forall x :: x in s.removeRequests ==> x in t.removeRequests
    ensures Gone(t, id) && multiset(Called(t.log))[id] == multiset(Called(s.log))[id]
  {
    assert multiset(Ids(s.pit))[id] == 0;
    assert Callable(t)[id] <= Callable(s)[id] && Handled(t)[id] == Handled(s)[id];
    assert multiset(Ended(s.log))[id] > 0 <==> id in Ended(s.log);
    assert multiset(Ended(t.log))[id] > 0 <==> id in Ended(t.log);
    hide Ids, Called, Ended;
  }

  lemma AttemptGone<I>(s: State<I>, e: Expressed<I>, id: nat)
    requires Gone(s, id) && (e.id == id ==> id in s.removeRequests)
    ensures var t := Attempt(s, e).0;
      && Gone(t, id) && Called(t.log) == Called(s.log)
      && (e.id != id ==> id in s.removeRequests ==> id in t.removeRequests)
  {
    AttemptLog(s, e);
    IdsOne(s.pit, e);
    hide Ids, Called, Ended;
    if e.id != id { RemoveFirstKeeps(s.removeRequests, e.id, id); }
  }

  lemma {:induction false} RunQueueGone<I>(s: State<I>, id: nat)
    requires s.ran <= |s.queue| && Gone(s, id) && AtMostOnce(multiset(Ids(Waiting(s))))
    requires forall e :: e in Waiting(s) && e.id == id ==> id in s.removeRequests
    ensures Gone(RunQueue(s), id) && Called(RunQueue(s).log) == Called(s.log)
    decreases |s.queue| - s.ran
  {
    if s.ran < |s.queue| {
      var e := s.queue[s.ran];
      var (t, threw) := Attempt(s.(ran := s.ran + 1), e);
      assert RunQueue(s) == if threw then t else RunQueue(t);
      NextDistinct(s);
      assert e in Waiting(s);
      AttemptGone(s.(ran := s.ran + 1), e, id);
      hide RunQueue, Attempt, Gone, AtMostOnce, Called, Ids;
      assert forall x :: x in Waiting(t) ==> x in Waiting(s);
      if !threw { RunQueueGone(t, id); }
    }
  }

  lemma EndedOnce<I>(s: State<I>, id: nat)
    requires WellIssued(s) && Balanced(s) && id in Ended(s.log)
    ensures id in Ids(s.expressed) && id !in Ids(Waiting(s)) && id !in Ids(s.pit)
  {
    assert multiset(Ended(s.log))[id] > 0;
    assert multiset(Ids(s.expressed))[id] <= 1;
    assert Accounted(s)[id] == multiset(Ids(Waiting(s)))[id] + multiset(Ids(s.pit))[id] + multiset(Ended(s.log))[id];
    hide Ids, Ended;
  }

  lemma GoneFrame<I>(s: State<I>, t: State<I>, id: nat)
    requires Gone(s, id) && t.pit == s.pit && t.removeRequests == s.removeRequests && t.log == s.log
    ensures Gone(t, id)
  {
  }

  lemma ExpressGone<I>(s: State<I>, e: Expressed<I>, id: nat)
    requires WellIssued(s) && Balanced(s) && Gone(s, id) && e.id !in Ids(s.expressed)
    ensures Gone(Express(s, e), id) && Called(Express(s, e).log) == Called(s.log)
  {
    hide Ids, Ended, Called, WellIssued, Balanced, Attempt;
    if id in Ended(s.log) { EndedOnce(s, id); }
    assert e.id == id ==> id in s.removeRequests;
    hide Gone;
    var noted := s.(expressed := s.expressed + [e]);
    if s.status == ConnectComplete || !s.async {
      var before := if s.status == ConnectComplete then noted else noted.(connects := s.connects + 1);
      GoneFrame(s, before, id);
      AttemptGone(before, e, id);
      GoneFrame(Attempt(before, e).0, Express(s, e), id);
    } else {
      GoneFrame(s, Express(s, e), id);
    }
  }

  lemma ConnectedGone<I>(s: State<I>, id: nat)
    requires WellIssued(s) && Balanced(s) && Gone(s, id)
    ensures var t := RunQueue(s.(connectedFired := true));
      Gone(t, id) && Called(t.log) == Called(s.log)
  {
    var s' := s.(connectedFired := true);
    WaitingDistinct(s);
    assert Waiting(s') == Waiting(s);
    forall e | e in Waiting(s) && e.id == id ensures id in s.removeRequests {
      IdsMembers(Waiting(s));
      if id in Ended(s.log) { EndedOnce(s, id); }
    }
    assert Gone(s', id);
    hide Gone, WellIssued, Balanced, RunQueue, Ids, AtMostOnce, Called;
    RunQueueGone(s', id);
  }

  lemma TimerGone<I>(s: State<I>, k: nat, id: nat)
    requires WellIssued(s) && Balanced(s) && Gone(s, id) && k < |s.timers|
    ensures var t := Apply(s, TimerFires(k));
      Gone(t, id) && multiset(Called(t.log))[id] == multiset(Called(s.log))[id]
  {
    var fired := s.(timers := s.timers[..k] + s.timers[k + 1..]);
    assert s.timers[k] in s.expressed && Gone(fired, id);
    hide Timeout;
    assert Apply(s, TimerFires(k)) == Timeout(fired, s.timers[k]);
    InPit(s);
    hide Apply, Gone, Takes, Called, Ids;
    TimeoutTakes(fired, s.timers[k]);
    TakesGone(fired, Timeout(fired, s.timers[k]), id);
  }

  lemma RemoveKeepsRequests<I>(s: State<I>, x: nat)
    ensures forall y :: y in s.removeRequests ==> y in RemovePending(s, x).removeRequests
  {
    hide Matched, Unmatched, RemovedEvents;
  }

  lemma RemoveGone<I>(s: State<I>, x: nat, id: nat)
    requires Gone(s, id)
    ensures var t := RemovePending(s, x);
      Gone(t, id) && multiset(Called(t.log))[id] == multiset(Called(s.log))[id]
  {
    RemoveKeepsRequests(s, x);
    hide RemovePending, Gone, Takes, Called;
    RemoveTakes(s, x);
    TakesGone(s, RemovePending(s, x), id);
  }

  /** No step brings a removed interest back or calls one of its callbacks. */
  lemma StepGone<I>(s: State<I>, step: Step<I>, id: nat)
    requires Inv(s) && Enabled(s, step) && Gone(s, id)
    ensures var t := Apply(s, step);
      Gone(t, id) && multiset(Called(t.log))[id] == multiset(Called(s.log))[id]
  {
    hide Called, Express, RunQueue, Deliver, Timeout, RemovePending, RemoveRegistered, Takes, Ids, RegistrationIds,
      Connection, Timed, Recorded, Balanced;
    var t := Apply(s, step);
    match step
    case ExpressInterest(e) => ExpressGone(s, e, id);
    case RegisterPrefix(reg, interest, oversize) =>
      var issued := s.(lastId := s.lastId + 1);
      SameBalanced(s, issued);
      ExpressGone(issued, CommandInterest(s.lastId + 1, reg, interest, oversize), id);
    case Connected => ConnectedGone(s, id);
    case DataArrives(matches, reply) =>
      DataTakes(s, matches, reply);
      TakesGone(s, t, id);
    case NackArrives(same) =>
      NackTakes(s, same);
      TakesGone(s, t, id);
    case TimerFires(k) => TimerGone(s, k, id);
    case RemovePendingInterest(x) => RemoveGone(s, x, id);
    case _ =>
  }

  lemma {:induction false} RunGone<I>(s: State<I>, steps: seq<Step<I>>, id: nat)
    requires Inv(s) && Allowed(s, steps) && Gone(s, id)
    ensures var t := Run(s, steps);
      Gone(t, id) && multiset(Called(t.log))[id] == multiset(Called(s.log))[id]
    decreases |steps|
  {
    if |steps| > 0 {
      var t := Apply(s, steps[0]);
      StepInv(s, steps[0]);
      StepGone(s, steps[0], id);
      hide Inv, Enabled, Gone, Called;
      RunGone(t, steps[1..], id);
    }
  }

  lemma RemovedStart<I>(async: bool, before: seq<Step<I>>, s: State<I>, id: nat)
    requires Reaches(async, before, s)
    ensures var t := RemovePending(s, id); Inv(t) && Gone(t, id) && Called(t.log) == Called(s.log)
  {
    hide Inv, Reaches, Gone, RemovePending, Called, Apply, Enabled;
    ReachableInv(async, before, s);
    RemovalStep(s, id);
    RemovedCalls(s, id);
    StepInv(s, RemovePendingInterest(id));
    RemoveIsGone(s, id);
  }

  lemma RemovalStep<I>(s: State<I>, id: nat)
    ensures Apply(s, RemovePendingInterest(id)) == RemovePending(s, id) && Enabled(s, RemovePendingInterest(id))
  {
    hide RemovePending;
  }

  lemma RemovedCalls<I>(s: State<I>, id: nat)
    ensures Called(RemovePending(s, id).log) == Called(s.log)
  {
    RemovedEventsEffect(s.log, Matched(s.pit, ById(id)));
    hide Called, Matched, Unmatched, RemovedEvents;
  }

  lemma GoneNotPending<I>(s: State<I>, id: nat)
    requires Gone(s, id)
    ensures id !in Ids(s.pit)
  {
  }

  /** After removePendingInterest(id), in any state of any run, whether the interest was queued, pending or not even
      expressed, it is never pending again and none of its callbacks is called. */
  lemma RemovedForGood<I>(async: bool, before: seq<Step<I>>, s: State<I>, id: nat, after: seq<Step<I>>)
    requires Reaches(async, before, s) && Allowed(RemovePending(s, id), after)
    ensures var t := Run(RemovePending(s, id), after);
      id !in Ids(t.pit) && multiset(Called(t.log))[id] == multiset(Called(s.log))[id]
  {
    hide Inv, Reaches, Run, Allowed, Gone, RemovePending, Called, Ids;
    var removed := RemovePending(s, id);
    RemovedStart(async, before, s, id);
    RunGone(removed, after, id);
    GoneNotPending(Run(removed, after), id);
  }

  // A removed registration.

  /** The registration has no prefix entry, and has been settled or will be withdrawn when its reply comes. */
  ghost predicate Withdrawn<I>(s: State<I>, id: nat) {
    0 < id && (forall p :: p in s.prefixes ==> p.id != id) && (id in s.prefixRemoveRequests || id in Settled(s.log))
  }

  lemma RespondWithdrawn<I>(s: State<I>, reg: Registration, reply: Reply, id: nat)
    requires Withdrawn(s, id) && (reg.id == id ==> id !in Settled(s.log))
    ensures Withdrawn(Respond(s, reg, reply), id)
  {
    RespondEffect(s, reg, reply);
    RespondPrefixes(s, reg, reply, id);
    hide Settled, Respond;
  }

  /** A reply records no registration whose removal was asked for, and keeps the requests of others. */
  lemma RespondPrefixes<I>(s: State<I>, reg: Registration, reply: Reply, id: nat)
    requires 0 < id
    ensures var t := Respond(s, reg, reply);
      && (forall p :: p in t.prefixes && p.id == id ==>
            p in s.prefixes || (reg.id == id && id !in s.prefixRemoveRequests))
      && (id in s.prefixRemoveRequests ==> id in t.prefixRemoveRequests || reg.id == id)
  {
    if reg.id != id { RemoveFirstKeeps(s.prefixRemoveRequests, reg.id, id); }
    hide WithoutFilter, RemoveFirst;
  }

  lemma DeliverOneWithdrawn<I>(s: State<I>, e: Expressed<I>, reply: Reply, id: nat)
    requires Withdrawn(s, id) && (id in RegistrationOf(e) ==> id !in Settled(s.log))
    ensures Withdrawn(DeliverOne(s, e, reply), id)
  {
    var called := s.(log := s.log + [GotData(e.id)]);
    LogOne(s.log, GotData(e.id));
    hide Settled, Respond;
    assert Settled(called.log) == Settled(s.log);
    assert Withdrawn(called, id);
    hide Withdrawn;
    if e.callbacks.Response? {
      RespondWithdrawn(called, e.callbacks.registration, reply, id);
    }
  }

  lemma {:induction false} DeliverWithdrawn<I>(s: State<I>, es: seq<Expressed<I>>, reply: Reply, id: nat)
    requires Withdrawn(s, id) && multiset(Settled(s.log))[id] + multiset(RegistrationIds(es))[id] <= 1
    ensures Withdrawn(Deliver(s, es, reply), id)
    decreases |es|
  {
    if |es| > 0 {
      var e, rest := es[0], es[1..];
      var t := DeliverOne(s, e, reply);
      assert es == [e] + rest;
      IdsOne(rest, e);
      DeliverOneEffect(s, e, reply);
      assert Deliver(s, es, reply) == Deliver(t, rest, reply);
      hide Deliver, DeliverOne, RegistrationOf, RegistrationIds, Settled, Withdrawn;
      assert multiset(RegistrationOf(e) + RegistrationIds(rest))[id]
          == multiset(RegistrationOf(e))[id] + multiset(RegistrationIds(rest))[id];
      assert multiset(Settled(s.log) + RegistrationOf(e))[id]
          == multiset(Settled(s.log))[id] + multiset(RegistrationOf(e))[id];
      if id in RegistrationOf(e) {
        assert multiset(RegistrationOf(e))[id] > 0;
        assert multiset(Settled(s.log))[id] == 0;
      }
      DeliverOneWithdrawn(s, e, reply, id);
      DeliverWithdrawn(t, rest, reply, id);
    }
  }

  lemma WithdrawnFrame<I>(s: State<I>, t: State<I>, id: nat)
    requires Withdrawn(s, id) && t.prefixes == s.prefixes && t.prefixRemoveRequests == s.prefixRemoveRequests
    requires Within(Settled(s.log), Settled(t.log))
    ensures Withdrawn(t, id)
  {
  }

  /** No registration that an operation takes out of the table has been settled, or is taken out twice. */
  lemma TakenUnsettled<I>(s: State<I>, sel: Selector<I>, id: nat)
    requires WellIssued(s) && Balanced(s)
    ensures multiset(Settled(s.log))[id] + multiset(RegistrationIds(Matched(s.pit, sel)))[id] <= 1
  {
    PartitionIds(s.pit, sel);
    assert AccountedRegistrations(s)[id] <= multiset(RegistrationIds(s.expressed))[id] <= 1;
    assert multiset(RegistrationIds(Matched(s.pit, sel)))[id] <= multiset(RegistrationIds(s.pit))[id];
    hide Ids, Matched, Unmatched, RegistrationIds, Settled, Waiting;
  }

  lemma DataWithdrawn<I>(s: State<I>, matches: I -> bool, reply: Reply, id: nat)
    requires WellIssued(s) && Balanced(s) && Withdrawn(s, id)
    ensures Withdrawn(Apply(s, DataArrives(matches, reply)), id)
  {
    var sel := ByData(matches);
    var out := s.(pit := Unmatched(s.pit, sel));
    hide Deliver, Matched, Unmatched, RegistrationIds, Settled, WellIssued, Balanced;
    assert Apply(s, DataArrives(matches, reply)) == Deliver(out, Matched(s.pit, sel), reply);
    hide Apply;
    assert Withdrawn(out, id);
    hide Withdrawn;
    TakenUnsettled(s, sel, id);
    DeliverWithdrawn(out, Matched(s.pit, sel), reply, id);
  }

  lemma RemoveWithdrawn<I>(s: State<I>, x: nat, id: nat)
    requires Withdrawn(s, id)
    ensures Withdrawn(RemoveRegistered(s, x), id)
  {
    hide Settled, UnsetRelated;
    forall p | p in WithoutPrefix(s.prefixes, x) ensures p in s.prefixes { WithoutPrefixMember(s.prefixes, x, p); }
  }

  lemma StepWithdrawn<I>(s: State<I>, step: Step<I>, id: nat)
    requires Inv(s) && Enabled(s, step) && Withdrawn(s, id)
    ensures Withdrawn(Apply(s, step), id)
  {
    hide Withdrawn, Settled, Within, Express, RunQueue, Deliver, Timeout, RemovePending, RemoveRegistered,
      WellIssued, Balanced, Timed, Recorded;
    var t := Apply(s, step);
    SettledStays(s, step);
    match step
    case DataArrives(matches, reply) => DataWithdrawn(s, matches, reply, id);
    case RemoveRegisteredPrefix(x) => RemoveWithdrawn(s, x, id);
    case SetFilter(_) => WithdrawnFrame(s, t, id);
    case UnsetFilter(_) => WithdrawnFrame(s, t, id);
    case Connected =>
      RunQueueFrame(s.(connectedFired := true));
      WithdrawnFrame(s, t, id);
    case _ =>
      StepKeepsRegistered(s, step);
      WithdrawnFrame(s, t, id);
  }

  lemma {:induction false} RunWithdrawn<I>(s: State<I>, steps: seq<Step<I>>, id: nat)
    requires Inv(s) && Allowed(s, steps) && Withdrawn(s, id)
    ensures Inv(Run(s, steps)) && Withdrawn(Run(s, steps), id)
    decreases |steps|
  {
    if |steps| > 0 {
      var t := Apply(s, steps[0]);
      StepInv(s, steps[0]);
      StepWithdrawn(s, steps[0], id);
      hide Inv, Enabled, Withdrawn;
      RunWithdrawn(t, steps[1..], id);
    }
  }

  lemma RemoveIsWithdrawn<I>(s: State<I>, id: nat)
    requires Recorded(s) && 0 < id
    ensures Withdrawn(RemoveRegistered(s, id), id)
  {
    RemoveRecorded(s, id);
    hide Settled, UnsetRelated;
    if id !in s.prefixRemoveRequests && id !in Settled(s.log) {
      assert forall p :: p in s.prefixes ==> p.id != id;
      WithoutPrefixMember(s.prefixes, id, Prefix(id, 0));
    }
  }

  lemma WithdrawnStart<I>(async: bool, before: seq<Step<I>>, s: State<I>, id: nat)
    requires Reaches(async, before, s) && 0 < id
    ensures var t := RemoveRegistered(s, id); Inv(t) && Withdrawn(t, id)
  {
    ReachableInv(async, before, s);
    assert Recorded(s);
    assert RemoveRegistered(s, id) == Apply(s, RemoveRegisteredPrefix(id));
    hide Inv, Recorded, Reaches, Withdrawn, RemoveRegistered, Apply;
    StepInv(s, RemoveRegisteredPrefix(id));
    RemoveIsWithdrawn(s, id);
  }

  lemma WithdrawnFilter<I>(s: State<I>, id: nat, f: Filter)
    requires Recorded(s) && Withdrawn(s, id) && f in s.filters
    ensures f.owner != id
  {
    hide Settled;
  }

  /** After removeRegisteredPrefix(id), in any state of any run, before the reply or after it, no filter made for that
      registration is in the table, then or later. */
  lemma NoFilterAfterRemoval<I>(async: bool, before: seq<Step<I>>, s: State<I>, id: nat, after: seq<Step<I>>, f: Filter)
    requires Reaches(async, before, s) && 0 < id && Allowed(RemoveRegistered(s, id), after)
    ensures f in Run(RemoveRegistered(s, id), after).filters ==> f.owner != id
  {
    hide Reaches, Run, Allowed, RemoveRegistered, Withdrawn, WellIssued, Balanced, Connection, Timed, TimersAttempted,
      Recorded;
    var removed := RemoveRegistered(s, id);
    WithdrawnStart(async, before, s, id);
    RunWithdrawn(removed, after, id);
    if f in Run(removed, after).filters { WithdrawnFilter(Run(removed, after), id, f); }
  }

  lemma SettledOnce<I>(async: bool, steps: seq<Step<I>>, s: State<I>, id: nat)
    requires Reaches(async, steps, s)
    ensures multiset(Settled(s.log))[id] <= 1
  {
    ReachableInv(async, steps, s);
    assert AccountedRegistrations(s)[id] >= multiset(Settled(s.log))[id];
    assert multiset(RegistrationIds(s.expressed))[id] <= 1;
  }

  /** Over any run, a registration is settled at most once: at most one of onRegisterSuccess and onRegisterFailed is
      called, once. */
  lemma RegistrationSettlesOnce<I>(async: bool, steps: seq<Step<I>>, s: State<I>, i: nat, j: nat)
    requires Reaches(async, steps, s) && i < j < |s.log|
    ensures SettledBy(s.log[i]) == [] || SettledBy(s.log[i]) != SettledBy(s.log[j])
  {
    if SettledBy(s.log[i]) != [] && SettledBy(s.log[i]) == SettledBy(s.log[j]) {
      var id := SettledBy(s.log[i])[0];
      TwiceInLog(s.log, SettledBy, i, j, id);
      SettledOnce(async, steps, s, id);
    }
  }

  /** Over any run, at most one event calls a callback of an interest. */
  lemma CallbackOnce<I>(async: bool, steps: seq<Step<I>>, s: State<I>, i: nat, j: nat)
    requires Reaches(async, steps, s) && i < j < |s.log|
    ensures CalledBy(s.log[i]) == [] || CalledBy(s.log[i]) != CalledBy(s.log[j])
  {
    if CalledBy(s.log[i]) != [] && CalledBy(s.log[i]) == CalledBy(s.log[j]) {
      var id := CalledBy(s.log[i])[0];
      TwiceInLog(s.log, CalledBy, i, j, id);
      Lifecycle(async, steps, s, id);
    }
  }

  lemma {:induction false} TwiceInLog(log: seq<Event>, f: Event -> seq<nat>, i: nat, j: nat, id: nat)
    requires i < j < |log| && id in f(log[i]) && id in f(log[j])
    ensures multiset(Collect(log, f))[id] >= 2
  {
    var a, b, c := log[..i + 1], log[i + 1..j + 1], log[j + 1..];
    assert log == (a + b) + c;
    CollectAppend(a + b, c, f);
    CollectAppend(a, b, f);
    OnceInLog(a, f, id);
    OnceInLog(b, f, id);
    hide Collect;
  }

  lemma OnceInLog(log: seq<Event>, f: Event -> seq<nat>, id: nat)
    requires |log| > 0 && id in f(log[|log| - 1])
    ensures multiset(Collect(log, f))[id] >= 1
  {
    assert id in Collect(log, f);
  }

  // The connection.

  /** Over any run with an asynchronous transport, the connection is asked for at most once, and it is complete exactly
      when it has been reported and no interest stopped the queue. */
  lemma ConnectsOnce<I>(async: bool, steps: seq<Step<I>>, s: State<I>)
    requires Reaches(async, steps, s) && async
    ensures s.connects <= 1 && (s.status == Unconnected <==> s.connects == 0)
    ensures s.status == ConnectComplete <==> s.connectedFired && s.ran == 0
  {
    ReachableInv(async, steps, s);
    hide Reaches, WellIssued, Balanced, Timed, TimersAttempted, Recorded;
  }

  lemma ConnectedStatus<I>(s: State<I>, t: State<I>)
    requires Inv(s) && Enabled(s, Connected) && t == Apply(s, Connected)
    ensures s.ran <= |s.queue| && (t.status == ConnectComplete <==> AllFit(s)) && t.status != Unconnected
  {
    assert s.ran <= |s.queue| && s.status != Unconnected;
    hide Apply, AllFit, WellIssued, Balanced, Connection, Timed, TimersAttempted, Recorded, Enabled;
    ConnectedConnection(s);
    StepConnection(s, Connected);
  }

  lemma ConnectedAttempts<I>(s: State<I>, t: State<I>)
    requires Inv(s) && Enabled(s, Connected) && t == Apply(s, Connected) && t.status == ConnectComplete
    ensures Attempts(t.log) == Ids(t.expressed)
  {
    hide Apply, WellIssued, Balanced, Connection, Timed, TimersAttempted, Recorded, Enabled;
    StepInv(s, Connected);
    AllAttempted(t);
  }

  /** When the connection is reported, it becomes complete exactly when no waiting interest is too large to send. */
  lemma ConnectionOutcome<I>(async: bool, steps: seq<Step<I>>, s: State<I>)
    requires Reaches(async, steps, s) && Enabled(s, Connected)
    ensures s.ran <= |s.queue|
    ensures var t := Apply(s, Connected);
      if AllFit(s) then t.status == ConnectComplete && Attempts(t.log) == Ids(t.expressed)
      else t.status == ConnectRequested
  {
    hide Reaches, Inv, Apply, AllFit, Enabled, Attempts, Ids;
    ReachableInv(async, steps, s);
    var t := Apply(s, Connected);
    ConnectedStatus(s, t);
    if AllFit(s) { ConnectedAttempts(s, t); }
  }

  lemma StepConnected<I>(s: State<I>, step: Step<I>)
    requires Connection(s) && s.status == ConnectComplete && Enabled(s, step)
    ensures var t := Apply(s, step); t.status == ConnectComplete && t.connects == s.connects
  {
    hide Attempt, Deliver, Timeout, RemovePending, RemoveRegistered;
  }

  /** Once the connection is complete, with either kind of transport, it is never asked for again. */
  lemma {:induction false} ConnectedForGood<I>(s: State<I>, steps: seq<Step<I>>)
    requires Inv(s) && s.status == ConnectComplete && Allowed(s, steps)
    ensures Run(s, steps).status == ConnectComplete && Run(s, steps).connects == s.connects
    decreases |steps|
  {
    if |steps| > 0 {
      StepInv(s, steps[0]);
      StepConnected(s, steps[0]);
      hide Inv, Enabled;
      ConnectedForGood(Apply(s, steps[0]), steps[1..]);
    }
  }

  /** The queue stopped at an interest that was too large to send. */
  predicate Stuck<I>(s: State<I>) { s.async && s.status == ConnectRequested && s.connectedFired }

  lemma StepStuck<I>(s: State<I>, step: Step<I>)
    requires Inv(s) && Enabled(s, step) && Stuck(s)
    ensures Stuck(Apply(s, step)) && Attempts(Apply(s, step).log) == Attempts(s.log)
  {
    hide Attempts, RunQueue, Attempt, Deliver, Timeout, RemovePending, RemoveRegistered, Balanced, Connection, Timed,
      Recorded, Takes, AtMostOnce, Ids;
    match step
    case DataArrives(matches, reply) =>
      DeliverEffect(s.(pit := Unmatched(s.pit, ByData(matches))), Matched(s.pit, ByData(matches)), reply);
    case NackArrives(same) => NackEventsEffect(s.log, Matched(s.pit, ByNack(same)));
    case TimerFires(k) => TimeoutAttempts(s.(timers := s.timers[..k] + s.timers[k + 1..]), s.timers[k]);
    case RemovePendingInterest(id) => RemoveAttempts(s, id);
    case _ =>
  }

  lemma RemoveAttempts<I>(s: State<I>, id: nat)
    ensures Attempts(RemovePending(s, id).log) == Attempts(s.log)
  {
    RemovedEventsEffect(s.log, Matched(s.pit, ById(id)));
  }

  /** Once an interest that is too large has stopped the queue, no interest is ever attempted again, however the run
      goes on: neither those behind it nor any expressed later. */
  lemma {:induction false} StuckForGood<I>(s: State<I>, steps: seq<Step<I>>)
    requires Inv(s) && Allowed(s, steps) && Stuck(s)
    ensures Stuck(Run(s, steps)) && Attempts(Run(s, steps).log) == Attempts(s.log)
    decreases |steps|
  {
    if |steps| > 0 {
      StepInv(s, steps[0]);
      StepStuck(s, steps[0]);
      hide Inv, Enabled, Stuck, Attempts;
      StuckForGood(Apply(s, steps[0]), steps[1..]);
    }
  }

  /** An interest without callbacks, too large to send or not. */
  function Plain<I>(id: nat, interest: I, oversize: bool): Expressed<I> {
    Expressed(id, interest, Application, false, false, false, oversize, false)
  }

  function OversizeRun<I>(interest: I): seq<Step<I>> {
    [NewId, ExpressInterest(Plain(1, interest, true)), Connected]
  }

  /** The state that this run leaves: the interest is in the table, not sent, and still in the queue. */
  function OversizeState<I>(interest: I): State<I> {
    var e := Plain(1, interest, true);
    State(true, ConnectRequested, [e], 1, 1, true, [e], [], [], [], [], [], 1, [e], [Attempted(1)])
  }

  lemma ThreeSteps<I>(s: State<I>, a: Step<I>, b: Step<I>, c: Step<I>)
    requires Enabled(s, a) && Enabled(Apply(s, a), b) && Enabled(Apply(Apply(s, a), b), c)
    ensures Allowed(s, [a, b, c]) && Run(s, [a, b, c]) == Apply(Apply(Apply(s, a), b), c)
  {
    hide Enabled, Apply;
    var t, u := Apply(s, a), Apply(Apply(s, a), b);
    assert [a, b, c][1..] == [b, c] && [b, c][1..] == [c] && [c][1..] == [];
    assert Run(u, [c]) == Run(Apply(u, c), []) && Allowed(Apply(u, c), []);
    assert Run(t, [b, c]) == Run(u, [c]) && Allowed(u, [c]);
  }

  lemma OversizeRunEnds<I>(interest: I)
    ensures Reaches(true, OversizeRun(interest), OversizeState(interest))
  {
    var e, s0 := Plain(1, interest, true), Initial<I>(true);
    var s1 := s0.(lastId := 1);
    var s2 := s1.(expressed := [e], status := ConnectRequested, queue := [e], connects := 1);
    assert Ids(s1.expressed) == [];
    hide Ids;
    assert Apply(s0, NewId) == s1 && Enabled(s0, NewId);
    assert Apply(s1, ExpressInterest(e)) == s2 && Enabled(s1, ExpressInterest(e));
    assert Apply(s2, Connected) == OversizeState(interest) && Enabled(s2, Connected);
    hide Apply, Enabled;
    ThreeSteps(s0, NewId, ExpressInterest(e), Connected);
  }

  lemma OversizeLog<I>(interest: I)
    ensures var s := OversizeState(interest); Ids(s.expressed) == [1] && Attempts(s.log) == [1] && Stuck(s)
  {
    IdsOne([], Plain(1, interest, true));
    LogOne([], Attempted(1));
    assert [] + [Plain(1, interest, true)] == OversizeState(interest).expressed && Ids<I>([]) == [];
    assert [] + [Attempted(1)] == OversizeState(interest).log && Attempts([]) == [];
  }

  /** Express an interest that is too large before the connection is there: the queue is stuck, and however the run goes
      on, no other interest is attempted. */
  lemma OversizeSticks<I>(interest: I, after: seq<Step<I>>)
    requires Allowed(OversizeState(interest), after)
    ensures var s := OversizeState(interest);
      Reaches(true, OversizeRun(interest), s) && Stuck(s) && Attempts(Run(s, after).log) == [1]
  {
    var s := OversizeState(interest);
    OversizeRunEnds(interest);
    OversizeLog(interest);
    hide Run, Allowed, Inv, Attempts, Reaches, OversizeState, OversizeRun;
    ReachableInv(true, OversizeRun(interest), s);
    StuckForGood(s, after);
  }

  /** And it can go on: any later interest can be expressed. */
  lemma LaterIsExpressed<I>(interest: I, later: Expressed<I>)
    requires later.id == 2 && later.callbacks.Application?
    ensures var s := OversizeState(interest); var steps := [NewId, ExpressInterest(later)];
      Allowed(s, steps) && later in Run(s, steps).expressed
  {
    var s := OversizeState(interest);
    OversizeLog(interest);
    hide Ids, Attempts, Stuck;
    var t := s.(lastId := 2);
    assert Apply(s, NewId) == t && Enabled(t, ExpressInterest(later));
    assert later in Express(t, later).expressed;
    hide Express, OversizeState;
    var steps := [NewId, ExpressInterest(later)];
    assert steps[1..] == [ExpressInterest(later)] && steps[1..][1..] == [];
    var u := Apply(t, ExpressInterest(later));
    assert Run(u, []) == u && Run(t, steps[1..]) == u && Run(s, steps) == u;
    assert Allowed(u, []) && Allowed(t, steps[1..]);
  }

  // What a packet does.

  /** A Data packet ends every pending interest it matches, calling its onData, and leaves the others pending. */
  lemma DataReachesAll<I>(s: State<I>, matches: I -> bool, reply: Reply, e: Expressed<I>)
    requires e in s.pit
    ensures var t := Apply(s, DataArrives(matches, reply));
      if matches(e.interest) then e !in t.pit && e.id in Called(t.log) else e in t.pit
  {
    var sel := ByData(matches);
    MatchedMember(s.pit, sel, e);
    DeliverEffect(s.(pit := Unmatched(s.pit, sel)), Matched(s.pit, sel), reply);
    IdsMembers(Matched(s.pit, sel));
    hide Deliver, Matched, Unmatched, Called, Ids;
  }

  /** A Nack ends only the interests with a nack callback; the others stay pending, with their timer. */
  lemma NackReachesAll<I>(s: State<I>, same: I -> bool, e: Expressed<I>)
    requires e in s.pit && Timed(s)
    ensures var t := Apply(s, NackArrives(same));
      if e.hasOnNack && same(e.interest) then e !in t.pit && e.id in Called(t.log)
      else e in t.pit && (e.hasOnTimeout || e.hasLifetime ==> e in t.timers)
  {
    var sel := ByNack(same);
    MatchedMember(s.pit, sel, e);
    NackEventsEffect(s.log, Matched(s.pit, sel));
    IdsMembers(Matched(s.pit, sel));
    hide NackEvents, Matched, Unmatched, Called, Ids;
  }
}

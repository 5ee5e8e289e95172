/** What is sent: over any run, exactly what may be, once each and in order. */
module NodeSending {
  import opened NodeSpec
  import opened NodeLedger
  import opened NodeInvariant
  import opened NodeRuns

  predicate Sendable<I>(e: Expressed<I>) { !e.local && !e.oversize }

  function SentBy(ev: Event): seq<nat> { if ev.Sent? then [ev.id] else [] }

  function DroppedBy(ev: Event): seq<nat> { if ev.Dropped? then [ev.id] else [] }

  /** The interests sent, in order. */
  function Sends(log: seq<Event>): seq<nat> { Collect(log, SentBy) }

  function Drops(log: seq<Event>): seq<nat> { Collect(log, DroppedBy) }

  /** The ids of the interests that may be sent and are not dropped, in order. */
  function ToSend<I>(es: seq<Expressed<I>>, drops: seq<nat>): seq<nat> {
    if |es| == 0 then []
    else
      var last := es[|es| - 1];
      ToSend(es[..|es| - 1], drops) + if Sendable(last) && last.id !in drops then [last.id] else []
  }

  /** The interests expressed that have been attempted, as many as the log has attempts. */
  function AttemptedOf<I>(s: State<I>): seq<Expressed<I>> {
    var n := |Attempts(s.log)|;
    if n <= |s.expressed| then s.expressed[..n] else s.expressed
  }

  /** What has been sent is what may be sent of the interests attempted and not dropped. */
  ghost predicate SentRight<I>(s: State<I>) {
    && |Attempts(s.log)| <= |s.expressed|
    && Sends(s.log) == ToSend(AttemptedOf(s), Drops(s.log))
    && forall x :: x in Drops(s.log) ==> x in Ids(AttemptedOf(s))
  }

  // Events that are no attempt.

  predicate IsQuiet(ev: Event) { !ev.Sent? && !ev.Dropped? && !ev.Attempted? }

  ghost predicate AllQuiet(more: seq<Event>) { forall ev :: ev in more ==> IsQuiet(ev) }

  lemma {:induction false} CollectQuiet(more: seq<Event>, f: Event -> seq<nat>)
    requires AllQuiet(more) && forall ev :: IsQuiet(ev) ==> f(ev) == []
    ensures Collect(more, f) == []
  {
    if more != [] {
      assert more[|more| - 1] in more;
      CollectQuiet(more[..|more| - 1], f);
    }
  }

  /** Only quiet events have been added to the log: nothing that is counted here has changed. */
  ghost predicate Quiet(log: seq<Event>, longer: seq<Event>) {
    Sends(longer) == Sends(log) && Drops(longer) == Drops(log) && Attempts(longer) == Attempts(log)
  }

  lemma QuietLog(log: seq<Event>, more: seq<Event>)
    requires AllQuiet(more)
    ensures Quiet(log, log) && Quiet(log, log + more)
  {
    CollectQuiet(more, SentBy);
    CollectQuiet(more, DroppedBy);
    CollectQuiet(more, AttemptedBy);
    CollectAppend(log, more, SentBy);
    CollectAppend(log, more, DroppedBy);
    CollectAppend(log, more, AttemptedBy);
  }

  lemma RespondQuiet<I>(s: State<I>, reg: Registration, reply: Reply)
    ensures Quiet(s.log, Respond(s, reg, reply).log)
  {
    QuietLog(s.log, [RegisterFailed(reg.id)]);
    QuietLog(s.log, [RegisterSucceeded(reg.id, reg.hasOnSuccess)]);
    QuietLog(s.log, [RegisterWithdrawn(reg.id)]);
    hide Quiet, WithoutFilter, RemoveFirst;
  }

  lemma DeliverOneQuiet<I>(s: State<I>, e: Expressed<I>, reply: Reply)
    ensures Quiet(s.log, DeliverOne(s, e, reply).log)
  {
    QuietLog(s.log, [GotData(e.id)]);
    hide Sends, Drops, Attempts, Respond;
    if e.callbacks.Response? {
      RespondQuiet(s.(log := s.log + [GotData(e.id)]), e.callbacks.registration, reply);
    }
  }

  lemma {:induction false} DeliverQuiet<I>(s: State<I>, es: seq<Expressed<I>>, reply: Reply)
    ensures Quiet(s.log, Deliver(s, es, reply).log)
    decreases |es|
  {
    if |es| > 0 {
      var one := DeliverOne(s, es[0], reply);
      assert Deliver(s, es, reply) == Deliver(one, es[1..], reply);
      hide Deliver, DeliverOne, Sends, Drops, Attempts;
      DeliverOneQuiet(s, es[0], reply);
      DeliverQuiet(one, es[1..], reply);
    }
  }

  lemma {:induction false} EventsAreQuiet<I>(es: seq<Expressed<I>>)
    ensures AllQuiet(NackEvents(es)) && AllQuiet(RemovedEvents(es))
    decreases |es|
  {
    if |es| > 0 { EventsAreQuiet(es[1..]); }
  }

  lemma TimeoutQuiet<I>(s: State<I>, e: Expressed<I>)
    ensures Quiet(s.log, Timeout(s, e).log)
  {
    var timedOut := TimedOut(e.id, e.hasOnTimeout);
    QuietLog(s.log, [timedOut]);
    if e.callbacks.Response? { QuietLog(s.log + [timedOut], [RegisterFailed(e.callbacks.registration.id)]); }
    hide Sends, Drops, Attempts, Matched, Unmatched;
  }

  lemma RemoveQuiet<I>(s: State<I>, id: nat)
    ensures Quiet(s.log, RemovePending(s, id).log)
  {
    EventsAreQuiet(Matched(s.pit, ById(id)));
    QuietLog(s.log, RemovedEvents(Matched(s.pit, ById(id))));
    hide Sends, Drops, Attempts, Matched, Unmatched;
  }

  lemma QuietSent<I>(s: State<I>, t: State<I>)
    requires SentRight(s) && Quiet(s.log, t.log) && t.expressed == s.expressed
    ensures SentRight(t)
  {
    hide Sends, Drops, Attempts, ToSend, Ids;
  }

  // Attempts.

  lemma LogSends(log: seq<Event>, ev: Event)
    ensures Sends(log + [ev]) == Sends(log) + SentBy(ev) && Drops(log + [ev]) == Drops(log) + DroppedBy(ev)
    ensures Attempts(log + [ev]) == Attempts(log) + AttemptedBy(ev)
  {
    CollectOne(log, ev, SentBy);
    CollectOne(log, ev, DroppedBy);
    CollectOne(log, ev, AttemptedBy);
  }

  /** An attempt of an interest sends it, drops it, or does neither. */
  lemma AttemptSends<I>(s: State<I>, e: Expressed<I>)
    ensures var t := Attempt(s, e).0; var dropped := e.id in s.removeRequests;
      && Attempts(t.log) == Attempts(s.log) + [e.id]
      && Drops(t.log) == Drops(s.log) + (if dropped then [e.id] else [])
      && Sends(t.log) == Sends(s.log) + (if !dropped && Sendable(e) then [e.id] else [])
  {
    hide Sends, Drops, Attempts;
    var t, attempted := Attempt(s, e).0, s.log + [Attempted(e.id)];
    LogSends(s.log, Attempted(e.id));
    if e.id in s.removeRequests {
      LogSends(attempted, Dropped(e.id));
      assert t.log == attempted + [Dropped(e.id)];
    } else {
      LogSends(attempted, Sent(e.id));
      assert t.log == if Sendable(e) then attempted + [Sent(e.id)] else attempted;
    }
  }

  /** Dropping another interest changes nothing for these. */
  lemma {:induction false} ToSendOthers<I>(es: seq<Expressed<I>>, drops: seq<nat>, x: nat)
    requires x !in Ids(es)
    ensures ToSend(es, drops + [x]) == ToSend(es, drops)
  {
    if |es| > 0 {
      var rest, last := es[..|es| - 1], es[|es| - 1];
      IdsOne(rest, last);
      assert es == rest + [last];
      hide Ids;
      ToSendOthers(rest, drops, x);
    }
  }

  lemma ToSendOne<I>(es: seq<Expressed<I>>, e: Expressed<I>, drops: seq<nat>)
    ensures ToSend(es + [e], drops) == ToSend(es, drops) + if Sendable(e) && e.id !in drops then [e.id] else []
  {
    assert (es + [e])[..|es|] == es;
  }

  lemma AttemptSent<I>(s: State<I>, e: Expressed<I>)
    requires var n := |Attempts(s.log)|; n < |s.expressed| && s.expressed[n] == e
    requires SentRight(s) && e.id !in Ids(AttemptedOf(s))
    ensures SentRight(Attempt(s, e).0)
  {
    var n, t, es := |Attempts(s.log)|, Attempt(s, e).0, AttemptedOf(s);
    AttemptSends(s, e);
    assert AttemptedOf(t) == es + [e];
    hide Attempt, Sends, Drops, Attempts, AttemptedOf, ToSend, Ids, Sendable;
    ToSendOne(es, e, Drops(t.log));
    ToSendOthers(es, Drops(s.log), e.id);
    IdsOne(es, e);
    assert Drops(s.log) + [] == Drops(s.log);
  }

  // The order of expression.

  lemma {:induction false} IdsAt<I>(es: seq<Expressed<I>>, i: nat)
    requires i < |es|
    ensures |Ids(es)| == |es| && Ids(es)[i] == es[i].id && Ids(es[..i]) == Ids(es)[..i]
  {
    var rest, last := es[..|es| - 1], es[|es| - 1];
    IdsMembers(es);
    IdsOne(rest, last);
    assert es == rest + [last];
    IdsMembers(rest);
    if i < |rest| {
      IdsAt(rest, i);
      assert rest[..i] == es[..i];
    }
  }

  /** In the order of expression, the next interest in the queue is the first that has not been attempted. */
  lemma NextIsNext<I>(s: State<I>)
    requires s.ran < |s.queue| && Order(s) == Ids(s.expressed) && AtMostOnce(multiset(Ids(s.expressed)))
    requires forall e :: e in s.queue ==> e in s.expressed
    ensures var n := |Attempts(s.log)|; n < |s.expressed| && s.expressed[n] == s.queue[s.ran]
    ensures s.queue[s.ran].id !in Ids(AttemptedOf(s))
  {
    var n, e := |Attempts(s.log)|, s.queue[s.ran];
    IdsAt(Waiting(s), 0);
    assert Waiting(s)[0] == e;
    IdsMembers(s.expressed);
    IdsAt(s.expressed, n);
    SameEntry(s.expressed, s.expressed[n], e);
    FirstNotBefore(Ids(s.expressed), n);
  }

  lemma FirstNotBefore(s: seq<nat>, n: nat)
    requires n < |s| && AtMostOnce(multiset(s))
    ensures s[n] !in s[..n]
  {
    var x := s[n];
    assert s == s[..n] + s[n..] && x in s[n..];
    assert multiset(s)[x] == multiset(s[..n])[x] + multiset(s[n..])[x];
  }

  lemma {:induction false} RunQueueSent<I>(s: State<I>)
    requires s.ran <= |s.queue| && Order(s) == Ids(s.expressed) && AtMostOnce(multiset(Ids(s.expressed)))
    requires SentRight(s) && forall e :: e in s.queue ==> e in s.expressed
    ensures SentRight(RunQueue(s))
    decreases |s.queue| - s.ran
  {
    if s.ran < |s.queue| {
      var next, e := s.(ran := s.ran + 1), s.queue[s.ran];
      var (t, threw) := Attempt(next, e);
      assert RunQueue(s) == if threw then t else RunQueue(t);
      NextIsNext(s);
      FirstAttempt(s);
      assert AttemptedOf(next) == AttemptedOf(s) && SentRight(next);
      hide RunQueue, Attempt, Order, SentRight, AtMostOnce, Ids, Attempts, AttemptedOf, Accounted,
        AccountedRegistrations;
      AttemptSent(next, e);
      if !threw { RunQueueSent(t); }
    } else {
      QuietLog(s.log, []);
      QuietSent(s, RunQueue(s));
    }
  }

  lemma NotedSent<I>(s: State<I>, e: Expressed<I>)
    requires SentRight(s)
    ensures var noted := s.(expressed := s.expressed + [e]); SentRight(noted) && AttemptedOf(noted) == AttemptedOf(s)
  {
    hide Sends, Drops, Attempts, ToSend, Ids;
    assert AttemptedOf(s.(expressed := s.expressed + [e])) == AttemptedOf(s);
  }

  lemma AttemptedIsAll<I>(s: State<I>)
    requires s.queue == [] && s.ran == 0 && Order(s) == Ids(s.expressed)
    ensures |Attempts(s.log)| == |s.expressed| && AttemptedOf(s) == s.expressed
  {
    EmptyQueue(s);
    IdsMembers(s.expressed);
  }

  lemma ExpressNowSent<I>(s: State<I>, e: Expressed<I>)
    requires s.queue == [] && s.ran == 0 && (s.status == ConnectComplete || !s.async)
    requires Order(s) == Ids(s.expressed) && SentRight(s) && e.id !in Ids(s.expressed)
    ensures SentRight(Express(s, e))
  {
    var noted := s.(expressed := s.expressed + [e]);
    var before := if s.status == ConnectComplete then noted else noted.(connects := s.connects + 1);
    var after := Attempt(before, e).0;
    assert Express(s, e).log == after.log && Express(s, e).expressed == noted.expressed;
    hide Express, Attempt;
    AttemptedIsAll(s);
    NotedSent(s, e);
    QuietLog(noted.log, []);
    QuietLog(after.log, []);
    hide SentRight, Quiet, Attempts, Ids;
    QuietSent(noted, before);
    assert AttemptedOf(before) == AttemptedOf(noted);
    hide AttemptedOf;
    AttemptSent(before, e);
    QuietSent(after, Express(s, e));
  }

  lemma ExpressSent<I>(s: State<I>, e: Expressed<I>)
    requires Balanced(s) && Connection(s) && SentRight(s) && e.id !in Ids(s.expressed)
    ensures SentRight(Express(s, e))
  {
    if s.status == ConnectComplete || !s.async {
      ExpressNowSent(s, e);
    } else {
      NotedSent(s, e);
      QuietLog(s.log, []);
      hide SentRight, Quiet, Attempts, AttemptedOf, Ids;
      QuietSent(s.(expressed := s.expressed + [e]), Express(s, e));
    }
  }

  lemma StepSent<I>(s: State<I>, step: Step<I>)
    requires Inv(s) && SentRight(s) && Enabled(s, step)
    ensures SentRight(Apply(s, step))
  {
    hide SentRight, Quiet, Express, RunQueue, Deliver, Timeout, RemovePending, RemoveRegistered, Matched, Unmatched,
      NackEvents, Balanced, Connection, WellIssued, Timed, TimersAttempted, Recorded, Ids, RegistrationIds;
    var t := Apply(s, step);
    QuietLog(s.log, []);
    match step
    case ExpressInterest(e) => ExpressSent(s, e);
    case RegisterPrefix(reg, interest, oversize) =>
      var issued := s.(lastId := s.lastId + 1);
      QuietSent(s, issued);
      SameBalanced(s, issued);
      ConnectionFrame(s, issued);
      IssuedIsFresh(s);
      ExpressSent(issued, CommandInterest(s.lastId + 1, reg, interest, oversize));
    case Connected =>
      QuietSent(s, s.(connectedFired := true));
      ConnectedSent(s);
    case DataArrives(matches, reply) =>
      DeliverQuiet(s.(pit := Unmatched(s.pit, ByData(matches))), Matched(s.pit, ByData(matches)), reply);
      QuietSent(s, t);
    case NackArrives(same) =>
      EventsAreQuiet(Matched(s.pit, ByNack(same)));
      QuietLog(s.log, NackEvents(Matched(s.pit, ByNack(same))));
      QuietSent(s, t);
    case TimerFires(k) =>
      TimeoutQuiet(s.(timers := s.timers[..k] + s.timers[k + 1..]), s.timers[k]);
      QuietSent(s, t);
    case RemovePendingInterest(id) =>
      RemoveQuiet(s, id);
      QuietSent(s, t);
    case _ => QuietSent(s, t);
  }

  lemma IssuedIsFresh<I>(s: State<I>)
    requires WellIssued(s)
    ensures s.lastId + 1 !in Ids(s.expressed)
  {
  }

  lemma ConnectedSent<I>(s: State<I>)
    requires WellIssued(s) && Balanced(s) && SentRight(s)
    ensures SentRight(RunQueue(s.(connectedFired := true)))
  {
    var fired := s.(connectedFired := true);
    assert Order(fired) == Order(s);
    QuietLog(s.log, []);
    QuietSent(s, fired);
    hide RunQueue, SentRight, Order, Ids, Accounted, AccountedRegistrations, AtMostOnce;
    RunQueueSent(fired);
  }

  lemma {:induction false} RunSent<I>(s: State<I>, steps: seq<Step<I>>)
    requires Inv(s) && SentRight(s) && Allowed(s, steps)
    ensures SentRight(Run(s, steps))
    decreases |steps|
  {
    if |steps| > 0 {
      StepInv(s, steps[0]);
      StepSent(s, steps[0]);
      hide Inv, Enabled, SentRight;
      RunSent(Apply(s, steps[0]), steps[1..]);
    }
  }

  /** Over any run, the interests sent are, in the order of expression and once each, those attempted that were not
      dropped, are not under the local prefix and are not too large. */
  lemma SentExactly<I>(async: bool, steps: seq<Step<I>>, s: State<I>)
    requires Reaches(async, steps, s)
    ensures |Attempts(s.log)| <= |s.expressed|
    ensures Sends(s.log) == ToSend(s.expressed[..|Attempts(s.log)|], Drops(s.log))
  {
    InitialInv<I>(async);
    assert Sends([]) == [] && Drops([]) == [] && Attempts([]) == [];
    assert SentRight(Initial<I>(async));
    hide Inv, Run, Allowed;
    RunSent(Initial(async), steps);
  }

  lemma {:induction false} ToSendWithin<I>(es: seq<Expressed<I>>, drops: seq<nat>)
    ensures multiset(ToSend(es, drops)) <= multiset(Ids(es))
  {
    if |es| > 0 {
      var rest, last := es[..|es| - 1], es[|es| - 1];
      assert es == rest + [last];
      hide ToSend, Ids, Sendable;
      ToSendWithin(rest, drops);
      IdsOne(rest, last);
      ToSendOne(rest, last, drops);
      OneMore(ToSend(rest, drops), Ids(rest), last.id);
    }
  }

  lemma OneMore(a: seq<nat>, b: seq<nat>, x: nat)
    requires multiset(a) <= multiset(b)
    ensures multiset(a + [x]) <= multiset(b + [x]) && multiset(a + []) <= multiset(b + [x])
  {
    assert multiset(a + [x]) == multiset(a) + multiset{x} && multiset(b + [x]) == multiset(b) + multiset{x};
    assert a + [] == a;
  }

  lemma {:induction false} ToSendMember<I>(es: seq<Expressed<I>>, drops: seq<nat>, e: Expressed<I>)
    requires e in es && Sendable(e) && e.id !in drops
    ensures e.id in ToSend(es, drops)
  {
    var rest, last := es[..|es| - 1], es[|es| - 1];
    assert es == rest + [last];
    if e != last { ToSendMember(rest, drops, e); }
  }

  lemma {:induction false} DropsAreEnded(log: seq<Event>)
    ensures multiset(Drops(log)) <= multiset(Ended(log))
  {
    if log != [] {
      var rest, last := log[..|log| - 1], log[|log| - 1];
      DropsAreEnded(rest);
      LogSends(rest, last);
      LogOne(rest, last);
      assert log == rest + [last];
      assert multiset(DroppedBy(last)) <= multiset(EndedBy(last));
      hide Drops, Ended, DroppedBy, EndedBy;
      assert multiset(Drops(rest) + DroppedBy(last)) == multiset(Drops(rest)) + multiset(DroppedBy(last));
      assert multiset(Ended(rest) + EndedBy(last)) == multiset(Ended(rest)) + multiset(EndedBy(last));
    }
  }

  /** Over any run, no interest is sent twice, and none while it waits for the connection. */
  lemma SentOnce<I>(async: bool, steps: seq<Step<I>>, s: State<I>, id: nat)
    requires Reaches(async, steps, s)
    ensures s.ran <= |s.queue|
    ensures multiset(Sends(s.log))[id] + multiset(Ids(Waiting(s)))[id] <= 1
  {
    ReachableInv(async, steps, s);
    SentExactly(async, steps, s);
    var n := |Attempts(s.log)|;
    ToSendWithin(s.expressed[..n], Drops(s.log));
    AttemptedIds(s);
    assert multiset(Ids(s.expressed)) == multiset(Attempts(s.log)) + multiset(Ids(Waiting(s)));
    assert multiset(Ids(s.expressed))[id] <= 1;
  }

  lemma AttemptedIds<I>(s: State<I>)
    requires Balanced(s)
    ensures var n := |Attempts(s.log)|; n <= |s.expressed| && Ids(s.expressed[..n]) == Attempts(s.log)
  {
    var n := |Attempts(s.log)|;
    IdsMembers(s.expressed);
    if n < |s.expressed| {
      IdsAt(s.expressed, n);
      assert Order(s)[..n] == Attempts(s.log);
    } else {
      assert s.expressed[..n] == s.expressed && Ids(Waiting(s)) == [];
    }
  }

  /** Over any run, a pending interest that may be sent has been. */
  lemma PendingWasSent<I>(async: bool, steps: seq<Step<I>>, s: State<I>, e: Expressed<I>)
    requires Reaches(async, steps, s) && e in s.pit && Sendable(e)
    ensures e.id in Sends(s.log)
  {
    ReachableInv(async, steps, s);
    SentExactly(async, steps, s);
    AttemptedIds(s);
    DropsAreEnded(s.log);
    var n := |Attempts(s.log)|;
    IdsMembers(s.pit);
    assert multiset(Ids(s.pit))[e.id] > 0 && multiset(Ids(s.expressed))[e.id] <= 1;
    assert Accounted(s)[e.id]
        == multiset(Ids(Waiting(s)))[e.id] + multiset(Ids(s.pit))[e.id] + multiset(Ended(s.log))[e.id];
    assert multiset(Drops(s.log))[e.id] == 0 && multiset(Ids(Waiting(s)))[e.id] == 0;
    assert e.id in Attempts(s.log) + Ids(Waiting(s)) by { IdsMembers(s.expressed); }
    AttemptedEntry(s, e, n);
    ToSendMember(s.expressed[..n], Drops(s.log), e);
  }

  lemma AttemptedEntry<I>(s: State<I>, e: Expressed<I>, n: nat)
    requires n <= |s.expressed| && e in s.expressed && e.id in Ids(s.expressed[..n])
    requires AtMostOnce(multiset(Ids(s.expressed)))
    ensures e in s.expressed[..n]
  {
    IdsMembers(s.expressed[..n]);
    var x :| x in s.expressed[..n] && x.id == e.id;
    SameEntry(s.expressed, x, e);
  }
}

/** What every step of the Node protocol keeps. */
module NodeInvariant {
  import opened NodeSpec
  import opened NodeLedger

  // The invariant.

  /** What is expressed: its ids and registrations are issued and distinct. */
  ghost predicate WellIssued<I>(s: State<I>) {
    && AtMostOnce(multiset(Ids(s.expressed))) && AtMostOnce(multiset(RegistrationIds(s.expressed)))
    && (forall x :: x in Ids(s.expressed) ==> 0 < x <= s.lastId)
    && (forall e :: e in s.queue ==> e in s.expressed)
    && (forall e :: e in s.pit ==> e in s.expressed)
    && (forall e :: e in s.timers ==> e in s.expressed)
  }

  /** Every interest is waiting, pending or ended, and the attempts follow the order of expression. */
  ghost predicate Balanced<I>(s: State<I>) {
    && s.ran <= |s.queue|
    && Accounted(s) == multiset(Ids(s.expressed))
    && AccountedRegistrations(s) <= multiset(RegistrationIds(s.expressed))
    && Order(s) == Ids(s.expressed)
  }

  /** The connection: asked for once, reported once, and complete unless an interest was too large to send. */
  ghost predicate Connection<I>(s: State<I>) {
    && s.ran <= |s.queue|
    && (s.status == ConnectRequested ==> s.async && 0 < |s.queue|)
    && (s.status != ConnectRequested ==> s.queue == [])
    && (s.async ==> s.connects == (if s.status == Unconnected then 0 else 1))
    && (s.connectedFired ==> s.async && s.status != Unconnected)
    && (s.status == ConnectComplete && s.async ==> s.connectedFired)
    && (s.status == ConnectRequested ==> (s.connectedFired <==> 0 < s.ran))
    && (0 < s.ran ==> s.queue[s.ran - 1].oversize)
  }

  /** A pending interest with a timeout callback or a lifetime has a timer. */
  ghost predicate Timed<I>(s: State<I>) {
    forall e :: e in s.pit && (e.hasOnTimeout || e.hasLifetime) ==> e in s.timers
  }

  /** A filter made by a registration is recorded with it. */
  ghost predicate FiltersRecorded(filters: seq<Filter>, prefixes: seq<Prefix>) {
    forall f :: f in filters && f.owner != 0 ==> 0 < f.id && Prefix(f.owner, f.id) in prefixes
  }

  /** A recorded registration has been settled. */
  ghost predicate PrefixesSettled(prefixes: seq<Prefix>, settled: seq<nat>) {
    forall p :: p in prefixes ==> p.id in settled
  }

  ghost predicate Recorded<I>(s: State<I>) {
    FiltersRecorded(s.filters, s.prefixes) && PrefixesSettled(s.prefixes, Settled(s.log))
  }

  /** Only interests that have been attempted have timers. */
  ghost predicate TimersAttempted<I>(s: State<I>) { forall e :: e in s.timers ==> e.id in Attempts(s.log) }

  ghost predicate Inv<I>(s: State<I>) {
    WellIssued(s) && Balanced(s) && Connection(s) && Timed(s) && TimersAttempted(s) && Recorded(s)
  }

  // Each step keeps the invariant: the ledger.

  lemma TakesBalanced<I>(s: State<I>, t: State<I>)
    requires Balanced(s) && Takes(s, t) && t.queue == s.queue && t.ran == s.ran && t.expressed == s.expressed
    ensures Balanced(t)
  {
    assert Waiting(t) == Waiting(s);
    hide Waiting, Handled, HandledRegistrations, Callable, Ids, RegistrationIds, Called, Attempts;
  }

  lemma GrownBalanced<I>(s: State<I>, t: State<I>, e: Expressed<I>)
    requires Balanced(s) && t.ran <= |t.queue| && t.expressed == s.expressed + [e]
    requires Accounted(t) == Accounted(s) + multiset{e.id}
    requires AccountedRegistrations(t) <= AccountedRegistrations(s) + multiset(RegistrationOf(e))
    requires Order(t) == Order(s) + [e.id]
    ensures Balanced(t)
  {
    hide Accounted, AccountedRegistrations, Order, Ids, RegistrationIds, RegistrationOf;
    IdsOne(s.expressed, e);
    assert multiset(Ids(s.expressed) + [e.id]) == multiset(Ids(s.expressed)) + multiset{e.id};
    assert multiset(RegistrationIds(s.expressed) + RegistrationOf(e))
        == multiset(RegistrationIds(s.expressed)) + multiset(RegistrationOf(e));
  }

  lemma ExpressBalanced<I>(s: State<I>, e: Expressed<I>)
    requires Balanced(s) && Connection(s)
    ensures Balanced(Express(s, e))
  {
    assert Express(s, e).expressed == s.expressed + [e];
    hide Express, Accounted, AccountedRegistrations, Order, RegistrationOf;
    ExpressEffect(s, e);
    GrownBalanced(s, Express(s, e), e);
  }

  lemma SameBalanced<I>(s: State<I>, t: State<I>)
    requires Balanced(s) && t.pit == s.pit && t.queue == s.queue && t.ran == s.ran
    requires t.log == s.log && t.expressed == s.expressed
    ensures Balanced(t)
  {
    assert Handled(t) == Handled(s) && HandledRegistrations(t) == HandledRegistrations(s) && Waiting(t) == Waiting(s);
    hide Handled, HandledRegistrations, Waiting, Ids, RegistrationIds, Attempts;
  }

  lemma ConnectedBalanced<I>(s: State<I>)
    requires Balanced(s)
    ensures Balanced(RunQueue(s.(connectedFired := true)))
  {
    var s' := s.(connectedFired := true);
    SameBalanced(s, s');
    RunQueueEffect(s');
    RunQueueFrame(s');
    hide RunQueue, Accounted, AccountedRegistrations, Order, Ids, RegistrationIds;
  }

  lemma {:induction false} RunQueueFrame<I>(s: State<I>)
    requires s.ran <= |s.queue|
    ensures var t := RunQueue(s);
      && t.expressed == s.expressed && t.lastId == s.lastId && t.connects == s.connects && t.async == s.async
      && t.connectedFired == s.connectedFired && t.filters == s.filters && t.prefixes == s.prefixes
      && t.prefixRemoveRequests == s.prefixRemoveRequests
    decreases |s.queue| - s.ran
  {
    if s.ran < |s.queue| {
      var (t, threw) := Attempt(s.(ran := s.ran + 1), s.queue[s.ran]);
      if !threw { RunQueueFrame(t); }
    }
  }

  lemma InPit<I>(s: State<I>)
    requires WellIssued(s) && Balanced(s)
    ensures AtMostOnce(multiset(Ids(s.pit)))
    ensures forall e, p :: e in s.expressed && p in s.pit && p.id == e.id ==> p == e
  {
    forall x ensures multiset(Ids(s.pit))[x] <= 1 {
      assert multiset(Ids(s.pit))[x] <= Accounted(s)[x];
    }
    forall e, p | e in s.expressed && p in s.pit && p.id == e.id ensures p == e {
      SameEntry(s.expressed, p, e);
    }
  }

  lemma TimerBalanced<I>(s: State<I>, k: nat)
    requires WellIssued(s) && Balanced(s) && k < |s.timers|
    ensures Balanced(Apply(s, TimerFires(k)))
  {
    var e := s.timers[k];
    var fired := s.(timers := s.timers[..k] + s.timers[k + 1..]);
    var t := Timeout(fired, e);
    assert e in s.expressed;
    hide Timeout;
    assert Apply(s, TimerFires(k)) == t;
    hide Apply, Balanced, Takes, WellIssued, AtMostOnce, Ids;
    SameBalanced(s, fired);
    InPit(s);
    TimeoutTakes(fired, e);
    TakesBalanced(fired, t);
  }

  lemma StepBalanced<I>(s: State<I>, step: Step<I>)
    requires WellIssued(s) && Balanced(s) && Connection(s) && Enabled(s, step)
    ensures Balanced(Apply(s, step))
  {
    hide Balanced, Takes, Express, RunQueue, Deliver, WellIssued, Connection, AtMostOnce;
    var t := Apply(s, step);
    match step
    case ExpressInterest(e) => ExpressBalanced(s, e);
    case RegisterPrefix(reg, interest, oversize) =>
      var issued := s.(lastId := s.lastId + 1);
      SameBalanced(s, issued);
      assert Connection(issued) by { ConnectionFrame(s, issued); }
      ExpressBalanced(issued, CommandInterest(s.lastId + 1, reg, interest, oversize));
    case Connected => ConnectedBalanced(s);
    case DataArrives(matches, reply) =>
      DataTakes(s, matches, reply);
      TakesBalanced(s, t);
    case NackArrives(same) =>
      NackTakes(s, same);
      TakesBalanced(s, t);
    case TimerFires(k) => TimerBalanced(s, k);
    case RemovePendingInterest(id) =>
      RemoveTakes(s, id);
      TakesBalanced(s, t);
    case _ => SameBalanced(s, t);
  }

  lemma ConnectionFrame<I>(s: State<I>, t: State<I>)
    requires Connection(s) && t.async == s.async && t.status == s.status && t.queue == s.queue && t.ran == s.ran
    requires t.connects == s.connects && t.connectedFired == s.connectedFired
    ensures Connection(t)
  {
  }

  // Each step keeps the invariant: what is issued, and the timers.

  /** Every entry that t holds is held by s or is one that t has just been given. */
  ghost predicate Holds<I>(s: State<I>, t: State<I>, given: seq<Expressed<I>>) {
    && (forall e :: e in t.queue ==> e in s.queue || e in given)
    && (forall e :: e in t.pit ==> e in s.pit || e in given)
    && (forall e :: e in t.timers ==> e in s.timers || e in given)
  }

  lemma AttemptHolds<I>(s: State<I>, e: Expressed<I>)
    ensures Holds(s, Attempt(s, e).0, [e])
    ensures Timed(s) ==> Timed(Attempt(s, e).0)
  {
  }

  lemma ExpressHolds<I>(s: State<I>, e: Expressed<I>)
    ensures Holds(s, Express(s, e), [e])
    ensures Timed(s) ==> Timed(Express(s, e))
    ensures Express(s, e).expressed == s.expressed + [e] && Express(s, e).lastId == s.lastId
  {
    hide Attempt;
    var noted := s.(expressed := s.expressed + [e]);
    if s.status == ConnectComplete {
      AttemptHolds(noted, e);
    } else if !s.async {
      AttemptHolds(noted.(connects := s.connects + 1), e);
    }
  }

  lemma {:induction false} RunQueueHolds<I>(s: State<I>)
    requires s.ran <= |s.queue|
    ensures Holds(s, RunQueue(s), s.queue)
    ensures Timed(s) ==> Timed(RunQueue(s))
    decreases |s.queue| - s.ran
  {
    if s.ran < |s.queue| {
      var (t, threw) := Attempt(s.(ran := s.ran + 1), s.queue[s.ran]);
      assert RunQueue(s) == if threw then t else RunQueue(t);
      AttemptNextHolds(s);
      hide Attempt, RunQueue, Holds, Timed;
      if !threw {
        RunQueueHolds(t);
        HoldsTwice(s, t, RunQueue(t), s.queue);
      }
    }
  }

  lemma AttemptNextHolds<I>(s: State<I>)
    requires s.ran < |s.queue|
    ensures var t := Attempt(s.(ran := s.ran + 1), s.queue[s.ran]).0;
      t.queue == s.queue && Holds(s, t, s.queue) && (Timed(s) ==> Timed(t))
  {
    hide Attempt;
    AttemptHolds(s.(ran := s.ran + 1), s.queue[s.ran]);
  }

  lemma HoldsTwice<I>(s: State<I>, t: State<I>, u: State<I>, given: seq<Expressed<I>>)
    requires Holds(s, t, given) && Holds(t, u, given)
    ensures Holds(s, u, given)
  {
  }

  lemma UnmatchedHolds<I>(s: State<I>, sel: Selector<I>)
    ensures forall e :: e in Unmatched(s.pit, sel) ==> e in s.pit
  {
    forall e | e in Unmatched(s.pit, sel) ensures e in s.pit { MatchedMember(s.pit, sel, e); }
  }

  lemma TimerHolds<I>(s: State<I>, k: nat)
    requires k < |s.timers|
    ensures Holds(s, Apply(s, TimerFires(k)), [])
    ensures Timed(s) && (forall p :: p in s.pit && p.id == s.timers[k].id ==> p == s.timers[k]) ==>
      Timed(Apply(s, TimerFires(k)))
  {
    var e := s.timers[k];
    var t := Apply(s, TimerFires(k));
    assert forall x :: x in s.timers ==> x == e || x in t.timers;
    forall p | p in t.pit ensures p in s.pit && p.id != e.id {
      if |Matched(s.pit, ById(e.id))| == 0 {
        if p.id == e.id {
          MatchedMember(s.pit, ById(e.id), p);
        }
      } else {
        MatchedMember(s.pit, ById(e.id), p);
      }
    }
  }

  /** The interest that a step expresses, if any. */
  function Fresh<I>(s: State<I>, step: Step<I>): seq<Expressed<I>> {
    match step
    case ExpressInterest(e) => [e]
    case RegisterPrefix(reg, interest, oversize) => [CommandInterest(s.lastId + 1, reg, interest, oversize)]
    case _ => []
  }

  lemma StepHolds<I>(s: State<I>, step: Step<I>)
    requires s.ran <= |s.queue| && Enabled(s, step)
    ensures Holds(s, Apply(s, step), s.queue + Fresh(s, step))
    ensures Apply(s, step).expressed == s.expressed + Fresh(s, step)
    ensures s.lastId <= Apply(s, step).lastId
  {
    hide Express, RunQueue, Deliver, Timeout, Ids, RegistrationIds;
    match step
    case ExpressInterest(e) => ExpressHolds(s, e);
    case Connected =>
      RunQueueHolds(s.(connectedFired := true));
      RunQueueFrame(s.(connectedFired := true));
    case DataArrives(matches, _) => UnmatchedHolds(s, ByData(matches));
    case NackArrives(same) => UnmatchedHolds(s, ByNack(same));
    case TimerFires(k) => TimerHolds(s, k);
    case RemovePendingInterest(id) => UnmatchedHolds(s, ById(id));
    case RegisterPrefix(reg, interest, oversize) =>
      ExpressHolds(s.(lastId := s.lastId + 1), CommandInterest(s.lastId + 1, reg, interest, oversize));
    case _ =>
  }

  lemma AppendDistinct(a: seq<nat>, b: seq<nat>)
    requires AtMostOnce(multiset(a)) && |b| <= 1 && (b == [] || b[0] !in a)
    ensures AtMostOnce(multiset(a + b))
  {
    if b == [] {
      assert a + b == a;
    } else {
      assert a + b == a + [b[0]];
      forall x ensures multiset(a + b)[x] <= 1 { CountOne(a, b[0], x); }
    }
  }

  lemma FreshId<I>(s: State<I>, step: Step<I>, e: Expressed<I>)
    requires WellIssued(s) && Enabled(s, step) && Fresh(s, step) == [e]
    ensures e.id !in Ids(s.expressed) && 0 < e.id <= Apply(s, step).lastId
    ensures RegistrationOf(e) == [] || RegistrationOf(e)[0] !in RegistrationIds(s.expressed)
  {
    hide Ids, RegistrationIds, Express;
    match step
    case ExpressInterest(x) =>
      ExpressHolds(s, x);
    case RegisterPrefix(reg, interest, oversize) =>
      ExpressHolds(s.(lastId := s.lastId + 1), CommandInterest(s.lastId + 1, reg, interest, oversize));
  }

  lemma GrownIds<I>(es: seq<Expressed<I>>, e: Expressed<I>)
    requires AtMostOnce(multiset(Ids(es))) && AtMostOnce(multiset(RegistrationIds(es)))
    requires e.id !in Ids(es) && (RegistrationOf(e) == [] || RegistrationOf(e)[0] !in RegistrationIds(es))
    ensures AtMostOnce(multiset(Ids(es + [e]))) && AtMostOnce(multiset(RegistrationIds(es + [e])))
    ensures forall x :: x in Ids(es + [e]) ==> x in Ids(es) || x == e.id
  {
    assert |RegistrationOf(e)| <= 1;
    hide Ids, RegistrationIds, RegistrationOf, AtMostOnce;
    IdsOne(es, e);
    AppendDistinct(Ids(es), [e.id]);
    AppendDistinct(RegistrationIds(es), RegistrationOf(e));
  }

  lemma StepWellIssued<I>(s: State<I>, step: Step<I>)
    requires WellIssued(s) && s.ran <= |s.queue| && Enabled(s, step)
    ensures WellIssued(Apply(s, step))
  {
    hide Apply, Ids, RegistrationIds, AtMostOnce, Enabled;
    var added := Fresh(s, step);
    assert |added| <= 1;
    hide Fresh;
    StepHolds(s, step);
    if |added| == 0 {
      assert s.expressed + added == s.expressed;
    } else {
      var e := added[0];
      assert added == [e];
      FreshId(s, step, e);
      GrownIds(s.expressed, e);
    }
  }

  lemma StepTimed<I>(s: State<I>, step: Step<I>)
    requires WellIssued(s) && Balanced(s) && Timed(s) && Enabled(s, step)
    ensures Timed(Apply(s, step))
  {
    hide Express, RunQueue, Deliver, Timeout, Ids, RegistrationIds, Accounted, AccountedRegistrations, Order;
    match step
    case ExpressInterest(e) => ExpressHolds(s, e);
    case Connected => RunQueueHolds(s.(connectedFired := true));
    case DataArrives(matches, _) => UnmatchedHolds(s, ByData(matches));
    case NackArrives(same) => UnmatchedHolds(s, ByNack(same));
    case TimerFires(k) =>
      assert s.timers[k] in s.expressed;
      InPit(s);
      TimerHolds(s, k);
    case RemovePendingInterest(id) => UnmatchedHolds(s, ById(id));
    case RegisterPrefix(reg, interest, oversize) =>
      ExpressHolds(s.(lastId := s.lastId + 1), CommandInterest(s.lastId + 1, reg, interest, oversize));
    case _ =>
  }

  lemma AttemptTimers<I>(s: State<I>, e: Expressed<I>)
    requires TimersAttempted(s)
    ensures TimersAttempted(Attempt(s, e).0)
  {
    AttemptLog(s, e);
    hide Attempts;
  }

  lemma {:induction false} RunQueueTimers<I>(s: State<I>)
    requires TimersAttempted(s)
    ensures TimersAttempted(RunQueue(s))
    decreases |s.queue| - s.ran
  {
    if s.ran < |s.queue| {
      var next := s.(ran := s.ran + 1);
      var (t, threw) := Attempt(next, s.queue[s.ran]);
      assert RunQueue(s) == if threw then t else RunQueue(t);
      assert TimersAttempted(next);
      AttemptTimers(next, s.queue[s.ran]);
      hide RunQueue, Attempt, TimersAttempted;
      if !threw { RunQueueTimers(t); }
    }
  }

  lemma ExpressTimers<I>(s: State<I>, e: Expressed<I>)
    requires TimersAttempted(s)
    ensures TimersAttempted(Express(s, e))
  {
    hide Attempt, Attempts;
    var noted := s.(expressed := s.expressed + [e]);
    if s.status == ConnectComplete {
      AttemptTimers(noted, e);
    } else if !s.async {
      AttemptTimers(noted.(connects := s.connects + 1), e);
    }
  }

  lemma FewerTimers<I>(s: State<I>, t: State<I>)
    requires TimersAttempted(s) && Attempts(t.log) == Attempts(s.log) && forall e :: e in t.timers ==> e in s.timers
    ensures TimersAttempted(t)
  {
  }

  lemma StepTimersAttempted<I>(s: State<I>, step: Step<I>)
    requires WellIssued(s) && Balanced(s) && TimersAttempted(s) && Enabled(s, step)
    ensures TimersAttempted(Apply(s, step))
  {
    hide TimersAttempted, WellIssued, Balanced, Attempts, Express, RunQueue, Deliver, Timeout, Ids, RegistrationIds;
    var t := Apply(s, step);
    match step
    case ExpressInterest(e) => ExpressTimers(s, e);
    case RegisterPrefix(reg, interest, oversize) =>
      var issued := s.(lastId := s.lastId + 1);
      FewerTimers(s, issued);
      ExpressTimers(issued, CommandInterest(s.lastId + 1, reg, interest, oversize));
    case Connected =>
      FewerTimers(s, s.(connectedFired := true));
      RunQueueTimers(s.(connectedFired := true));
    case DataArrives(matches, reply) =>
      DataTakes(s, matches, reply);
      FewerTimers(s, t);
    case NackArrives(same) =>
      NackTakes(s, same);
      FewerTimers(s, t);
    case TimerFires(k) =>
      var fired := s.(timers := s.timers[..k] + s.timers[k + 1..]);
      FewerTimers(s, fired);
      TimeoutAttempts(fired, s.timers[k]);
      FewerTimers(fired, t);
    case RemovePendingInterest(id) =>
      RemoveTakes(s, id);
      FewerTimers(s, t);
    case _ => FewerTimers(s, t);
  }

  lemma TimeoutAttempts<I>(s: State<I>, e: Expressed<I>)
    ensures Attempts(Timeout(s, e).log) == Attempts(s.log)
  {
    if |Matched(s.pit, ById(e.id))| > 0 { TimeoutEffect(s, e); }
  }

  // Each step keeps the invariant: the connection.

  /** Whether expressing the interest when connected throws. */
  predicate Throws<I>(s: State<I>, e: Expressed<I>) { e.id !in s.removeRequests && !e.local && e.oversize }

  lemma RemoveFirstKeeps(s: seq<nat>, x: nat, y: nat)
    requires x != y
    ensures y in RemoveFirst(s, x) <==> y in s
  {
  }

  /** No waiting interest is too large to send. */
  ghost predicate AllFit<I>(s: State<I>)
    requires s.ran <= |s.queue|
  {
    forall e :: e in Waiting(s) ==> !Throws(s, e)
  }

  lemma DistinctTail(x: nat, rest: seq<nat>)
    requires AtMostOnce(multiset([x] + rest))
    ensures x !in rest && AtMostOnce(multiset(rest))
  {
    var all := multiset([x] + rest);
    assert all == multiset{x} + multiset(rest);
    assert all[x] <= 1;
    forall y ensures multiset(rest)[y] <= 1 { assert all[y] <= 1; }
  }

  lemma NextDistinct<I>(s: State<I>)
    requires s.ran < |s.queue| && AtMostOnce(multiset(Ids(Waiting(s))))
    ensures var e, rest := s.queue[s.ran], s.queue[s.ran + 1..];
      && Waiting(s) == [e] + rest && AtMostOnce(multiset(Ids(rest))) && forall x :: x in rest ==> x.id != e.id
  {
    hide Ids, AtMostOnce;
    var e, rest := s.queue[s.ran], s.queue[s.ran + 1..];
    assert Waiting(s) == [e] + rest;
    IdsOne(rest, e);
    DistinctTail(e.id, Ids(rest));
    IdsMembers(rest);
  }

  lemma NextFits<I>(s: State<I>)
    requires s.ran < |s.queue| && AtMostOnce(multiset(Ids(Waiting(s))))
    ensures var e := s.queue[s.ran]; var (t, threw) := Attempt(s.(ran := s.ran + 1), e);
      && threw == Throws(s, e) && (AllFit(s) <==> !threw && AllFit(t))
      && AtMostOnce(multiset(Ids(Waiting(t))))
  {
    var e := s.queue[s.ran];
    var (t, threw) := Attempt(s.(ran := s.ran + 1), e);
    assert threw == Throws(s, e);
    assert t.removeRequests == s.removeRequests || t.removeRequests == RemoveFirst(s.removeRequests, e.id);
    hide Attempt, RemoveFirst, Ids, AtMostOnce;
    NextDistinct(s);
    forall x | x in Waiting(t) ensures Throws(t, x) == Throws(s, x) {
      RemoveFirstKeeps(s.removeRequests, e.id, x.id);
    }
    hide Throws;
    if AllFit(s) { assert e in Waiting(s); }
  }

  /** The queue stopped at an interest too large to send. */
  predicate Stopped<I>(s: State<I>) { 0 < s.ran <= |s.queue| && s.queue[s.ran - 1].oversize }

  /** The queue is run to its end exactly when none of the interests in it is too large to send; otherwise it stops
      at the first of those, and stays. */
  lemma {:induction false} RunQueueEnds<I>(s: State<I>)
    requires s.ran <= |s.queue| && AtMostOnce(multiset(Ids(Waiting(s))))
    ensures var t := RunQueue(s);
      if AllFit(s) then t.status == ConnectComplete && t.queue == [] && t.ran == 0
      else t.status == s.status && t.queue == s.queue && s.ran < t.ran && Stopped(t)
    decreases |s.queue| - s.ran
  {
    hide Ids, AtMostOnce;
    if s.ran < |s.queue| {
      hide AllFit, Waiting;
      var e := s.queue[s.ran];
      var (t, threw) := Attempt(s.(ran := s.ran + 1), e);
      assert RunQueue(s) == if threw then t else RunQueue(t);
      assert threw ==> Stopped(t);
      hide RunQueue, Attempt, Stopped;
      NextFits(s);
      hide Throws;
      if !threw { RunQueueEnds(t); }
    } else {
      assert Waiting(s) == [];
    }
  }

  lemma WaitingDistinct<I>(s: State<I>)
    requires WellIssued(s) && Balanced(s)
    ensures AtMostOnce(multiset(Ids(Waiting(s))))
  {
    forall x ensures multiset(Ids(Waiting(s)))[x] <= 1 {
      assert multiset(Ids(Waiting(s)))[x] <= Accounted(s)[x];
    }
  }

  lemma FitsFrame<I>(s: State<I>, t: State<I>)
    requires s.ran <= |s.queue| && t.queue == s.queue && t.ran == s.ran && t.removeRequests == s.removeRequests
    ensures Waiting(t) == Waiting(s) && AllFit(t) == AllFit(s)
  {
    forall e ensures Throws(t, e) == Throws(s, e) {}
  }

  lemma ConnectedConnection<I>(s: State<I>)
    requires WellIssued(s) && Balanced(s) && Connection(s) && Enabled(s, Connected)
    ensures Connection(Apply(s, Connected))
    ensures Apply(s, Connected).status == ConnectComplete <==> AllFit(s)
  {
    var s' := s.(connectedFired := true);
    hide WellIssued, Balanced, RunQueue, Ids, AtMostOnce, Throws, Waiting, AllFit;
    WaitingDistinct(s);
    FitsFrame(s, s');
    assert Apply(s, Connected) == RunQueue(s');
    hide Apply;
    RunQueueEnds(s');
    RunQueueFrame(s');
  }

  function Rank(status: ConnectStatus): nat {
    match status
    case Unconnected => 0
    case ConnectRequested => 1
    case ConnectComplete => 2
  }

  lemma ExpressConnection<I>(s: State<I>, e: Expressed<I>)
    requires Connection(s)
    ensures Connection(Express(s, e)) && Rank(s.status) <= Rank(Express(s, e).status)
  {
    hide Attempt;
  }

  lemma StepConnection<I>(s: State<I>, step: Step<I>)
    requires WellIssued(s) && Balanced(s) && Connection(s) && Enabled(s, step)
    ensures Connection(Apply(s, step))
    ensures Rank(s.status) <= Rank(Apply(s, step).status)
  {
    hide WellIssued, Balanced, Connection, Express, RunQueue, Deliver, Timeout, RemoveRegistered, RemovePending;
    match step
    case Connected =>
      ConnectedConnection(s);
      RunQueueRank(s.(connectedFired := true));
    case ExpressInterest(e) => ExpressConnection(s, e);
    case RegisterPrefix(reg, interest, oversize) =>
      var issued := s.(lastId := s.lastId + 1);
      ConnectionFrame(s, issued);
      ExpressConnection(issued, CommandInterest(s.lastId + 1, reg, interest, oversize));
    case _ =>
      StepKeepsConnection(s, step);
      ConnectionFrame(s, Apply(s, step));
  }

  lemma StepKeepsConnection<I>(s: State<I>, step: Step<I>)
    requires !step.Connected? && !step.ExpressInterest? && !step.RegisterPrefix?
    ensures var t := Apply(s, step);
      && t.async == s.async && t.status == s.status && t.queue == s.queue && t.ran == s.ran
      && t.connects == s.connects && t.connectedFired == s.connectedFired
  {
    hide Express, RunQueue, Deliver, Timeout, RemoveRegistered, RemovePending, Matched, Unmatched, NackEvents,
      WithoutFilter;
  }

  lemma {:induction false} RunQueueRank<I>(s: State<I>)
    ensures Rank(s.status) <= Rank(RunQueue(s).status)
    decreases |s.queue| - s.ran
  {
    if s.ran < |s.queue| {
      var (t, threw) := Attempt(s.(ran := s.ran + 1), s.queue[s.ran]);
      assert RunQueue(s) == (if threw then t else RunQueue(t)) && t.status == s.status;
      hide RunQueue, Attempt, Rank;
      if !threw { RunQueueRank(t); }
    }
  }
}
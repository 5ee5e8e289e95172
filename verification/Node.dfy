/** Node: an object over its tables, each method tied to one step of the protocol. */
module Node {
  import opened NodeSpec
  import opened NodeLedger
  import opened NodeInvariant
  import opened NodeRuns
  import opened NodeTables

  /** Entries with different ids. */
  ghost predicate Apart<I>(timers: seq<Entry<I>>, e: Expressed<I>) {
    forall t :: t in timers ==> t.info.id != e.id
  }

  /** The entry of a timer is marked as removed when it is not in the table, and no other entry there has its id. */
  ghost predicate LinkedTo<I>(timers: seq<Entry<I>>, table: seq<Entry<I>>)
    reads timers
  {
    && (forall t :: t in timers && t !in table ==> t.isRemoved)
    && (forall t, p :: t in timers && p in table && t.info.id == p.info.id ==> t == p)
  }

  lemma LinkedMore<I>(timers: seq<Entry<I>>, table: seq<Entry<I>>, entry: Entry<I>)
    requires LinkedTo(timers, table) && Apart(timers, entry.info)
    requires Apart(table, entry.info)
    ensures LinkedTo(timers, table + [entry]) && LinkedTo(timers + [entry], table + [entry])
  {
  }

  lemma FreshApart<I>(entries: seq<Entry<I>>, es: seq<Expressed<I>>, e: Expressed<I>)
    requires (forall x :: x in Infos(entries) ==> x in es) && e.id !in Ids(es)
    ensures Apart(entries, e)
  {
    IdsMembers(es);
    forall t | t in entries ensures t.info.id != e.id {
      var i :| 0 <= i < |entries| && entries[i] == t;
      assert Infos(entries)[i] in es;
    }
  }

  /** The waiting interests have different ids, and none of them is pending or has a timer. */
  ghost predicate WaitingApart<I>(s: State<I>) {
    && s.ran <= |s.queue| && AtMostOnce(multiset(Ids(Waiting(s))))
    && (forall e, x :: e in Waiting(s) && x in s.timers ==> x.id != e.id)
    && (forall e, x :: e in Waiting(s) && x in s.pit ==> x.id != e.id)
  }

  lemma InOneOnly(a: seq<nat>, b: seq<nat>, x: nat)
    requires AtMostOnce(multiset(a + b)) && x in a
    ensures x !in b
  {
    assert multiset(a + b) == multiset(a) + multiset(b);
    assert multiset(a + b)[x] <= 1;
  }

  /** What has a timer has been attempted, so it does not wait. */
  lemma TimerNotWaiting<I>(s: State<I>, e: Expressed<I>, x: Expressed<I>)
    requires WellIssued(s) && Balanced(s) && TimersAttempted(s) && e in Waiting(s) && x in s.timers
    ensures x.id != e.id
  {
    assert x.id in Attempts(s.log);
    IdsMembers(Waiting(s));
    hide Attempts, Ids, Waiting, Accounted, AccountedRegistrations, AtMostOnce, TimersAttempted;
    InOneOnly(Attempts(s.log), Ids(Waiting(s)), x.id);
  }

  /** What is pending does not wait. */
  lemma PendingNotWaiting<I>(s: State<I>, e: Expressed<I>, x: Expressed<I>)
    requires WellIssued(s) && Balanced(s) && e in Waiting(s) && x in s.pit
    ensures x.id != e.id
  {
    IdsMembers(Waiting(s));
    IdsMembers(s.pit);
    assert Accounted(s)[e.id] <= 1;
    assert Accounted(s)[e.id] >= multiset(Ids(Waiting(s)))[e.id] + multiset(Ids(s.pit))[e.id];
    hide Ids, Ended, Waiting, AccountedRegistrations, Order;
  }

  lemma InvWaitingApart<I>(s: State<I>)
    requires Inv(s)
    ensures WaitingApart(s)
  {
    assert s.ran <= |s.queue|;
    hide WellIssued, Balanced, Connection, Timed, TimersAttempted, Recorded, Ids, AtMostOnce;
    WaitingDistinct(s);
    forall e, x | e in Waiting(s) && x in s.timers ensures x.id != e.id { TimerNotWaiting(s, e, x); }
    forall e, x | e in Waiting(s) && x in s.pit ensures x.id != e.id { PendingNotWaiting(s, e, x); }
  }

  lemma ConnectedReady<I>(s: State<I>)
    requires Inv(s) && Enabled(s, Connected)
    ensures WaitingApart(s.(connectedFired := true)) && s.ran == 0
  {
    hide Ids, AtMostOnce, WellIssued, Balanced, Timed, TimersAttempted, Recorded;
    assert s.ran == 0;
    hide Inv, Enabled;
    InvWaitingApart(s);
    assert Waiting(s.(connectedFired := true)) == Waiting(s);
  }

  lemma NextApart<I>(s: State<I>)
    requires WaitingApart(s) && s.ran < |s.queue|
    ensures WaitingApart(Attempt(s.(ran := s.ran + 1), s.queue[s.ran]).0)
  {
    hide Ids, AtMostOnce, RemoveFirst;
    NextDistinct(s);
    var e, rest := s.queue[s.ran], s.queue[s.ran + 1..];
    AttemptHolds(s.(ran := s.ran + 1), e);
    var t := Attempt(s.(ran := s.ran + 1), e).0;
    assert t.ran <= |t.queue| && Waiting(t) == rest && forall x :: x in rest ==> x in Waiting(s);
    hide Attempt, Waiting;
    forall y, x | y in rest && x in t.timers ensures x.id != y.id { assert x in s.timers || x == e; }
    forall y, x | y in rest && x in t.pit ensures x.id != y.id { assert x in s.pit || x == e; }
  }

  lemma WaitingIsApart<I>(s: State<I>, entries: seq<Entry<I>>, e: Expressed<I>)
    requires WaitingApart(s) && e in Waiting(s) && (Infos(entries) == s.timers || Infos(entries) == s.pit)
    ensures Apart(entries, e)
  {
    forall t | t in entries ensures t.info.id != e.id {
      var i :| 0 <= i < |entries| && entries[i] == t;
      assert Infos(entries)[i] == t.info;
    }
  }

  lemma NextCallback<I>(s: State<I>, timers: seq<Entry<I>>, table: seq<Entry<I>>)
    requires WaitingApart(s) && s.ran < |s.queue| && Infos(timers) == s.timers && Infos(table) == s.pit
    ensures var e := s.queue[s.ran];
      Apart(timers, e) && Apart(table, e) && WaitingApart(Attempt(s.(ran := s.ran + 1), e).0)
  {
    NextApart(s);
    assert s.queue[s.ran] in Waiting(s);
    hide WaitingApart, Apart;
    WaitingIsApart(s, timers, s.queue[s.ran]);
    WaitingIsApart(s, table, s.queue[s.ran]);
  }

  /** When no other entry has its id, removing an entry is removing its id. */
  lemma {:induction false} WithoutIsById<I>(table: seq<Entry<I>>, entry: Entry<I>)
    requires forall p :: p in table && p.info.id == entry.info.id ==> p == entry
    ensures Infos(Without(table, entry)) == Unmatched(Infos(table), ById(entry.info.id))
    ensures entry in table <==> |Matched(Infos(table), ById(entry.info.id))| > 0
  {
    if table != [] {
      var rest, last := table[..|table| - 1], table[|table| - 1];
      WithoutIsById(rest, entry);
      assert Infos(table) == Infos(rest) + [last.info];
      assert Infos(table)[..|table| - 1] == Infos(rest);
      assert last.info.id == entry.info.id <==> last == entry;
      InfosOne(Without(rest, entry), last);
    }
  }

  lemma DeliverNext<I>(s: State<I>, es: seq<Expressed<I>>, i: nat, reply: Reply)
    requires i < |es|
    ensures Deliver(s, es[i..], reply) == Deliver(DeliverOne(s, es[i], reply), es[i + 1..], reply)
  {
    assert es[i..][1..] == es[i + 1..];
    hide DeliverOne;
  }

  lemma DeliverNone<I>(s: State<I>, es: seq<Expressed<I>>, reply: Reply)
    requires |es| == 0
    ensures Deliver(s, es, reply) == s
  {
  }

  /** Whether expressing an interest throws: it does so only when it need not wait for the connection. */
  predicate ThrowsNow<I>(s: State<I>, e: Expressed<I>) { (s.status == ConnectComplete || !s.async) && Throws(s, e) }

  lemma ThrowsFrame<I>(s: State<I>, t: State<I>, e: Expressed<I>)
    requires t.removeRequests == s.removeRequests
    ensures Throws(s, e) == Throws(t, e)
  {
  }

  /** The connection is not complete when it is reported, and then is unless a waiting interest is too large. */
  lemma ConnectedThrows<I>(s: State<I>)
    requires Inv(s) && Enabled(s, Connected)
    ensures s.ran <= |s.queue| && s.status != ConnectComplete
    ensures Apply(s, Connected).status == ConnectComplete <==> AllFit(s)
  {
    hide Apply, AllFit, WellIssued, Balanced, Timed, TimersAttempted, Recorded;
    ConnectedConnection(s);
  }

  class Node<I> {
    const async: bool                                   // whether the transport is
    const pendingInterestTable: PendingInterestTable<I>
    const interestFilterTable: InterestFilterTable
    const registeredPrefixTable: RegisteredPrefixTable
    var connectStatus: ConnectStatus
    var onConnectedCallbacks: seq<Expressed<I>>         // the arguments bound for expressInterestHelper
    var lastEntryId: nat
    var delayedCalls: seq<Entry<I>>                     // the entries bound for processInterestTimeout
    var connects: nat                                   // the calls of the transport's connect
    var log: seq<Event>                                 // the callbacks called and the interests sent
    ghost var connectedFired: bool
    ghost var ran: nat
    ghost var expressed: seq<Expressed<I>>

    ghost function View(): State<I>
      reads this, pendingInterestTable, interestFilterTable, registeredPrefixTable
    {
      State(async, connectStatus, onConnectedCallbacks, ran, connects, connectedFired,
            Infos(pendingInterestTable.table), pendingInterestTable.removeRequests, Infos(delayedCalls),
            interestFilterTable.table, registeredPrefixTable.table, registeredPrefixTable.removeRequests,
            lastEntryId, expressed, log)
    }

    ghost predicate Linked()
      reads this`delayedCalls, pendingInterestTable`table, pendingInterestTable.table, delayedCalls
    {
      && pendingInterestTable.Valid() && LinkedTo(delayedCalls, pendingInterestTable.table)
      && registeredPrefixTable.interestFilterTable == interestFilterTable
    }

    ghost predicate Valid()
      reads this, pendingInterestTable, pendingInterestTable.table, interestFilterTable, registeredPrefixTable,
            delayedCalls
    {
      Linked() && Inv(View())
    }

    constructor (async: bool)
      ensures Valid() && View() == Initial(async)
      ensures fresh(pendingInterestTable) && fresh(interestFilterTable) && fresh(registeredPrefixTable)
    {
      this.async := async;
      pendingInterestTable := new PendingInterestTable<I>();
      var filters := new InterestFilterTable();
      interestFilterTable := filters;
      registeredPrefixTable := new RegisteredPrefixTable(filters);
      connectStatus, onConnectedCallbacks, lastEntryId, delayedCalls := Unconnected, [], 0, [];
      connects, log, connectedFired, ran, expressed := 0, [], false, 0, [];
      new;
      assert View() == Initial(async);
      hide Inv, View;
      InitialInv<I>(async);
    }

    /** Add the entry, unless it was already removed, and its timer. */
    method AddPending(e: Expressed<I>) returns (added: bool)
      requires Linked() && Apart(delayedCalls, e) && Apart(pendingInterestTable.table, e)
      modifies this`delayedCalls, pendingInterestTable
      ensures Linked() && added == old(e.id !in pendingInterestTable.removeRequests)
      ensures if added then
          && pendingInterestTable.removeRequests == old(pendingInterestTable.removeRequests)
          && Infos(pendingInterestTable.table) == Infos(old(pendingInterestTable.table)) + [e]
          && Infos(delayedCalls)
             == if e.hasOnTimeout || e.hasLifetime then Infos(old(delayedCalls)) + [e] else Infos(old(delayedCalls))
        else
          && pendingInterestTable.removeRequests == old(RemoveFirst(pendingInterestTable.removeRequests, e.id))
          && pendingInterestTable.table == old(pendingInterestTable.table) && delayedCalls == old(delayedCalls)
    {
      hide LinkedTo, Apart;
      ghost var was, timers := pendingInterestTable.table, delayedCalls;
      var pendingInterest := pendingInterestTable.Add(e);
      if pendingInterest == null {
        return false;
      }
      LinkedMore(timers, was, pendingInterest);
      assert Infos(was + [pendingInterest]) == Infos(was) + [e];
      assert Infos(timers + [pendingInterest]) == Infos(timers) + [e];
      if e.hasOnTimeout || e.hasLifetime {
        delayedCalls := delayedCalls + [pendingInterest];
      }
      added := true;
    }

    method ExpressInterestHelper(e: Expressed<I>) returns (threw: bool)
      requires Linked() && Apart(delayedCalls, e) && Apart(pendingInterestTable.table, e)
      modifies this`delayedCalls, this`log, pendingInterestTable
      ensures Linked() && (View(), threw) == Attempt(old(View()), e) && threw == Throws(old(View()), e)
    {
      hide Linked, LinkedTo, Apart, Infos, RemoveFirst;
      ghost var before := log;
      log := log + [Attempted(e.id)];
      var added := AddPending(e);
      if !added {
        log := log + [Dropped(e.id)];
        assert log == before + [Attempted(e.id), Dropped(e.id)];
        return false;
      }
      threw := false;
      if !e.local {
        if e.oversize {
          threw := true;
        } else {
          log := log + [Sent(e.id)];
        }
      }
    }

    method GetNextEntryId() returns (id: nat)
      requires Valid()
      modifies this`lastEntryId
      ensures Valid() && View() == Apply(old(View()), NewId) && id == lastEntryId
    {
      hide Inv, Linked, Infos;
      ghost var before := View();
      StepInv(before, NewId);
      lastEntryId := lastEntryId + 1;
      assert View() == before.(lastId := before.lastId + 1);
      id := lastEntryId;
    }

    /** The transport connects at once. */
    method ConnectAndExpress(e: Expressed<I>) returns (threw: bool)
      requires Linked() && Apart(delayedCalls, e) && Apart(pendingInterestTable.table, e)
      modifies this, pendingInterestTable
      ensures Linked() && var (t, thrown) := Attempt(old(View()).(connects := old(connects) + 1), e);
        threw == thrown && View() == if thrown then t else t.(status := ConnectComplete)
      ensures threw == Throws(old(View()), e)
    {
      hide Linked, Infos, Apart, Attempt;
      connects := connects + 1;
      threw := ExpressInterestHelper(e);
      if !threw {
        connectStatus := ConnectComplete;
      }
    }

    /** Ask for the connection, if that has not been done, and wait for it. */
    method QueueForConnection(e: Expressed<I>)
      modifies this`connectStatus, this`onConnectedCallbacks, this`connects
      ensures var s := old(View());
        View() == if s.status == Unconnected
                  then s.(status := ConnectRequested, queue := s.queue + [e], connects := s.connects + 1)
                  else s.(queue := s.queue + [e])
    {
      hide Infos;
      if connectStatus == Unconnected {
        connectStatus := ConnectRequested;
        onConnectedCallbacks := onConnectedCallbacks + [e];
        connects := connects + 1;
      } else {
        onConnectedCallbacks := onConnectedCallbacks + [e];
      }
    }

    /** Express now if connected or if the transport connects at once, otherwise queue for the connection. */
    method ExpressOrQueue(e: Expressed<I>) returns (threw: bool)
      requires Linked() && Apart(delayedCalls, e) && Apart(pendingInterestTable.table, e)
      modifies this, pendingInterestTable
      ensures Linked() && View() == Express(old(View()), e) && threw == ThrowsNow(old(View()), e)
    {
      hide Linked, Infos, Apart, Attempt, Throws;
      ghost var before := View();
      expressed := expressed + [e];
      ThrowsFrame(before, View(), e);
      threw := false;
      if connectStatus == ConnectComplete {
        threw := ExpressInterestHelper(e);
      } else if !async {
        threw := ConnectAndExpress(e);
      } else {
        QueueForConnection(e);
      }
    }

    method ExpressInterest(e: Expressed<I>) returns (threw: bool)
      requires Valid() && e.id !in Ids(expressed)
      modifies this, pendingInterestTable
      ensures Linked() && View() == Express(old(View()), e) && threw == ThrowsNow(old(View()), e)
      ensures old(Enabled(View(), Step.ExpressInterest(e))) ==> Valid()
    {
      ghost var before := View();
      FreshApart(delayedCalls, expressed, e);
      FreshApart(pendingInterestTable.table, expressed, e);
      if Enabled(before, Step.ExpressInterest(e)) { StepInv(before, Step.ExpressInterest(e)); }
      hide Linked, Inv, Infos, Ids, Apart, Express, Enabled, ThrowsNow;
      threw := ExpressOrQueue(e);
    }

    method RunCallback(i: nat) returns (threw: bool)
      requires Linked() && WaitingApart(View()) && i == ran < |onConnectedCallbacks|
      modifies this`ran, this`delayedCalls, this`log, pendingInterestTable
      ensures Linked() && WaitingApart(View()) && ran == old(ran) + 1
      ensures (View(), threw) == Attempt(old(View()).(ran := i + 1), onConnectedCallbacks[i])
    {
      hide Linked, Attempt, WaitingApart, Infos, Apart;
      ghost var here := View();
      var e := onConnectedCallbacks[i];
      NextCallback(here, delayedCalls, pendingInterestTable.table);
      ran := ran + 1;
      assert View() == here.(ran := i + 1);
      threw := ExpressInterestHelper(e);
    }

    /** Express the queued interests, in order, until one throws; if none does, the connection is complete. */
    method RunCallbacks() returns (threw: bool)
      requires Linked() && WaitingApart(View()) && ran == 0
      modifies this, pendingInterestTable
      ensures Linked() && View() == RunQueue(old(View()))
      ensures connectStatus == if threw then old(connectStatus) else ConnectComplete
    {
      hide Linked, Attempt, WaitingApart, Infos;
      ghost var end := RunQueue(View());
      var i := 0;
      while i < |onConnectedCallbacks|
        invariant Linked() && i == ran <= |onConnectedCallbacks| && WaitingApart(View())
        invariant RunQueue(View()) == end && connectStatus == old(connectStatus)
        modifies this, pendingInterestTable
      {
        threw := RunCallback(i);
        if threw {
          return;
        }
        i := i + 1;
      }
      assert end == View().(queue := [], ran := 0, status := ConnectComplete);
      onConnectedCallbacks, ran := [], 0;
      connectStatus := ConnectComplete;
      threw := false;
    }

    method OnConnected() returns (threw: bool)
      requires Valid() && Enabled(View(), Connected)
      modifies this, pendingInterestTable
      ensures Valid() && View() == Apply(old(View()), Connected)
      ensures var s := old(View()); s.ran <= |s.queue| && threw == !AllFit(s)
    {
      ghost var before := View();
      hide Inv, Infos, Enabled, AllFit;
      ConnectedThrows(before);
      threw := ReportConnected();
    }

    method ReportConnected() returns (threw: bool)
      requires Valid() && Enabled(View(), Connected)
      modifies this, pendingInterestTable
      ensures Valid() && View() == Apply(old(View()), Connected)
      ensures connectStatus == if threw then old(connectStatus) else ConnectComplete
    {
      ghost var before := View();
      hide Linked, Inv, WaitingApart, Infos, RunQueue, Enabled;
      ConnectedReady(before);
      StepInv(before, Connected);
      connectedFired := true;
      assert View() == before.(connectedFired := true);
      threw := RunCallbacks();
    }

    /** Record a registration with the filter it makes, unless it was already removed. */
    method AddRegistered(reg: Registration) returns (added: bool)
      requires registeredPrefixTable.interestFilterTable == interestFilterTable
      modifies this`lastEntryId, interestFilterTable, registeredPrefixTable
      ensures added == old(reg.id !in registeredPrefixTable.removeRequests)
      ensures lastEntryId == old(lastEntryId) + if reg.hasOnInterest then 1 else 0
      ensures registeredPrefixTable.removeRequests == old(if reg.id in registeredPrefixTable.removeRequests
        then RemoveFirst(registeredPrefixTable.removeRequests, reg.id) else registeredPrefixTable.removeRequests)
      ensures registeredPrefixTable.table == old(registeredPrefixTable.table)
        + if added then [Prefix(reg.id, if reg.hasOnInterest then lastEntryId else 0)] else []
      ensures interestFilterTable.table == old(
        var made := interestFilterTable.table + [Filter(lastEntryId + 1, reg.id)];
        if !reg.hasOnInterest then interestFilterTable.table
        else if reg.id in registeredPrefixTable.removeRequests then WithoutFilter(made, lastEntryId + 1) else made)
    {
      var interestFilterId := 0;
      if reg.hasOnInterest {
        lastEntryId := lastEntryId + 1;
        interestFilterId := lastEntryId;
        interestFilterTable.SetInterestFilter(Filter(interestFilterId, reg.id));
      }
      added := registeredPrefixTable.Add(reg.id, interestFilterId);
      if !added && interestFilterId > 0 {
        interestFilterTable.UnsetInterestFilter(interestFilterId);
      }
    }

    /** The onData callback of a command interest: the reply to a registration. */
    method RegisterResponse(reg: Registration, reply: Reply)
      requires registeredPrefixTable.interestFilterTable == interestFilterTable
      modifies this`lastEntryId, this`log, interestFilterTable, registeredPrefixTable
      ensures View() == Respond(old(View()), reg, reply)
    {
      hide Infos, RemoveFirst, WithoutFilter;
      if reply != Status(200) {
        log := log + [RegisterFailed(reg.id)];
        return;
      }
      if reg.id != 0 {
        var added := AddRegistered(reg);
        if !added {
          log := log + [RegisterWithdrawn(reg.id)];
          return;
        }
      }
      log := log + [RegisterSucceeded(reg.id, reg.hasOnSuccess)];
    }

    method CallOnData(entry: Entry<I>, reply: Reply)
      requires registeredPrefixTable.interestFilterTable == interestFilterTable
      modifies this`lastEntryId, this`log, interestFilterTable, registeredPrefixTable
      ensures View() == DeliverOne(old(View()), entry.info, reply)
    {
      log := log + [GotData(entry.info.id)];
      if entry.info.callbacks.Response? {
        RegisterResponse(entry.info.callbacks.registration, reply);
      }
    }

    method ExtractForData(matches: I -> bool) returns (entries: seq<Entry<I>>)
      requires Linked()
      modifies pendingInterestTable`table, pendingInterestTable.table
      ensures Linked()
      ensures Infos(entries) == Matched(Infos(old(pendingInterestTable.table)), ByData(matches))
      ensures Infos(pendingInterestTable.table) == Unmatched(Infos(old(pendingInterestTable.table)), ByData(matches))
    {
      hide Infos, Matched, Unmatched;
      ghost var was := pendingInterestTable.table;
      entries := pendingInterestTable.ExtractEntriesForExpressedInterest(matches);
      assert forall t :: t in delayedCalls && t !in was ==> t.isRemoved;
    }

    /** Extract the entries that the data matches, and call each one's onData. */
    method SatisfyPendingInterests(matches: I -> bool, reply: Reply)
      requires Valid()
      modifies this`lastEntryId, this`log, pendingInterestTable`table, pendingInterestTable.table, interestFilterTable,
               registeredPrefixTable
      ensures Valid() && View() == Apply(old(View()), DataArrives(matches, reply))
    {
      hide Inv, Infos, Matched, Unmatched, DeliverOne, Deliver, LinkedTo;
      assert registeredPrefixTable.interestFilterTable == interestFilterTable;
      hide Linked;
      ghost var before := View();
      StepInv(before, DataArrives(matches, reply));
      var pitEntries := ExtractForData(matches);
      assert View() == before.(pit := Unmatched(before.pit, ByData(matches)));
      CallAll(pitEntries, reply);
    }

    method CallAll(entries: seq<Entry<I>>, reply: Reply)
      requires registeredPrefixTable.interestFilterTable == interestFilterTable
      modifies this`lastEntryId, this`log, interestFilterTable, registeredPrefixTable
      ensures View() == Deliver(old(View()), Infos(entries), reply)
    {
      hide DeliverOne, Deliver, Infos, View;
      ghost var end, infos := Deliver(View(), Infos(entries), reply), Infos(entries);
      assert infos[0..] == infos;
      for i := 0 to |entries|
        invariant Deliver(View(), infos[i..], reply) == end
      {
        DeliverNext(View(), infos, i, reply);
        CallOnData(entries[i], reply);
      }
      DeliverNone(View(), infos[|entries|..], reply);
    }

    method ExtractForNack(same: I -> bool) returns (entries: seq<Entry<I>>)
      requires Linked()
      modifies pendingInterestTable`table, pendingInterestTable.table
      ensures Linked()
      ensures Infos(entries) == Matched(Infos(old(pendingInterestTable.table)), ByNack(same))
      ensures Infos(pendingInterestTable.table) == Unmatched(Infos(old(pendingInterestTable.table)), ByNack(same))
    {
      hide Infos, Matched, Unmatched;
      ghost var was := pendingInterestTable.table;
      entries := pendingInterestTable.ExtractEntriesForNackInterest(same);
      assert forall t :: t in delayedCalls && t !in was ==> t.isRemoved;
    }

    method CallOnNacks(entries: seq<Entry<I>>)
      modifies this`log
      ensures log == old(log) + NackEvents(Infos(entries))
    {
      ghost var end := log + NackEvents(Infos(entries));
      assert Infos(entries)[0..] == Infos(entries);
      for i := 0 to |entries|
        invariant log + NackEvents(Infos(entries)[i..]) == end
      {
        ghost var here, rest := log, Infos(entries)[i + 1..];
        assert Infos(entries)[i..][1..] == rest;
        log := log + [GotNack(entries[i].info.id)];
        assert log + NackEvents(rest) == here + ([GotNack(entries[i].info.id)] + NackEvents(rest));
      }
      assert Infos(entries)[|entries|..] == [];
    }

    /** A Nack: extract the entries with a nack callback and the same interest, and call each one's callback. */
    method OnNetworkNack(same: I -> bool)
      requires Valid()
      modifies this`log, pendingInterestTable`table, pendingInterestTable.table
      ensures Valid() && View() == Apply(old(View()), NackArrives(same))
    {
      hide Inv, Infos, Matched, Unmatched, NackEvents, Linked;
      ghost var before := View();
      StepInv(before, NackArrives(same));
      var pitEntries := ExtractForNack(same);
      CallOnNacks(pitEntries);
    }

    method EraseEntry(entry: Entry<I>) returns (removed: bool)
      requires Linked() && LinkedTo([entry], pendingInterestTable.table)
      modifies pendingInterestTable`table, entry
      ensures Linked() && removed == (|Matched(Infos(old(pendingInterestTable.table)), ById(entry.info.id))| > 0)
      ensures Infos(pendingInterestTable.table) == if removed
        then Unmatched(Infos(old(pendingInterestTable.table)), ById(entry.info.id))
        else Infos(old(pendingInterestTable.table))
    {
      hide Infos, Matched, Unmatched;
      ghost var was := pendingInterestTable.table;
      assert entry in [entry];
      assert entry !in was ==> entry.isRemoved;
      WithoutIsById(was, entry);
      removed := pendingInterestTable.RemoveEntry(entry);
      assert forall t :: t in delayedCalls && t !in was ==> t.isRemoved;
    }

    /** Nothing happens if the entry was removed from the table. */
    method ProcessInterestTimeout(entry: Entry<I>)
      requires Linked() && LinkedTo([entry], pendingInterestTable.table)
      modifies this`log, pendingInterestTable`table, entry
      ensures Linked() && View() == Timeout(old(View()), entry.info)
    {
      hide Infos, Matched, Unmatched, Linked, LinkedTo;
      var removed := EraseEntry(entry);
      if removed {
        var e := entry.info;
        log := log + [TimedOut(e.id, e.hasOnTimeout)];
        if e.callbacks.Response? {
          log := log + [RegisterFailed(e.callbacks.registration.id)];
        }
      }
    }

    /** The delay of a timer has passed. */
    method FireTimer(k: nat)
      requires Valid() && k < |delayedCalls|
      modifies this`log, this`delayedCalls, pendingInterestTable`table, delayedCalls[k]
      ensures Valid() && View() == Apply(old(View()), TimerFires(k))
    {
      hide Inv, Infos, Timeout;
      ghost var before := View();
      StepInv(before, TimerFires(k));
      var entry := delayedCalls[k];
      delayedCalls := delayedCalls[..k] + delayedCalls[k + 1..];
      assert Infos(delayedCalls) == before.timers[..k] + before.timers[k + 1..];
      assert View() == before.(timers := before.timers[..k] + before.timers[k + 1..]);
      ProcessInterestTimeout(entry);
    }

    method RemovePendingInterest(id: nat)
      requires Valid()
      modifies this`log, pendingInterestTable, pendingInterestTable.table
      ensures Valid() && View() == Apply(old(View()), Step.RemovePendingInterest(id))
    {
      hide Inv, Infos, Matched, Unmatched;
      ghost var before, was := View(), pendingInterestTable.table;
      StepInv(before, Step.RemovePendingInterest(id));
      var entries := EraseId(id);
      log := log + RemovedEvents(Infos(entries));
      if entries == [] {
        NoneMatched(before.pit, ById(id));
        assert log == before.log;
      }
      assert View() == RemovePending(before, id);
    }

    method EraseId(id: nat) returns (entries: seq<Entry<I>>)
      requires Linked()
      modifies pendingInterestTable, pendingInterestTable.table
      ensures Linked()
      ensures Infos(entries) == Matched(Infos(old(pendingInterestTable.table)), ById(id))
      ensures Infos(pendingInterestTable.table) == Unmatched(Infos(old(pendingInterestTable.table)), ById(id))
      ensures pendingInterestTable.removeRequests == if entries == []
        then AddRequest(old(pendingInterestTable.removeRequests), id) else old(pendingInterestTable.removeRequests)
    {
      hide Infos, Matched, Unmatched;
      ghost var was := pendingInterestTable.table;
      entries := pendingInterestTable.RemovePendingInterest(id);
      assert forall t :: t in delayedCalls && t !in was ==> t.isRemoved;
    }

    method RemoveRegisteredPrefix(id: nat)
      requires Valid()
      modifies interestFilterTable, registeredPrefixTable
      ensures Valid() && View() == Apply(old(View()), Step.RemoveRegisteredPrefix(id))
    {
      hide Inv, Infos, LinkedTo, WithoutPrefix, UnsetRelated;
      ghost var before := View();
      StepInv(before, Step.RemoveRegisteredPrefix(id));
      WithoutPrefixMember(before.prefixes, id, Prefix(id, 0));
      if WithoutPrefix(before.prefixes, id) == before.prefixes { UnsetNone(before.prefixes, id, before.filters); }
      registeredPrefixTable.RemoveRegisteredPrefix(id);
      assert View() == RemoveRegistered(before, id);
    }

    method SetInterestFilter(id: nat)
      requires Valid()
      modifies interestFilterTable
      ensures Valid() && View() == Apply(old(View()), SetFilter(id))
    {
      hide Inv, Infos, Linked;
      ghost var before := View();
      StepInv(before, SetFilter(id));
      interestFilterTable.SetInterestFilter(Filter(id, 0));
    }

    method UnsetInterestFilter(id: nat)
      requires Valid()
      modifies interestFilterTable
      ensures Valid() && View() == Apply(old(View()), UnsetFilter(id))
    {
      hide Inv, Infos, Linked, WithoutFilter;
      ghost var before := View();
      StepInv(before, UnsetFilter(id));
      interestFilterTable.UnsetInterestFilter(id);
    }

    /** nfdRegisterPrefix: express the command interest under a new id. */
    method RegisterPrefix(reg: Registration, interest: I, oversize: bool) returns (threw: bool)
      requires Valid() && Enabled(View(), Step.RegisterPrefix(reg, interest, oversize))
      modifies this, pendingInterestTable
      ensures Valid() && View() == Apply(old(View()), Step.RegisterPrefix(reg, interest, oversize))
      ensures threw == ThrowsNow(old(View()), CommandInterest(old(lastEntryId) + 1, reg, interest, oversize))
    {
      hide Inv, Infos, Linked, Ids, RegistrationIds, Express, Enabled;
      ghost var before := View();
      NewIdIsFresh(before);
      StepInv(before, Step.RegisterPrefix(reg, interest, oversize));
      var id := GetNextEntryId();
      assert View() == before.(lastId := before.lastId + 1);
      threw := ExpressInterest(CommandInterest(id, reg, interest, oversize));
    }
  }

  lemma NewIdIsFresh<I>(s: State<I>)
    requires Inv(s)
    ensures s.lastId + 1 !in Ids(s.expressed)
  {
  }
}

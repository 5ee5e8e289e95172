/** The tables of Node, updated in place. Each method is tied to the specification of the protocol. */
module NodeTables {
  import opened NodeSpec

  /** An entry of the pending interest table. */
  class Entry<I> {
    const info: Expressed<I>
    var isRemoved: bool

    constructor (info: Expressed<I>)
      ensures this.info == info && !isRemoved
    {
      this.info := info;
      isRemoved := false;
    }
  }

  function Infos<I>(table: seq<Entry<I>>): (r: seq<Expressed<I>>)
    ensures |r| == |table|
    ensures forall i :: 0 <= i < |table| ==> r[i] == table[i].info
  {
    if table == [] then [] else Infos(table[..|table| - 1]) + [table[|table| - 1].info]
  }

  lemma InfosOne<I>(a: seq<Entry<I>>, e: Entry<I>)
    ensures Infos(a + [e]) == Infos(a) + [e.info]
  {
    assert (a + [e])[..|a|] == a;
  }

  lemma {:induction false} RemoveFirstAt(s: seq<nat>, i: nat, x: nat)
    requires i <= |s| && x !in s[..i]
    ensures i == |s| ==> RemoveFirst(s, x) == s
    ensures i < |s| && s[i] == x ==> RemoveFirst(s, x) == s[..i] + s[i + 1..]
  {
    if i > 0 {
      assert x !in s[1..][..i - 1] by { assert s[1..][..i - 1] == s[1..i]; }
      RemoveFirstAt(s[1..], i - 1, x);
      assert s[0] in s[..i];
    }
  }

  /** Find a request and erase it. */
  method EraseRequest(requests: seq<nat>, id: nat) returns (found: bool, rest: seq<nat>)
    ensures found == (id in requests)
    ensures rest == if found then RemoveFirst(requests, id) else requests
  {
    var i := 0;
    while i < |requests| && requests[i] != id
      invariant i <= |requests| && id !in requests[..i]
    {
      i := i + 1;
    }
    found := i < |requests|;
    RemoveFirstAt(requests, i, id);
    rest := if found then requests[..i] + requests[i + 1..] else requests;
  }

  method AddRemoveRequest(requests: seq<nat>, id: nat) returns (more: seq<nat>)
    ensures more == AddRequest(requests, id)
  {
    more := if id in requests then requests else requests + [id];
  }

  ghost predicate Distinct<T>(s: seq<T>) { forall i, j :: 0 <= i < j < |s| ==> s[i] != s[j] }

  function RemoveAt<T>(s: seq<T>, i: nat): seq<T>
    requires i < |s|
  {
    s[..i] + s[i + 1..]
  }

  lemma RemoveAtDistinct<T>(s: seq<T>, i: nat)
    requires Distinct(s) && i < |s|
    ensures Distinct(RemoveAt(s, i))
    ensures forall x :: x in RemoveAt(s, i) <==> x in s && x != s[i]
  {
    forall x | x in s && x != s[i] ensures x in RemoveAt(s, i) {
      var k :| 0 <= k < |s| && s[k] == x;
      assert x == RemoveAt(s, i)[if k < i then k else k - 1];
    }
  }

  function Without<T(==)>(s: seq<T>, x: T): seq<T> {
    if s == [] then [] else Without(s[..|s| - 1], x) + if s[|s| - 1] == x then [] else [s[|s| - 1]]
  }

  lemma {:induction false} WithoutNone<T>(s: seq<T>, x: T)
    requires x !in s
    ensures Without(s, x) == s
  {
    if s != [] { WithoutNone(s[..|s| - 1], x); }
  }

  /** Removing a value from distinct ones removes it where it is. */
  lemma {:induction false} WithoutAt<T>(s: seq<T>, i: nat)
    requires Distinct(s) && i < |s|
    ensures Without(s, s[i]) == RemoveAt(s, i)
  {
    var rest, last := s[..|s| - 1], s[|s| - 1];
    if i == |s| - 1 {
      WithoutNone(rest, last);
    } else {
      WithoutAt(rest, i);
      assert RemoveAt(s, i) == RemoveAt(rest, i) + [last];
    }
  }

  /** How far a backward loop has taken the selected entries out of a table: down to index n. */
  ghost predicate Swept<I>(was: seq<Expressed<I>>, sel: Selector<I>, n: nat, out: seq<Expressed<I>>,
                           now: seq<Expressed<I>>)
  {
    && n <= |was| && n <= |now| && now[..n] == was[..n]
    && Matched(was, sel) == out + Matched(was[..n], sel)
    && Unmatched(was, sel) == Unmatched(was[..n], sel) + now[n..]
  }

  lemma SweepStart<I>(was: seq<Expressed<I>>, sel: Selector<I>)
    ensures Swept(was, sel, |was|, [], was)
  {
    assert was[..|was|] == was;
  }

  lemma SweepStep<I>(was: seq<Expressed<I>>, sel: Selector<I>, n: nat, out: seq<Expressed<I>>, now: seq<Expressed<I>>)
    requires 0 < n && Swept(was, sel, n, out, now)
    ensures if Selects(sel, now[n - 1]) then Swept(was, sel, n - 1, out + [now[n - 1]], RemoveAt(now, n - 1))
            else Swept(was, sel, n - 1, out, now)
  {
    var head, rest, last := was[..n], was[..n - 1], was[n - 1];
    assert head[..n - 1] == rest && head[n - 1] == last == now[n - 1];
    assert now[..n - 1] == rest by { assert now[..n][..n - 1] == now[..n - 1]; }
    var m, u := Matched(rest, sel), Unmatched(rest, sel);
    assert Matched(head, sel) == (if Selects(sel, last) then [last] else []) + m;
    assert Unmatched(head, sel) == u + if Selects(sel, last) then [] else [last];
    hide Matched, Unmatched, Selects;
    if Selects(sel, last) {
      assert out + ([last] + m) == (out + [last]) + m;
      assert RemoveAt(now, n - 1)[n - 1..] == now[n..] && RemoveAt(now, n - 1)[..n - 1] == rest;
    } else {
      assert (u + [last]) + now[n..] == u + now[n - 1..];
    }
  }

  lemma SweepEnd<I>(was: seq<Expressed<I>>, sel: Selector<I>, out: seq<Expressed<I>>, now: seq<Expressed<I>>)
    requires Swept(was, sel, 0, out, now)
    ensures out == Matched(was, sel) && now == Unmatched(was, sel)
  {
    assert was[..0] == [] && now[0..] == now;
  }

  /** How far a backward loop has taken the prefixes with an id out of a table, with the filters then left. */
  ghost predicate PrefixesSwept(was: seq<Prefix>, id: nat, filters: seq<Filter>, n: nat, now: seq<Prefix>,
                                left: seq<Filter>)
  {
    && n <= |was| && n <= |now| && now[..n] == was[..n]
    && WithoutPrefix(was, id) == WithoutPrefix(was[..n], id) + now[n..]
    && UnsetRelated(was, id, filters) == UnsetRelated(was[..n], id, left)
  }

  lemma PrefixesSweepStart(was: seq<Prefix>, id: nat, filters: seq<Filter>)
    ensures PrefixesSwept(was, id, filters, |was|, was, filters)
  {
    assert was[..|was|] == was;
  }

  lemma PrefixesSweepStep(was: seq<Prefix>, id: nat, filters: seq<Filter>, n: nat, now: seq<Prefix>, left: seq<Filter>)
    requires 0 < n && PrefixesSwept(was, id, filters, n, now, left)
    ensures now[n - 1].id != id ==> PrefixesSwept(was, id, filters, n - 1, now, left)
    ensures now[n - 1].id == id ==>
      PrefixesSwept(was, id, filters, n - 1, RemoveAt(now, n - 1),
                    if now[n - 1].filterId > 0 then WithoutFilter(left, now[n - 1].filterId) else left)
  {
    hide WithoutFilter;
    var head, rest, last := was[..n], was[..n - 1], was[n - 1];
    assert head[..n - 1] == rest && head[n - 1] == last == now[n - 1];
    assert now[..n - 1] == rest by { assert now[..n][..n - 1] == now[..n - 1]; }
    var after := if last.id == id && last.filterId > 0 then WithoutFilter(left, last.filterId) else left;
    assert UnsetRelated(head, id, left) == UnsetRelated(rest, id, after);
    var kept := WithoutPrefix(rest, id);
    assert WithoutPrefix(head, id) == kept + if last.id == id then [] else [last];
    hide WithoutPrefix, UnsetRelated;
    if last.id == id {
      assert RemoveAt(now, n - 1)[n - 1..] == now[n..] && RemoveAt(now, n - 1)[..n - 1] == rest;
    } else {
      assert (kept + [last]) + now[n..] == kept + now[n - 1..];
    }
  }

  lemma PrefixesSweepEnd(was: seq<Prefix>, id: nat, filters: seq<Filter>, now: seq<Prefix>, left: seq<Filter>)
    requires PrefixesSwept(was, id, filters, 0, now, left)
    ensures now == WithoutPrefix(was, id) && left == UnsetRelated(was, id, filters)
  {
    assert was[..0] == [] && now[0..] == now;
  }

  class PendingInterestTable<I> {
    var table: seq<Entry<I>>
    var removeRequests: seq<nat>

    constructor ()
      ensures table == [] && removeRequests == []
    {
      table := [];
      removeRequests := [];
    }

    /** The entries are distinct objects, none marked as removed. */
    ghost predicate Valid()
      reads this`table, table
    {
      Distinct(table) && forall e :: e in table ==> !e.isRemoved
    }

    method Add(info: Expressed<I>) returns (entry: Entry?<I>)
      requires Valid()
      modifies this
      ensures Valid()
      ensures old(info.id in removeRequests) ==>
        entry == null && table == old(table) && removeRequests == old(RemoveFirst(removeRequests, info.id))
      ensures old(info.id !in removeRequests) ==>
        entry != null && fresh(entry) && entry.info == info && !entry.isRemoved
        && table == old(table) + [entry] && removeRequests == old(removeRequests)
    {
      var found, rest := EraseRequest(removeRequests, info.id);
      if found {
        removeRequests := rest;
        return null;
      }
      var added := new Entry(info);
      table := table + [added];
      entry := added;
    }

    /** Each entry that was in the table is marked exactly when it no longer is. */
    ghost predicate Marked(was: seq<Entry<I>>)
      reads this`table, was
    {
      && (forall e :: e in was ==> (e.isRemoved <==> e !in table))
      && (forall e :: e in table ==> e in was)
    }

    /** Mark an entry as removed and erase it. */
    method Erase(i: nat, ghost was: seq<Entry<I>>)
      requires Valid() && i < |table| && Marked(was)
      modifies this`table, table[i]
      ensures Valid() && Marked(was)
      ensures table == RemoveAt(old(table), i) && Infos(table) == RemoveAt(Infos(old(table)), i)
    {
      RemoveAtDistinct(table, i);
      table[i].isRemoved := true;
      table := table[..i] + table[i + 1..];
    }

    /** How far a backward loop is: down to index n. */
    ghost predicate Sweeping(was: seq<Entry<I>>, sel: Selector<I>, n: nat, out: seq<Entry<I>>)
      reads this`table, table, was
    {
      Valid() && Marked(was) && Swept(Infos(was), sel, n, Infos(out), Infos(table))
    }

    lemma SweepingStart(sel: Selector<I>)
      requires Valid()
      ensures Sweeping(table, sel, |table|, [])
    {
      SweepStart(Infos(table), sel);
    }

    lemma SweepingNext(was: seq<Entry<I>>, sel: Selector<I>, i: nat, out: seq<Entry<I>>)
      requires i < |table| && Sweeping(was, sel, i + 1, out)
      ensures table[i] in was && (Selects(sel, table[i].info) || Sweeping(was, sel, i, out))
    {
      SweepStep(Infos(was), sel, i + 1, Infos(out), Infos(table));
    }

    lemma SweepingEnd(was: seq<Entry<I>>, sel: Selector<I>, out: seq<Entry<I>>)
      requires Sweeping(was, sel, 0, out)
      ensures Valid() && Marked(was)
      ensures Infos(out) == Matched(Infos(was), sel) && Infos(table) == Unmatched(Infos(was), sel)
    {
      SweepEnd(Infos(was), sel, Infos(out), Infos(table));
    }

    /** Take a selected entry out of the table. */
    method TakeOut(i: nat, ghost was: seq<Entry<I>>, ghost sel: Selector<I>, entries: seq<Entry<I>>)
      returns (more: seq<Entry<I>>)
      requires i < |table| && Sweeping(was, sel, i + 1, entries) && Selects(sel, table[i].info)
      modifies this`table, table[i]
      ensures Sweeping(was, sel, i, more) && |table| == |old(table)| - 1 && |more| == |entries| + 1
    {
      hide Swept, Marked, Valid, Infos;
      SweepStep(Infos(was), sel, i + 1, Infos(entries), Infos(table));
      InfosOne(entries, table[i]);
      more := entries + [table[i]];
      Erase(i, was);
    }

    /** Take out the entries whose interest the data matches. */
    method ExtractEntriesForExpressedInterest(matches: I -> bool) returns (entries: seq<Entry<I>>)
      requires Valid()
      modifies this`table, table
      ensures Valid() && Marked(old(table))
      ensures Infos(entries) == Matched(Infos(old(table)), ByData(matches))
      ensures Infos(table) == Unmatched(Infos(old(table)), ByData(matches))
    {
      hide Sweeping, Valid, Marked, Infos;
      entries := [];
      ghost var was, sel := table, ByData(matches);
      var i := |table| - 1;
      SweepingStart(sel);
      while i >= 0
        invariant -1 <= i < |table| && Sweeping(was, sel, i + 1, entries)
      {
        SweepingNext(was, sel, i, entries);
        if matches(table[i].info.interest) {
          entries := TakeOut(i, was, sel, entries);
        }
        i := i - 1;
      }
      SweepingEnd(was, sel, entries);
    }

    /** Take out the entries with a nack callback whose interest is the same. */
    method ExtractEntriesForNackInterest(same: I -> bool) returns (entries: seq<Entry<I>>)
      requires Valid()
      modifies this`table, table
      ensures Valid() && Marked(old(table))
      ensures Infos(entries) == Matched(Infos(old(table)), ByNack(same))
      ensures Infos(table) == Unmatched(Infos(old(table)), ByNack(same))
    {
      hide Sweeping, Valid, Marked, Infos;
      entries := [];
      ghost var was, sel := table, ByNack(same);
      var i := |table| - 1;
      SweepingStart(sel);
      while i >= 0
        invariant -1 <= i < |table| && Sweeping(was, sel, i + 1, entries)
      {
        SweepingNext(was, sel, i, entries);
        if table[i].info.hasOnNack && same(table[i].info.interest) {
          entries := TakeOut(i, was, sel, entries);
        }
        i := i - 1;
      }
      SweepingEnd(was, sel, entries);
    }

    method EraseById(id: nat) returns (count: nat, entries: seq<Entry<I>>)
      requires Valid()
      modifies this`table, table
      ensures Valid() && Marked(old(table)) && count == |entries|
      ensures Infos(entries) == Matched(Infos(old(table)), ById(id))
      ensures Infos(table) == Unmatched(Infos(old(table)), ById(id))
    {
      hide Sweeping, Valid, Marked, Infos;
      entries := [];
      ghost var was, sel := table, ById(id);
      count := 0;
      var i := |table| - 1;
      SweepingStart(sel);
      while i >= 0
        invariant -1 <= i < |table| && Sweeping(was, sel, i + 1, entries) && count == |entries|
      {
        SweepingNext(was, sel, i, entries);
        if table[i].info.id == id {
          count := count + 1;
          entries := TakeOut(i, was, sel, entries);
        }
        i := i - 1;
      }
      SweepingEnd(was, sel, entries);
    }

    /** Remove the entries with the id, and return them for the log; if there is none, ask for the removal of one that
        comes later. */
    method RemovePendingInterest(id: nat) returns (entries: seq<Entry<I>>)
      requires Valid()
      modifies this, table
      ensures Valid() && Marked(old(table))
      ensures Infos(entries) == Matched(Infos(old(table)), ById(id))
      ensures Infos(table) == Unmatched(Infos(old(table)), ById(id))
      ensures removeRequests == if entries == [] then AddRequest(old(removeRequests), id) else old(removeRequests)
    {
      hide Marked, Valid, Infos, Matched, Unmatched;
      var count, erased := EraseById(id);
      entries := erased;
      if count == 0 {
        removeRequests := AddRemoveRequest(removeRequests, id);
      }
    }

    /** Remove this entry, if it is still in the table. */
    method RemoveEntry(entry: Entry<I>) returns (removed: bool)
      requires Valid()
      modifies this`table, entry
      ensures Valid() && Marked(old(table))
      ensures removed == (entry in old(table)) && entry.isRemoved == (removed || old(entry.isRemoved))
      ensures table == if removed then Without(old(table), entry) else old(table)
    {
      if entry.isRemoved {
        return false;
      }
      var i := 0;
      while i < |table|
        invariant i <= |table| && table == old(table) && Valid() && entry !in table[..i] && !entry.isRemoved
      {
        if table[i] == entry {
          WithoutAt(table, i);
          Erase(i, table);
          return true;
        }
        i := i + 1;
      }
      WithoutNone(table, entry);
      return false;
    }
  }

  class InterestFilterTable {
    var table: seq<Filter>

    constructor ()
      ensures table == []
    {
      table := [];
    }

    method SetInterestFilter(filter: Filter)
      modifies this
      ensures table == old(table) + [filter]
    {
      table := table + [filter];
    }

    /** Remove the entries with the id. */
    method UnsetInterestFilter(id: nat)
      modifies this
      ensures table == WithoutFilter(old(table), id)
    {
      ghost var was := table;
      var i := |table| - 1;
      assert table[..i + 1] == table;
      while i >= 0
        invariant -1 <= i < |was| && i < |table| && table[..i + 1] == was[..i + 1]
        invariant WithoutFilter(was, id) == WithoutFilter(was[..i + 1], id) + table[i + 1..]
      {
        var head := was[..i + 1];
        assert head[..i] == was[..i] && head[i] == table[i];
        if table[i].id == id {
          table := table[..i] + table[i + 1..];
        } else {
          assert table[i..] == [table[i]] + table[i + 1..];
        }
        i := i - 1;
      }
    }
  }

  class RegisteredPrefixTable {
    var table: seq<Prefix>
    var removeRequests: seq<nat>
    const interestFilterTable: InterestFilterTable

    constructor (interestFilterTable: InterestFilterTable)
      ensures table == [] && removeRequests == [] && this.interestFilterTable == interestFilterTable
    {
      table := [];
      removeRequests := [];
      this.interestFilterTable := interestFilterTable;
    }

    method Add(id: nat, filterId: nat) returns (added: bool)
      modifies this
      ensures added == old(id !in removeRequests)
      ensures table == if added then old(table) + [Prefix(id, filterId)] else old(table)
      ensures removeRequests == if added then old(removeRequests) else old(RemoveFirst(removeRequests, id))
    {
      var found, rest := EraseRequest(removeRequests, id);
      if found {
        removeRequests := rest;
        return false;
      }
      table := table + [Prefix(id, filterId)];
      added := true;
    }

    method EraseById(id: nat) returns (count: nat)
      modifies this`table, interestFilterTable
      ensures table == WithoutPrefix(old(table), id) && (count == 0 <==> table == old(table))
      ensures interestFilterTable.table == UnsetRelated(old(table), id, old(interestFilterTable.table))
    {
      ghost var was, filters := table, interestFilterTable.table;
      count := 0;
      var i := |table| - 1;
      PrefixesSweepStart(was, id, filters);
      while i >= 0
        invariant -1 <= i < |table| && |table| + count == |was| && (count == 0 ==> table == was)
        invariant PrefixesSwept(was, id, filters, i + 1, table, interestFilterTable.table)
      {
        var entry := table[i];
        PrefixesSweepStep(was, id, filters, i + 1, table, interestFilterTable.table);
        hide PrefixesSwept, WithoutFilter;
        if entry.id == id {
          count := count + 1;
          if entry.filterId > 0 {
            interestFilterTable.UnsetInterestFilter(entry.filterId);
          }
          table := table[..i] + table[i + 1..];
        }
        i := i - 1;
      }
      PrefixesSweepEnd(was, id, filters, table, interestFilterTable.table);
    }

    /** Remove the entries with the id and the filters made with them; if there is none, ask for the removal of one
        that comes later. */
    method RemoveRegisteredPrefix(id: nat)
      modifies this, interestFilterTable
      ensures table == WithoutPrefix(old(table), id)
      ensures interestFilterTable.table == UnsetRelated(old(table), id, old(interestFilterTable.table))
      ensures removeRequests == if table == old(table) then AddRequest(old(removeRequests), id) else old(removeRequests)
    {
      var count := EraseById(id);
      if count == 0 {
        removeRequests := AddRemoveRequest(removeRequests, id);
      }
    }
  }
}

/** The byte-budget LRU with expiry that both caches sit on (lru.go).

    groupcache's recency list is a sequence, most recent first.  Time is a
    parameter.  The calls an operation makes to onEvict are returned, in order. */
module Lru {
  import opened Common

  datatype Entry<+V> = Entry(key: string, value: V, cost: nat, expires: Option<int>)

  function Cost<V>(s: seq<Entry<V>>): nat {
    if s == [] then 0 else Cost(s[..|s| - 1]) + s[|s| - 1].cost
  }

  function Values<V>(s: seq<Entry<V>>): seq<V> {
    seq(|s|, i requires 0 <= i < |s| => s[i].value)
  }

  predicate HasKey<V>(s: seq<Entry<V>>, key: string) {
    exists i :: 0 <= i < |s| && s[i].key == key
  }

  predicate Distinct<V>(s: seq<Entry<V>>) {
    forall i, j :: 0 <= i < j < |s| ==> s[i].key != s[j].key
  }

  /** The position of key, or |s|. */
  function Index<V>(s: seq<Entry<V>>, key: string): (i: nat)
    ensures i <= |s|
    ensures i < |s| ==> s[i].key == key
    ensures HasKey(s, key) <==> i < |s|
    ensures forall j :: 0 <= j < i ==> s[j].key != key
  {
    if s == [] then 0
    else if s[0].key == key then 0
    else
      assert forall j :: 1 <= j < |s| ==> s[j] == s[1..][j - 1];
      1 + Index(s[1..], key)
  }

  /** cache.Remove: the list without the entry of key. */
  function Without<V>(s: seq<Entry<V>>, key: string): seq<Entry<V>> {
    var i := Index(s, key);
    if i < |s| then s[..i] + s[i + 1..] else s
  }

  /** The entries a Remove hands to onEvict: none or one. */
  function Removed<V>(s: seq<Entry<V>>, key: string): seq<Entry<V>> {
    var i := Index(s, key);
    if i < |s| then [s[i]] else []
  }

  /** The eviction loop: drop the oldest entry while over budget. */
  function Fit<V>(s: seq<Entry<V>>, budget: int): (r: seq<Entry<V>>)
    ensures |r| <= |s| && r == s[..|r|]
  {
    if s == [] || Cost(s) <= budget then s else Fit(s[..|s| - 1], budget)
  }

  predicate Expired<V>(e: Entry<V>, now: int) {
    e.expires.Some? && e.expires.value <= now
  }

  function Reversed<T>(s: seq<T>): seq<T> {
    if s == [] then [] else [s[|s| - 1]] + Reversed(s[..|s| - 1])
  }

  // ------------------------------------------------------------------ properties

  lemma {:induction false} CostConcat<V>(a: seq<Entry<V>>, b: seq<Entry<V>>)
    ensures Cost(a + b) == Cost(a) + Cost(b)
  {
    if b == [] {
      assert a + b == a;
    } else {
      var init := b[..|b| - 1];
      assert (a + b)[..|a + b| - 1] == a + init;
      CostConcat(a, init);
    }
  }

  lemma CostWithout<V>(s: seq<Entry<V>>, key: string)
    ensures Cost(s) == Cost(Without(s, key)) + Cost(Removed(s, key))
  {
    hide Index;
    var i := Index(s, key);
    if i < |s| {
      hide Cost;
      assert s == s[..i] + ([s[i]] + s[i + 1..]);
      CostConcat(s[..i], [s[i]] + s[i + 1..]);
      CostConcat([s[i]], s[i + 1..]);
      CostConcat(s[..i], s[i + 1..]);
    }
  }

  /** Put keeps exactly the longest most-recent-first run that fits the budget. */
  lemma {:induction false} FitIsLongest<V>(s: seq<Entry<V>>, budget: int, n: nat)
    requires |Fit(s, budget)| < n <= |s|
    ensures Cost(s[..n]) > budget
  {
    if n < |s| {
      FitIsLongest(s[..|s| - 1], budget, n);
      assert s[..|s| - 1][..n] == s[..n];
    } else {
      assert s[..n] == s;
    }
  }

  lemma {:induction false} FitFits<V>(s: seq<Entry<V>>, budget: int)
    ensures Fit(s, budget) == [] || Cost(Fit(s, budget)) <= budget
  {
    if s != [] && Cost(s) > budget {
      FitFits(s[..|s| - 1], budget);
    }
  }

  /** An admissible new entry always survives its own put. */
  lemma NewEntrySurvives<V>(e: Entry<V>, rest: seq<Entry<V>>, budget: int)
    requires e.cost <= budget
    ensures |Fit([e] + rest, budget)| > 0 && Fit([e] + rest, budget)[0] == e
  {
    var all := [e] + rest;
    assert all[..1] == [e] && Cost([e]) == e.cost;
    if |Fit(all, budget)| < 1 {
      FitIsLongest(all, budget, 1);
    }
  }

  /** Remove takes out exactly the entry of key and keeps the order of the rest. */
  lemma WithoutRest<V>(s: seq<Entry<V>>, key: string)
    requires Distinct(s)
    ensures Distinct(Without(s, key)) && !HasKey(Without(s, key), key)
    ensures forall e :: e in Without(s, key) <==> e in s && e.key != key
    ensures |s| == |Without(s, key)| + |Removed(s, key)|
  {
    hide Index;
    var i := Index(s, key);
    if i < |s| {
      var w := Without(s, key);
      assert forall j :: 0 <= j < |w| ==> w[j] == s[if j < i then j else j + 1];
      forall e | e in s && e.key != key
        ensures e in Without(s, key)
      {
        var j :| 0 <= j < |s| && s[j] == e;
        assert Without(s, key)[if j < i then j else j - 1] == e;
      }
    }
  }

  lemma ValuesConcat<V>(a: seq<Entry<V>>, b: seq<Entry<V>>)
    ensures Values(a + b) == Values(a) + Values(b)
  {
  }

  lemma {:induction false} ReversedSame<T>(s: seq<T>)
    ensures multiset(Reversed(s)) == multiset(s)
  {
    if s != [] {
      ReversedSame(s[..|s| - 1]);
      assert s == s[..|s| - 1] + [s[|s| - 1]];
    }
  }

  lemma {:induction false} ReversedAppend<T>(x: T, s: seq<T>)
    ensures Reversed([x] + s) == Reversed(s) + [x]
  {
    if s != [] {
      assert ([x] + s)[..|s|] == [x] + s[..|s| - 1];
      ReversedAppend(x, s[..|s| - 1]);
    }
  }

  lemma OneMoreReversed<V>(all: seq<Entry<V>>, n: nat)
    requires n < |all|
    ensures Reversed(Values(all[n..])) == Reversed(Values(all[n + 1..])) + [all[n].value]
  {
    assert Values(all[n..]) == [all[n].value] + Values(all[n + 1..]);
    ReversedAppend(all[n].value, Values(all[n + 1..]));
  }

  /** Every value of s is still there or was handed to onEvict, once. */
  lemma WithoutConserves<V>(s: seq<Entry<V>>, key: string)
    ensures multiset(Values(s)) == multiset(Values(Without(s, key))) + multiset(Values(Removed(s, key)))
  {
    var i := Index(s, key);
    if i < |s| {
      assert s == s[..i] + ([s[i]] + s[i + 1..]);
      ValuesConcat(s[..i], [s[i]] + s[i + 1..]);
      ValuesConcat([s[i]], s[i + 1..]);
      ValuesConcat(s[..i], s[i + 1..]);
    }
  }

  /** What put hands to onEvict: the replaced value, then either the rejected
      value or the values that no longer fit, oldest first. */
  function PutEvicts<V>(s: seq<Entry<V>>, e: Entry<V>, budget: int): seq<V> {
    var rest := Without(s, e.key);
    Values(Removed(s, e.key)) +
    if e.cost > budget then [e.value]
    else Reversed(Values(([e] + rest)[|Fit([e] + rest, budget)|..]))
  }

  function PutKeeps<V>(s: seq<Entry<V>>, e: Entry<V>, budget: int): seq<Entry<V>> {
    var rest := Without(s, e.key);
    if e.cost > budget then rest else Fit([e] + rest, budget)
  }

  lemma ValuesSplit<V>(s: seq<Entry<V>>, n: nat)
    requires n <= |s|
    ensures multiset(Values(s)) == multiset(Values(s[..n])) + multiset(Values(s[n..]))
  {
    assert s == s[..n] + s[n..];
    ValuesConcat(s[..n], s[n..]);
  }

  lemma MultisetConcat<T>(a: seq<T>, b: seq<T>)
    ensures multiset(a + b) == multiset(a) + multiset(b)
  {
  }

  /** The eviction loop conserves values. */
  lemma FitConserves<V>(all: seq<Entry<V>>, budget: int)
    ensures var kept := Fit(all, budget);
            multiset(Values(all)) == multiset(Values(kept)) + multiset(Reversed(Values(all[|kept|..])))
  {
    var n := |Fit(all, budget)|;
    ValuesSplit(all, n);
    ReversedSame(Values(all[n..]));
  }

  lemma PushConserves<V>(e: Entry<V>, rest: seq<Entry<V>>)
    ensures multiset(Values([e] + rest)) == multiset{e.value} + multiset(Values(rest))
  {
    ValuesConcat([e], rest);
    assert Values([e]) == [e.value];
    MultisetConcat([e.value], Values(rest));
  }

  lemma Regroup<T>(before: multiset<T>, rest: multiset<T>, gone: multiset<T>, added: multiset<T>,
                   kept: multiset<T>, dropped: multiset<T>)
    requires before == rest + gone && added + rest == kept + dropped
    ensures before + added == kept + (gone + dropped)
  {
    assert before + added == (added + rest) + gone;
    assert (kept + dropped) + gone == kept + (gone + dropped);
  }

  /** Conservation: the values held before a put and the new value are exactly
      the values held after it and those given to onEvict. */
  lemma PutConserves<V>(s: seq<Entry<V>>, e: Entry<V>, budget: int)
    ensures multiset(Values(s)) + multiset{e.value} ==
            multiset(Values(PutKeeps(s, e, budget))) + multiset(PutEvicts(s, e, budget))
  {
    WithoutConserves(s, e.key);
    var rest, gone := Without(s, e.key), Values(Removed(s, e.key));
    if e.cost > budget {
      MultisetConcat(gone, [e.value]);
      Regroup(multiset(Values(s)), multiset(Values(rest)), multiset(gone), multiset{e.value},
              multiset(Values(rest)), multiset([e.value]));
    } else {
      var all := [e] + rest;
      var dropped := Reversed(Values(all[|Fit(all, budget)|..]));
      PushConserves(e, rest);
      FitConserves(all, budget);
      MultisetConcat(gone, dropped);
      Regroup(multiset(Values(s)), multiset(Values(rest)), multiset(gone), multiset{e.value},
              multiset(Values(Fit(all, budget))), multiset(dropped));
    }
  }

  /** What is kept was there before or is the new entry; nothing else has its key. */
  lemma PutKeepsWhat<V>(s: seq<Entry<V>>, e: Entry<V>, budget: int)
    requires Distinct(s)
    ensures Distinct(PutKeeps(s, e, budget))
    ensures forall x :: x in PutKeeps(s, e, budget) ==> x == e || (x in s && x.key != e.key)
    ensures e.cost <= budget ==> |PutKeeps(s, e, budget)| > 0 && PutKeeps(s, e, budget)[0] == e
    ensures e.cost > budget ==> !HasKey(PutKeeps(s, e, budget), e.key)
  {
    hide Cost, Index, Removed;
    WithoutRest(s, e.key);
    if e.cost <= budget {
      NewEntrySurvives(e, Without(s, e.key), budget);
    }
  }

  /** A hit only reorders. */
  lemma PromotedSame<V>(s: seq<Entry<V>>, key: string)
    requires Distinct(s) && HasKey(s, key)
    ensures var p := [s[Index(s, key)]] + Without(s, key);
            Distinct(p) && Cost(p) == Cost(s) && forall e :: e in p <==> e in s
  {
    hide Index, Cost, Without;
    var i := Index(s, key);
    WithoutRest(s, key);
    CostWithout(s, key);
    CostConcat([s[i]], Without(s, key));
    forall e | e in s
      ensures e in [s[i]] + Without(s, key)
    {
      if e.key == key {
        var j :| 0 <= j < |s| && s[j] == e;
      }
    }
  }

  /** What a lookup of key finds. */
  function Found<V>(s: seq<Entry<V>>, key: string, now: int): Option<V> {
    var i := Index(s, key);
    if i == |s| || Expired(s[i], now) then None else Some(s[i].value)
  }

  lemma OnlyAt<V>(s: seq<Entry<V>>, key: string)
    requires Distinct(s)
    ensures forall e :: e in s && e.key == key ==> Index(s, key) < |s| && s[Index(s, key)] == e
  {
    forall e | e in s && e.key == key
      ensures Index(s, key) < |s| && s[Index(s, key)] == e
    {
      var j :| 0 <= j < |s| && s[j] == e;
    }
  }

  /** An entry is found up to the moment it expires, and one that has no such moment
      always. */
  lemma FoundUntil<V>(s: seq<Entry<V>>, key: string, now: int)
    requires Distinct(s)
    ensures forall e :: e in s && e.key == key ==>
              Found(s, key, now) == if e.expires.Some? && e.expires.value <= now then None else Some(e.value)
    ensures (forall e :: e in s ==> e.key != key) ==> Found(s, key, now) == None
  {
    hide Cost;
    OnlyAt(s, key);
    if Index(s, key) < |s| {
      assert s[Index(s, key)] in s;
    }
  }

  // ------------------------------------------------------------- the code itself

  /** lruIndex.  `ttl <= 0` means entries never expire. */
  class LruIndex<V> {
    const maxBytes: int
    const ttl: int
    var entries: seq<Entry<V>>
    var used: int

    predicate Valid()
      reads this
    {
      0 <= maxBytes && Distinct(entries) && used == Cost(entries) && used <= maxBytes
    }

    constructor (maxBytes: int, ttl: int)
      requires 0 <= maxBytes
      ensures Valid() && entries == [] && this.maxBytes == maxBytes && this.ttl == ttl
    {
      this.maxBytes, this.ttl := maxBytes, ttl;
      entries, used := [], 0;
    }

    /** cache.Remove with its callback. */
    method Remove(key: string) returns (evicted: seq<V>)
      requires Distinct(entries) && used == Cost(entries)
      modifies this
      ensures entries == Without(old(entries), key) && evicted == Values(Removed(old(entries), key))
      ensures Distinct(entries) && used == Cost(entries)
    {
      var i := Index(entries, key);
      CostWithout(entries, key);
      WithoutRest(entries, key);
      evicted := [];
      if i < |entries| {
        evicted := [entries[i].value];
        used := used - entries[i].cost;
        entries := entries[..i] + entries[i + 1..];
      }
    }

    /** A hit moves the entry to the front; an expired one is dropped. */
    method Get(key: string, now: int) returns (r: Option<V>, evicted: seq<V>)
      requires Valid()
      modifies this
      ensures var i := Index(old(entries), key);
              if i == |old(entries)| then r == None && evicted == [] && entries == old(entries)
              else if Expired(old(entries)[i], now) then
                r == None && evicted == [old(entries)[i].value] && entries == Without(old(entries), key)
              else
                r == Some(old(entries)[i].value) && evicted == []
                && entries == [old(entries)[i]] + Without(old(entries), key)
      ensures Valid()
      ensures forall e :: e in entries ==> e in old(entries)
      ensures forall e :: e in old(entries) && e.key != key ==> e in entries
      ensures forall e :: e in old(entries) && e.key == key ==>
                if e.expires.Some? && e.expires.value <= now then
                  r == None && evicted == [e.value] && forall x :: x in entries ==> x.key != key
                else r == Some(e.value) && evicted == [] && |entries| > 0 && entries[0] == e
      ensures (forall e :: e in old(entries) ==> e.key != key) ==> r == None && evicted == [] && entries == old(entries)
    {
      var i := Index(entries, key);
      WithoutRest(entries, key);
      OnlyAt(entries, key);
      if i == |entries| {
        return None, [];
      }
      var e := entries[i];
      if Expired(e, now) {
        CostWithout(entries, key);
        evicted := Remove(key);
        return None, evicted;
      }
      PromotedSame(entries, key);
      entries := [e] + (entries[..i] + entries[i + 1..]);
      return Some(e.value), [];
    }

    method Put(key: string, v: V, cost: nat, now: int) returns (evicted: seq<V>)
      requires Valid()
      modifies this
      ensures var e := Entry(key, v, cost, if ttl > 0 then Some(now + ttl) else None);
              && entries == PutKeeps(old(entries), e, maxBytes)
              && evicted == PutEvicts(old(entries), e, maxBytes)
      ensures Valid()
    {
      var e := Entry(key, v, cost, if ttl > 0 then Some(now + ttl) else None);
      CostWithout(entries, key);
      PutKeepsWhat(entries, e, maxBytes);
      evicted := Remove(key);
      if cost > maxBytes {
        evicted := evicted + [v];
        return;
      }
      CostConcat([e], entries);
      entries := [e] + entries;
      used := used + cost;
      var dropped := EvictOldest();
      evicted := evicted + dropped;
    }

    /** The loop of put: drop the oldest entry while over budget. */
    method EvictOldest() returns (evicted: seq<V>)
      requires used == Cost(entries) && 0 <= maxBytes
      modifies this
      ensures entries == Fit(old(entries), maxBytes)
      ensures evicted == Reversed(Values(old(entries)[|entries|..]))
      ensures used == Cost(entries) && used <= maxBytes
    {
      evicted := [];
      ghost var all := entries;
      while used > maxBytes && |entries| > 0
        invariant |entries| <= |all| && entries == all[..|entries|] && used == Cost(entries)
        invariant Fit(entries, maxBytes) == Fit(all, maxBytes)
        invariant evicted == Reversed(Values(all[|entries|..]))
      {
        var last := entries[|entries| - 1];
        OneMoreReversed(all, |entries| - 1);
        evicted := evicted + [last.value];
        used := used - last.cost;
        entries := entries[..|entries| - 1];
      }
    }

    method Delete(key: string) returns (evicted: seq<V>)
      requires Valid()
      modifies this
      ensures entries == Without(old(entries), key) && evicted == Values(Removed(old(entries), key))
      ensures Valid()
    {
      CostWithout(entries, key);
      evicted := Remove(key);
    }
  }

  /** What is put at a time t stays to be found until its time is up, and no longer;
      without a TTL it has no end. */
  method PutThenGet<V>(c: LruIndex<V>, key: string, v: V, cost: nat, t: int, now: int) returns (r: Option<V>)
    requires c.Valid() && cost <= c.maxBytes
    modifies c
    ensures c.Valid() && r == if c.ttl > 0 && t + c.ttl <= now then None else Some(v)
  {
    ghost var e := Entry(key, v, cost, if c.ttl > 0 then Some(t + c.ttl) else None);
    PutKeepsWhat(c.entries, e, c.maxBytes);
    var evicted := c.Put(key, v, cost, t);
    assert c.entries[0] == e;
    r, evicted := c.Get(key, now);
  }
}

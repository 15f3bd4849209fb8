/** Episode bookkeeping: one event record per request with first-write-wins timestamps,
    per-taxi idle-step counters and a completed-ride counter, all updated in place by
    `EpisodeHistory`, and the averages computed from them. */
module Metrics {
  import opened Wrappers
  import opened Domain

  /** A Python dict with integer keys: its entries and its keys in insertion order, which
      is the order `for k in d` visits them. */
  datatype Dict<V> = Dict(entries: map<int, V>, keys: seq<int>) {

    /** The key list names every entry exactly once. */
    ghost predicate Valid() {
      && (forall i, j :: 0 <= i < j < |keys| ==> keys[i] != keys[j])
      && (forall i :: 0 <= i < |keys| ==> keys[i] in entries)
      && (forall k :: k in entries ==> k in keys)
    }

    /** `d[k] = v`: a new key goes to the end of the order, an existing one keeps its place. */
    function Put(k: int, v: V): (d: Dict<V>)
      ensures d.entries == entries[k := v]
      ensures k in entries ==> d.keys == keys
      ensures k !in entries ==> d.keys == keys + [k]
    {
      Dict(entries[k := v], if k in entries then keys else keys + [k])
    }
  }

  /** `Put` keeps a dict well formed. */
  lemma PutValid<V>(d: Dict<V>, k: int, v: V)
    requires d.Valid()
    ensures d.Put(k, v).Valid()
  {
  }

  /** A dict has as many entries as keys in its order. */
  lemma {:induction false} KeysCount<V>(d: Dict<V>)
    requires d.Valid()
    ensures |d.keys| == |d.entries|
    decreases |d.keys|
  {
    if d.keys != [] {
      var last := d.keys[|d.keys| - 1];
      var rest := Dict(d.entries - {last}, d.keys[..|d.keys| - 1]);
      assert rest.Valid();
      KeysCount(rest);
      assert d.entries.Keys == rest.entries.Keys + {last};
    } else {
      assert forall k :: k in d.entries ==> k in d.keys;
      assert forall k :: k !in d.entries;
      assert d.entries.Keys == {};
    }
  }

  /** The timestamps of one request's life; `None` until the event happens. */
  datatype RequestEvent = RequestEvent(
    requestId: int,
    arrivalTime: int,
    pickupTime: Option<int>,
    dropoffTime: Option<int>,
    cancelledTime: Option<int>)

  function NewEvent(requestId: int, arrivalTime: int): (e: RequestEvent)
    ensures e.requestId == requestId && e.arrivalTime == arrivalTime
    ensures e.pickupTime == None && e.dropoffTime == None && e.cancelledTime == None
  {
    RequestEvent(requestId, arrivalTime, None, None, None)
  }

  /** The three timestamps the note methods set. */
  datatype Mark = Pickup | Dropoff | Cancellation

  function MarkOf(e: RequestEvent, m: Mark): Option<int> {
    match m
    case Pickup => e.pickupTime
    case Dropoff => e.dropoffTime
    case Cancellation => e.cancelledTime
  }

  /** The event with one timestamp set to `t` and everything else as it was. */
  function WithMark(e: RequestEvent, m: Mark, t: int): (r: RequestEvent)
    ensures MarkOf(r, m) == Some(t)
    ensures forall m' :: m' != m ==> MarkOf(r, m') == MarkOf(e, m')
    ensures r.requestId == e.requestId && r.arrivalTime == e.arrivalTime
  {
    match m
    case Pickup => e.(pickupTime := Some(t))
    case Dropoff => e.(dropoffTime := Some(t))
    case Cancellation => e.(cancelledTime := Some(t))
  }

  // ---------------------------------------------------------------------------------------
  // Specification of the note methods

  /** The events after noting new requests: an event for each id not yet known. */
  function Arrive(d: Dict<RequestEvent>, rs: seq<Request>): (a: Dict<RequestEvent>)
    ensures forall x :: x in a.entries <==> x in d.entries || x in Ids(rs)
    decreases |rs|
  {
    if rs == [] then d
    else ArriveStep(Arrive(d, rs[..|rs| - 1]), rs[|rs| - 1])
  }

  /** One request noted: an unknown id gets a fresh event, a known one is left alone. */
  function ArriveStep(d: Dict<RequestEvent>, r: Request): Dict<RequestEvent> {
    if r.id in d.entries then d else d.Put(r.id, NewEvent(r.id, r.arrivalTime))
  }

  /** The events after noting timestamp `t` of kind `m` for a list of ids. */
  function Note(d: Dict<RequestEvent>, ids: seq<int>, m: Mark, t: int): (n: Dict<RequestEvent>)
    ensures n.entries.Keys == d.entries.Keys && n.keys == d.keys
    decreases |ids|
  {
    if ids == [] then d
    else NoteStep(Note(d, ids[..|ids| - 1], m, t), ids[|ids| - 1], m, t)
  }

  /** One id noted: a known event whose timestamp of kind `m` is unset gets `t`. */
  function NoteStep(d: Dict<RequestEvent>, id: int, m: Mark, t: int): Dict<RequestEvent> {
    if id in d.entries && MarkOf(d.entries[id], m).None? then
      d.Put(id, WithMark(d.entries[id], m, t))
    else d
  }

  lemma NoteSnoc(d: Dict<RequestEvent>, ids: seq<int>, i: int, m: Mark, t: int)
    requires 0 <= i < |ids|
    ensures Note(d, ids[..i + 1], m, t) == NoteStep(Note(d, ids[..i], m, t), ids[i], m, t)
  {
    assert ids[..i + 1][..i] == ids[..i];
  }

  /** The idle counters after noting a list of idle taxi ids. */
  function AddIdle(d: Dict<int>, ids: seq<int>): (a: Dict<int>)
    ensures forall x :: x in a.entries <==> x in d.entries || x in ids
    decreases |ids|
  {
    if ids == [] then d
    else
      IdleStep(AddIdle(d, ids[..|ids| - 1]), ids[|ids| - 1])
  }

  /** One idle id noted: a missing counter is first created at zero, then the counter
      goes up by one. */
  function IdleStep(d: Dict<int>, id: int): Dict<int> {
    var created := if id !in d.entries then d.Put(id, 0) else d;
    created.Put(id, created.entries[id] + 1)
  }

  lemma AddIdleValid(d: Dict<int>, ids: seq<int>)
    requires d.Valid()
    ensures AddIdle(d, ids).Valid()
  {
    AddIdleMeaning(d, ids);
  }

  lemma AddIdleSnoc(d: Dict<int>, ids: seq<int>, i: int)
    requires 0 <= i < |ids|
    ensures AddIdle(d, ids[..i + 1]) == IdleStep(AddIdle(d, ids[..i]), ids[i])
  {
    assert ids[..i + 1][..i] == ids[..i];
  }

  /** The counter of a taxi, zero when it has none. */
  function Count(d: Dict<int>, id: int): int {
    if id in d.entries then d.entries[id] else 0
  }

  // ---------------------------------------------------------------------------------------
  // What the note methods promise

  /** Noting new requests keeps every known event and its place in the order, and knows
      afterwards exactly the ids known before and those of the new requests. */
  lemma ArriveKeeps(d: Dict<RequestEvent>, rs: seq<Request>)
    requires d.Valid()
    ensures var r := Arrive(d, rs);
      && r.Valid()
      && |d.keys| <= |r.keys| && r.keys[..|d.keys|] == d.keys
      && (forall k :: k in r.entries <==> k in d.entries || k in Ids(rs))
      && (forall k :: k in d.entries ==> r.entries[k] == d.entries[k])
  {
    ArriveKeepsOrder(d, rs);
  }

  /** The order and the known events part of `ArriveKeeps`, by induction on the requests. */
  lemma {:induction false} ArriveKeepsOrder(d: Dict<RequestEvent>, rs: seq<Request>)
    requires d.Valid()
    ensures var r := Arrive(d, rs);
      && r.Valid()
      && |d.keys| <= |r.keys| && r.keys[..|d.keys|] == d.keys
      && (forall k :: k in d.entries ==> r.entries[k] == d.entries[k])
    decreases |rs|
  {
    if rs != [] {
      var init := rs[..|rs| - 1];
      ArriveKeepsOrder(d, init);
      var before := Arrive(d, init);
      var last := rs[|rs| - 1];
      if last.id !in before.entries {
        PutValid(before, last.id, NewEvent(last.id, last.arrivalTime));
        var r := before.Put(last.id, NewEvent(last.id, last.arrivalTime));
        assert r.keys[..|before.keys|] == before.keys;
        assert r.keys[..|d.keys|] == before.keys[..|d.keys|];
      }
    }
  }

  /** Each id not yet known gets the event of the first request with that id, with no
      timestamps. */
  lemma {:induction false} ArriveNew(d: Dict<RequestEvent>, rs: seq<Request>)
    requires d.Valid()
    ensures forall j :: 0 <= j < |rs| && rs[j].id !in d.entries && rs[j].id !in Ids(rs[..j]) ==>
      rs[j].id in Arrive(d, rs).entries &&
      Arrive(d, rs).entries[rs[j].id] == NewEvent(rs[j].id, rs[j].arrivalTime)
    decreases |rs|
  {
    if rs != [] {
      var init := rs[..|rs| - 1];
      ArriveNew(d, init);
      var r := Arrive(d, rs);
      forall j | 0 <= j < |rs| && rs[j].id !in d.entries && rs[j].id !in Ids(rs[..j])
        ensures rs[j].id in r.entries && r.entries[rs[j].id] == NewEvent(rs[j].id, rs[j].arrivalTime)
      {
        if j < |rs| - 1 {
          assert rs[..j] == init[..j] && rs[j] == init[j];
          assert rs[j].id in Ids(init);
        } else {
          assert rs[..j] == init;
        }
      }
    }
  }

  /** Noting timestamps changes no key and no event outside the list; an event in the list
      gets the timestamp only if it had none of that kind (the first write wins), and
      unknown ids are ignored. */
  lemma {:induction false} NoteMeaning(d: Dict<RequestEvent>, ids: seq<int>, m: Mark, t: int)
    ensures Note(d, ids, m, t).keys == d.keys
    ensures Note(d, ids, m, t).entries.Keys == d.entries.Keys
    ensures forall k :: k in d.entries ==>
      Note(d, ids, m, t).entries[k] ==
        if k in ids && MarkOf(d.entries[k], m).None? then WithMark(d.entries[k], m, t) else d.entries[k]
    decreases |ids|
  {
    if ids != [] {
      var init := ids[..|ids| - 1];
      NoteMeaning(d, init, m, t);
      assert forall k :: k in ids <==> k in init || k == ids[|ids| - 1];
    }
  }

  /** Noting the same ids twice, at any two times, is noting them once. */
  lemma NoteIdempotent(d: Dict<RequestEvent>, ids: seq<int>, m: Mark, t: int, t': int)
    ensures Note(Note(d, ids, m, t), ids, m, t') == Note(d, ids, m, t)
  {
    var once := Note(d, ids, m, t);
    NoteMeaning(d, ids, m, t);
    NoteMeaning(once, ids, m, t');
    forall k | k in once.entries
      ensures Note(once, ids, m, t').entries[k] == once.entries[k]
    {
      if k in ids && MarkOf(d.entries[k], m).None? {
        assert MarkOf(once.entries[k], m) == Some(t);
      }
    }
    assert Note(once, ids, m, t').entries == once.entries;
  }

  /** Noting idle taxis adds to each taxi's counter the number of times its id occurs,
      leaves every other counter alone, and adds the taxis not yet counted. */
  lemma {:induction false} AddIdleMeaning(d: Dict<int>, ids: seq<int>)
    requires d.Valid()
    ensures AddIdle(d, ids).Valid()
    ensures forall k :: Count(AddIdle(d, ids), k) == Count(d, k) + multiset(ids)[k]
    ensures forall k :: k in AddIdle(d, ids).entries <==> k in d.entries || k in ids
    decreases |ids|
  {
    if ids != [] {
      var init, last := ids[..|ids| - 1], ids[|ids| - 1];
      AddIdleMeaning(d, init);
      IdleStepMeaning(AddIdle(d, init), last);
      assert ids == init + [last];
      assert multiset(ids) == multiset(init) + multiset{last};
    }
  }

  /** One idle id adds one to that taxi's counter, creating it if needed, and nothing else. */
  lemma IdleStepMeaning(d: Dict<int>, id: int)
    requires d.Valid()
    ensures IdleStep(d, id).Valid()
    ensures forall k :: Count(IdleStep(d, id), k) == Count(d, k) + if k == id then 1 else 0
    ensures forall k :: k in IdleStep(d, id).entries <==> k in d.entries || k == id
  {
    PutValid(d, id, 0);
    var created := if id !in d.entries then d.Put(id, 0) else d;
    PutValid(created, id, created.entries[id] + 1);
  }

  // ---------------------------------------------------------------------------------------
  // The averages

  /** The wait of one request: until pickup when it was picked up, else until its
      cancellation when it was cancelled, else none. */
  function WaitOf(e: RequestEvent): (w: Option<int>)
    ensures e.pickupTime.Some? ==> w == Some(e.pickupTime.value - e.arrivalTime)
    ensures e.pickupTime.None? && e.cancelledTime.Some? ==> w == Some(e.cancelledTime.value - e.arrivalTime)
    ensures e.pickupTime.None? && e.cancelledTime.None? ==> w == None
  {
    if e.pickupTime.Some? then Some(e.pickupTime.value - e.arrivalTime)
    else if e.cancelledTime.Some? then Some(e.cancelledTime.value - e.arrivalTime)
    else None
  }

  /** The branches of `averageWaitTime`'s first loop add exactly the event's wait. */
  lemma WaitRound(e: RequestEvent, before: seq<int>, after: seq<int>)
    requires after == if e.pickupTime.Some? then before + [e.pickupTime.value - e.arrivalTime]
      else if e.cancelledTime.Some? then before + [e.cancelledTime.value - e.arrivalTime]
      else before
    ensures after == before + AsSeq(WaitOf(e))
  {
  }

  /** Every key of a visiting order has an entry. */
  predicate AllIn<V>(order: seq<int>, entries: map<int, V>) {
    forall i :: 0 <= i < |order| ==> order[i] in entries
  }

  /** The waits of the events named by `order`, in that order. */
  function Waits(entries: map<int, RequestEvent>, order: seq<int>): (w: seq<int>)
    requires AllIn(order, entries)
    ensures |w| <= |order|
    decreases |order|
  {
    if order == [] then []
    else
      Waits(entries, order[..|order| - 1]) + AsSeq(WaitOf(entries[order[|order| - 1]]))
  }

  lemma WaitsSnoc(entries: map<int, RequestEvent>, order: seq<int>, i: int)
    requires AllIn(order, entries) && 0 <= i < |order|
    ensures AllIn(order[..i], entries) && AllIn(order[..i + 1], entries)
    ensures Waits(entries, order[..i + 1]) ==
      Waits(entries, order[..i]) + AsSeq(WaitOf(entries[order[i]]))
  {
    assert order[..i + 1][..i] == order[..i];
  }

  lemma WaitsLast(entries: map<int, RequestEvent>, order: seq<int>)
    requires AllIn(order, entries) && order != []
    ensures AllIn(order[..|order| - 1], entries)
    ensures Waits(entries, order) ==
      Waits(entries, order[..|order| - 1]) + AsSeq(WaitOf(entries[order[|order| - 1]]))
  {
  }

  lemma SumSnoc(xs: seq<int>, i: int)
    requires 0 <= i < |xs|
    ensures Sum(xs[..i + 1]) == Sum(xs[..i]) + xs[i]
  {
    assert xs[..i + 1][..i] == xs[..i];
  }

  function Sum(xs: seq<int>): int
    decreases |xs|
  {
    if xs == [] then 0 else Sum(xs[..|xs| - 1]) + xs[|xs| - 1]
  }

  function Mean(xs: seq<int>): real {
    if |xs| == 0 then 0.0 else (Sum(xs) as real) / (|xs| as real)
  }

  /** The idle counters of the taxis named by `order`, in that order. */
  function Counters(entries: map<int, int>, order: seq<int>): (cs: seq<int>)
    requires AllIn(order, entries)
    ensures |cs| == |order|
    decreases |order|
  {
    if order == [] then []
    else Counters(entries, order[..|order| - 1]) + [entries[order[|order| - 1]]]
  }

  /** No wait is recorded exactly when no event of the list has a pickup or a
      cancellation time. */
  lemma {:induction false} WaitsEmpty(entries: map<int, RequestEvent>, order: seq<int>)
    requires AllIn(order, entries)
    ensures Waits(entries, order) == [] <==>
      forall k :: k in order ==> entries[k].pickupTime.None? && entries[k].cancelledTime.None?
    decreases |order|
  {
    if order != [] {
      var init := order[..|order| - 1];
      WaitsEmpty(entries, init);
      assert forall k :: k in order <==> k in init || k == order[|order| - 1];
    }
  }

  /** The sum of a list does not depend on the order of its elements. */
  lemma {:induction false} SumPermutation(xs: seq<int>, ys: seq<int>)
    requires multiset(xs) == multiset(ys)
    ensures Sum(xs) == Sum(ys)
    decreases |xs|
  {
    if xs != [] {
      var i := PermutationPop(xs, ys);
      SumRemove(ys, i);
      SumPermutation(xs[..|xs| - 1], ys[..i] + ys[i + 1..]);
    } else {
      assert |ys| == |multiset(ys)|;
    }
  }

  /** Taking one element out of a list takes it out of the sum. */
  lemma {:induction false} SumRemove(ys: seq<int>, i: int)
    requires 0 <= i < |ys|
    ensures Sum(ys) == Sum(ys[..i] + ys[i + 1..]) + ys[i]
    decreases |ys|
  {
    var n := |ys|;
    if i < n - 1 {
      RemoveBeforeLast(ys, i);
      SumRemove(ys[..n - 1], i);
    } else {
      assert ys[..i] + ys[i + 1..] == ys[..n - 1];
    }
  }

  /** The last element of one list sits somewhere in a permutation of it; the rests are
      permutations of each other. */
  lemma PermutationPop<T>(o1: seq<T>, o2: seq<T>) returns (i: int)
    requires o1 != [] && multiset(o1) == multiset(o2)
    ensures 0 <= i < |o2| && o2[i] == o1[|o1| - 1]
    ensures multiset(o1[..|o1| - 1]) == multiset(o2[..i] + o2[i + 1..])
  {
    var last := o1[|o1| - 1];
    assert o1 == o1[..|o1| - 1] + [last];
    assert last in multiset(o2);
    i :| 0 <= i < |o2| && o2[i] == last;
    assert o2 == o2[..i] + [last] + o2[i + 1..];
    assert multiset(o1[..|o1| - 1]) == multiset(o1) - multiset{last};
    assert multiset(o2[..i] + o2[i + 1..]) == multiset(o2) - multiset{last};
  }

  /** A list without an entry before its last one ends with that last entry. */
  lemma RemoveBeforeLast<T>(o: seq<T>, i: int)
    requires 0 <= i < |o| - 1
    ensures var without := o[..i] + o[i + 1..];
      && |without| == |o| - 1
      && without[..|o| - 2] == o[..|o| - 1][..i] + o[..|o| - 1][i + 1..]
      && without[|o| - 2] == o[|o| - 1]
  {
    var without := o[..i] + o[i + 1..];
    assert without == (o[..|o| - 1][..i] + o[..|o| - 1][i + 1..]) + [o[|o| - 1]];
  }

  lemma AllInPermutation<V>(o1: seq<int>, o2: seq<int>, entries: map<int, V>)
    requires AllIn(o1, entries) && multiset(o1) == multiset(o2)
    ensures AllIn(o2, entries)
  {
    forall j | 0 <= j < |o2|
      ensures o2[j] in entries
    {
      assert o2[j] in multiset(o1);
      var q :| 0 <= q < |o1| && o1[q] == o2[j];
    }
  }

  /** Visiting the events in another order yields the same waits, in another order. */
  lemma {:induction false} WaitsPermutation(entries: map<int, RequestEvent>, o1: seq<int>, o2: seq<int>)
    requires AllIn(o1, entries)
    requires multiset(o1) == multiset(o2)
    ensures AllIn(o2, entries)
    ensures multiset(Waits(entries, o1)) == multiset(Waits(entries, o2))
    decreases |o1|
  {
    AllInPermutation(o1, o2, entries);
    if o1 != [] {
      var i := PermutationPop(o1, o2);
      WaitsRemove(entries, o2, i);
      WaitsPermutation(entries, o1[..|o1| - 1], o2[..i] + o2[i + 1..]);
    } else {
      assert |o2| == |multiset(o2)|;
    }
  }

  /** Taking one key out of the visiting order takes its wait out of the waits. */
  lemma WaitsRemove(entries: map<int, RequestEvent>, o: seq<int>, i: int)
    requires AllIn(o, entries)
    requires 0 <= i < |o|
    ensures AllIn(o[..i] + o[i + 1..], entries)
    ensures multiset(Waits(entries, o)) ==
      multiset(Waits(entries, o[..i] + o[i + 1..])) + multiset(AsSeq(WaitOf(entries[o[i]])))
  {
    var before, after := o[..i], o[i + 1..];
    assert o == before + ([o[i]] + after);
    WaitsAppend(entries, before, [o[i]] + after);
    WaitsAppend(entries, [o[i]], after);
    AllInAppend(before, after, entries);
    WaitsAppend(entries, before, after);
    WaitsLast(entries, [o[i]]);
    assert [o[i]][..0] == [];
  }

  /** The waits of two orders one after the other are the waits of each, in turn. */
  lemma {:induction false} WaitsAppend(entries: map<int, RequestEvent>, a: seq<int>, b: seq<int>)
    requires AllIn(a + b, entries)
    ensures AllIn(a, entries) && AllIn(b, entries)
    ensures Waits(entries, a + b) == Waits(entries, a) + Waits(entries, b)
    decreases |b|
  {
    AllInAppend(a, b, entries);
    if b == [] {
      assert a + b == a;
    } else {
      var init := b[..|b| - 1];
      assert b == init + [b[|b| - 1]];
      assert (a + b)[..|a + b| - 1] == a + init;
      AllInAppend(a, init, entries);
      WaitsAppend(entries, a, init);
      WaitsLast(entries, a + b);
      WaitsLast(entries, b);
      var wa, wi, wl := Waits(entries, a), Waits(entries, init), AsSeq(WaitOf(entries[b[|b| - 1]]));
      assert (wa + wi) + wl == wa + (wi + wl);
    }
  }

  /** A concatenated order has all its entries exactly when both halves do. */
  lemma AllInAppend<V>(a: seq<int>, b: seq<int>, entries: map<int, V>)
    ensures AllIn(a + b, entries) <==> AllIn(a, entries) && AllIn(b, entries)
  {
    if AllIn(a + b, entries) {
      forall i | 0 <= i < |a|
        ensures a[i] in entries
      {
        assert a[i] == (a + b)[i];
      }
      forall i | 0 <= i < |b|
        ensures b[i] in entries
      {
        assert b[i] == (a + b)[|a| + i];
      }
    }
  }

  function AsSeq(w: Option<int>): seq<int> {
    if w.Some? then [w.value] else []
  }

  /** The average wait does not depend on the order the events are visited in. */
  lemma MeanWaitOrderFree(entries: map<int, RequestEvent>, o1: seq<int>, o2: seq<int>)
    requires AllIn(o1, entries)
    requires multiset(o1) == multiset(o2)
    ensures AllIn(o2, entries)
    ensures Mean(Waits(entries, o1)) == Mean(Waits(entries, o2))
  {
    WaitsPermutation(entries, o1, o2);
    var w1, w2 := Waits(entries, o1), Waits(entries, o2);
    SumPermutation(w1, w2);
    assert |w1| == |multiset(w1)| == |multiset(w2)| == |w2|;
  }

  /** The total of the idle counters grows by one per idle id noted. */
  lemma {:induction false} AddIdleTotal(d: Dict<int>, ids: seq<int>)
    requires d.Valid()
    ensures AddIdle(d, ids).Valid()
    ensures Total(AddIdle(d, ids)) == Total(d) + |ids|
    decreases |ids|
  {
    if ids != [] {
      var init := ids[..|ids| - 1];
      AddIdleTotal(d, init);
      IdleStepTotal(AddIdle(d, init), ids[|ids| - 1]);
    }
  }

  lemma IdleStepTotal(d: Dict<int>, id: int)
    requires d.Valid()
    ensures IdleStep(d, id).Valid() && Total(IdleStep(d, id)) == Total(d) + 1
  {
    var created := if id !in d.entries then d.Put(id, 0) else d;
    if id !in d.entries {
      PutNew(d, id);
    }
    PutIncrement(created, id);
  }

  /** The distinct ids of a list. */
  function IdSet(ids: seq<int>): set<int> {
    set k | k in ids
  }

  /** Starting from no counters, the mean idle counter after noting a list of idle ids is
      the list's length over the number of distinct taxis in it (0 for an empty list). */
  lemma MeanIdleFromEmpty(ids: seq<int>)
    ensures ids != [] ==> |IdSet(ids)| > 0
    ensures Mean(IdleCounters(ids)) ==
      if ids == [] then 0.0 else (|ids| as real) / (|IdSet(ids)| as real)
  {
    IdleFromEmpty(ids);
    if ids != [] {
      assert ids[0] in IdSet(ids);
    }
  }

  /** The counters, in first-idle order, after noting a list of idle ids from none. */
  function IdleCounters(ids: seq<int>): seq<int> {
    AddIdleMeaning(Dict(map[], []), ids);
    var r := AddIdle(Dict(map[], []), ids);
    Counters(r.entries, r.keys)
  }

  /** Starting from no counters, noting a list of idle ids leaves one counter per
      distinct id, and the counters add up to the list's length. */
  lemma IdleFromEmpty(ids: seq<int>)
    ensures |IdleCounters(ids)| == |IdSet(ids)| && Sum(IdleCounters(ids)) == |ids|
  {
    var empty: Dict<int> := Dict(map[], []);
    var r := AddIdle(empty, ids);
    AddIdleTotal(empty, ids);
    AddIdleMeaning(empty, ids);
    KeysCount(r);
    forall k
      ensures k in r.entries.Keys <==> k in IdSet(ids)
    {
      assert k !in empty.entries;
    }
    assert r.entries.Keys == IdSet(ids);
  }

  /** The sum of a dict's counters. */
  function Total(d: Dict<int>): int
    requires d.Valid()
  {
    Sum(Counters(d.entries, d.keys))
  }

  /** A new counter at zero leaves the total as it was. */
  lemma PutNew(d: Dict<int>, id: int)
    requires d.Valid() && id !in d.entries
    ensures d.Put(id, 0).Valid() && Total(d.Put(id, 0)) == Total(d)
  {
    PutValid(d, id, 0);
    CountersSnoc(d.entries, d.keys, id, 0);
  }

  /** One more on a counter is one more on the total. */
  lemma PutIncrement(d: Dict<int>, id: int)
    requires d.Valid() && id in d.entries
    ensures d.Put(id, d.entries[id] + 1).Valid() && Total(d.Put(id, d.entries[id] + 1)) == Total(d) + 1
  {
    PutValid(d, id, d.entries[id] + 1);
    CountersUpdate(d.entries, d.keys, id, d.entries[id] + 1);
  }

  /** A new key with counter `v` adds `v` to the total. */
  lemma CountersSnoc(entries: map<int, int>, keys: seq<int>, id: int, v: int)
    requires AllIn(keys, entries)
    requires id !in keys
    ensures Sum(Counters(entries[id := v], keys + [id])) == Sum(Counters(entries, keys)) + v
  {
    CountersFrame(entries, keys, id, v);
    assert (keys + [id])[..|keys|] == keys;
  }

  /** Counters of keys other than `id` do not see an update at `id`. */
  lemma {:induction false} CountersFrame(entries: map<int, int>, keys: seq<int>, id: int, v: int)
    requires AllIn(keys, entries)
    requires id !in keys
    ensures Counters(entries[id := v], keys) == Counters(entries, keys)
    decreases |keys|
  {
    if keys != [] {
      CountersFrame(entries, keys[..|keys| - 1], id, v);
    }
  }

  /** Changing the counter of a key listed once changes the total by the difference. */
  lemma {:induction false} CountersUpdate(entries: map<int, int>, keys: seq<int>, id: int, v: int)
    requires AllIn(keys, entries)
    requires forall i, j :: 0 <= i < j < |keys| ==> keys[i] != keys[j]
    requires id in keys
    ensures Sum(Counters(entries[id := v], keys)) == Sum(Counters(entries, keys)) - entries[id] + v
    decreases |keys|
  {
    var init := keys[..|keys| - 1];
    var last := keys[|keys| - 1];
    if last == id {
      assert forall i :: 0 <= i < |init| ==> init[i] != keys[|keys| - 1];
      CountersFrame(entries, init, id, v);
    } else {
      CountersUpdate(entries, init, id, v);
    }
  }

  // ---------------------------------------------------------------------------------------
  // The history and the functions over it

  /** `EpisodeHistory`: the events by request id, the idle counters by taxi id, the revenue
      (never updated) and the number of completed rides. */
  class EpisodeHistory {
    var events: Dict<RequestEvent>
    var taxiIdleSteps: Dict<int>
    var totalRevenue: real
    var completedRides: int

    ghost predicate Valid()
      reads this
    {
      events.Valid() && taxiIdleSteps.Valid()
    }

    constructor ()
      ensures Valid()
      ensures events == Dict(map[], []) && taxiIdleSteps == Dict(map[], [])
      ensures totalRevenue == 0.0 && completedRides == 0
    {
      events := Dict(map[], []);
      taxiIdleSteps := Dict(map[], []);
      totalRevenue := 0.0;
      completedRides := 0;
    }

    /** `noteNewRequests`; `None` leaves the history as it was. */
    method NoteNewRequests(newRequests: Option<seq<Request>>)
      requires Valid()
      modifies this`events
      ensures Valid()
      ensures events == if newRequests.None? then old(events) else Arrive(old(events), newRequests.value)
    {
      if newRequests.None? {
        return;
      }
      var rs := newRequests.value;
      var i := 0;
      while i < |rs|
        invariant 0 <= i <= |rs|
        invariant events == Arrive(old(events), rs[..i]) && events.Valid()
      {
        var r := rs[i];
        var rID := r.id;
        if rID !in events.entries {
          events := events.Put(rID, NewEvent(rID, r.arrivalTime));
        }
        assert rs[..i + 1][..i] == rs[..i];
        i := i + 1;
      }
      assert rs[..i] == rs;
    }

    /** `notePickups`. */
    method NotePickups(t: int, pickedUpIds: Option<seq<int>>)
      requires Valid()
      modifies this`events
      ensures Valid()
      ensures events == if pickedUpIds.None? then old(events) else Note(old(events), pickedUpIds.value, Pickup, t)
    {
      if pickedUpIds.None? {
        return;
      }
      NoteEach(t, pickedUpIds.value, Pickup);
    }

    /** `noteCancellations`. */
    method NoteCancellations(t: int, cancelledIds: Option<seq<int>>)
      requires Valid()
      modifies this`events
      ensures Valid()
      ensures events == if cancelledIds.None? then old(events) else Note(old(events), cancelledIds.value, Cancellation, t)
    {
      if cancelledIds.None? {
        return;
      }
      NoteEach(t, cancelledIds.value, Cancellation);
    }

    /** The loop `notePickups` and `noteCancellations` share: each known event of the list
        whose timestamp of kind `m` is still unset gets `t`. */
    method NoteEach(t: int, ids: seq<int>, m: Mark)
      requires Valid()
      modifies this`events
      ensures Valid()
      ensures events == Note(old(events), ids, m, t)
    {
      var i := 0;
      while i < |ids|
        invariant 0 <= i <= |ids|
        invariant events == Note(old(events), ids[..i], m, t) && events.Valid()
      {
        var rID := ids[i];
        if rID in events.entries {
          var event := events.entries[rID];
          if MarkOf(event, m).None? {
            events := events.Put(rID, WithMark(event, m, t));
          }
        }
        NoteSnoc(old(events), ids, i, m, t);
        i := i + 1;
      }
      assert ids[..i] == ids;
    }

    /** `noteDropoffs`: also counts every id of the list as a completed ride, known or not. */
    method NoteDropoffs(t: int, completedIds: Option<seq<int>>)
      requires Valid()
      modifies this`events, this`completedRides
      ensures Valid()
      ensures events == if completedIds.None? then old(events) else Note(old(events), completedIds.value, Dropoff, t)
      ensures completedRides == old(completedRides) + if completedIds.None? then 0 else |completedIds.value|
    {
      if completedIds.None? {
        return;
      }
      var ids := completedIds.value;
      var i := 0;
      while i < |ids|
        invariant 0 <= i <= |ids|
        invariant events == Note(old(events), ids[..i], Dropoff, t) && events.Valid()
        invariant completedRides == old(completedRides) + i
      {
        var rID := ids[i];
        if rID in events.entries {
          var event := events.entries[rID];
          if MarkOf(event, Dropoff).None? {
            events := events.Put(rID, WithMark(event, Dropoff, t));
          }
        }
        completedRides := completedRides + 1;
        NoteSnoc(old(events), ids, i, Dropoff, t);
        i := i + 1;
      }
      assert ids[..i] == ids;
    }

    /** `noteIdleTaxis`. */
    method NoteIdleTaxis(t: int, idleTaxiIds: Option<seq<int>>)
      requires Valid()
      modifies this`taxiIdleSteps
      ensures Valid()
      ensures taxiIdleSteps == if idleTaxiIds.None? then old(taxiIdleSteps) else AddIdle(old(taxiIdleSteps), idleTaxiIds.value)
    {
      if idleTaxiIds.None? {
        return;
      }
      var ids := idleTaxiIds.value;
      ghost var start := taxiIdleSteps;
      var i := 0;
      while i < |ids|
        invariant 0 <= i <= |ids|
        invariant taxiIdleSteps == AddIdle(start, ids[..i])
      {
        var tID := ids[i];
        if tID !in taxiIdleSteps.entries {
          taxiIdleSteps := taxiIdleSteps.Put(tID, 0);
        }
        taxiIdleSteps := taxiIdleSteps.Put(tID, taxiIdleSteps.entries[tID] + 1);
        AddIdleSnoc(start, ids, i);
        i := i + 1;
      }
      assert ids[..i] == ids;
      AddIdleValid(start, ids);
    }
  }

  /** `averageWaitTime`: the mean of the waits, zero when no request has one. */
  method AverageWaitTime(hist: EpisodeHistory) returns (r: real)
    requires hist.Valid()
    ensures r == Mean(Waits(hist.events.entries, hist.events.keys))
  {
    var events := hist.events;
    var waits := [];
    var i := 0;
    while i < |events.keys|
      invariant 0 <= i <= |events.keys|
      invariant waits == Waits(events.entries, events.keys[..i])
    {
      WaitsSnoc(events.entries, events.keys, i);
      var event := events.entries[events.keys[i]];
      ghost var before := waits;
      if event.pickupTime.Some? {
        waits := waits + [event.pickupTime.value - event.arrivalTime];
      } else if event.cancelledTime.Some? {
        waits := waits + [event.cancelledTime.value - event.arrivalTime];
      }
      WaitRound(event, before, waits);
      i := i + 1;
    }
    assert events.keys[..i] == events.keys;
    if |waits| == 0 {
      return 0.0;
    }
    var total := 0.0;
    i := 0;
    while i < |waits|
      invariant 0 <= i <= |waits|
      invariant total == Sum(waits[..i]) as real
    {
      total := total + waits[i] as real;
      SumSnoc(waits, i);
      i := i + 1;
    }
    assert waits[..i] == waits;
    r := total / (|waits| as real);
  }

  /** `averageIdleTime`: the mean idle counter over the taxis that have one, zero when
      none has. */
  method AverageIdleTime(hist: EpisodeHistory) returns (r: real)
    requires hist.Valid()
    ensures r == Mean(Counters(hist.taxiIdleSteps.entries, hist.taxiIdleSteps.keys))
  {
    var steps := hist.taxiIdleSteps;
    KeysCount(steps);
    if |steps.entries| == 0 {
      return 0.0;
    }
    var totalIdle := 0.0;
    var countTaxis := 0;
    var i := 0;
    while i < |steps.keys|
      invariant 0 <= i <= |steps.keys|
      invariant totalIdle == Sum(Counters(steps.entries, steps.keys[..i])) as real
      invariant countTaxis == i
    {
      assert steps.keys[..i + 1][..i] == steps.keys[..i];
      totalIdle := totalIdle + steps.entries[steps.keys[i]] as real;
      countTaxis := countTaxis + 1;
      i := i + 1;
    }
    assert steps.keys[..i] == steps.keys;
    r := totalIdle / (countTaxis as real);
  }

  /** The dictionary `summarizedMetrics` returns. */
  datatype Summary = Summary(avgWaitTime: real, avgIdleTime: real, completedRides: real, totalRevenue: real)

  /** `summarizedMetrics`, with `totalCompletedRides` and `totalRevenue` read in place. */
  method SummarizedMetrics(hist: EpisodeHistory) returns (s: Summary)
    requires hist.Valid()
    ensures s.avgWaitTime == Mean(Waits(hist.events.entries, hist.events.keys))
    ensures s.avgIdleTime == Mean(Counters(hist.taxiIdleSteps.entries, hist.taxiIdleSteps.keys))
    ensures s.completedRides == hist.completedRides as real && s.totalRevenue == hist.totalRevenue
  {
    var wait := AverageWaitTime(hist);
    var idle := AverageIdleTime(hist);
    s := Summary(wait, idle, hist.completedRides as real, hist.totalRevenue);
  }
}

/**
  The process-local LRU cache of deserialised callables.  A cached load looks the
  key up under the lock, deserialises outside it, and checks again under the lock
  before it stores.  Any number of loads run at once; the events below are the
  steps that take the lock and the deserialisations between them.
*/
module CallableCache {
  import opened Wrappers
  import opened Sequences

  type Key = string
  type Pickle = string
  type ThreadId = nat

  const DEFAULT_ENTRIES: int := 64

  // An object made by deserialising a pickle; each deserialisation makes its own.
  datatype Callable = Callable(pickle: Pickle, identity: nat)

  // `pickle` is None when the payload's function_pickle is not bytes.
  datatype Payload = Payload(key: Key, pickle: Option<Pickle>, sideEffects: bool, maxEntries: Option<int>)

  datatype Slot = Slot(key: Key, callable: Callable)

  datatype Core = Core(cache: seq<Slot>, hits: nat, misses: nat, bypasses: nat)

  datatype Flight =
    | Bypassing(payload: Payload)
    | Loading(payload: Payload)
    | Holding(payload: Payload, callable: Callable)

  datatype Reply = Reply(payload: Payload, callable: Callable)

  datatype State = State(
    core: Core,
    flights: map<ThreadId, Flight>,
    returned: seq<Reply>,
    failedBypasses: nat)

  datatype Event =
    | Call(thread: ThreadId, payload: Payload)
    | Deserialised(thread: ThreadId, identity: Option<nat>)
    | Store(thread: ThreadId)

  // Sequences without repetition

  function Suffix<T>(s: seq<T>, n: nat): seq<T> {
    if |s| <= n then s else s[|s| - n..]
  }

  lemma {:induction false} WithoutConcat<T>(s: seq<T>, t: seq<T>, x: T)
    ensures Without(s + t, x) == Without(s, x) + Without(t, x)
  {
    if s == [] {
      assert s + t == t;
    } else {
      var head := if s[0] == x then [] else [s[0]];
      WithoutConcat(s[1..], t, x);
      assert (s + t)[1..] == s[1..] + t;
      Assoc(head, Without(s[1..], x), Without(t, x));
    }
  }

  lemma {:induction false} SuffixOfConcat<T>(s: seq<T>, t: seq<T>, n: nat)
    requires n <= |t|
    ensures Suffix(s + t, n) == Suffix(t, n)
  {
  }

  // Recency

  // The keys of a log of touches, each at its last touch.
  function LastTouches(log: seq<Key>): seq<Key> {
    if log == [] then [] else (if log[0] in log[1..] then [] else [log[0]]) + LastTouches(log[1..])
  }

  lemma {:induction false} TouchedIsListed(log: seq<Key>, k: Key)
    ensures k in LastTouches(log) <==> k in log
  {
    if log != [] {
      TouchedIsListed(log[1..], k);
      assert log == [log[0]] + log[1..];
    }
  }

  lemma {:induction false} LastTouchesDistinct(log: seq<Key>)
    ensures Distinct(LastTouches(log))
  {
    if log != [] {
      LastTouchesDistinct(log[1..]);
      TouchedIsListed(log[1..], log[0]);
    }
  }

  /** A touch moves its key to the end of the recency order. */
  lemma {:induction false} TouchMovesToEnd(log: seq<Key>, k: Key)
    ensures LastTouches(log + [k]) == Without(LastTouches(log), k) + [k]
  {
    if log == [] {
      assert [k][1..] == [] && log + [k] == [k];
    } else {
      TouchMovesToEnd(log[1..], k);
      assert (log + [k])[1..] == log[1..] + [k];
      var rest := LastTouches(log[1..]);
      if log[0] in log[1..] {
        assert LastTouches(log) == rest;
      } else {
        assert LastTouches(log) == [log[0]] + rest;
        assert ([log[0]] + rest)[1..] == rest;
        Assoc([log[0]], Without(rest, k), [k]);
      }
    }
  }

  lemma {:induction false} KeptIsNotCut(cut: seq<Key>, kept: seq<Key>, k: Key)
    requires Distinct(cut + kept) && k in kept
    ensures k !in cut && Distinct(kept)
  {
    var all := cut + kept;
    var i :| 0 <= i < |kept| && kept[i] == k;
    assert forall j :: 0 <= j < |cut| ==> all[j] == cut[j];
    assert forall j :: 0 <= j < |kept| ==> all[|cut| + j] == kept[j];
  }

  lemma {:induction false} WithoutOne(s: seq<Key>, k: Key)
    requires Distinct(s) && k in s
    ensures |Without(s, k)| == |s| - 1
  {
    var i :| 0 <= i < |s| && s[i] == k;
    WithoutAt(s, i);
  }

  lemma {:induction false} SuffixSplit(r: seq<Key>, n: nat) returns (cut: seq<Key>)
    ensures r == cut + Suffix(r, n) && |Suffix(r, n)| <= n && (cut == [] || |Suffix(r, n)| == n)
  {
    cut := r[..|r| - |Suffix(r, n)|];
  }

  lemma {:induction false} SuffixIs(cut: seq<Key>, kept: seq<Key>, n: nat)
    requires |kept| <= n && (cut == [] || |kept| == n)
    ensures Suffix(cut + kept, n) == kept
  {
    assert cut == [] ==> cut + kept == kept;
    assert (cut + kept)[|cut|..] == kept;
  }

  lemma {:induction false} SuffixAfterHit(r: seq<Key>, k: Key, n: nat)
    requires Distinct(r) && k in Suffix(r, n)
    ensures Suffix(Without(r, k) + [k], n) == Without(Suffix(r, n), k) + [k]
  {
    var cut := SuffixSplit(r, n);
    var kept := Suffix(r, n);
    KeptIsNotCut(cut, kept, k);
    WithoutOne(kept, k);
    WithoutConcat(cut, kept, k);
    WithoutAbsent(cut, k);
    Assoc(cut, Without(kept, k), [k]);
    SuffixIs(cut, Without(kept, k) + [k], n);
  }

  lemma {:induction false} SuffixAfterInsert(r: seq<Key>, k: Key, n: nat)
    requires k !in Suffix(r, n) && n >= 1
    ensures Suffix(Without(r, k) + [k], n) == Suffix(Suffix(r, n) + [k], n)
  {
    var cut := SuffixSplit(r, n);
    var kept := Suffix(r, n);
    WithoutConcat(cut, kept, k);
    WithoutAbsent(kept, k);
    Assoc(Without(cut, k), kept, [k]);
    if cut == [] {
      assert [] + (kept + [k]) == kept + [k];
    } else {
      SuffixOfConcat(Without(cut, k), kept + [k], n);
    }
  }

  // The steps under the lock

  function Keys(cache: seq<Slot>): (ks: seq<Key>)
    ensures |ks| == |cache| && forall i :: 0 <= i < |ks| ==> ks[i] == cache[i].key
  {
    seq(|cache|, i requires 0 <= i < |cache| => cache[i].key)
  }

  lemma {:induction false} KeysMoved(cache: seq<Slot>, i: nat)
    requires i < |cache|
    ensures Keys(MoveToEnd(cache, i)) == Keys(cache)[..i] + Keys(cache)[i + 1..] + [cache[i].key]
  {
  }

  lemma {:induction false} KeysAppended(cache: seq<Slot>, slot: Slot, n: nat)
    ensures Keys(Suffix(cache + [slot], n)) == Suffix(Keys(cache) + [slot.key], n)
  {
  }

  // The position of a key, or the cache's length when it is absent.
  function IndexOf(cache: seq<Slot>, key: Key): (i: nat)
    ensures i <= |cache|
    ensures i < |cache| ==> cache[i].key == key
    ensures forall j :: 0 <= j < i ==> cache[j].key != key
  {
    if cache == [] || cache[0].key == key then 0 else 1 + IndexOf(cache[1..], key)
  }

  function MoveToEnd(cache: seq<Slot>, i: nat): seq<Slot>
    requires i < |cache|
  {
    cache[..i] + cache[i + 1..] + [cache[i]]
  }

  function LookupStep(c: Core, key: Key): (Core, Option<Callable>) {
    var i := IndexOf(c.cache, key);
    if i < |c.cache|
    then (c.(cache := MoveToEnd(c.cache, i), hits := c.hits + 1), Some(c.cache[i].callable))
    else (c, None)
  }

  function StoreStep(c: Core, key: Key, udf: Callable, maxEntries: nat): (Core, Callable) {
    var found := LookupStep(c, key);
    if found.1.Some? then (found.0, found.1.value)
    else (c.(cache := Suffix(c.cache + [Slot(key, udf)], maxEntries), misses := c.misses + 1), udf)
  }

  function Capacity(p: Payload): int {
    if p.maxEntries.Some? then p.maxEntries.value else DEFAULT_ENTRIES
  }

  predicate Caches(p: Payload) {
    !p.sideEffects && Capacity(p) > 0
  }

  // The steps of all loads

  function StepCall(s: State, t: ThreadId, p: Payload): State {
    if !Caches(p) then
      s.(core := s.core.(bypasses := s.core.bypasses + 1), flights := s.flights[t := Bypassing(p)])
    else if p.pickle == None then
      s
    else
      var found := LookupStep(s.core, p.key);
      if found.1.Some?
      then s.(core := found.0, returned := s.returned + [Reply(p, found.1.value)])
      else s.(flights := s.flights[t := Loading(p)])
  }

  function StepDeserialised(s: State, t: ThreadId, identity: Option<nat>): State
    requires t in s.flights
  {
    match s.flights[t]
    case Bypassing(p) =>
      if p.pickle == None || identity == None
      then s.(flights := s.flights - {t}, failedBypasses := s.failedBypasses + 1)
      else s.(flights := s.flights - {t},
              returned := s.returned + [Reply(p, Callable(p.pickle.value, identity.value))])
    case Loading(p) =>
      if p.pickle == None || identity == None
      then s.(flights := s.flights - {t})
      else s.(flights := s.flights[t := Holding(p, Callable(p.pickle.value, identity.value))])
    case Holding(_, _) => s
  }

  function StepStore(s: State, t: ThreadId): State
    requires t in s.flights
  {
    match s.flights[t]
    case Holding(p, udf) =>
      if !Caches(p) then s
      else
        var stored := StoreStep(s.core, p.key, udf, Capacity(p));
        s.(core := stored.0,
           flights := s.flights - {t},
           returned := s.returned + [Reply(p, stored.1)])
    case Bypassing(_) => s
    case Loading(_) => s
  }

  // An event that is not due leaves the state alone.
  function Step(s: State, e: Event): State {
    match e
    case Call(t, p) => if t in s.flights then s else StepCall(s, t, p)
    case Deserialised(t, identity) => if t in s.flights then StepDeserialised(s, t, identity) else s
    case Store(t) => if t in s.flights then StepStore(s, t) else s
  }

  function Run(s: State, events: seq<Event>): State
    decreases |events|
  {
    if events == [] then s else Run(Step(s, events[0]), events[1..])
  }

  const EMPTY := State(Core([], 0, 0, 0), map[], [], 0)

  // What holds at every point of every interleaving

  // One capacity for all caching loads, and keys that determine pickles.
  predicate PayloadOk(p: Payload, capacity: nat, pickleOf: Key -> Pickle) {
    Caches(p) ==> Capacity(p) == capacity && (p.pickle.Some? ==> p.pickle.value == pickleOf(p.key))
  }

  predicate EventOk(e: Event, capacity: nat, pickleOf: Key -> Pickle) {
    e.Call? ==> PayloadOk(e.payload, capacity, pickleOf)
  }

  predicate FlightOk(f: Flight, capacity: nat, pickleOf: Key -> Pickle) {
    match f
    case Bypassing(p) => !Caches(p)
    case Loading(p) => Caches(p) && p.pickle.Some? && PayloadOk(p, capacity, pickleOf)
    case Holding(p, udf) =>
      Caches(p) && p.pickle == Some(udf.pickle) && PayloadOk(p, capacity, pickleOf)
  }

  // The keys of the loads returned through the cache, in order.
  function Touched(returned: seq<Reply>): seq<Key> {
    if returned == [] then []
    else
      var init, last := returned[..|returned| - 1], returned[|returned| - 1];
      Touched(init) + if Caches(last.payload) then [last.payload.key] else []
  }

  // The keys returned most recently, least recent first.
  function Recent(returned: seq<Reply>, capacity: nat): seq<Key> {
    Suffix(LastTouches(Touched(returned)), capacity)
  }

  // What was returned last through the cache for a key.
  function LastReturned(returned: seq<Reply>, key: Key): Option<Callable> {
    if returned == [] then None
    else
      var last := returned[|returned| - 1];
      if Caches(last.payload) && last.payload.key == key then Some(last.callable)
      else LastReturned(returned[..|returned| - 1], key)
  }

  // The returned loads that, by what was returned before them, hit, missed or
  // went past a cache of the given capacity.
  datatype Counts = Counts(hits: nat, misses: nat, bypasses: nat) {
    function Plus(before: seq<Reply>, r: Reply, capacity: nat): Counts {
      if !Caches(r.payload) then this.(bypasses := bypasses + 1)
      else if r.payload.key in Recent(before, capacity) then this.(hits := hits + 1)
      else this.(misses := misses + 1)
    }
  }

  function CountsOf(returned: seq<Reply>, capacity: nat): (c: Counts)
    ensures c.hits + c.misses + c.bypasses == |returned|
  {
    if returned == [] then Counts(0, 0, 0)
    else
      var init := returned[..|returned| - 1];
      CountsOf(init, capacity).Plus(init, returned[|returned| - 1], capacity)
  }

  // Whoever hits gets the very object returned before.
  predicate HitsShare(returned: seq<Reply>, capacity: nat) {
    returned == [] ||
    var init, last := returned[..|returned| - 1], returned[|returned| - 1];
    && HitsShare(init, capacity)
    && (Caches(last.payload) && last.payload.key in Recent(init, capacity) ==>
          LastReturned(init, last.payload.key) == Some(last.callable))
  }

  lemma {:induction false} OneMoreReply(returned: seq<Reply>, r: Reply, capacity: nat)
    ensures var all := returned + [r];
            && Touched(all) == Touched(returned) + (if Caches(r.payload) then [r.payload.key] else [])
            && CountsOf(all, capacity) == CountsOf(returned, capacity).Plus(returned, r, capacity)
            && (HitsShare(all, capacity) <==>
                && HitsShare(returned, capacity)
                && (Caches(r.payload) && r.payload.key in Recent(returned, capacity) ==>
                      LastReturned(returned, r.payload.key) == Some(r.callable)))
  {
    assert (returned + [r])[..|returned|] == returned;
  }

  lemma {:induction false} LastReturnedThen(returned: seq<Reply>, r: Reply, key: Key)
    ensures LastReturned(returned + [r], key) ==
            if Caches(r.payload) && r.payload.key == key then Some(r.callable) else LastReturned(returned, key)
  {
    assert (returned + [r])[..|returned|] == returned;
  }

  // The cache holds the most recently returned keys, least recent first.
  predicate HoldsMostRecent(s: State, capacity: nat) {
    Keys(s.core.cache) == Recent(s.returned, capacity)
  }

  // A slot holds what was last returned for its key.
  predicate SlotsReturned(cache: seq<Slot>, returned: seq<Reply>) {
    forall i :: 0 <= i < |cache| ==> LastReturned(returned, cache[i].key) == Some(cache[i].callable)
  }

  predicate SlotsOk(cache: seq<Slot>, pickleOf: Key -> Pickle) {
    forall i :: 0 <= i < |cache| ==> cache[i].callable.pickle == pickleOf(cache[i].key)
  }

  predicate FlightsOk(flights: map<ThreadId, Flight>, capacity: nat, pickleOf: Key -> Pickle) {
    forall t :: t in flights ==> FlightOk(flights[t], capacity, pickleOf)
  }

  // Every returned callable was made from the caller's own pickle.
  predicate RepliesOk(returned: seq<Reply>) {
    forall i :: 0 <= i < |returned| ==> returned[i].payload.pickle == Some(returned[i].callable.pickle)
  }

  function BypassFlights(flights: map<ThreadId, Flight>): set<ThreadId> {
    set t | t in flights && flights[t].Bypassing?
  }

  // Hits and misses count returned loads.  A counted bypass has returned, is still
  // deserialising, or failed to deserialise.
  predicate CountersAgree(s: State, capacity: nat) {
    var c := CountsOf(s.returned, capacity);
    && s.core.hits == c.hits && s.core.misses == c.misses
    && s.core.bypasses == c.bypasses + |BypassFlights(s.flights)| + s.failedBypasses
  }

  predicate Inv(s: State, capacity: nat, pickleOf: Key -> Pickle) {
    && HoldsMostRecent(s, capacity)
    && SlotsOk(s.core.cache, pickleOf)
    && FlightsOk(s.flights, capacity, pickleOf)
    && RepliesOk(s.returned)
    && CountersAgree(s, capacity)
    && SlotsReturned(s.core.cache, s.returned)
    && HitsShare(s.returned, capacity)
  }

  // One lock step at a time

  lemma {:induction false} LookupKeepsRecency(cache: seq<Slot>, log: seq<Key>, key: Key, n: nat)
    requires Keys(cache) == Suffix(LastTouches(log), n) && IndexOf(cache, key) < |cache|
    ensures Keys(MoveToEnd(cache, IndexOf(cache, key))) == Suffix(LastTouches(log + [key]), n)
  {
    var i := IndexOf(cache, key);
    var r := LastTouches(log);
    LastTouchesDistinct(log);
    TouchMovesToEnd(log, key);
    assert Suffix(r, n)[i] == key;
    SuffixAfterHit(r, key, n);
    WithoutAt(Suffix(r, n), i);
    KeysMoved(cache, i);
  }

  lemma {:induction false} StoreKeepsRecency(cache: seq<Slot>, log: seq<Key>, key: Key, udf: Callable, n: nat)
    requires Keys(cache) == Suffix(LastTouches(log), n) && n >= 1 && IndexOf(cache, key) == |cache|
    ensures Keys(Suffix(cache + [Slot(key, udf)], n)) == Suffix(LastTouches(log + [key]), n)
  {
    var r := LastTouches(log);
    TouchMovesToEnd(log, key);
    assert key !in Keys(cache);
    SuffixAfterInsert(r, key, n);
    KeysAppended(cache, Slot(key, udf), n);
  }

  lemma {:induction false} BypassFlightsAdd(flights: map<ThreadId, Flight>, t: ThreadId, f: Flight)
    requires t !in flights || !flights[t].Bypassing?
    ensures |BypassFlights(flights[t := f])| == |BypassFlights(flights)| + if f.Bypassing? then 1 else 0
  {
    assert BypassFlights(flights[t := f]) == BypassFlights(flights) + if f.Bypassing? then {t} else {};
  }

  lemma {:induction false} BypassFlightsRemove(flights: map<ThreadId, Flight>, t: ThreadId)
    requires t in flights
    ensures |BypassFlights(flights)| == |BypassFlights(flights - {t})| + if flights[t].Bypassing? then 1 else 0
  {
    assert BypassFlights(flights) == BypassFlights(flights - {t}) + if flights[t].Bypassing? then {t} else {};
  }

  // What a lock step that ends a load does to the cache: it touches the key.
  predicate Touches(c: Core, d: Core, log: seq<Key>, key: Key, result: Callable, n: nat, pickleOf: Key -> Pickle) {
    && Keys(d.cache) == Suffix(LastTouches(log + [key]), n)
    && SlotsOk(d.cache, pickleOf)
    && result.pickle == pickleOf(key)
    && d.bypasses == c.bypasses
    && (if key in Keys(c.cache) then d.hits == c.hits + 1 && d.misses == c.misses
        else d.hits == c.hits && d.misses == c.misses + 1)
  }

  lemma {:induction false} MovedSlotsOk(cache: seq<Slot>, i: nat, pickleOf: Key -> Pickle)
    requires SlotsOk(cache, pickleOf) && i < |cache|
    ensures SlotsOk(MoveToEnd(cache, i), pickleOf)
  {
  }

  lemma {:induction false} AppendedSlotsOk(cache: seq<Slot>, slot: Slot, n: nat, pickleOf: Key -> Pickle)
    requires SlotsOk(cache, pickleOf) && slot.callable.pickle == pickleOf(slot.key)
    ensures SlotsOk(Suffix(cache + [slot], n), pickleOf)
  {
  }

  lemma {:induction false} KeyIsListed(cache: seq<Slot>, key: Key)
    ensures key in Keys(cache) <==> IndexOf(cache, key) < |cache|
  {
    var i := IndexOf(cache, key);
    if i < |cache| {
      assert Keys(cache)[i] == key;
    }
  }

  lemma {:induction false} LookupTouches(c: Core, log: seq<Key>, key: Key, n: nat, pickleOf: Key -> Pickle)
    requires Keys(c.cache) == Suffix(LastTouches(log), n) && SlotsOk(c.cache, pickleOf)
    requires LookupStep(c, key).1.Some?
    ensures Touches(c, LookupStep(c, key).0, log, key, LookupStep(c, key).1.value, n, pickleOf)
  {
    LookupKeepsRecency(c.cache, log, key, n);
    MovedSlotsOk(c.cache, IndexOf(c.cache, key), pickleOf);
    KeyIsListed(c.cache, key);
  }

  lemma {:induction false} StoreTouches(c: Core, log: seq<Key>, key: Key, udf: Callable, n: nat,
                                        pickleOf: Key -> Pickle)
    requires Keys(c.cache) == Suffix(LastTouches(log), n) && SlotsOk(c.cache, pickleOf)
    requires n >= 1 && udf.pickle == pickleOf(key)
    ensures Touches(c, StoreStep(c, key, udf, n).0, log, key, StoreStep(c, key, udf, n).1, n, pickleOf)
  {
    if LookupStep(c, key).1.Some? {
      LookupTouches(c, log, key, n, pickleOf);
    } else {
      KeyIsListed(c.cache, key);
      StoreKeepsRecency(c.cache, log, key, udf, n);
      AppendedSlotsOk(c.cache, Slot(key, udf), n, pickleOf);
    }
  }

  // A lookup that finds its key, and any store, returns the object of its key's
  // slot and leaves the other slots alone.
  predicate SlotTouched(c: Core, d: Core, key: Key, result: Callable) {
    && (key in Keys(c.cache) ==> Slot(key, result) in c.cache)
    && forall i :: 0 <= i < |d.cache| ==>
                     d.cache[i] == Slot(key, result) || (d.cache[i].key != key && d.cache[i] in c.cache)
  }

  lemma {:induction false} LookupSlots(c: Core, key: Key, n: nat, log: seq<Key>)
    requires Keys(c.cache) == Suffix(LastTouches(log), n) && LookupStep(c, key).1.Some?
    ensures SlotTouched(c, LookupStep(c, key).0, key, LookupStep(c, key).1.value)
  {
    var i := IndexOf(c.cache, key);
    var d := MoveToEnd(c.cache, i);
    RecentDistinct(log, n);
    assert c.cache[i] in c.cache;
    forall j | 0 <= j < |d| ensures d[j] == c.cache[i] || (d[j].key != key && d[j] in c.cache) {
      if j < |d| - 1 {
        var k := if j < i then j else j + 1;
        assert d[j] == c.cache[k] && Keys(c.cache)[k] != Keys(c.cache)[i];
      }
    }
  }

  lemma {:induction false} RecentDistinct(log: seq<Key>, n: nat)
    ensures Distinct(Suffix(LastTouches(log), n))
  {
    LastTouchesDistinct(log);
  }

  lemma {:induction false} StoreSlots(c: Core, key: Key, udf: Callable, n: nat, log: seq<Key>)
    requires Keys(c.cache) == Suffix(LastTouches(log), n)
    ensures SlotTouched(c, StoreStep(c, key, udf, n).0, key, StoreStep(c, key, udf, n).1)
  {
    KeyIsListed(c.cache, key);
    if LookupStep(c, key).1.Some? {
      LookupSlots(c, key, n, log);
    } else {
      var d := Suffix(c.cache + [Slot(key, udf)], n);
      forall j | 0 <= j < |d| ensures d[j] == Slot(key, udf) || (d[j].key != key && d[j] in c.cache) {
        var k := |c.cache| + 1 - |d| + j;
        assert d[j] == (c.cache + [Slot(key, udf)])[k];
      }
    }
  }

  lemma {:induction false} TouchedSlotsReturned(c: Core, d: Core, returned: seq<Reply>, r: Reply)
    requires SlotsReturned(c.cache, returned) && Caches(r.payload)
    requires SlotTouched(c, d, r.payload.key, r.callable)
    ensures SlotsReturned(d.cache, returned + [r])
    ensures r.payload.key in Keys(c.cache) ==> LastReturned(returned, r.payload.key) == Some(r.callable)
  {
    forall i | 0 <= i < |d.cache| ensures LastReturned(returned + [r], d.cache[i].key) == Some(d.cache[i].callable) {
      LastReturnedThen(returned, r, d.cache[i].key);
    }
  }

  // A load that returns through the cache keeps the invariant.
  lemma {:induction false} ReplyKeepsInv(s: State, d: Core, flights: map<ThreadId, Flight>, r: Reply, capacity: nat,
                                         pickleOf: Key -> Pickle)
    requires Inv(s, capacity, pickleOf) && Caches(r.payload) && r.payload.pickle == Some(pickleOf(r.payload.key))
    requires Touches(s.core, d, Touched(s.returned), r.payload.key, r.callable, capacity, pickleOf)
    requires SlotTouched(s.core, d, r.payload.key, r.callable)
    requires FlightsOk(flights, capacity, pickleOf) && |BypassFlights(flights)| == |BypassFlights(s.flights)|
    ensures Inv(s.(core := d, flights := flights, returned := s.returned + [r]), capacity, pickleOf)
  {
    OneMoreReply(s.returned, r, capacity);
    TouchedSlotsReturned(s.core, d, s.returned, r);
  }

  lemma {:induction false} CallKeepsInv(s: State, t: ThreadId, p: Payload, capacity: nat, pickleOf: Key -> Pickle)
    requires Inv(s, capacity, pickleOf) && t !in s.flights && PayloadOk(p, capacity, pickleOf)
    ensures Inv(StepCall(s, t, p), capacity, pickleOf)
  {
    if !Caches(p) {
      BypassFlightsAdd(s.flights, t, Bypassing(p));
    } else if p.pickle.Some? {
      var found := LookupStep(s.core, p.key);
      if found.1.Some? {
        LookupTouches(s.core, Touched(s.returned), p.key, capacity, pickleOf);
        LookupSlots(s.core, p.key, capacity, Touched(s.returned));
        ReplyKeepsInv(s, found.0, s.flights, Reply(p, found.1.value), capacity, pickleOf);
      } else {
        BypassFlightsAdd(s.flights, t, Loading(p));
      }
    }
  }

  // What is returned past the cache does not count for the cache.
  lemma {:induction false} DeserialisedKeepsCache(s: State, t: ThreadId, identity: Option<nat>, capacity: nat)
    requires t in s.flights && SlotsReturned(s.core.cache, s.returned) && HitsShare(s.returned, capacity)
    requires s.flights[t].Bypassing? ==> !Caches(s.flights[t].payload)
    ensures var u := StepDeserialised(s, t, identity);
            && u.core == s.core && Touched(u.returned) == Touched(s.returned)
            && SlotsReturned(u.core.cache, u.returned) && HitsShare(u.returned, capacity)
  {
    var u := StepDeserialised(s, t, identity);
    if u.returned != s.returned {
      var r := u.returned[|s.returned|];
      assert u.returned == s.returned + [r];
      OneMoreReply(s.returned, r, capacity);
      forall i | 0 <= i < |s.core.cache|
        ensures LastReturned(u.returned, s.core.cache[i].key) == Some(s.core.cache[i].callable)
      {
        LastReturnedThen(s.returned, r, s.core.cache[i].key);
      }
    }
  }

  lemma {:induction false} DeserialisedKeepsFlights(s: State, t: ThreadId, identity: Option<nat>, capacity: nat,
                                                    pickleOf: Key -> Pickle)
    requires FlightsOk(s.flights, capacity, pickleOf) && t in s.flights
    ensures FlightsOk(StepDeserialised(s, t, identity).flights, capacity, pickleOf)
  {
    var f := s.flights[t];
    assert FlightOk(f, capacity, pickleOf);
  }

  lemma {:induction false} DeserialisedKeepsReplies(s: State, t: ThreadId, identity: Option<nat>)
    requires RepliesOk(s.returned) && t in s.flights
    ensures RepliesOk(StepDeserialised(s, t, identity).returned)
  {
  }

  // The flights and the list of failures change together.
  lemma {:induction false} BypassEnds(s: State, t: ThreadId, r: Option<Reply>, capacity: nat)
    requires CountersAgree(s, capacity) && t in s.flights && s.flights[t].Bypassing?
    requires r.Some? ==> !Caches(r.value.payload)
    ensures CountersAgree(s.(flights := s.flights - {t},
                             returned := if r.Some? then s.returned + [r.value] else s.returned,
                             failedBypasses := if r.Some? then s.failedBypasses else s.failedBypasses + 1), capacity)
  {
    BypassFlightsRemove(s.flights, t);
    if r.Some? {
      OneMoreReply(s.returned, r.value, capacity);
    }
  }

  lemma {:induction false} LoadingEnds(s: State, t: ThreadId, flights: map<ThreadId, Flight>, capacity: nat)
    requires CountersAgree(s, capacity) && t in s.flights && s.flights[t].Loading?
    requires flights == s.flights - {t} ||
             (t in flights && flights == s.flights[t := flights[t]] && flights[t].Holding?)
    ensures CountersAgree(s.(flights := flights), capacity)
  {
    assert BypassFlights(flights) == BypassFlights(s.flights);
  }

  lemma {:induction false} DeserialisedKeepsCounters(s: State, t: ThreadId, identity: Option<nat>, capacity: nat)
    requires CountersAgree(s, capacity) && t in s.flights
    requires s.flights[t].Bypassing? ==> !Caches(s.flights[t].payload)
    ensures CountersAgree(StepDeserialised(s, t, identity), capacity)
  {
    match s.flights[t]
    case Bypassing(p) =>
      var fails := p.pickle == None || identity == None;
      var r := if fails then None else Some(Reply(p, Callable(p.pickle.value, identity.value)));
      BypassEnds(s, t, r, capacity);
    case Loading(_) => LoadingEnds(s, t, StepDeserialised(s, t, identity).flights, capacity);
    case Holding(_, _) =>
  }

  lemma {:induction false} DeserialisedKeepsInv(s: State, t: ThreadId, identity: Option<nat>, capacity: nat,
                                                pickleOf: Key -> Pickle)
    requires Inv(s, capacity, pickleOf) && t in s.flights
    ensures Inv(StepDeserialised(s, t, identity), capacity, pickleOf)
  {
    assert FlightOk(s.flights[t], capacity, pickleOf);
    DeserialisedKeepsCache(s, t, identity, capacity);
    DeserialisedKeepsFlights(s, t, identity, capacity, pickleOf);
    DeserialisedKeepsReplies(s, t, identity);
    DeserialisedKeepsCounters(s, t, identity, capacity);
  }

  lemma {:induction false} StoreKeepsInv(s: State, t: ThreadId, capacity: nat, pickleOf: Key -> Pickle)
    requires Inv(s, capacity, pickleOf) && t in s.flights
    ensures Inv(StepStore(s, t), capacity, pickleOf)
  {
    if s.flights[t].Holding? {
      var Holding(p, udf) := s.flights[t];
      assert FlightOk(s.flights[t], capacity, pickleOf);
      BypassFlightsRemove(s.flights, t);
      StoreTouches(s.core, Touched(s.returned), p.key, udf, capacity, pickleOf);
      StoreSlots(s.core, p.key, udf, capacity, Touched(s.returned));
      assert FlightsOk(s.flights - {t}, capacity, pickleOf);
      var stored := StoreStep(s.core, p.key, udf, capacity);
      ReplyKeepsInv(s, stored.0, s.flights - {t}, Reply(p, stored.1), capacity, pickleOf);
    }
  }

  /** Every interleaving of any number of loads keeps the invariant. */
  lemma {:induction false} RunKeepsInv(s: State, events: seq<Event>, capacity: nat, pickleOf: Key -> Pickle)
    requires Inv(s, capacity, pickleOf) && capacity >= 1
    requires forall e :: e in events ==> EventOk(e, capacity, pickleOf)
    ensures Inv(Run(s, events), capacity, pickleOf)
    decreases |events|
  {
    if events != [] {
      assert events[0] in events;
      match events[0] {
        case Call(t, p) => if t !in s.flights { CallKeepsInv(s, t, p, capacity, pickleOf); }
        case Deserialised(t, identity) =>
          if t in s.flights { DeserialisedKeepsInv(s, t, identity, capacity, pickleOf); }
        case Store(t) => if t in s.flights { StoreKeepsInv(s, t, capacity, pickleOf); }
      }
      RunKeepsInv(Step(s, events[0]), events[1..], capacity, pickleOf);
    }
  }

  /** From an empty cache, at every point of every interleaving: the cache holds
      exactly the most recently returned keys in order of their last return, never
      more than its capacity, with callables made from the right pickles; a load
      of such a key gets the object returned before; and the counters count hits,
      misses and bypasses. */
  lemma {:induction false} EveryInterleaving(events: seq<Event>, capacity: nat, pickleOf: Key -> Pickle)
    requires capacity >= 1
    requires forall e :: e in events ==> EventOk(e, capacity, pickleOf)
    ensures var s := Run(EMPTY, events);
            && |s.core.cache| <= capacity
            && HoldsMostRecent(s, capacity)
            && SlotsOk(s.core.cache, pickleOf)
            && RepliesOk(s.returned)
            && CountersAgree(s, capacity)
            && HitsShare(s.returned, capacity)
  {
    RunKeepsInv(EMPTY, events, capacity, pickleOf);
  }

  /** Without a given size the cache holds the last 64 keys returned through it. */
  lemma {:induction false} DefaultCache(events: seq<Event>, pickleOf: Key -> Pickle)
    requires forall e :: e in events && e.Call? && !e.payload.sideEffects ==>
               e.payload.maxEntries == None &&
               (e.payload.pickle.Some? ==> e.payload.pickle.value == pickleOf(e.payload.key))
    ensures var s := Run(EMPTY, events); Keys(s.core.cache) == Suffix(LastTouches(Touched(s.returned)), 64)
  {
    EveryInterleaving(events, 64, pickleOf);
  }

  /** The counters add up to the returned loads exactly when no load past the cache
      is still deserialising or has failed. */
  lemma {:induction false} CountersMatchExactlyWhen(events: seq<Event>, capacity: nat, pickleOf: Key -> Pickle)
    requires capacity >= 1
    requires forall e :: e in events ==> EventOk(e, capacity, pickleOf)
    ensures var s := Run(EMPTY, events);
            s.core.hits + s.core.misses + s.core.bypasses == |s.returned| <==>
            s.failedBypasses == 0 && forall t :: t in s.flights ==> !s.flights[t].Bypassing?
  {
    EveryInterleaving(events, capacity, pickleOf);
    var flights := Run(EMPTY, events).flights;
    if |BypassFlights(flights)| == 0 {
      assert forall t :: t in flights && flights[t].Bypassing? ==> t in BypassFlights(flights);
    } else {
      var t :| t in BypassFlights(flights);
      assert flights[t].Bypassing?;
    }
  }

  /** A load past the cache is counted before it has deserialised anything, and
      stays counted when deserialising fails and nothing is under way any more. */
  lemma {:induction false} BypassCountedEarly(thread: ThreadId, key: Key, pickle: Pickle)
    ensures var s := Run(EMPTY, [Call(thread, Payload(key, Some(pickle), true, None))]);
            s.core.hits + s.core.misses + s.core.bypasses == 1 && s.returned == []
    ensures var s := Run(EMPTY, [Call(thread, Payload(key, Some(pickle), true, None)), Deserialised(thread, None)]);
            s.flights == map[] && s.core.hits + s.core.misses + s.core.bypasses == 1 && s.returned == []
  {
    var call, failure := Call(thread, Payload(key, Some(pickle), true, None)), Deserialised(thread, None);
    RunOne(EMPTY, call);
    assert [call, failure][1..] == [failure];
    RunOne(Step(EMPTY, call), failure);
  }

  lemma {:induction false} RunOne(s: State, e: Event)
    ensures Run(s, [e]) == Step(s, e)
  {
    assert [e][1..] == [];
  }

  /** A load that caches leaves what it returned as the most recent slot. */
  lemma {:induction false} ReturnedIsMostRecent(c: Core, key: Key, udf: Callable, maxEntries: nat)
    requires maxEntries >= 1
    ensures var stored := StoreStep(c, key, udf, maxEntries);
            && stored.0.cache != [] && stored.0.cache[|stored.0.cache| - 1] == Slot(key, stored.1)
            && LookupStep(stored.0, key).1.Some?
  {
    var cache := StoreStep(c, key, udf, maxEntries).0.cache;
    assert cache[|cache| - 1].key == key;
  }

  // ----- A load that is not interrupted returns -----------------------------

  // What a step of another thread leaves alone.
  lemma {:induction false} OthersKeepFlight(s: State, e: Event, t: ThreadId)
    requires e.thread != t
    ensures var u := Step(s, e);
            && s.returned <= u.returned && (t in u.flights <==> t in s.flights)
            && (t in s.flights ==> u.flights[t] == s.flights[t])
  {
  }

  lemma {:induction false} RunKeepsFlight(s: State, events: seq<Event>, t: ThreadId)
    requires forall e :: e in events ==> e.thread != t
    ensures var u := Run(s, events);
            && s.returned <= u.returned && (t in u.flights <==> t in s.flights)
            && (t in s.flights ==> u.flights[t] == s.flights[t])
    decreases |events|
  {
    if events != [] {
      assert events[0] in events;
      OthersKeepFlight(s, events[0], t);
      RunKeepsFlight(Step(s, events[0]), events[1..], t);
    }
  }

  predicate ReturnedSince(before: seq<Reply>, after: seq<Reply>, p: Payload) {
    exists i :: |before| <= i < |after| && after[i].payload == p
  }

  // Where a load stands: it has returned and is gone, or is on its way.
  predicate Advances(before: seq<Reply>, s: State, t: ThreadId, p: Payload, f: Flight) {
    before <= s.returned && if t in s.flights then s.flights[t] == f else ReturnedSince(before, s.returned, p)
  }

  lemma {:induction false} RunAdvances(before: seq<Reply>, s: State, events: seq<Event>, t: ThreadId, p: Payload,
                                       f: Flight)
    requires Advances(before, s, t, p, f) && forall e :: e in events ==> e.thread != t
    ensures Advances(before, Run(s, events), t, p, f)
  {
    RunKeepsFlight(s, events, t);
    if t !in s.flights {
      var i :| |before| <= i < |s.returned| && s.returned[i].payload == p;
      assert Run(s, events).returned[i].payload == p;
    }
  }

  lemma {:induction false} CallAdvances(s: State, t: ThreadId, p: Payload)
    requires t !in s.flights && p.pickle.Some?
    ensures Advances(s.returned, Step(s, Call(t, p)), t, p, if Caches(p) then Loading(p) else Bypassing(p))
  {
    var u := Step(s, Call(t, p));
    if t !in u.flights {
      assert u.returned[|s.returned|].payload == p;
    }
  }

  lemma {:induction false} DeserialisedAdvances(before: seq<Reply>, s: State, t: ThreadId, p: Payload, identity: nat)
    requires Advances(before, s, t, p, if Caches(p) then Loading(p) else Bypassing(p)) && p.pickle.Some?
    ensures Advances(before, Step(s, Deserialised(t, Some(identity))), t, p,
                     Holding(p, Callable(p.pickle.value, identity)))
    ensures !Caches(p) ==> t !in Step(s, Deserialised(t, Some(identity))).flights
  {
    var u := Step(s, Deserialised(t, Some(identity)));
    if t in s.flights && !Caches(p) {
      assert u.returned[|s.returned|].payload == p;
    }
  }

  lemma {:induction false} StoreAdvances(before: seq<Reply>, s: State, t: ThreadId, p: Payload, udf: Callable)
    requires Advances(before, s, t, p, Holding(p, udf)) && (t in s.flights ==> Caches(p))
    ensures t !in Step(s, Store(t)).flights && ReturnedSince(before, Step(s, Store(t)).returned, p)
  {
    var u := Step(s, Store(t));
    if t in s.flights {
      assert u.returned[|s.returned|].payload == p;
    }
  }

  /** A load whose pickle deserialises returns, whatever other threads do between
      its steps. */
  lemma {:induction false} LoadReturns(s: State, t: ThreadId, p: Payload, es: seq<Event>, identity: nat, fs: seq<Event>)
    requires t !in s.flights && p.pickle.Some?
    requires (forall e :: e in es ==> e.thread != t) && (forall e :: e in fs ==> e.thread != t)
    ensures var loaded := Step(Run(Step(s, Call(t, p)), es), Deserialised(t, Some(identity)));
            var u := Step(Run(loaded, fs), Store(t));
            t !in u.flights && ReturnedSince(s.returned, u.returned, p)
  {
    var called, udf := Step(s, Call(t, p)), Callable(p.pickle.value, identity);
    CallAdvances(s, t, p);
    RunAdvances(s.returned, called, es, t, p, if Caches(p) then Loading(p) else Bypassing(p));
    var loaded := Step(Run(called, es), Deserialised(t, Some(identity)));
    DeserialisedAdvances(s.returned, Run(called, es), t, p, identity);
    RunAdvances(s.returned, loaded, fs, t, p, Holding(p, udf));
    RunKeepsFlight(loaded, fs, t);
    StoreAdvances(s.returned, Run(loaded, fs), t, p, udf);
  }

  // The steps of one load while no other is under way.
  function LoadAlone(c: Core, t: ThreadId, p: Payload, identity: Option<nat>): State {
    Step(Step(Step(State(c, map[], [], 0), Call(t, p)), Deserialised(t, identity)), Store(t))
  }

  // The shared cache

  class CallableLru {
    var cache: seq<Slot>
    var hits: nat
    var misses: nat
    var bypasses: nat

    ghost function View(): Core
      reads this
    {
      Core(cache, hits, misses, bypasses)
    }

    constructor ()
      ensures View() == Core([], 0, 0, 0)
    {
      cache, hits, misses, bypasses := [], 0, 0, 0;
    }

    method CountBypass()
      modifies this
      ensures View() == old(View()).(bypasses := old(bypasses) + 1)
    {
      bypasses := bypasses + 1;
    }

    // The first look, under the lock.
    method Lookup(key: Key) returns (found: Option<Callable>)
      modifies this
      ensures var o := LookupStep(old(View()), key); View() == o.0 && found == o.1
    {
      var i := IndexOf(cache, key);
      if i == |cache| {
        return None;
      }
      var cached := cache[i].callable;
      cache := MoveToEnd(cache, i);
      hits := hits + 1;
      return Some(cached);
    }

    // The second look and the insertion, under the lock.
    method Insert(key: Key, udf: Callable, maxEntries: nat) returns (r: Callable)
      modifies this
      ensures var o := StoreStep(old(View()), key, udf, maxEntries); View() == o.0 && r == o.1
    {
      var found := Lookup(key);
      if found.Some? {
        return found.value;
      }
      cache := cache + [Slot(key, udf)];
      misses := misses + 1;
      ghost var full := cache;
      while |cache| > maxEntries
        invariant Suffix(cache, maxEntries) == Suffix(full, maxEntries)
        invariant View() == StoreStep(old(View()), key, udf, maxEntries).0.(cache := cache)
      {
        cache := cache[1..];
      }
      return udf;
    }

    /** One whole load with nobody else at the cache, where `identity` is the object
        that deserialising makes, if it does not raise. */
    method Load(thread: ThreadId, payload: Payload, identity: Option<nat>) returns (r: Option<Callable>)
      modifies this
      ensures var after := LoadAlone(old(View()), thread, payload, identity);
              && View() == after.core
              && after.returned == (if r.Some? then [Reply(payload, r.value)] else [])
              && after.flights == map[]
      ensures var i := IndexOf(old(cache), payload.key);
              var past := payload.sideEffects || (payload.maxEntries.Some? && payload.maxEntries.value <= 0);
              && (r == if payload.pickle == None then None
                       else if !past && i < |old(cache)| then Some(old(cache)[i].callable)
                       else if identity == None then None
                       else Some(Callable(payload.pickle.value, identity.value)))
              && (past ==> cache == old(cache))
    {
      ghost var before := View();
      if !Caches(payload) {
        CountBypass();
        ghost var after := LoadAlone(before, thread, payload, identity);
        assert after.flights == map[];
        if payload.pickle == None || identity == None {
          return None;
        }
        return Some(Callable(payload.pickle.value, identity.value));
      }
      if payload.pickle == None {
        return None;
      }
      var found := Lookup(payload.key);
      if found.Some? {
        return found;
      }
      if identity == None {
        ghost var after := LoadAlone(before, thread, payload, identity);
        assert after.flights == map[];
        return None;
      }
      var udf := Insert(payload.key, Callable(payload.pickle.value, identity.value), Capacity(payload));
      ghost var after := LoadAlone(before, thread, payload, identity);
      assert after.flights == map[];
      return Some(udf);
    }
  }
}

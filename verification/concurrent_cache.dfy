/**
 * Any number of concurrent DataResources calls on one cache (internal/resolver/contract_cache.go):
 * load and store are atomic under the mutex, the fetch between them is not.
 */
module ConcurrentCache {
  import opened Results
  import opened Collections
  import opened Contracts
  import opened Lookup
  import CacheRuns

  /** Where a caller stands. `since` is how many fetches there were when its call began. */
  datatype Phase =
    | Idle
    | Loading(c: Contract, since: nat)
    | Fetching(c: Contract, since: nat)
    | Storing(c: Contract, resources: seq<DataResource>, fetch: nat, since: nat)

  /** A completed call to the inner lookup. */
  datatype Fetched = Fetched(caller: nat, c: Contract, answer: Result<seq<DataResource>, string>, at: int)

  /** A store, and the fetch whose answer it put in the map. */
  datatype Stored = Stored(id: string, resources: seq<DataResource>, fetch: nat, at: int)

  /**
   * A finished call: from the map (then `source` is a store) or from a fetch. The fetches numbered
   * from `since` up to `until` were made while the call was under way.
   */
  datatype Returned = Returned(caller: nat, c: Contract, answer: Result<seq<DataResource>, string>,
                               at: int, hit: bool, source: nat, since: nat, until: nat)

  /** The map and the clock, the callers, and the history. */
  datatype System = System(items: CacheMap, now: int, callers: map<nat, Phase>,
                           fetches: seq<Fetched>, stores: seq<Stored>, outcomes: seq<Returned>)

  datatype Action =
    | Begin(caller: nat, c: Contract)
    | DoLoad(caller: nat)
    | DoFetch(caller: nat, answer: Result<seq<DataResource>, string>)
    | DoStore(caller: nat)
    | Tick(elapsed: nat)

  function PhaseOf(s: System, caller: nat): Phase {
    if caller in s.callers then s.callers[caller] else Idle
  }

  function Start(now: int): System {
    System(map[], now, map[], [], [], [])
  }

  /** The latest store under an id, by position. */
  function LastIndex(stores: seq<Stored>, id: string): (j: Option<nat>)
    ensures j.Some? ==> j.value < |stores|
  {
    if stores == [] then None
    else if Last(stores).id == id then Some(|stores| - 1)
    else LastIndex(Init(stores), id)
  }

  function Finish(s: System, r: Returned): System {
    s.(callers := s.callers[r.caller := Idle], outcomes := s.outcomes + [r])
  }

  /** One step of one caller; an action that is not enabled changes nothing. */
  function Next(s: System, ttl: int, a: Action): System {
    match a
    case Tick(elapsed) => s.(now := s.now + elapsed)
    case Begin(p, c) =>
      if !PhaseOf(s, p).Idle? then s
      else
        var since := |s.fetches|;
        s.(callers := s.callers[p := if c.id == "" then Fetching(c, since) else Loading(c, since)])
    case DoLoad(p) =>
      (match PhaseOf(s, p)
       case Loading(c, since) =>
         (match LoadAt(s.items, c.id, s.now)
          case Some(v) =>
            var j := LastIndex(s.stores, c.id);
            Finish(s, Returned(p, c, Ok(v), s.now, true, if j.Some? then j.value else 0, since, |s.fetches|))
          case None => s.(callers := s.callers[p := Fetching(c, since)]))
       case _ => s)
    case DoFetch(p, answer) =>
      (match PhaseOf(s, p)
       case Fetching(c, since) =>
         var k := |s.fetches|;
         var s' := s.(fetches := s.fetches + [Fetched(p, c, answer, s.now)]);
         if answer.Err? || c.id == "" then Finish(s', Returned(p, c, answer, s.now, false, k, since, k + 1))
         else s'.(callers := s.callers[p := Storing(c, answer.value, k, since)])
       case _ => s)
    case DoStore(p) =>
      (match PhaseOf(s, p)
       case Storing(c, v, k, since) =>
         var s' := s.(items := StoreAt(s.items, c.id, v, s.now, ttl),
                      stores := s.stores + [Stored(c.id, v, k, s.now)]);
         Finish(s', Returned(p, c, Ok(v), s.now, false, k, since, |s.fetches|))
       case _ => s)
  }

  function Run(s: System, ttl: int, actions: seq<Action>): System
    decreases |actions|
  {
    if actions == [] then s else Run(Next(s, ttl, actions[0]), ttl, actions[1..])
  }

  // ---- what holds in every reachable state -------------------------------------------------

  /** A store puts in the map what some fetch returned, without error, for a contract with that id. */
  ghost predicate StoreSound(s: System, j: nat)
    requires j < |s.stores|
  {
    var st := s.stores[j];
    && st.id != "" && st.fetch < |s.fetches|
    && s.fetches[st.fetch].c.id == st.id && s.fetches[st.fetch].answer == Ok(st.resources)
    && s.fetches[st.fetch].at <= st.at <= s.now
  }

  /** The stores, as the sequential cache's history tells them. */
  function Plain(stores: seq<Stored>): seq<CacheRuns.Stored> {
    seq(|stores|, i requires 0 <= i < |stores| =>
      CacheRuns.Stored(stores[i].id, stores[i].resources, stores[i].at))
  }

  /** The map is what the stores, one after the other, amount to. */
  ghost predicate MapSound(s: System, ttl: int) {
    s.items == CacheRuns.After(Plain(s.stores), ttl) && CacheRuns.InOrder(Plain(s.stores), s.now)
  }

  /** Of the fetches in a stretch, the caller made this one only; or none. */
  ghost predicate OwnFetch(s: System, p: nat, since: nat, until: nat, own: Option<nat>) {
    && since <= until <= |s.fetches|
    && (own.Some? ==> since <= own.value < until && s.fetches[own.value].caller == p)
    && forall i :: since <= i < until && s.fetches[i].caller == p ==> own == Some(i)
  }

  /**
   * A returned answer is that of the one fetch the call made; or the call made none, and the answer was
   * stored for the same id no more than ttl before.
   */
  ghost predicate ReturnSound(s: System, ttl: int, r: Returned) {
    if r.hit then
      && OwnFetch(s, r.caller, r.since, r.until, None)
      && r.c.id != "" && r.source < |s.stores| && StoreSound(s, r.source)
      && s.stores[r.source].id == r.c.id && s.stores[r.source].at <= r.at <= s.stores[r.source].at + ttl
      && r.answer == Ok(s.stores[r.source].resources)
    else
      && OwnFetch(s, r.caller, r.since, r.until, Some(r.source))
      && s.fetches[r.source].c == r.c && r.answer == s.fetches[r.source].answer
  }

  ghost predicate CallerSound(s: System, p: nat) {
    match PhaseOf(s, p)
    case Idle => true
    case Loading(c, since) => c.id != "" && OwnFetch(s, p, since, |s.fetches|, None)
    case Fetching(c, since) => OwnFetch(s, p, since, |s.fetches|, None)
    case Storing(c, v, k, since) =>
      && OwnFetch(s, p, since, |s.fetches|, Some(k))
      && c.id != "" && s.fetches[k].c == c && s.fetches[k].answer == Ok(v) && s.fetches[k].at <= s.now
  }

  ghost predicate Sound(s: System, ttl: int) {
    && MapSound(s, ttl)
    && (forall j :: 0 <= j < |s.stores| ==> StoreSound(s, j))
    && (forall k :: 0 <= k < |s.outcomes| ==> ReturnSound(s, ttl, s.outcomes[k]))
    && (forall p :: CallerSound(s, p))
  }

  /** History only grows, and time with it. */
  predicate Grows(s: System, t: System) {
    s.fetches <= t.fetches && s.stores <= t.stores && s.now <= t.now
  }

  lemma StoreStays(s: System, t: System, j: nat)
    requires Grows(s, t) && j < |s.stores| && StoreSound(s, j)
    ensures StoreSound(t, j) && t.stores[j] == s.stores[j]
  {
  }

  lemma OwnFetchStays(s: System, t: System, p: nat, since: nat, until: nat, own: Option<nat>)
    requires Grows(s, t) && OwnFetch(s, p, since, until, own)
    ensures OwnFetch(t, p, since, until, own)
  {
  }

  lemma ReturnStays(s: System, t: System, ttl: int, r: Returned)
    requires Grows(s, t) && ReturnSound(s, ttl, r)
    ensures ReturnSound(t, ttl, r)
  {
    OwnFetchStays(s, t, r.caller, r.since, r.until, if r.hit then None else Some(r.source));
    if r.hit { StoreStays(s, t, r.source); }
  }

  /** Another caller's fetch, or none at all, leaves a caller where it was. */
  lemma CallerStays(s: System, t: System, q: nat)
    requires Grows(s, t) && CallerSound(s, q) && PhaseOf(t, q) == PhaseOf(s, q)
    requires forall i :: |s.fetches| <= i < |t.fetches| ==> t.fetches[i].caller != q
    ensures CallerSound(t, q)
  {
    var own := if PhaseOf(s, q).Storing? then Some(PhaseOf(s, q).fetch) else None;
    if !PhaseOf(s, q).Idle? {
      OwnFetchStays(s, t, q, PhaseOf(s, q).since, |s.fetches|, own);
      assert OwnFetch(t, q, PhaseOf(s, q).since, |t.fetches|, own);
    }
  }

  /** A step keeps the invariant when everything it adds is sound and it moves one caller only. */
  lemma StepKeepsSound(s: System, t: System, ttl: int, p: nat)
    requires Sound(s, ttl) && Grows(s, t) && MapSound(t, ttl)
    requires forall j :: |s.stores| <= j < |t.stores| ==> StoreSound(t, j)
    requires s.outcomes <= t.outcomes
    requires forall k :: |s.outcomes| <= k < |t.outcomes| ==> ReturnSound(t, ttl, t.outcomes[k])
    requires forall q: nat :: q != p ==> PhaseOf(t, q) == PhaseOf(s, q)
    requires forall i :: |s.fetches| <= i < |t.fetches| ==> t.fetches[i].caller == p
    requires CallerSound(t, p)
    ensures Sound(t, ttl)
  {
    forall j | 0 <= j < |t.stores| ensures StoreSound(t, j) {
      if j < |s.stores| { StoreStays(s, t, j); }
    }
    forall k | 0 <= k < |t.outcomes| ensures ReturnSound(t, ttl, t.outcomes[k]) {
      if k < |s.outcomes| {
        assert ReturnSound(s, ttl, s.outcomes[k]);
        ReturnStays(s, t, ttl, s.outcomes[k]);
      }
    }
    forall q ensures CallerSound(t, q) {
      assert CallerSound(s, q);
      if q != p {
        assert PhaseOf(t, q) == PhaseOf(s, q);
        CallerStays(s, t, q);
      }
    }
  }

  lemma {:induction false} LastIndexIsLastStore(stores: seq<Stored>, id: string)
    ensures var j := LastIndex(stores, id);
      && CacheRuns.LastStore(Plain(stores), id) == (if j.Some? then Some(Plain(stores)[j.value]) else None)
      && (j.Some? ==> stores[j.value].id == id)
      && forall i :: (if j.Some? then j.value + 1 else 0) <= i < |stores| ==> stores[i].id != id
  {
    if stores != [] {
      LastIndexIsLastStore(Init(stores), id);
      assert Init(Plain(stores)) == Plain(Init(stores));
    }
  }

  /** An entry is its id's latest store. */
  ghost predicate EntrySound(s: System, ttl: int, id: string)
    requires id in s.items
  {
    var j := LastIndex(s.stores, id);
    && j.Some? && StoreSound(s, j.value) && s.stores[j.value].id == id
    && s.items[id] == CacheEntry(s.stores[j.value].resources, s.stores[j.value].at + ttl)
  }

  lemma EntriesAreSound(s: System, ttl: int, id: string)
    requires Sound(s, ttl) && id in s.items
    ensures EntrySound(s, ttl, id)
  {
    CacheRuns.EntriesAreLastStores(Plain(s.stores), ttl, id, s.now);
    LastIndexIsLastStore(s.stores, id);
  }

  lemma LoadKeepsSound(s: System, ttl: int, p: nat)
    requires Sound(s, ttl)
    ensures Sound(Next(s, ttl, DoLoad(p)), ttl)
  {
    var t := Next(s, ttl, DoLoad(p));
    assert CallerSound(s, p);
    if t.outcomes != s.outcomes {
      EntriesAreSound(s, ttl, PhaseOf(s, p).c.id);
      assert ReturnSound(t, ttl, t.outcomes[|s.outcomes|]);
    }
    StepKeepsSound(s, t, ttl, p);
  }

  lemma FetchIsOwn(s: System, ttl: int, p: nat, answer: Result<seq<DataResource>, string>)
    requires CallerSound(s, p) && PhaseOf(s, p).Fetching?
    ensures var t, k := Next(s, ttl, DoFetch(p, answer)), |s.fetches|;
      && t.fetches == s.fetches + [Fetched(p, PhaseOf(s, p).c, answer, s.now)]
      && OwnFetch(t, p, PhaseOf(s, p).since, k + 1, Some(k))
  {
    var t := Next(s, ttl, DoFetch(p, answer));
    OwnFetchStays(s, t, p, PhaseOf(s, p).since, |s.fetches|, None);
  }

  lemma FetchKeepsSound(s: System, ttl: int, p: nat, answer: Result<seq<DataResource>, string>)
    requires Sound(s, ttl)
    ensures Sound(Next(s, ttl, DoFetch(p, answer)), ttl)
  {
    assert CallerSound(s, p);
    if PhaseOf(s, p).Fetching? {
      FetchIsOwn(s, ttl, p, answer);
      StepKeepsSound(s, Next(s, ttl, DoFetch(p, answer)), ttl, p);
    }
  }

  lemma StoreKeepsMap(s: System, ttl: int, p: nat)
    requires MapSound(s, ttl) && PhaseOf(s, p).Storing?
    ensures MapSound(Next(s, ttl, DoStore(p)), ttl)
  {
    var t := Next(s, ttl, DoStore(p));
    var added := Last(Plain(t.stores));
    assert Plain(t.stores) == Plain(s.stores) + [added];
    CacheRuns.OneMoreStore(Plain(s.stores), ttl, added, s.now, s.now);
  }

  lemma StoreKeepsSound(s: System, ttl: int, p: nat)
    requires Sound(s, ttl)
    ensures Sound(Next(s, ttl, DoStore(p)), ttl)
  {
    var t := Next(s, ttl, DoStore(p));
    assert CallerSound(s, p);
    if PhaseOf(s, p).Storing? {
      StoreKeepsMap(s, ttl, p);
      assert StoreSound(t, |s.stores|);
      assert ReturnSound(t, ttl, t.outcomes[|s.outcomes|]);
      StepKeepsSound(s, t, ttl, p);
    }
  }

  lemma NextKeepsSound(s: System, ttl: int, a: Action)
    requires Sound(s, ttl)
    ensures Sound(Next(s, ttl, a), ttl)
  {
    match a {
      case DoStore(p) => StoreKeepsSound(s, ttl, p);
      case DoLoad(p) => LoadKeepsSound(s, ttl, p);
      case DoFetch(p, answer) => FetchKeepsSound(s, ttl, p, answer);
      case Begin(p, _) =>
        assert CallerSound(s, p);
        StepKeepsSound(s, Next(s, ttl, a), ttl, p);
      case Tick(_) =>
        assert CallerSound(s, 0);
        StepKeepsSound(s, Next(s, ttl, a), ttl, 0);
    }
  }

  lemma {:induction false} RunKeepsSound(s: System, ttl: int, actions: seq<Action>)
    requires Sound(s, ttl)
    ensures Sound(Run(s, ttl, actions), ttl)
    decreases |actions|
  {
    if actions != [] {
      NextKeepsSound(s, ttl, actions[0]);
      RunKeepsSound(Next(s, ttl, actions[0]), ttl, actions[1..]);
    }
  }

  /**
   * Over every interleaving: each returned answer is that of the one inner call made during the call,
   * or the call made none and its answer was stored for the same id no more than ttl before the load;
   * and the map holds only such stores, never under the empty id.
   */
  lemma EveryInterleavingIsSound(now: int, ttl: int, actions: seq<Action>)
    ensures var s := Run(Start(now), ttl, actions);
      && (forall k :: 0 <= k < |s.outcomes| ==> ReturnSound(s, ttl, s.outcomes[k]))
      && (forall id :: id in s.items ==> id != "" && EntrySound(s, ttl, id))
  {
    RunKeepsSound(Start(now), ttl, actions);
    var s := Run(Start(now), ttl, actions);
    forall id | id in s.items ensures id != "" && EntrySound(s, ttl, id) { EntriesAreSound(s, ttl, id); }
  }

  /** No more entries than 128, or than the ids stored within the ttl before the last store. */
  ghost predicate Bounded(s: System, ttl: int) {
    s.stores != [] ==>
      var recent := CacheRuns.StoredSince(Plain(s.stores), Last(s.stores).at - ttl);
      |s.items| <= if |recent| > 128 then |recent| else 128
  }

  lemma SoundIsBounded(s: System, ttl: int)
    requires MapSound(s, ttl) && ttl > 0
    ensures Bounded(s, ttl)
  {
    if s.stores != [] {
      assert Last(Plain(s.stores)).at == Last(s.stores).at;
      CacheRuns.SizeBound(Plain(s.stores), ttl);
    }
  }

  /**
   * Under any interleaving the map is that of a sequential history, the stores in the order they were
   * made; so here too sweeping is invisible to a load, and the size is bounded in the same way.
   */
  lemma InterleavedMapIsAHistory(now: int, ttl: int, actions: seq<Action>, id: string)
    ensures var s := Run(Start(now), ttl, actions);
      && s.items == CacheRuns.After(Plain(s.stores), ttl)
      && LoadAt(s.items, id, s.now) == CacheRuns.Remembered(Plain(s.stores), ttl, id, s.now)
      && (ttl > 0 ==> Bounded(s, ttl))
  {
    RunKeepsSound(Start(now), ttl, actions);
    var s := Run(Start(now), ttl, actions);
    CacheRuns.SweepingIsInvisible(Plain(s.stores), ttl, id, s.now);
    if ttl > 0 {
      SoundIsBounded(s, ttl);
    }
  }

  // ---- a catalog under interleaving --------------------------------------------------------------

  /** The fetches from some number on were answered by the catalog. */
  ghost predicate FetchedBy(s: System, first: nat, catalog: Catalog) {
    forall k :: first <= k < |s.fetches| ==> s.fetches[k].answer == catalog(s.fetches[k].c)
  }

  /** No store made within the last ttl before a time carries an earlier fetch. */
  ghost predicate WindowClear(s: System, ttl: int, first: nat, at: int) {
    forall j :: 0 <= j < |s.stores| && s.stores[j].fetch < first ==> !(s.stores[j].at <= at <= s.stores[j].at + ttl)
  }

  lemma StoreIsCatalog(s: System, first: nat, catalog: Catalog, j: nat, c: Contract)
    requires ById(catalog) && FetchedBy(s, first, catalog)
    requires j < |s.stores| && StoreSound(s, j) && s.stores[j].fetch >= first && s.stores[j].id == c.id
    ensures catalog(c) == Ok(s.stores[j].resources)
  {
  }

  /**
   * Under any interleaving, with a facade that keeps to a catalog from some fetch on: a call that made a
   * fetch since then, or was answered from the map once no earlier fetch had been stored within the
   * last ttl, returned the catalog's answer.
   */
  lemma InterleavedAnswersAreFresh(now: int, ttl: int, actions: seq<Action>, first: nat, catalog: Catalog, k: nat)
    requires ById(catalog) && FetchedBy(Run(Start(now), ttl, actions), first, catalog)
    requires k < |Run(Start(now), ttl, actions).outcomes|
    ensures var s := Run(Start(now), ttl, actions);
            var r := s.outcomes[k];
      (if r.hit then WindowClear(s, ttl, first, r.at) else r.source >= first) ==> r.answer == catalog(r.c)
  {
    RunKeepsSound(Start(now), ttl, actions);
    var s := Run(Start(now), ttl, actions);
    var r := s.outcomes[k];
    assert ReturnSound(s, ttl, r);
    if r.hit && WindowClear(s, ttl, first, r.at) {
      StoreIsCatalog(s, first, catalog, r.source, r.c);
    }
  }

  /** And so will the next load from the map. */
  lemma InterleavedMapIsFresh(now: int, ttl: int, actions: seq<Action>, first: nat, catalog: Catalog, c: Contract)
    requires ById(catalog) && FetchedBy(Run(Start(now), ttl, actions), first, catalog)
    requires var s := Run(Start(now), ttl, actions); WindowClear(s, ttl, first, s.now)
    ensures var s := Run(Start(now), ttl, actions);
            var hit := LoadAt(s.items, c.id, s.now);
      hit.Some? ==> catalog(c) == Ok(hit.value)
  {
    RunKeepsSound(Start(now), ttl, actions);
    var s := Run(Start(now), ttl, actions);
    if LoadAt(s.items, c.id, s.now).Some? {
      EntriesAreSound(s, ttl, c.id);
      StoreIsCatalog(s, first, catalog, LastIndex(s.stores, c.id).value, c);
    }
  }

  // ---- no single flight: which fetch the map keeps ---------------------------------------------

  /** Two callers that have fetched for one id and not stored yet. */
  predicate Overlap(s: System, p: nat, q: nat) {
    p != q && PhaseOf(s, p).Storing? && PhaseOf(s, q).Storing? && PhaseOf(s, p).c.id == PhaseOf(s, q).c.id
  }

  ghost predicate Serial(s: System) {
    forall p, q :: !Overlap(s, p, q)
  }

  /** No state the run goes through has such a pair. */
  ghost predicate SerialRun(s: System, ttl: int, actions: seq<Action>)
    decreases |actions|
  {
    Serial(s) && (actions != [] ==> SerialRun(Next(s, ttl, actions[0]), ttl, actions[1..]))
  }

  /** The stores of each id carry its fetches in the order they were made. */
  predicate InFetchOrder(stores: seq<Stored>) {
    forall i, j :: 0 <= i < j < |stores| && stores[i].id == stores[j].id ==> stores[i].fetch < stores[j].fetch
  }

  predicate StoresLater(s: System, p: nat) {
    PhaseOf(s, p).Storing? ==>
      forall j :: 0 <= j < |s.stores| && s.stores[j].id == PhaseOf(s, p).c.id ==>
        s.stores[j].fetch < PhaseOf(s, p).fetch
  }

  /** A fetch worth keeping is in some store, or its caller is about to store it. */
  predicate Keepable(f: Fetched) { f.answer.Ok? && f.c.id != "" }

  ghost predicate Arrived(s: System, k: nat) {
    exists j :: 0 <= j < |s.stores| && s.stores[j].fetch == k
  }

  predicate Pending(s: System, p: nat, k: nat) {
    PhaseOf(s, p).Storing? && PhaseOf(s, p).fetch == k
  }

  ghost predicate UnderWay(s: System, k: nat) {
    exists p :: Pending(s, p, k)
  }

  ghost predicate Accounted(s: System, k: nat)
    requires k < |s.fetches|
  {
    Keepable(s.fetches[k]) ==> Arrived(s, k) || UnderWay(s, k)
  }

  ghost predicate Ordered(s: System) {
    && InFetchOrder(s.stores)
    && (forall p :: StoresLater(s, p))
    && (forall k :: 0 <= k < |s.fetches| ==> Accounted(s, k))
  }

  lemma AccountedStays(s: System, t: System, p: nat, k: nat)
    requires Grows(s, t) && k < |s.fetches| && Accounted(s, k)
    requires forall q: nat :: q != p ==> PhaseOf(t, q) == PhaseOf(s, q)
    requires Pending(s, p, k) ==> Arrived(t, k)
    ensures Accounted(t, k)
  {
    if Keepable(s.fetches[k]) {
      if Arrived(s, k) {
        var j :| 0 <= j < |s.stores| && s.stores[j].fetch == k;
        assert t.stores[j] == s.stores[j];
      } else {
        var q :| Pending(s, q, k);
        if q != p { assert Pending(t, q, k); }
      }
    }
  }

  lemma StoreKeepsOrder(s: System, ttl: int, p: nat)
    requires Sound(s, ttl) && Ordered(s) && Serial(s) && PhaseOf(s, p).Storing?
    ensures Ordered(Next(s, ttl, DoStore(p)))
  {
    var t, n := Next(s, ttl, DoStore(p)), |s.stores|;
    assert StoresLater(s, p);
    assert t.stores[n].fetch == PhaseOf(s, p).fetch;
    forall q ensures StoresLater(t, q) {
      assert StoresLater(s, q) && !Overlap(s, p, q);
    }
    forall k | 0 <= k < |t.fetches| ensures Accounted(t, k) {
      assert Accounted(s, k);
      AccountedStays(s, t, p, k);
    }
  }

  lemma FetchKeepsOrder(s: System, ttl: int, p: nat, answer: Result<seq<DataResource>, string>)
    requires Sound(s, ttl) && Ordered(s) && PhaseOf(s, p).Fetching?
    ensures Ordered(Next(s, ttl, DoFetch(p, answer)))
  {
    var t, n := Next(s, ttl, DoFetch(p, answer)), |s.fetches|;
    forall j | 0 <= j < |s.stores| ensures s.stores[j].fetch < n { assert StoreSound(s, j); }
    forall q ensures StoresLater(t, q) { assert StoresLater(s, q); }
    forall k | 0 <= k < |t.fetches| ensures Accounted(t, k) {
      if k < n {
        assert Accounted(s, k);
        AccountedStays(s, t, p, k);
      } else if Keepable(t.fetches[k]) {
        assert Pending(t, p, k);
      }
    }
  }

  /** A step that neither fetches nor stores. */
  lemma QuietKeepsOrder(s: System, t: System, p: nat)
    requires Ordered(s) && t.fetches == s.fetches && t.stores == s.stores && s.now <= t.now
    requires forall q: nat :: q != p ==> PhaseOf(t, q) == PhaseOf(s, q)
    requires PhaseOf(t, p) == PhaseOf(s, p) || !(PhaseOf(t, p).Storing? || PhaseOf(s, p).Storing?)
    ensures Ordered(t)
  {
    forall q ensures StoresLater(t, q) { assert StoresLater(s, q); }
    forall k | 0 <= k < |t.fetches| ensures Accounted(t, k) {
      assert Accounted(s, k);
      if PhaseOf(t, p) == PhaseOf(s, p) && UnderWay(s, k) {
        var q :| Pending(s, q, k);
        assert Pending(t, q, k);
      } else {
        AccountedStays(s, t, p, k);
      }
    }
  }

  lemma NextKeepsOrder(s: System, ttl: int, a: Action)
    requires Sound(s, ttl) && Ordered(s) && Serial(s)
    ensures Ordered(Next(s, ttl, a))
  {
    match a {
      case DoStore(p) =>
        if PhaseOf(s, p).Storing? { StoreKeepsOrder(s, ttl, p); }
      case DoFetch(p, answer) =>
        if PhaseOf(s, p).Fetching? { FetchKeepsOrder(s, ttl, p, answer); }
      case DoLoad(p) => QuietKeepsOrder(s, Next(s, ttl, a), p);
      case Begin(p, _) => QuietKeepsOrder(s, Next(s, ttl, a), p);
      case Tick(_) => QuietKeepsOrder(s, Next(s, ttl, a), 0);
    }
  }

  lemma {:induction false} SerialRunKeepsOrder(s: System, ttl: int, actions: seq<Action>)
    requires Sound(s, ttl) && Ordered(s) && SerialRun(s, ttl, actions)
    ensures Ordered(Run(s, ttl, actions)) && Sound(Run(s, ttl, actions), ttl)
    decreases |actions|
  {
    if actions != [] {
      NextKeepsSound(s, ttl, actions[0]);
      NextKeepsOrder(s, ttl, actions[0]);
      SerialRunKeepsOrder(Next(s, ttl, actions[0]), ttl, actions[1..]);
    }
  }

  /** No successful fetch for the id is newer than the entry's, except one still about to be stored. */
  ghost predicate NewestKept(s: System, id: string)
    requires id in s.items
  {
    var j := LastIndex(s.stores, id);
    && j.Some? && s.items[id].resources == s.stores[j.value].resources
    && forall k :: s.stores[j.value].fetch < k < |s.fetches| && s.fetches[k].c.id == id && Keepable(s.fetches[k]) ==>
         UnderWay(s, k)
  }

  lemma ArrivedIsNotNewer(s: System, id: string, k: nat)
    requires InFetchOrder(s.stores) && forall i :: 0 <= i < |s.stores| ==> StoreSound(s, i)
    requires k < |s.fetches| && s.fetches[k].c.id == id && Arrived(s, k)
    ensures LastIndex(s.stores, id).Some? && k <= s.stores[LastIndex(s.stores, id).value].fetch
  {
    LastIndexIsLastStore(s.stores, id);
    var i :| 0 <= i < |s.stores| && s.stores[i].fetch == k;
    assert StoreSound(s, i);
  }

  lemma OrderKeepsNewest(s: System, ttl: int, id: string)
    requires Sound(s, ttl) && Ordered(s) && id in s.items
    ensures NewestKept(s, id)
  {
    EntriesAreSound(s, ttl, id);
    var j := LastIndex(s.stores, id).value;
    forall k | s.stores[j].fetch < k < |s.fetches| && s.fetches[k].c.id == id && Keepable(s.fetches[k])
      ensures UnderWay(s, k)
    {
      assert Accounted(s, k);
      if Arrived(s, k) { ArrivedIsNotNewer(s, id, k); }
    }
  }

  /**
   * A run in which no two callers are ever about to store for one id at the same time keeps the stores
   * of every id in fetch order, and every entry is the newest fetch that has reached the map.
   */
  lemma SerialRunKeepsNewest(now: int, ttl: int, actions: seq<Action>)
    requires SerialRun(Start(now), ttl, actions)
    ensures var s := Run(Start(now), ttl, actions);
      InFetchOrder(s.stores) && forall id :: id in s.items ==> NewestKept(s, id)
  {
    SerialRunKeepsOrder(Start(now), ttl, actions);
    var s := Run(Start(now), ttl, actions);
    forall id | id in s.items ensures NewestKept(s, id) { OrderKeepsNewest(s, ttl, id); }
  }

  /** Storing for two callers in turn puts the older of their fetches on top of the newer. */
  ghost predicate Reverses(s: System, ttl: int, p: nat, q: nat) {
    var t, n := Run(s, ttl, [DoStore(q), DoStore(p)]), |s.stores|;
    && s.stores <= t.stores && |t.stores| == n + 2
    && t.stores[n].id == t.stores[n + 1].id && t.stores[n].fetch > t.stores[n + 1].fetch
  }

  lemma TwoStores(s: System, ttl: int, p: nat, q: nat)
    requires PhaseOf(s, p).Storing? && PhaseOf(s, q).Storing? && p != q
    ensures var t, x, y := Run(s, ttl, [DoStore(q), DoStore(p)]), PhaseOf(s, p), PhaseOf(s, q);
      && t.stores == s.stores + [Stored(y.c.id, y.resources, y.fetch, s.now),
                                 Stored(x.c.id, x.resources, x.fetch, s.now)]
      && x.c.id in t.items && t.items[x.c.id] == CacheEntry(x.resources, s.now + ttl) && t.now == s.now
  {
    var t := AfterTwo(s, ttl, [DoStore(q), DoStore(p)]);
    assert Run(t, ttl, []) == t;
  }

  /** From any such pair, the map comes to serve the older fetch while the newer has already been stored. */
  lemma OverlapGoesStale(s: System, ttl: int, p: nat, q: nat)
    requires Overlap(s, p, q) && PhaseOf(s, p).fetch < PhaseOf(s, q).fetch && ttl >= 0
    ensures var t, id := Run(s, ttl, [DoStore(q), DoStore(p)]), PhaseOf(s, p).c.id;
      && Reverses(s, ttl, p, q) && !InFetchOrder(t.stores)
      && LoadAt(t.items, id, t.now) == Some(PhaseOf(s, p).resources)
  {
    TwoStores(s, ttl, p, q);
    var t, n := Run(s, ttl, [DoStore(q), DoStore(p)]), |s.stores|;
    assert t.stores[n].id == t.stores[n + 1].id && t.stores[n].fetch > t.stores[n + 1].fetch;
  }

  lemma NoStore(s: System, ttl: int, p: nat, q: nat)
    requires p == q || !PhaseOf(s, p).Storing? || !PhaseOf(s, q).Storing?
    ensures |Run(s, ttl, [DoStore(q), DoStore(p)]).stores| <= |s.stores| + 1
  {
    var t := AfterTwo(s, ttl, [DoStore(q), DoStore(p)]);
    assert Run(t, ttl, []) == t;
  }

  lemma OverlapReverses(s: System, ttl: int, p: nat, q: nat)
    requires CallerSound(s, p) && CallerSound(s, q) && Overlap(s, p, q)
    ensures Reverses(s, ttl, p, q) || Reverses(s, ttl, q, p)
  {
    if PhaseOf(s, p).fetch < PhaseOf(s, q).fetch {
      ReversingStores(s, ttl, p, q);
    } else {
      ReversingStores(s, ttl, q, p);
    }
  }

  lemma ReversingStores(s: System, ttl: int, p: nat, q: nat)
    requires Overlap(s, p, q) && PhaseOf(s, p).fetch < PhaseOf(s, q).fetch
    ensures Reverses(s, ttl, p, q)
  {
    TwoStores(s, ttl, p, q);
  }

  lemma ReversingOverlaps(s: System, ttl: int, p: nat, q: nat)
    requires Reverses(s, ttl, p, q)
    ensures Overlap(s, p, q)
  {
    if p == q || !PhaseOf(s, p).Storing? || !PhaseOf(s, q).Storing? {
      NoStore(s, ttl, p, q);
    } else {
      TwoStores(s, ttl, p, q);
    }
  }

  /** In every reachable state, two stores can come out of fetch order exactly when two callers overlap. */
  lemma ReversesExactly(s: System, ttl: int)
    requires Sound(s, ttl)
    ensures !Serial(s) <==> exists p, q :: Reverses(s, ttl, p, q)
  {
    if p, q :| Overlap(s, p, q) {
      assert CallerSound(s, p) && CallerSound(s, q);
      OverlapReverses(s, ttl, p, q);
    }
    if p, q :| Reverses(s, ttl, p, q) {
      ReversingOverlaps(s, ttl, p, q);
    }
  }

  /** Two callers miss on the same id; the one that fetched first stores last. */
  function SlowFirst(c: Contract, old': seq<DataResource>, new': seq<DataResource>): seq<Action> {
    [Begin(0, c), DoLoad(0), Begin(1, c), DoLoad(1), DoFetch(0, Ok(old')), DoFetch(1, Ok(new')),
     DoStore(1), DoStore(0)]
  }

  lemma AfterTwo(s: System, ttl: int, actions: seq<Action>) returns (t: System)
    requires |actions| >= 2
    ensures t == Next(Next(s, ttl, actions[0]), ttl, actions[1])
    ensures Run(s, ttl, actions) == Run(t, ttl, actions[2..])
  {
    t := Next(Next(s, ttl, actions[0]), ttl, actions[1]);
    assert actions[1..][1..] == actions[2..];
  }

  lemma BothMiss(now: int, ttl: int, c: Contract, old': seq<DataResource>, new': seq<DataResource>) returns (s: System)
    requires c.id != ""
    ensures s == Start(now).(callers := map[0 := Fetching(c, 0), 1 := Fetching(c, 0)])
    ensures Run(Start(now), ttl, SlowFirst(c, old', new')) == Run(s, ttl, SlowFirst(c, old', new')[4..])
  {
    var all := SlowFirst(c, old', new');
    var s2 := AfterTwo(Start(now), ttl, all);
    assert s2 == Start(now).(callers := map[0 := Fetching(c, 0)]);
    s := AfterTwo(s2, ttl, all[2..]);
  }

  lemma BothFetched(now: int, ttl: int, c: Contract, old': seq<DataResource>, new': seq<DataResource>)
    returns (s: System)
    requires c.id != ""
    ensures s.now == now && s.stores == []
    ensures s.callers == map[0 := Storing(c, old', 0, 0), 1 := Storing(c, new', 1, 0)]
    ensures Run(Start(now), ttl, SlowFirst(c, old', new')) == Run(s, ttl, [DoStore(1), DoStore(0)])
  {
    var s4 := BothMiss(now, ttl, c, old', new');
    var all := SlowFirst(c, old', new');
    s := AfterTwo(s4, ttl, all[4..]);
    assert all[4..][2..] == [DoStore(1), DoStore(0)];
  }

  /**
   * A later store can carry the older of two fetches: the map then serves what was fetched first,
   * although a newer answer had already been stored.
   */
  lemma OlderFetchCanWin(now: int, ttl: int, c: Contract, old': seq<DataResource>, new': seq<DataResource>)
    requires c.id != "" && ttl >= 0
    ensures var s := Run(Start(now), ttl, SlowFirst(c, old', new'));
      && s.stores == [Stored(c.id, new', 1, now), Stored(c.id, old', 0, now)]
      && LoadAt(s.items, c.id, s.now) == Some(old')
  {
    var s := BothFetched(now, ttl, c, old', new');
    TwoStores(s, ttl, 0, 1);
  }

  // ---- one caller at a time ----------------------------------------------------------------------

  /** A call nobody interrupts, at the times the sequential cache would read from its clock. */
  ghost function Solo(env: LookupEnv, st: LookupState, p: nat, c: Contract): seq<Action>
    requires Monotone(env.ticks)
  {
    var fetch := DoFetch(p, env.oracle.resources(|st.calls|, c));
    var later: nat := st.readings + if c.id in st.items then 1 else 0;
    assert env.ticks(st.readings) <= env.ticks(later);
    if c.id == "" then [Begin(p, c), fetch]
    else if LoadAt(st.items, c.id, env.ticks(st.readings)).Some? then [Begin(p, c), DoLoad(p)]
    else [Begin(p, c), DoLoad(p), fetch, Tick(env.ticks(later) - env.ticks(st.readings)), DoStore(p)]
  }

  ghost predicate Agrees(s: System, t: System, env: LookupEnv, st: LookupState, c: Contract) {
    var (answer, next) := ResourcesOf(env, st, c);
    t.items == next.items && |t.outcomes| == |s.outcomes| + 1 && t.outcomes[|s.outcomes|].answer == answer
  }

  lemma MissedLoad(s: System, ttl: int, p: nat, c: Contract)
    requires PhaseOf(s, p).Idle? && c.id != "" && LoadAt(s.items, c.id, s.now).None?
    ensures Next(Next(s, ttl, Begin(p, c)), ttl, DoLoad(p)) == s.(callers := s.callers[p := Fetching(c, |s.fetches|)])
  {
    var since := |s.fetches|;
    assert s.callers[p := Loading(c, since)][p := Fetching(c, since)] == s.callers[p := Fetching(c, since)];
  }

  /** The fetch's outcome, some time later. */
  lemma FetchedLater(s: System, ttl: int, p: nat, c: Contract, since: nat,
                     answer: Result<seq<DataResource>, string>, elapsed: nat)
    requires PhaseOf(s, p) == Fetching(c, since) && c.id != ""
    ensures var t := Next(Next(s, ttl, DoFetch(p, answer)), ttl, Tick(elapsed));
      && t.items == s.items && t.now == s.now + elapsed
      && (if answer.Ok? then PhaseOf(t, p) == Storing(c, answer.value, |s.fetches|, since) && t.outcomes == s.outcomes
          else PhaseOf(t, p) == Idle && |t.outcomes| == |s.outcomes| + 1 && t.outcomes[|s.outcomes|].answer == answer)
  {
  }

  lemma LastOne(s: System, ttl: int, actions: seq<Action>) returns (t: System)
    requires |actions| == 1
    ensures t == Next(s, ttl, actions[0]) && Run(s, ttl, actions) == t
  {
    t := Next(s, ttl, actions[0]);
    assert actions[1..] == [];
    assert Run(t, ttl, []) == t;
  }

  /** Everything but the store. */
  lemma SoloFetched(s: System, env: LookupEnv, st: LookupState, p: nat, c: Contract) returns (t: System)
    requires Monotone(env.ticks) && PhaseOf(s, p).Idle? && |Solo(env, st, p, c)| == 5
    requires s.items == st.items && s.now == env.ticks(st.readings)
    ensures Run(s, env.ttl, Solo(env, st, p, c)) == Next(t, env.ttl, DoStore(p))
    ensures var answer := env.oracle.resources(|st.calls|, c);
      && t.items == s.items && t.now == env.ticks(st.readings + if c.id in st.items then 1 else 0)
      && (if answer.Ok? then
            PhaseOf(t, p) == Storing(c, answer.value, |s.fetches|, |s.fetches|) && t.outcomes == s.outcomes
          else
            PhaseOf(t, p) == Idle && |t.outcomes| == |s.outcomes| + 1 && t.outcomes[|s.outcomes|].answer == answer)
  {
    var all := Solo(env, st, p, c);
    var s2 := AfterTwo(s, env.ttl, all);
    MissedLoad(s, env.ttl, p, c);
    t := AfterTwo(s2, env.ttl, all[2..]);
    FetchedLater(s2, env.ttl, p, c, |s.fetches|, env.oracle.resources(|st.calls|, c), all[3].elapsed);
    var _ := LastOne(t, env.ttl, all[4..]);
  }

  lemma SoloMiss(s: System, env: LookupEnv, st: LookupState, p: nat, c: Contract) returns (t: System)
    requires Monotone(env.ticks) && env.cached && PhaseOf(s, p).Idle? && |Solo(env, st, p, c)| == 5
    requires s.items == st.items && s.now == env.ticks(st.readings)
    ensures t == Run(s, env.ttl, Solo(env, st, p, c)) && Agrees(s, t, env, st, c)
  {
    var s4 := SoloFetched(s, env, st, p, c);
    t := Next(s4, env.ttl, DoStore(p));
  }

  /** The step system and the sequential cache agree: same answer, same map. */
  lemma SoloIsSequential(s: System, env: LookupEnv, st: LookupState, p: nat, c: Contract) returns (t: System)
    requires Monotone(env.ticks) && env.cached && PhaseOf(s, p).Idle?
    requires s.items == st.items && s.now == env.ticks(st.readings)
    ensures t == Run(s, env.ttl, Solo(env, st, p, c)) && Agrees(s, t, env, st, c)
  {
    if |Solo(env, st, p, c)| == 5 {
      t := SoloMiss(s, env, st, p, c);
    } else {
      t := AfterTwo(s, env.ttl, Solo(env, st, p, c));
      assert Run(t, env.ttl, []) == t;
    }
  }
}

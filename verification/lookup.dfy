/**
 * The facade as the resolver sees it, and the TTL cache in front of it
 * (internal/resolver/contract_cache.go).
 *
 * The facade is an oracle: its answer may depend on how many calls it has had and on the
 * arguments, so any sequence of answers is some oracle. Time is an integer; a duration is a
 * difference of times.
 */
module Lookup {
  import opened Results
  import opened Contracts

  datatype Oracle = Oracle(
    contracts: (nat, string, string) -> Result<seq<Contract>, string>,
    resources: (nat, Contract) -> Result<seq<DataResource>, string>)

  datatype Call = AskContracts(provider: string, consumer: string) | AskResources(c: Contract)

  /** The facade as the client presents it, with the log of the calls made through it. */
  class Facade {
    const oracle: Oracle
    var calls: seq<Call>

    constructor (oracle: Oracle)
      ensures this.oracle == oracle && calls == []
    {
      this.oracle := oracle;
      calls := [];
    }

    method SignedContracts(provider: string, consumer: string) returns (r: Result<seq<Contract>, string>)
      modifies this
      ensures r == oracle.contracts(old(|calls|), provider, consumer)
      ensures calls == old(calls) + [AskContracts(provider, consumer)]
    {
      r := oracle.contracts(|calls|, provider, consumer);
      calls := calls + [AskContracts(provider, consumer)];
    }

    method DataResources(c: Contract) returns (r: Result<seq<DataResource>, string>)
      modifies this
      ensures r == oracle.resources(old(|calls|), c)
      ensures calls == old(calls) + [AskResources(c)]
    {
      r := oracle.resources(|calls|, c);
      calls := calls + [AskResources(c)];
    }
  }

  /** The n-th reading of the clock is ticks(n). */
  class Clock {
    const ticks: nat -> int
    var readings: nat

    constructor (ticks: nat -> int)
      ensures this.ticks == ticks && readings == 0
    {
      this.ticks := ticks;
      readings := 0;
    }

    method Now() returns (t: int)
      modifies this
      ensures t == ticks(old(readings)) && readings == old(readings) + 1
    {
      t := ticks(readings);
      readings := readings + 1;
    }
  }

  // ---- a facade that keeps to one catalog ----------------------------------------------

  /** What the facade says about a contract's resources, for as long as it says the same. */
  type Catalog = Contract -> Result<seq<DataResource>, string>

  /** Two contracts with one id are one contract. */
  ghost predicate ById(catalog: Catalog) {
    forall c: Contract, d: Contract :: c.id == d.id != "" ==> catalog(c) == catalog(d)
  }

  ghost predicate EntryAgrees(catalog: Catalog, id: string, resources: seq<DataResource>) {
    forall c: Contract :: c.id == id ==> catalog(c) == Ok(resources)
  }

  // ---- the cache's two critical sections, on values -----------------------------------

  datatype CacheEntry = CacheEntry(resources: seq<DataResource>, expires: int)

  type CacheMap = map<string, CacheEntry>

  const SWEEP_THRESHOLD: nat := 128

  /** time.After is strict: an entry is still good at the very instant it expires. */
  predicate Expired(entry: CacheEntry, now: int) { now > entry.expires }

  function LoadAt(items: CacheMap, id: string, now: int): Option<seq<DataResource>> {
    if id in items && !Expired(items[id], now) then Some(items[id].resources) else None
  }

  function Live(items: CacheMap, now: int): CacheMap {
    map id | id in items && !Expired(items[id], now) :: items[id]
  }

  function StoreAt(items: CacheMap, id: string, resources: seq<DataResource>, now: int, ttl: int): CacheMap {
    var kept := if |items| >= SWEEP_THRESHOLD then Live(items, now) else items;
    kept[id := CacheEntry(resources, now + ttl)]
  }

  // ---- the cache, in place --------------------------------------------------------------

  class CachingLookup {
    const inner: Facade
    const clock: Clock
    const ttl: int
    var items: CacheMap

    constructor (inner: Facade, ttl: int, clock: Clock)
      ensures this.inner == inner && this.ttl == ttl && this.clock == clock && items == map[]
    {
      this.inner := inner;
      this.ttl := ttl;
      this.clock := clock;
      items := map[];
    }

    /** The clock is read only when there is an entry to judge. */
    method Load(id: string) returns (r: Option<seq<DataResource>>)
      modifies clock
      ensures r == LoadAt(items, id, clock.ticks(old(clock.readings)))
      ensures clock.readings == old(clock.readings) + if id in items then 1 else 0
    {
      if id !in items {
        return None;
      }
      var now := clock.Now();
      if Expired(items[id], now) {
        return None;
      }
      return Some(items[id].resources);
    }

    method Store(id: string, resources: seq<DataResource>)
      modifies this, clock
      ensures items == StoreAt(old(items), id, resources, clock.ticks(old(clock.readings)), ttl)
      ensures clock.readings == old(clock.readings) + 1
    {
      var now := clock.Now();
      if |items| >= SWEEP_THRESHOLD {
        SweepExpired(now);
      }
      items := items[id := CacheEntry(resources, now + ttl)];
    }

    /** Deletes while iterating, in whatever order the runtime picks. */
    method SweepExpired(now: int)
      modifies this
      ensures items == Live(old(items), now)
    {
      var pending := items.Keys;
      while pending != {}
        invariant pending <= items.Keys
        invariant items == map id | id in old(items) && (id in pending || !Expired(old(items)[id], now))
                               :: old(items)[id]
        decreases |pending|
      {
        var id :| id in pending;
        pending := pending - {id};
        if Expired(items[id], now) {
          items := items - {id};
        }
      }
    }

    method DataResources(c: Contract) returns (r: Result<seq<DataResource>, string>)
      modifies this, clock, inner
      ensures var env, st := LookupEnv(inner.oracle, clock.ticks, ttl, true),
                             LookupState(old(inner.calls), old(clock.readings), old(items));
              (r, LookupState(inner.calls, clock.readings, items)) == ResourcesOf(env, st, c)
    {
      if c.id == "" {
        r := inner.DataResources(c);
        return;
      }
      var cached := Load(c.id);
      if cached.Some? {
        return Ok(cached.value);
      }
      r := inner.DataResources(c);
      if r.Err? {
        return;
      }
      Store(c.id, r.value);
    }
  }

  // ---- the two implementations behind one interface ---------------------------------------

  /** contractLookup: the bare client, or the client behind the cache. */
  datatype ContractLookup = Direct(client: Facade) | Cached(cache: CachingLookup) {
    ghost function Footprint(): set<object> {
      match this
      case Direct(client) => {client}
      case Cached(cache) => {cache, cache.clock, cache.inner}
    }

    ghost function Env(): LookupEnv {
      match this
      case Direct(client) => LookupEnv(client.oracle, (_: nat) => 0, 0, false)
      case Cached(cache) => LookupEnv(cache.inner.oracle, cache.clock.ticks, cache.ttl, true)
    }

    ghost function State(): LookupState
      reads Footprint()
    {
      match this
      case Direct(client) => LookupState(client.calls, 0, map[])
      case Cached(cache) => LookupState(cache.inner.calls, cache.clock.readings, cache.items)
    }

    /** Contracts are never cached: they carry the signature state. */
    method SignedContracts(provider: string, consumer: string) returns (r: Result<seq<Contract>, string>)
      modifies Footprint()
      ensures (r, State()) == ContractsOf(Env(), old(State()), provider, consumer)
    {
      match this
      case Direct(client) => r := client.SignedContracts(provider, consumer);
      case Cached(cache) => r := cache.inner.SignedContracts(provider, consumer);
    }

    method DataResources(c: Contract) returns (r: Result<seq<DataResource>, string>)
      modifies Footprint()
      ensures (r, State()) == ResourcesOf(Env(), old(State()), c)
    {
      match this
      case Direct(client) => r := client.DataResources(c);
      case Cached(cache) => r := cache.DataResources(c);
    }
  }

  /** No lookup is handed back as it came; so is one with a ttl of zero or less. */
  method NewCachingLookup(inner: Facade?, ttl: int, clock: Clock) returns (l: Option<ContractLookup>)
    ensures l.None? <==> inner == null
    ensures l.Some? ==>
      && (l.value.Direct? <==> ttl <= 0)
      && (l.value.Direct? ==> l.value.client == inner)
      && (l.value.Cached? ==>
            && l.value.cache.inner == inner && l.value.cache.clock == clock && l.value.cache.ttl == ttl
            && fresh(l.value.cache) && l.value.cache.items == map[])
  {
    if inner == null {
      return None;
    }
    if ttl <= 0 {
      return Some(Direct(inner));
    }
    var cache := new CachingLookup(inner, ttl, clock);
    return Some(Cached(cache));
  }

  // ---- the same, as a function of the lookup's state ----------------------------------------

  datatype LookupEnv = LookupEnv(oracle: Oracle, ticks: nat -> int, ttl: int, cached: bool)

  datatype LookupState = LookupState(calls: seq<Call>, readings: nat, items: CacheMap)

  ghost function ContractsOf(env: LookupEnv, st: LookupState, provider: string, consumer: string)
    : (Result<seq<Contract>, string>, LookupState)
  {
    (env.oracle.contracts(|st.calls|, provider, consumer),
     st.(calls := st.calls + [AskContracts(provider, consumer)]))
  }

  ghost function Fetch(env: LookupEnv, st: LookupState, c: Contract)
    : (Result<seq<DataResource>, string>, LookupState)
  {
    (env.oracle.resources(|st.calls|, c), st.(calls := st.calls + [AskResources(c)]))
  }

  ghost function ResourcesOf(env: LookupEnv, st: LookupState, c: Contract)
    : (Result<seq<DataResource>, string>, LookupState)
  {
    if !env.cached || c.id == "" then Fetch(env, st, c)
    else
      var hit := LoadAt(st.items, c.id, env.ticks(st.readings));
      var judged := if c.id in st.items then st.(readings := st.readings + 1) else st;
      if hit.Some? then (Ok(hit.value), judged)
      else
        var (r, fetched) := Fetch(env, judged, c);
        if r.Err? then (r, fetched)
        else (r, fetched.(readings := fetched.readings + 1,
                          items := StoreAt(fetched.items, c.id, r.value, env.ticks(fetched.readings), env.ttl)))
  }

  ghost predicate Monotone(ticks: nat -> int) {
    forall i: nat, j: nat :: i <= j ==> ticks(i) <= ticks(j)
  }
}

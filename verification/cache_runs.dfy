/** What every run of the cache guarantees (internal/resolver/contract_cache.go). */
module CacheRuns {
  import opened Results
  import opened Collections
  import opened Contracts
  import opened Lookup

  /** One store: what was put under which id, and when. */
  datatype Stored = Stored(id: string, resources: seq<DataResource>, at: int)

  /** The cache's map after a history of stores, sweeps included. */
  function After(history: seq<Stored>, ttl: int): CacheMap {
    if history == [] then map[]
    else var s := Last(history); StoreAt(After(Init(history), ttl), s.id, s.resources, s.at, ttl)
  }

  /** The latest store under an id. */
  function LastStore(history: seq<Stored>, id: string): Option<Stored> {
    if history == [] then None
    else if Last(history).id == id then Some(Last(history))
    else LastStore(Init(history), id)
  }

  /** The reference: nothing is ever evicted, and a store is good for ttl, inclusive. */
  function Remembered(history: seq<Stored>, ttl: int, id: string, now: int): Option<seq<DataResource>> {
    match LastStore(history, id)
    case Some(s) => if now <= s.at + ttl then Some(s.resources) else None
    case None => None
  }

  /** The clock does not run backwards, and it has reached `now`. */
  predicate InOrder(history: seq<Stored>, now: int) {
    && (forall i, j :: 0 <= i < j < |history| ==> history[i].at <= history[j].at)
    && (forall i :: 0 <= i < |history| ==> history[i].at <= now)
  }

  lemma {:induction false} LastStoreInHistory(history: seq<Stored>, id: string)
    ensures var s := LastStore(history, id); s.Some? ==> s.value in history && s.value.id == id
  {
    if history != [] {
      LastStoreInHistory(Init(history), id);
    }
  }

  /** An entry is its id's latest store; an id without one was stored too long ago, or never. */
  lemma {:induction false} EntriesAreLastStores(history: seq<Stored>, ttl: int, id: string, now: int)
    requires InOrder(history, now)
    ensures var items, s := After(history, ttl), LastStore(history, id);
      if id in items then s.Some? && items[id] == CacheEntry(s.value.resources, s.value.at + ttl)
      else s.Some? ==> now > s.value.at + ttl
  {
    if history != [] {
      var s := Last(history);
      EntriesAreLastStores(Init(history), ttl, id, s.at);
    }
  }

  /** Sweeping is invisible: every load answers as if nothing had ever been evicted. */
  lemma {:induction false} SweepingIsInvisible(history: seq<Stored>, ttl: int, id: string, now: int)
    requires InOrder(history, now)
    ensures LoadAt(After(history, ttl), id, now) == Remembered(history, ttl, id, now)
  {
    EntriesAreLastStores(history, ttl, id, now);
  }

  /** One store: nothing else goes below 128 entries; from there on exactly the expired ones do. */
  lemma StoreExactly(items: CacheMap, id: string, resources: seq<DataResource>, now: int, ttl: int, other: string)
    requires other != id
    ensures var after := StoreAt(items, id, resources, now, ttl);
      && id in after && after[id] == CacheEntry(resources, now + ttl)
      && (other in after <==> other in items && (|items| < 128 || now <= items[other].expires))
      && (other in after ==> after[other] == items[other])
  {
  }

  // ---- size ---------------------------------------------------------------------------

  /** The ids stored at or after a time. */
  function StoredSince(history: seq<Stored>, since: int): set<string> {
    set s | s in history && s.at >= since :: s.id
  }

  lemma {:induction false} SmallOrAllLive(history: seq<Stored>, ttl: int)
    requires ttl > 0 && history != []
    ensures var items, now := After(history, ttl), Last(history).at;
      |items| <= SWEEP_THRESHOLD || forall id :: id in items ==> !Expired(items[id], now)
  {
    var before := After(Init(history), ttl);
    var s := Last(history);
    if |before| < SWEEP_THRESHOLD {
      assert After(history, ttl).Keys == before.Keys + {s.id};
      assert |After(history, ttl).Keys| <= |before.Keys| + 1;
    }
  }

  /** After every store: at most 128 entries, or no more than the ids stored within the last ttl. */
  lemma SizeBound(history: seq<Stored>, ttl: int)
    requires ttl > 0 && history != [] && InOrder(history, Last(history).at)
    ensures var recent := StoredSince(history, Last(history).at - ttl);
      |After(history, ttl)| <= if |recent| > 128 then |recent| else 128
  {
    var items, now := After(history, ttl), Last(history).at;
    var recent := StoredSince(history, now - ttl);
    SmallOrAllLive(history, ttl);
    if |items| > SWEEP_THRESHOLD {
      forall id | id in items ensures id in recent {
        EntriesAreLastStores(history, ttl, id, now);
        LastStoreInHistory(history, id);
      }
      SubsetIsSmaller(items.Keys, recent);
    }
  }

  // ---- runs of DataResources ------------------------------------------------------------

  ghost function Served(env: LookupEnv, st: LookupState, asked: seq<Contract>): LookupState {
    if asked == [] then st else ResourcesOf(env, Served(env, st, Init(asked)), Last(asked)).1
  }

  /** The store a call makes: none on a hit, on an error, or for a contract without an id. */
  ghost function StoreOf(env: LookupEnv, st: LookupState, c: Contract): seq<Stored> {
    var hit := LoadAt(st.items, c.id, env.ticks(st.readings));
    var answer := env.oracle.resources(|st.calls|, c);
    if !env.cached || c.id == "" || hit.Some? || answer.Err? then []
    else [Stored(c.id, answer.value, env.ticks(st.readings + if c.id in st.items then 1 else 0))]
  }

  ghost function StoresOf(env: LookupEnv, st: LookupState, asked: seq<Contract>): seq<Stored> {
    if asked == [] then []
    else StoresOf(env, st, Init(asked)) + StoreOf(env, Served(env, st, Init(asked)), Last(asked))
  }

  /** The lookup's map is what the stores so far amount to. */
  ghost predicate Records(env: LookupEnv, st: LookupState, history: seq<Stored>) {
    && st.items == After(history, env.ttl)
    && InOrder(history, env.ticks(st.readings))
    && forall i :: 0 <= i < |history| ==> history[i].id != ""
  }

  /** The store kept what the n-th call was answered for a contract with its id, at the k-th reading. */
  ghost predicate KeptAnswer(env: LookupEnv, s: Stored, n: nat, k: nat, c: Contract) {
    c.id == s.id != "" && env.oracle.resources(n, c) == Ok(s.resources) && s.at == env.ticks(k)
  }

  /** Made between two states: by a call and at a clock reading of that stretch. */
  ghost predicate MadeBetween(env: LookupEnv, st: LookupState, next: LookupState, s: Stored) {
    exists n: nat, k: nat, c: Contract ::
      KeptAnswer(env, s, n, k, c) && |st.calls| <= n < |next.calls| && st.readings <= k < next.readings
  }

  /** The lookup went on from one state to another, and these are the stores it added. */
  ghost predicate Continues(env: LookupEnv, st: LookupState, history: seq<Stored>, next: LookupState,
                            added: seq<Stored>) {
    && |st.calls| <= |next.calls| && st.readings <= next.readings
    && Records(env, next, history + added)
    && (forall i :: 0 <= i < |added| ==> MadeBetween(env, st, next, added[i]))
    && (!env.cached ==> added == [])
  }

  lemma NothingAdded(env: LookupEnv, st: LookupState, history: seq<Stored>, next: LookupState)
    requires Records(env, st, history) && Monotone(env.ticks)
    requires next.items == st.items && |st.calls| <= |next.calls| && st.readings <= next.readings
    ensures Continues(env, st, history, next, [])
  {
    assert history + [] == history;
    assert env.ticks(st.readings) <= env.ticks(next.readings);
  }

  lemma ContinuesFurther(env: LookupEnv, st: LookupState, history: seq<Stored>, mid: LookupState,
                         added: seq<Stored>, next: LookupState, more: seq<Stored>)
    requires Continues(env, st, history, mid, added) && Continues(env, mid, history + added, next, more)
    ensures Continues(env, st, history, next, added + more)
  {
    assert history + added + more == history + (added + more);
    forall i | 0 <= i < |added + more| ensures MadeBetween(env, st, next, (added + more)[i]) {
      if i < |added| {
        WidenStretch(env, st, mid, st, next, added[i]);
      } else {
        WidenStretch(env, mid, next, st, next, more[i - |added|]);
      }
    }
  }

  lemma WidenStretch(env: LookupEnv, st: LookupState, next: LookupState, earlier: LookupState, later: LookupState,
                     s: Stored)
    requires MadeBetween(env, st, next, s)
    requires |earlier.calls| <= |st.calls| && |next.calls| <= |later.calls|
    requires earlier.readings <= st.readings && next.readings <= later.readings
    ensures MadeBetween(env, earlier, later, s)
  {
    var n: nat, k: nat, c: Contract :|
      KeptAnswer(env, s, n, k, c) && |st.calls| <= n < |next.calls| && st.readings <= k < next.readings;
  }

  /** A call that stores: one store, at a reading the call made. */
  lemma StoreEffect(env: LookupEnv, st: LookupState, c: Contract)
    requires Monotone(env.ticks) && StoreOf(env, st, c) != []
    ensures var s, next := StoreOf(env, st, c)[0], ResourcesOf(env, st, c).1;
      && StoreOf(env, st, c) == [s] && s.id != ""
      && env.ticks(st.readings) <= s.at <= env.ticks(next.readings)
      && next.items == StoreAt(st.items, s.id, s.resources, s.at, env.ttl)
  {
    var k := st.readings + if c.id in st.items then 1 else 0;
    assert env.ticks(st.readings) <= env.ticks(k) <= env.ticks(k + 1);
  }

  lemma OneMoreStore(history: seq<Stored>, ttl: int, s: Stored, now: int, later: int)
    requires InOrder(history, now) && now <= s.at <= later
    ensures InOrder(history + [s], later)
    ensures After(history + [s], ttl) == StoreAt(After(history, ttl), s.id, s.resources, s.at, ttl)
  {
    assert Init(history + [s]) == history && Last(history + [s]) == s;
  }

  lemma CallKeepsRecords(env: LookupEnv, st: LookupState, history: seq<Stored>, c: Contract)
    requires Monotone(env.ticks) && Records(env, st, history) && StoreOf(env, st, c) != []
    ensures Records(env, ResourcesOf(env, st, c).1, history + StoreOf(env, st, c))
  {
    StoreEffect(env, st, c);
    OneMoreStore(history, env.ttl, StoreOf(env, st, c)[0], env.ticks(st.readings),
                 env.ticks(ResourcesOf(env, st, c).1.readings));
  }

  lemma StoreKeepsAnswer(env: LookupEnv, st: LookupState, c: Contract)
    requires StoreOf(env, st, c) != []
    ensures var next := ResourcesOf(env, st, c).1;
      |st.calls| < |next.calls| && MadeBetween(env, st, next, StoreOf(env, st, c)[0])
  {
    assert KeptAnswer(env, StoreOf(env, st, c)[0], |st.calls|, st.readings + if c.id in st.items then 1 else 0, c);
  }

  lemma CallContinues(env: LookupEnv, st: LookupState, history: seq<Stored>, c: Contract)
    requires Monotone(env.ticks) && Records(env, st, history)
    ensures Continues(env, st, history, ResourcesOf(env, st, c).1, StoreOf(env, st, c))
  {
    if StoreOf(env, st, c) == [] {
      NothingAdded(env, st, history, ResourcesOf(env, st, c).1);
    } else {
      CallKeepsRecords(env, st, history, c);
      StoreKeepsAnswer(env, st, c);
    }
  }

  lemma {:induction false} ServedContinues(env: LookupEnv, st: LookupState, history: seq<Stored>,
                                           asked: seq<Contract>)
    requires Monotone(env.ticks) && Records(env, st, history)
    ensures Continues(env, st, history, Served(env, st, asked), StoresOf(env, st, asked))
  {
    if asked == [] {
      NothingAdded(env, st, history, st);
    } else {
      var mid, added := Served(env, st, Init(asked)), StoresOf(env, st, Init(asked));
      ServedContinues(env, st, history, Init(asked));
      CallContinues(env, mid, history + added, Last(asked));
      ContinuesFurther(env, st, history, mid, added, Served(env, st, asked), StoreOf(env, mid, Last(asked)));
    }
  }

  // ---- which calls are saved --------------------------------------------------------------

  /** The call is answered without the facade. */
  ghost predicate Saved(env: LookupEnv, st: LookupState, c: Contract) {
    env.cached && c.id != "" && LoadAt(st.items, c.id, env.ticks(st.readings)).Some?
  }

  /** The questions that reach the facade, in order. */
  ghost function Missed(env: LookupEnv, st: LookupState, asked: seq<Contract>): seq<Contract> {
    if asked == [] then []
    else
      var before, c := Init(asked), Last(asked);
      Missed(env, st, before) + if Saved(env, Served(env, st, before), c) then [] else [c]
  }

  function Asks(contracts: seq<Contract>): seq<Call> {
    seq(|contracts|, i requires 0 <= i < |contracts| => AskResources(contracts[i]))
  }

  lemma AsksAppend(contracts: seq<Contract>, c: Contract)
    ensures Asks(contracts + [c]) == Asks(contracts) + [AskResources(c)]
  {
  }

  lemma OneQuestion(env: LookupEnv, st: LookupState, c: Contract)
    ensures ResourcesOf(env, st, c).1.calls == st.calls + if Saved(env, st, c) then [] else [AskResources(c)]
  {
  }

  lemma OneMoreAsked(env: LookupEnv, st: LookupState, asked: seq<Contract>, c: Contract)
    ensures Served(env, st, asked + [c]) == ResourcesOf(env, Served(env, st, asked), c).1
    ensures Missed(env, st, asked + [c])
         == Missed(env, st, asked) + if Saved(env, Served(env, st, asked), c) then [] else [c]
  {
    assert Init(asked + [c]) == asked && Last(asked + [c]) == c;
  }

  lemma OneMoreCalled(env: LookupEnv, st: LookupState, asked: seq<Contract>, c: Contract)
    requires Served(env, st, asked).calls == st.calls + Asks(Missed(env, st, asked))
    ensures Served(env, st, asked + [c]).calls == st.calls + Asks(Missed(env, st, asked + [c]))
  {
    OneMoreAsked(env, st, asked, c);
    OneQuestion(env, Served(env, st, asked), c);
    AsksAppend(Missed(env, st, asked), c);
    assert Missed(env, st, asked) + [] == Missed(env, st, asked);
  }

  /** The log holds exactly the questions that were not saved, */
  lemma {:induction false} MissedAreCalled(env: LookupEnv, st: LookupState, asked: seq<Contract>)
    ensures Served(env, st, asked).calls == st.calls + Asks(Missed(env, st, asked))
  {
    if asked == [] {
      assert st.calls + Asks([]) == st.calls;
    } else {
      MissedAreCalled(env, st, Init(asked));
      OneMoreCalled(env, st, Init(asked), Last(asked));
      assert asked == Init(asked) + [Last(asked)];
    }
  }

  /** and without a cache none is. */
  lemma {:induction false} NoneSavedUncached(env: LookupEnv, st: LookupState, asked: seq<Contract>)
    requires !env.cached
    ensures Missed(env, st, asked) == asked
  {
    if asked != [] {
      var before, c := Init(asked), Last(asked);
      assert asked == before + [c];
      NoneSavedUncached(env, st, before);
      OneMoreAsked(env, st, before, c);
      assert !Saved(env, Served(env, st, before), c);
    }
  }

  /** A contract whose id no other store touched since is saved exactly when it was remembered before. */
  lemma SavedExactly(env: LookupEnv, st: LookupState, history: seq<Stored>, asked: seq<Contract>, c: Contract)
    requires Monotone(env.ticks) && Records(env, st, history)
    requires forall d :: d in asked ==> d.id != c.id
    ensures var now := Served(env, st, asked);
      Saved(env, now, c) <==>
        env.cached && c.id != "" && Remembered(history, env.ttl, c.id, env.ticks(now.readings)).Some?
  {
    var now, added := Served(env, st, asked), StoresOf(env, st, asked);
    ServedContinues(env, st, history, asked);
    LoadsAreRemembered(env, now, history + added, c.id);
    StoresAreOfAsked(env, st, asked, c.id);
    OthersDoNotCount(history, added, c.id);
  }

  lemma {:induction false} StoresAreOfAsked(env: LookupEnv, st: LookupState, asked: seq<Contract>, id: string)
    requires forall d :: d in asked ==> d.id != id
    ensures forall s :: s in StoresOf(env, st, asked) ==> s.id != id
  {
    if asked != [] {
      StoresAreOfAsked(env, st, Init(asked), id);
      assert Last(asked) in asked;
    }
  }

  lemma {:induction false} OthersDoNotCount(history: seq<Stored>, added: seq<Stored>, id: string)
    requires forall s :: s in added ==> s.id != id
    ensures LastStore(history + added, id) == LastStore(history, id)
  {
    if added == [] {
      assert history + added == history;
    } else {
      assert Last(added) in added;
      assert Init(history + added) == history + Init(added) && Last(history + added) == Last(added);
      OthersDoNotCount(history, Init(added), id);
    }
  }

  lemma CallEffect(env: LookupEnv, st: LookupState, c: Contract)
    requires env.cached && c.id != ""
    ensures var (answer, next) := ResourcesOf(env, st, c);
      match LoadAt(st.items, c.id, env.ticks(st.readings))
      case Some(resources) => answer == Ok(resources) && next.calls == st.calls
      case None => answer == env.oracle.resources(|st.calls|, c) && next.calls == st.calls + [AskResources(c)]
  {
  }

  lemma LoadsAreRemembered(env: LookupEnv, st: LookupState, history: seq<Stored>, id: string)
    requires Records(env, st, history)
    ensures LoadAt(st.items, id, env.ticks(st.readings)) == Remembered(history, env.ttl, id, env.ticks(st.readings))
  {
    SweepingIsInvisible(history, env.ttl, id, env.ticks(st.readings));
  }

  /**
   * In every run from an empty cache, a keyed contract is answered without the facade exactly when
   * its id was last stored at most ttl ago, and then with what was stored.
   */
  lemma HitExactlyWhenRemembered(env: LookupEnv, st: LookupState, asked: seq<Contract>, c: Contract)
    requires env.cached && Monotone(env.ticks) && st.items == map[] && c.id != ""
    ensures var now := Served(env, st, asked);
      var (answer, next) := ResourcesOf(env, now, c);
      match Remembered(StoresOf(env, st, asked), env.ttl, c.id, env.ticks(now.readings))
      case Some(resources) => answer == Ok(resources) && next.calls == now.calls
      case None => answer == env.oracle.resources(|now.calls|, c) && next.calls == now.calls + [AskResources(c)]
  {
    var now, history := Served(env, st, asked), StoresOf(env, st, asked);
    ServedContinues(env, st, [], asked);
    assert [] + history == history;
    LoadsAreRemembered(env, now, history, c.id);
    CallEffect(env, now, c);
  }
}

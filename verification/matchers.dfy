/**
 * The four matchers and the collection walk they share
 * (internal/resolver/matcher.go, items.go, contract_matcher.go).
 */
module Matchers {
  import opened Results
  import opened Text
  import opened JsonPointer
  import opened Payload
  import opened Contracts
  import opened Lookup

  datatype Selector = Whole | Pointer(value: string)

  datatype Claim = Claim(selector: Selector, ownerID: string, participant: string, dataResource: string)

  datatype Matcher =
    | PathMatcher(re: Regexp, ownerGroup: int, resGroup: int, resource: string, participant: string)
    | JSONMatcher(items: string, itemsIsArray: bool, ownerPtr: string, resourcePtr: string,
                  resource: string, participant: string)
    | StaticMatcher(owner: string, resource: string, participant: string)
    | ContractMatcher(providerSD: string, items: string, itemsIsArray: bool, ownerPtr: string,
                      uriPtr: string, participant: string)

  /** What the constructors guarantee. */
  predicate WellFormed(m: Matcher) {
    match m
    case PathMatcher(re, ownerGroup, resGroup, _, _) =>
      0 <= ownerGroup < |re.names| && -1 <= resGroup < |re.names|
    case JSONMatcher(_, _, ownerPtr, _, _, _) => ownerPtr != ""
    case StaticMatcher(owner, _, _) => owner != ""
    case ContractMatcher(_, _, _, ownerPtr, uriPtr, _) => ownerPtr != "" && uriPtr != ""
  }

  predicate NeedsBody(m: Matcher) { m.JSONMatcher? || m.ContractMatcher? }

  /** The name a body-reading matcher gives in its errors. */
  function NameOf(m: Matcher): string
    requires NeedsBody(m)
  {
    if m.JSONMatcher? then "json matcher" else "contract matcher"
  }

  const NO_BODY: string := "a JSON body is required but none was decoded"
  const NO_CONSUMER: string := "parties.consumer is required to identify the contract"
  const NO_PROVIDER: string :=
    "no provider self-description (set parties.provider or contractService.providerSelfDescription)"

  // ---- one item -------------------------------------------------------------------------

  /** A present, non-empty string; every field a claim needs is read this way. */
  function Required(item: Json, pointer: string): Option<string> {
    match PointerString(item, pointer)
    case Some(s) => if s == "" then None else Some(s)
    case None => None
  }

  function JSONClaim(lib: Library, m: Matcher, item: Json, selector: string): Result<Claim, Error>
    requires m.JSONMatcher?
  {
    var owner := Required(item, m.ownerPtr);
    if owner.None? then Err(Failure("json matcher", "no owner at " + lib.quote(m.ownerPtr)))
    else if m.resourcePtr == "" then Ok(Claim(Pointer(selector), owner.value, m.participant, m.resource))
    else
      var resource := Required(item, m.resourcePtr);
      if resource.None? then Err(Failure("json matcher", "no resource at " + lib.quote(m.resourcePtr)))
      else Ok(Claim(Pointer(selector), owner.value, m.participant, resource.value))
  }

  /** What a contract rule settles about an item before it asks for the contract's resources. */
  datatype Plan = Plan(owner: string, governing: Contract)

  function PlanItem(lib: Library, m: Matcher, contracts: seq<Contract>, item: Json): Result<Plan, Error>
    requires m.ContractMatcher?
  {
    var owner := Required(item, m.ownerPtr);
    if owner.None? then Err(Failure("contract matcher", "no owner at " + lib.quote(m.ownerPtr)))
    else
      var uri := Required(item, m.uriPtr);
      if uri.None? then Err(Failure("contract matcher", "no requested-object URI at " + lib.quote(m.uriPtr)))
      else
        match Governing(contracts, uri.value)
        case None => Err(Failure("contract matcher", "no contract rule targets " + lib.quote(uri.value)))
        case Some(c) => Ok(Plan(owner.value, c))
  }

  /** A contract without a PII resource still yields a claim, at owner level. */
  function ContractClaim(m: Matcher, plan: Plan, pii: PiiResource, selector: string): Claim
    requires m.ContractMatcher?
  {
    Claim(Pointer(selector), plan.owner, m.participant, if pii.found then pii.id else "")
  }

  function ResourcesError(lib: Library, c: Contract, e: string): Error {
    Failure("contract matcher", "resolving data resources of contract " + lib.quote(c.id) + ": " + e)
  }

  // ---- the per-request memo ---------------------------------------------------------------

  datatype MemoState = MemoState(memo: map<string, PiiResource>, lookup: LookupState)

  ghost function PiiOf(env: LookupEnv, st: MemoState, c: Contract): (Result<PiiResource, string>, MemoState) {
    if c.id in st.memo && c.id != "" then (Ok(st.memo[c.id]), st)
    else
      var (r, lookup) := ResourcesOf(env, st.lookup, c);
      match r
      case Err(e) => (Err(e), st.(lookup := lookup))
      case Ok(resources) =>
        var pii := FirstPII(resources);
        (Ok(pii), MemoState(if c.id != "" then st.memo[c.id := pii] else st.memo, lookup))
  }

  class PerRequestResources {
    const client: ContractLookup
    var byID: map<string, PiiResource>

    constructor (client: ContractLookup)
      ensures this.client == client && byID == map[]
    {
      this.client := client;
      byID := map[];
    }

    ghost function State(): MemoState
      reads this, client.Footprint()
    {
      MemoState(byID, client.State())
    }

    method Pii(c: Contract) returns (r: Result<PiiResource, string>)
      modifies this, client.Footprint()
      ensures (r, State()) == PiiOf(client.Env(), old(State()), c)
    {
      if c.id in byID && c.id != "" {
        return Ok(byID[c.id]);
      }
      var resources := client.DataResources(c);
      if resources.Err? {
        return Err(resources.error);
      }
      var result := FirstPII(resources.value);
      if c.id != "" {
        byID := byID[c.id := result];
      }
      return Ok(result);
    }
  }

  // ---- the walk over the items ----------------------------------------------------------

  /** The buildClaim function a matcher hands to the walk, with what it closes over. */
  datatype Builder = FromJSON(m: Matcher) | FromContract(m: Matcher, contracts: seq<Contract>)

  predicate BuilderOk(b: Builder) {
    match b
    case FromJSON(m) => m.JSONMatcher?
    case FromContract(m, _) => m.ContractMatcher?
  }

  ghost function BuildOf(lib: Library, env: LookupEnv, b: Builder, item: Json, selector: string, st: MemoState)
    : (Result<Claim, Error>, MemoState)
    requires BuilderOk(b)
  {
    match b
    case FromJSON(m) => (JSONClaim(lib, m, item, selector), st)
    case FromContract(m, contracts) =>
      match PlanItem(lib, m, contracts, item)
      case Err(e) => (Err(e), st)
      case Ok(plan) =>
        var (r, next) := PiiOf(env, st, plan.governing);
        match r
        case Err(e) => (Err(ResourcesError(lib, plan.governing, e)), next)
        case Ok(pii) => (Ok(ContractClaim(m, plan, pii, selector)), next)
  }

  /** Claims for the first n elements, stopping at the first that yields an error. */
  ghost function WalkItems(lib: Library, env: LookupEnv, b: Builder, arr: seq<Json>, base: string, n: nat,
                           st: MemoState)
    : (Result<seq<Claim>, Error>, MemoState)
    requires BuilderOk(b) && n <= |arr|
  {
    if n == 0 then (Ok([]), st)
    else
      var (before, mid) := WalkItems(lib, env, b, arr, base, n - 1, st);
      if before.Err? then (before, mid)
      else
        var (claim, next) := BuildOf(lib, env, b, arr[n - 1], JoinPointer(base, Itoa(n - 1)), mid);
        match claim
        case Err(e) => (Err(e), next)
        case Ok(c) => (Ok(before.value + [c]), next)
  }

  lemma {:induction false} WalkStopsAtError(lib: Library, env: LookupEnv, b: Builder, arr: seq<Json>, base: string,
                                            m: nat, n: nat, st: MemoState)
    requires BuilderOk(b) && m <= n <= |arr|
    requires WalkItems(lib, env, b, arr, base, m, st).0.Err?
    ensures WalkItems(lib, env, b, arr, base, n, st) == WalkItems(lib, env, b, arr, base, m, st)
    decreases n
  {
    if m < n {
      WalkStopsAtError(lib, env, b, arr, base, m, n - 1, st);
    }
  }

  /** claimsPerItem, as a function. */
  ghost function PerItem(lib: Library, env: LookupEnv, b: Builder, decoded: Json, st: MemoState)
    : (Result<seq<Claim>, Error>, MemoState)
    requires BuilderOk(b)
  {
    var items, name := b.m.items, NameOf(b.m);
    match Find(decoded, items)
    case None => (Err(Failure(name, "no data at items pointer " + lib.quote(items))), st)
    case Some(root) =>
      if !b.m.itemsIsArray then
        var (claim, next) := BuildOf(lib, env, b, root, items, st);
        (if claim.Ok? then Ok([claim.value]) else Err(claim.error), next)
      else if !root.Array? then
        (Err(Failure(name, "value at " + lib.quote(items) + " is not an array")), st)
      else WalkItems(lib, env, b, root.elems, items, |root.elems|, st)
  }

  /** A buildClaim closure: it may hold the request's memo. */
  datatype BuildClaim =
    | BuildJSON(m: Matcher)
    | BuildContract(m: Matcher, contracts: seq<Contract>, resources: PerRequestResources)
  {
    ghost predicate Valid(lookup: ContractLookup) {
      BuilderOk(Shape()) && (BuildContract? ==> resources.client == lookup)
    }

    ghost function Shape(): Builder {
      match this
      case BuildJSON(m) => FromJSON(m)
      case BuildContract(m, contracts, _) => FromContract(m, contracts)
    }

    ghost function Memo(): set<object> {
      if BuildContract? then {resources} else {}
    }

    ghost function State(lookup: ContractLookup): MemoState
      reads Memo(), lookup.Footprint()
    {
      MemoState(if BuildContract? then resources.byID else map[], lookup.State())
    }

    method Build(lib: Library, lookup: ContractLookup, item: Json, selector: string) returns (r: Result<Claim, Error>)
      requires Valid(lookup)
      modifies Memo(), lookup.Footprint()
      ensures (r, State(lookup)) == BuildOf(lib, lookup.Env(), Shape(), item, selector, old(State(lookup)))
    {
      match this
      case BuildJSON(m) => r := JSONClaim(lib, m, item, selector);
      case BuildContract(m, contracts, resources) => r := ClaimForItem(lib, m, contracts, resources, item, selector);
    }
  }

  /** What claimForItem settles before it asks for the contract's resources. */
  method PlanForItem(lib: Library, m: Matcher, contracts: seq<Contract>, item: Json)
    returns (r: Result<Plan, Error>)
    requires m.ContractMatcher?
    ensures r == PlanItem(lib, m, contracts, item)
  {
    var owner := PointerString(item, m.ownerPtr);
    if owner.None? || owner.value == "" {
      return Err(Failure("contract matcher", "no owner at " + lib.quote(m.ownerPtr)));
    }
    var uri := PointerString(item, m.uriPtr);
    if uri.None? || uri.value == "" {
      return Err(Failure("contract matcher", "no requested-object URI at " + lib.quote(m.uriPtr)));
    }
    var governing := FindContractForTarget(contracts, uri.value);
    if governing.None? {
      return Err(Failure("contract matcher", "no contract rule targets " + lib.quote(uri.value)));
    }
    return Ok(Plan(owner.value, governing.value));
  }

  /** contractMatcher.claimForItem. */
  method ClaimForItem(lib: Library, m: Matcher, contracts: seq<Contract>, resources: PerRequestResources,
                      item: Json, selector: string) returns (r: Result<Claim, Error>)
    requires m.ContractMatcher?
    modifies resources, resources.client.Footprint()
    ensures (r, resources.State())
         == BuildOf(lib, resources.client.Env(), FromContract(m, contracts), item, selector, old(resources.State()))
  {
    var plan := PlanForItem(lib, m, contracts, item);
    if plan.Err? {
      return Err(plan.error);
    }
    var governing := plan.value.governing;
    var resource := resources.Pii(governing);
    if resource.Err? {
      return Err(ResourcesError(lib, governing, resource.error));
    }
    if !resource.value.found {
      return Ok(Claim(Pointer(selector), plan.value.owner, m.participant, ""));
    }
    return Ok(Claim(Pointer(selector), plan.value.owner, m.participant, resource.value.id));
  }

  /** The loop of claimsPerItem. */
  method ClaimsPerElement(lib: Library, lookup: ContractLookup, arr: seq<Json>, base: string, build: BuildClaim)
    returns (r: Result<seq<Claim>, Error>)
    requires build.Valid(lookup)
    modifies build.Memo(), lookup.Footprint()
    ensures (r, build.State(lookup))
         == WalkItems(lib, lookup.Env(), build.Shape(), arr, base, |arr|, old(build.State(lookup)))
  {
    var claims: seq<Claim> := [];
    ghost var env, b, st := lookup.Env(), build.Shape(), build.State(lookup);
    for i := 0 to |arr|
      invariant (Ok(claims), build.State(lookup)) == WalkItems(lib, env, b, arr, base, i, st)
    {
      var claim := build.Build(lib, lookup, arr[i], JoinPointer(base, Itoa(i)));
      if claim.Err? {
        WalkStopsAtError(lib, env, b, arr, base, i + 1, |arr|, st);
        return Err(claim.error);
      }
      claims := claims + [claim.value];
    }
    return Ok(claims);
  }

  method ClaimsPerItem(lib: Library, lookup: ContractLookup, decoded: Json, build: BuildClaim)
    returns (r: Result<seq<Claim>, Error>)
    requires build.Valid(lookup)
    modifies build.Memo(), lookup.Footprint()
    ensures (r, build.State(lookup)) == PerItem(lib, lookup.Env(), build.Shape(), decoded, old(build.State(lookup)))
  {
    var items := build.m.items;
    var root, ok := GetJSONPointer(decoded, items);
    if !ok {
      return Err(Failure(NameOf(build.m), "no data at items pointer " + lib.quote(items)));
    }
    if !build.m.itemsIsArray {
      var claim := build.Build(lib, lookup, root, items);
      if claim.Err? {
        return Err(claim.error);
      }
      return Ok([claim.value]);
    }
    if !root.Array? {
      return Err(Failure(NameOf(build.m), "value at " + lib.quote(items) + " is not an array"));
    }
    r := ClaimsPerElement(lib, lookup, root.elems, items, build);
  }

  // ---- Claims, matcher by matcher -----------------------------------------------------------

  function PathClaims(lib: Library, m: Matcher, path: string): Result<seq<Claim>, Error>
    requires m.PathMatcher? && WellFormed(m)
  {
    match m.re.find(path)
    case None => Err(Failure("path matcher", "path " + lib.quote(path) + " did not match the extraction pattern"))
    case Some(sub) =>
      var owner := sub[m.ownerGroup];
      if owner == "" then Err(Failure("path matcher", "empty owner extracted from " + lib.quote(path)))
      else
        var resource := if m.resGroup >= 0 && sub[m.resGroup] != "" then sub[m.resGroup] else m.resource;
        Ok([Claim(Whole, owner, m.participant, resource)])
  }

  /** The parties a contract rule looks the contracts up with: (provider, consumer). */
  function PartiesOf(m: Matcher, parties: Option<Parties>): (string, string)
    requires m.ContractMatcher?
  {
    match parties
    case None => (m.providerSD, "")
    case Some(p) => (if p.provider != "" then p.provider else m.providerSD, p.consumer)
  }

  /** Everything a contract rule checks before it calls the facade. */
  function BeforeFacade(lib: Library, m: Matcher, req: Request): Result<Json, Error>
    requires m.ContractMatcher?
  {
    match DecodeBody(lib, req.body)
    case Err(e) => Err(e)
    case Ok(decoded) =>
      var (provider, consumer) := PartiesOf(m, req.parties);
      if decoded.Null? then
        Err(Failure("contract matcher", NO_BODY))
      else if consumer == "" then
        Err(Failure("contract matcher", NO_CONSUMER))
      else if provider == "" then
        Err(Failure("contract matcher", NO_PROVIDER))
      else Ok(decoded)
  }

  /** What the facade's answer about the contracts means for the request. */
  function UsableContracts(lib: Library, provider: string, consumer: string, answer: Result<seq<Contract>, string>)
    : Result<seq<Contract>, Error>
  {
    match answer
    case Err(e) => Err(Failure("contract matcher", "contract lookup failed: " + e))
    case Ok(contracts) =>
      if contracts == [] then
        Err(Failure("contract matcher",
                    "no signed contract between " + lib.quote(provider) + " and " + lib.quote(consumer)))
      else Ok(contracts)
  }

  ghost function ClaimsOf(lib: Library, env: LookupEnv, m: Matcher, req: Request, st: LookupState)
    : (Result<seq<Claim>, Error>, LookupState)
    requires WellFormed(m)
  {
    match m
    case PathMatcher(_, _, _, _, _) => (PathClaims(lib, m, req.resource.path), st)
    case StaticMatcher(owner, resource, participant) => (Ok([Claim(Whole, owner, participant, resource)]), st)
    case JSONMatcher(_, _, _, _, _, _) =>
      (match DecodeBody(lib, req.body)
       case Err(e) => (Err(e), st)
       case Ok(decoded) =>
         if decoded.Null? then
           (Err(Failure("json matcher", NO_BODY)), st)
         else
           var (r, next) := PerItem(lib, env, FromJSON(m), decoded, MemoState(map[], st));
           (r, next.lookup))
    case ContractMatcher(_, _, _, _, _, _) => ContractClaimsOf(lib, env, m, req, st)
  }

  ghost function ContractClaimsOf(lib: Library, env: LookupEnv, m: Matcher, req: Request, st: LookupState)
    : (Result<seq<Claim>, Error>, LookupState)
    requires m.ContractMatcher?
  {
    match BeforeFacade(lib, m, req)
    case Err(e) => (Err(e), st)
    case Ok(decoded) =>
      var (provider, consumer) := PartiesOf(m, req.parties);
      FacadeClaimsOf(lib, env, m, decoded, provider, consumer, st)
  }

  ghost function FacadeClaimsOf(lib: Library, env: LookupEnv, m: Matcher, decoded: Json, provider: string,
                                consumer: string, st: LookupState): (Result<seq<Claim>, Error>, LookupState)
    requires m.ContractMatcher?
  {
    var (answer, asked) := ContractsOf(env, st, provider, consumer);
    match UsableContracts(lib, provider, consumer, answer)
    case Err(e) => (Err(e), asked)
    case Ok(contracts) =>
      var (r, next) := PerItem(lib, env, FromContract(m, contracts), decoded, MemoState(map[], asked));
      (r, next.lookup)
  }

  method Claims(lib: Library, m: Matcher, lookup: ContractLookup, req: Request, body: LazyPayload)
    returns (r: Result<seq<Claim>, Error>)
    requires WellFormed(m) && body.Valid() && body.lib == lib && body.body == req.body
    modifies body, lookup.Footprint()
    ensures body.Valid() && body.decodes == if NeedsBody(m) then 1 else old(body.decodes)
    ensures (r, lookup.State()) == ClaimsOf(lib, lookup.Env(), m, req, old(lookup.State()))
  {
    match m
    case PathMatcher(_, _, _, _, _) =>
      r := PathClaims(lib, m, req.resource.path);
    case StaticMatcher(owner, resource, participant) =>
      r := Ok([Claim(Whole, owner, participant, resource)]);
    case JSONMatcher(_, _, _, _, _, _) =>
      var decoded := body.JSON();
      if decoded.Err? {
        return Err(decoded.error);
      }
      if decoded.value.Null? {
        return Err(Failure("json matcher", NO_BODY));
      }
      r := ClaimsPerItem(lib, lookup, decoded.value, BuildJSON(m));
    case ContractMatcher(_, _, _, _, _, _) =>
      r := ContractClaims(lib, m, lookup, req, body);
  }

  method ContractClaims(lib: Library, m: Matcher, lookup: ContractLookup, req: Request, body: LazyPayload)
    returns (r: Result<seq<Claim>, Error>)
    requires m.ContractMatcher? && body.Valid() && body.lib == lib && body.body == req.body
    modifies body, lookup.Footprint()
    ensures body.Valid() && body.decodes == 1
    ensures (r, lookup.State()) == ContractClaimsOf(lib, lookup.Env(), m, req, old(lookup.State()))
  {
    ghost var st := lookup.State();
    var decoded := body.JSON();
    assert lookup.State() == st;
    if decoded.Err? {
      return Err(decoded.error);
    }
    if decoded.value.Null? {
      return Err(Failure("contract matcher", NO_BODY));
    }
    var consumer, provider := "", m.providerSD;
    if req.parties.Some? {
      consumer := req.parties.value.consumer;
      if req.parties.value.provider != "" {
        provider := req.parties.value.provider;
      }
    }
    if consumer == "" {
      return Err(Failure("contract matcher", NO_CONSUMER));
    }
    if provider == "" {
      return Err(Failure("contract matcher", NO_PROVIDER));
    }
    assert (provider, consumer) == PartiesOf(m, req.parties);
    assert BeforeFacade(lib, m, req) == Ok(decoded.value);
    r := FacadeClaims(lib, m, lookup, decoded.value, provider, consumer);
  }

  /** The part of a contract rule that calls the facade: contracts once, resources through a fresh memo. */
  method FacadeClaims(lib: Library, m: Matcher, lookup: ContractLookup, decoded: Json, provider: string,
                      consumer: string)
    returns (r: Result<seq<Claim>, Error>)
    requires m.ContractMatcher?
    modifies lookup.Footprint()
    ensures (r, lookup.State())
         == FacadeClaimsOf(lib, lookup.Env(), m, decoded, provider, consumer, old(lookup.State()))
  {
    var contracts := lookup.SignedContracts(provider, consumer);
    if contracts.Err? {
      return Err(Failure("contract matcher", "contract lookup failed: " + contracts.error));
    }
    if |contracts.value| == 0 {
      return Err(Failure("contract matcher",
                         "no signed contract between " + lib.quote(provider) + " and " + lib.quote(consumer)));
    }
    var resources := new PerRequestResources(lookup);
    r := ClaimsPerItem(lib, lookup, decoded, BuildContract(m, contracts.value, resources));
  }
}

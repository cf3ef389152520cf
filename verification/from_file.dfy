/**
 * What a configuration file means, from its text to the answer: which rule decides, what each kind of
 * rule answers, and whom it asks (internal/resolver/config.go, matcher.go, contract_matcher.go). The
 * statements speak of the file, the request, the body and the facade only.
 */
module FromFile {
  import opened Results
  import opened Text
  import opened JsonPointer
  import opened Payload
  import opened Contracts
  import opened Lookup
  import opened Matchers
  import opened Resolver
  import opened Guarantees
  import opened Memo
  import opened Meaning
  import CacheRuns
  import Cost

  // ---- which files are accepted ------------------------------------------------------------

  predicate KnownScheme(scheme: string) { scheme == "identifier" || scheme == "email" || scheme == "did" }

  function DefaultScheme(raw: RawConfig): string {
    if raw.defaultScheme != "" then raw.defaultScheme else "identifier"
  }

  /** A rule's own scheme, or the file's, or the identifier. */
  function SchemeOfRule(raw: RawConfig, rr: RawRule): string {
    if rr.matcher.scheme != "" then rr.matcher.scheme else DefaultScheme(raw)
  }

  /** What the file must say about a rule. */
  ghost predicate RuleReads(lib: Library, raw: RawConfig, rr: RawRule) {
    var m := rr.matcher;
    && (rr.match_.pathPattern == "" || lib.compile(rr.match_.pathPattern).Ok?)
    && KnownScheme(SchemeOfRule(raw, rr))
    && (|| (m.kind == "path" && m.pattern != "" && lib.compile(m.pattern).Ok?
            && exists g :: LastGroup(lib.compile(m.pattern).value.names, "owner", g))
        || ((m.kind == "json" || m.kind == "static") && m.owner != "")
        || (m.kind == "contract" && m.owner != "" && rr.consentRequired && raw.contractService.Some?))
  }

  /** The last group with a name. */
  predicate LastGroup(names: seq<string>, name: string, g: nat) {
    g < |names| && names[g] == name && forall h :: g < h < |names| ==> names[h] != name
  }

  lemma LastGroupIsLastNamed(names: seq<string>, name: string)
    ensures var i := LastNamed(names, name);
      if i >= 0 then forall g :: LastGroup(names, name, g) <==> g == i else name !in names
    ensures (exists g :: LastGroup(names, name, g)) <==> name in names
  {
    var i := LastNamed(names, name);
    if i >= 0 {
      assert LastGroup(names, name, i);
    }
  }

  lemma RuleReadsExactly(lib: Library, raw: RawConfig, i: nat)
    requires i < |raw.rules|
    ensures CompileRule(lib, raw, i).Ok? <==> RuleReads(lib, raw, raw.rules[i])
  {
    var m := raw.rules[i].matcher;
    CompilesExactly(lib, raw, i);
    if m.kind == "path" && m.pattern != "" && lib.compile(m.pattern).Ok? {
      LastGroupIsLastNamed(lib.compile(m.pattern).value.names, "owner");
    }
  }

  /**
   * A file is accepted exactly when its default scheme is known, its contract service has a URL, every
   * rule reads, and only the last rule may leave both service and path pattern empty.
   */
  lemma AcceptedExactly(lib: Library, raw: RawConfig)
    ensures Acceptable(lib, raw) <==>
      && KnownScheme(DefaultScheme(raw))
      && (raw.contractService.Some? ==> raw.contractService.value.url != "")
      && (forall i :: 0 <= i < |raw.rules| ==> RuleReads(lib, raw, raw.rules[i]))
      && (forall i :: 0 <= i < |raw.rules| - 1 ==>
            raw.rules[i].match_.service != "" || raw.rules[i].match_.pathPattern != "")
  {
    forall i | 0 <= i < |raw.rules|
      ensures CompileRule(lib, raw, i).Ok? <==> RuleReads(lib, raw, raw.rules[i])
      ensures CompileRule(lib, raw, i).Ok? ==>
        (CompileRule(lib, raw, i).value.IsCatchAll() <==>
           raw.rules[i].match_.service == "" && raw.rules[i].match_.pathPattern == "")
    {
      RuleReadsExactly(lib, raw, i);
      CompilesExactly(lib, raw, i);
    }
  }

  // ---- which rule decides --------------------------------------------------------------------

  /** The rule's service and path pattern both admit the request; an empty one admits all. */
  predicate Applies(lib: Library, rr: RawRule, res: Resource) {
    && (rr.match_.service == "" || rr.match_.service == res.service)
    && (rr.match_.pathPattern == ""
        || (lib.compile(rr.match_.pathPattern).Ok? && lib.compile(rr.match_.pathPattern).value.find(res.path).Some?))
  }

  /** It applies, and no earlier one does. */
  predicate Decides(lib: Library, raw: RawConfig, res: Resource, i: nat) {
    && i < |raw.rules| && Applies(lib, raw.rules[i], res)
    && forall j :: 0 <= j < i ==> !Applies(lib, raw.rules[j], res)
  }

  ghost predicate Loaded(lib: Library, raw: RawConfig, cr: ConfigResolver) {
    Acceptable(lib, raw) && CompiledFrom(lib, raw, cr)
  }

  lemma LoadedIsValid(lib: Library, raw: RawConfig, cr: ConfigResolver)
    requires Loaded(lib, raw, cr)
    ensures Valid(cr)
  {
    forall i | 0 <= i < |cr.rules| - 1 ensures !cr.rules[i].IsCatchAll() {
      assert CompileRule(lib, raw, i) == Ok(cr.rules[i]);
    }
    CompiledIsValid(lib, raw, cr);
  }

  lemma AppliesExactly(lib: Library, raw: RawConfig, i: nat, res: Resource)
    requires i < |raw.rules| && CompileRule(lib, raw, i).Ok?
    ensures CompileRule(lib, raw, i).value.Matches(res) <==> Applies(lib, raw.rules[i], res)
  {
  }

  /** What the rule says besides its matcher is what the file says. */
  lemma RuleKeeps(lib: Library, raw: RawConfig, i: nat)
    requires i < |raw.rules| && CompileRule(lib, raw, i).Ok?
    ensures CompileRule(lib, raw, i).value.consentRequired == raw.rules[i].consentRequired
    ensures CompileRule(lib, raw, i).value.scheme == SchemeOfRule(raw, raw.rules[i])
    ensures CompileRule(lib, raw, i).value.name
         == if raw.rules[i].name != "" then raw.rules[i].name else "#" + Itoa(i)
  {
  }

  /** At most one rule decides, and one does whenever any applies. */
  lemma {:induction false} DecidesOnce(lib: Library, raw: RawConfig, res: Resource, i: nat) returns (first: nat)
    requires i < |raw.rules| && Applies(lib, raw.rules[i], res)
    ensures Decides(lib, raw, res, first) && first <= i
    ensures forall k :: Decides(lib, raw, res, k) ==> k == first
  {
    if j :| 0 <= j < i && Applies(lib, raw.rules[j], res) {
      first := DecidesOnce(lib, raw, res, j);
    } else {
      first := i;
    }
  }

  lemma DecidesIsFirst(lib: Library, raw: RawConfig, cr: ConfigResolver, res: Resource, i: nat)
    requires Loaded(lib, raw, cr) && Decides(lib, raw, res, i)
    ensures FirstMatch(cr.rules, res) == Some(cr.rules[i])
  {
    forall j | 0 <= j <= i ensures cr.rules[j].Matches(res) <==> j == i {
      assert CompileRule(lib, raw, j) == Ok(cr.rules[j]);
      AppliesExactly(lib, raw, j, res);
    }
    FirstMatchIsTopmost(cr.rules, res, i);
  }

  /** An answer with a flag, a scheme and claims; or the error instead of the claims. */
  function Answering(consentRequired: bool, scheme: string, claims: Result<seq<Claim>, Error>)
    : Result<ResolveResult, Error>
  {
    match claims
    case Ok(cs) => Ok(ResolveResult(consentRequired, scheme, cs))
    case Err(e) => Err(e)
  }

  /** The claims of an answer, or its error. */
  function ClaimsIn(r: Result<ResolveResult, Error>): Result<seq<Claim>, Error> {
    match r
    case Ok(result) => Ok(result.claims)
    case Err(e) => Err(e)
  }

  /** The answer has the rule's flag and scheme. */
  predicate FlaggedAs(raw: RawConfig, rr: RawRule, r: Result<ResolveResult, Error>) {
    r.Ok? ==> r.value.consentRequired == rr.consentRequired && r.value.scheme == SchemeOfRule(raw, rr)
  }

  lemma AnsweringExactly(raw: RawConfig, rr: RawRule, claims: Result<seq<Claim>, Error>)
    ensures var r := Answering(rr.consentRequired, SchemeOfRule(raw, rr), claims);
      ClaimsIn(r) == claims && FlaggedAs(raw, rr, r)
  {
  }

  /**
   * The first rule of the file whose service and path pattern both admit the request decides: the answer
   * carries its flag and its scheme, and the claims or the error of its matcher.
   */
  lemma RuleDecides(lib: Library, env: LookupEnv, raw: RawConfig, cr: ConfigResolver, req: Request, st: LookupState,
                    i: nat)
    requires Loaded(lib, raw, cr) && Decides(lib, raw, req.resource, i)
    ensures Valid(cr)
    ensures var rr, (claims, next) := raw.rules[i], ClaimsOf(lib, env, cr.rules[i].matcher, req, st);
      ResolveOf(lib, env, cr, req, st) == (Answering(rr.consentRequired, SchemeOfRule(raw, rr), claims), next)
    ensures CompileRule(lib, raw, i) == Ok(cr.rules[i])
  {
    LoadedIsValid(lib, raw, cr);
    DecidesIsFirst(lib, raw, cr, req.resource, i);
    RuleKeeps(lib, raw, i);
  }

  /** When no rule of the file admits the request, the file's defaults are the answer. */
  lemma DefaultsDecide(lib: Library, env: LookupEnv, raw: RawConfig, cr: ConfigResolver, req: Request, st: LookupState)
    requires Loaded(lib, raw, cr)
    requires forall i :: 0 <= i < |raw.rules| ==> !Applies(lib, raw.rules[i], req.resource)
    ensures Valid(cr)
    ensures ResolveOf(lib, env, cr, req, st)
         == (Ok(ResolveResult(raw.defaultConsentRequired, DefaultScheme(raw), [])), st)
  {
    LoadedIsValid(lib, raw, cr);
    forall i | 0 <= i < |cr.rules| ensures !cr.rules[i].Matches(req.resource) {
      assert CompileRule(lib, raw, i) == Ok(cr.rules[i]);
      AppliesExactly(lib, raw, i, req.resource);
    }
  }

  // ---- static and path rules -------------------------------------------------------------------

  lemma StaticRuleCompiles(lib: Library, raw: RawConfig, i: nat)
    requires i < |raw.rules| && raw.rules[i].matcher.kind == "static" && CompileRule(lib, raw, i).Ok?
    ensures var m := raw.rules[i].matcher;
      CompileRule(lib, raw, i).value.matcher == StaticMatcher(m.owner, m.resource, m.participant)
  {
  }

  lemma ClaimsOfStatic(lib: Library, env: LookupEnv, m: Matcher, req: Request, st: LookupState)
    requires m.StaticMatcher? && WellFormed(m)
    ensures ClaimsOf(lib, env, m, req, st) == (Ok([Claim(Whole, m.owner, m.participant, m.resource)]), st)
  {
  }

  /** A static rule answers with the owner, participant and resource the file gives it. */
  lemma StaticRuleAnswers(lib: Library, env: LookupEnv, raw: RawConfig, cr: ConfigResolver, req: Request,
                          st: LookupState, i: nat)
    requires Loaded(lib, raw, cr) && Decides(lib, raw, req.resource, i) && raw.rules[i].matcher.kind == "static"
    ensures Valid(cr)
    ensures var rr, m := raw.rules[i], raw.rules[i].matcher;
      ResolveOf(lib, env, cr, req, st)
        == (Ok(ResolveResult(rr.consentRequired, SchemeOfRule(raw, rr),
                             [Claim(Whole, m.owner, m.participant, m.resource)])), st)
  {
    RuleDecides(lib, env, raw, cr, req, st, i);
    StaticRuleCompiles(lib, raw, i);
    ClaimsOfStatic(lib, env, cr.rules[i].matcher, req, st);
  }

  /** The claim of a path rule: a non-empty group named resource overrides the fixed one. */
  ghost predicate IsPathClaim(m: RawMatcher, names: seq<string>, sub: seq<string>, claim: Claim)
    requires |sub| == |names|
  {
    && claim.selector == Whole && claim.participant == m.participant
    && (forall g: nat :: LastGroup(names, "owner", g) ==> claim.ownerID == sub[g])
    && (forall h: nat :: LastGroup(names, "resource", h) ==>
          claim.dataResource == if sub[h] != "" then sub[h] else m.resource)
    && ("resource" !in names ==> claim.dataResource == m.resource)
  }

  /** An answer of one claim, or none. */
  ghost predicate PathAnswer(lib: Library, m: RawMatcher, path: string, r: Result<seq<Claim>, Error>) {
    && lib.compile(m.pattern).Ok?
    && var re, sub := lib.compile(m.pattern).value, lib.compile(m.pattern).value.find(path);
       && (r.Ok? <==> sub.Some? && exists g: nat :: LastGroup(re.names, "owner", g) && sub.value[g] != "")
       && (r.Ok? ==> |r.value| == 1 && IsPathClaim(m, re.names, sub.value, r.value[0]))
  }

  lemma PathMatcherAnswers(lib: Library, m: RawMatcher, service: Option<RawContractService>, path: string)
    requires m.kind == "path" && CompileMatcher(lib, m, service).Ok?
    ensures PathAnswer(lib, m, path, PathClaims(lib, CompileMatcher(lib, m, service).value, path))
  {
    var re := lib.compile(m.pattern).value;
    LastGroupIsLastNamed(re.names, "owner");
    LastGroupIsLastNamed(re.names, "resource");
  }

  lemma PathRuleCompiles(lib: Library, raw: RawConfig, i: nat)
    requires i < |raw.rules| && raw.rules[i].matcher.kind == "path" && CompileRule(lib, raw, i).Ok?
    ensures CompileMatcher(lib, raw.rules[i].matcher, raw.contractService)
         == Ok(CompileRule(lib, raw, i).value.matcher)
    ensures CompileRule(lib, raw, i).value.matcher.PathMatcher?
  {
  }

  lemma ClaimsOfPath(lib: Library, env: LookupEnv, m: Matcher, req: Request, st: LookupState)
    requires m.PathMatcher? && WellFormed(m)
    ensures ClaimsOf(lib, env, m, req, st) == (PathClaims(lib, m, req.resource.path), st)
  {
  }

  /**
   * A path rule answers exactly when its pattern matches the request's path with a non-empty last group
   * named owner, and then with the one claim its groups and the file name.
   */
  lemma PathRuleAnswers(lib: Library, env: LookupEnv, raw: RawConfig, cr: ConfigResolver, req: Request,
                        st: LookupState, i: nat)
    requires Loaded(lib, raw, cr) && Decides(lib, raw, req.resource, i) && raw.rules[i].matcher.kind == "path"
    ensures Valid(cr)
    ensures var (r, next) := ResolveOf(lib, env, cr, req, st);
      && next == st && FlaggedAs(raw, raw.rules[i], r)
      && PathAnswer(lib, raw.rules[i].matcher, req.resource.path, ClaimsIn(r))
  {
    RuleDecides(lib, env, raw, cr, req, st, i);
    PathRuleCompiles(lib, raw, i);
    ClaimsOfPath(lib, env, cr.rules[i].matcher, req, st);
    PathMatcherAnswers(lib, raw.rules[i].matcher, raw.contractService, req.resource.path);
    AnsweringExactly(raw, raw.rules[i], PathClaims(lib, cr.rules[i].matcher, req.resource.path));
  }

  // ---- json rules ------------------------------------------------------------------------------

  /** A non-empty string stands at the pointer. */
  predicate StringAt(item: Json, pointer: string, s: string) {
    Find(item, pointer) == Some(String(s)) && s != ""
  }

  ghost predicate HasString(item: Json, pointer: string) {
    exists s :: StringAt(item, pointer, s)
  }

  lemma RequiredExactly(item: Json, pointer: string)
    ensures forall s :: Required(item, pointer) == Some(s) <==> StringAt(item, pointer, s)
    ensures Required(item, pointer).Some? <==> HasString(item, pointer)
  {
    var found := Find(item, pointer);
    if Required(item, pointer).Some? {
      assert StringAt(item, pointer, Required(item, pointer).value);
    }
  }

  ghost predicate NamesOwnerAndResource(m: RawMatcher, item: Json) {
    HasString(item, m.owner) && (m.resourcePointer != "" ==> HasString(item, m.resourcePointer))
  }

  ghost predicate ClaimsOwnerAndResource(m: RawMatcher, at: Located, claim: Claim) {
    && claim.selector == Pointer(at.selector) && claim.participant == m.participant
    && StringAt(at.item, m.owner, claim.ownerID)
    && (if m.resourcePointer == "" then claim.dataResource == m.resource
        else StringAt(at.item, m.resourcePointer, claim.dataResource))
  }

  /** The matcher compiled from a json rule. */
  function JSONOf(m: RawMatcher): Matcher {
    JSONMatcher(m.items, m.itemsIsArray, m.owner, m.resourcePointer, m.resource, m.participant)
  }

  lemma JSONItemFromFile(m: RawMatcher, at: Located)
    ensures JSONUsable(JSONOf(m), at.item) <==> NamesOwnerAndResource(m, at.item)
    ensures forall claim :: IsJSONClaim(JSONOf(m), at, claim) <==> ClaimsOwnerAndResource(m, at, claim)
  {
    RequiredExactly(at.item, m.owner);
    RequiredExactly(at.item, m.resourcePointer);
  }

  ghost predicate JSONAnswer(m: RawMatcher, at: seq<Located>, r: Result<seq<Claim>, Error>) {
    && (r.Ok? <==> forall k :: 0 <= k < |at| ==> NamesOwnerAndResource(m, at[k].item))
    && (r.Ok? ==> |r.value| == |at|
                  && forall k :: 0 <= k < |at| ==> ClaimsOwnerAndResource(m, at[k], r.value[k]))
  }

  lemma JSONExactFromFile(m: RawMatcher, at: seq<Located>, r: Result<seq<Claim>, Error>)
    requires JSONExact(JSONOf(m), at, r)
    ensures JSONAnswer(m, at, r)
  {
    forall k | 0 <= k < |at|
      ensures JSONUsable(JSONOf(m), at[k].item) <==> NamesOwnerAndResource(m, at[k].item)
      ensures r.Ok? ==> ClaimsOwnerAndResource(m, at[k], r.value[k])
    {
      JSONItemFromFile(m, at[k]);
      if r.Ok? { assert IsJSONClaim(JSONOf(m), at[k], r.value[k]); }
    }
  }

  /** The answer for a body: the items must be there. */
  ghost predicate JSONBodyAnswer(m: RawMatcher, body: Option<Json>, r: Result<seq<Claim>, Error>) {
    if body.Some? && LocatedItems(m.items, m.itemsIsArray, body.value).Some? then
      JSONAnswer(m, LocatedItems(m.items, m.itemsIsArray, body.value).value, r)
    else r.Err?
  }

  lemma JSONRuleCompiles(lib: Library, raw: RawConfig, i: nat)
    requires i < |raw.rules| && raw.rules[i].matcher.kind == "json" && CompileRule(lib, raw, i).Ok?
    ensures CompileRule(lib, raw, i).value.matcher == JSONOf(raw.rules[i].matcher)
    ensures raw.rules[i].matcher.owner != ""
  {
  }

  lemma JSONMatcherAnswers(lib: Library, env: LookupEnv, m: RawMatcher, req: Request, st: LookupState)
    requires m.owner != ""
    ensures var (r, next) := ClaimsOf(lib, env, JSONOf(m), req, st);
      next == st && JSONBodyAnswer(m, UsableBody(lib, req), r)
  {
    var body := UsableBody(lib, req);
    JSONRuleExactly(lib, env, JSONOf(m), req, st);
    OnlyContractsSeeParties(lib, env, env, JSONOf(m), req, req, st, st);
    if body.Some? && LocatedItems(m.items, m.itemsIsArray, body.value).Some? {
      JSONExactFromFile(m, LocatedItems(m.items, m.itemsIsArray, body.value).value,
                        ClaimsOf(lib, env, JSONOf(m), req, st).0);
    }
  }

  /**
   * A json rule finds its items where the file says, one or many; it answers exactly when each names an
   * owner, and a resource if the file points to one; and each claim is that owner's, with that resource
   * or else the fixed one, and the file's participant. It asks nobody.
   */
  lemma JSONRuleAnswers(lib: Library, env: LookupEnv, raw: RawConfig, cr: ConfigResolver, req: Request,
                        st: LookupState, i: nat)
    requires Loaded(lib, raw, cr) && Decides(lib, raw, req.resource, i) && raw.rules[i].matcher.kind == "json"
    ensures Valid(cr)
    ensures var (r, next) := ResolveOf(lib, env, cr, req, st);
      && next == st && FlaggedAs(raw, raw.rules[i], r)
      && JSONBodyAnswer(raw.rules[i].matcher, UsableBody(lib, req), ClaimsIn(r))
  {
    var m := raw.rules[i].matcher;
    RuleDecides(lib, env, raw, cr, req, st, i);
    JSONRuleCompiles(lib, raw, i);
    JSONMatcherAnswers(lib, env, m, req, st);
    AnsweringExactly(raw, raw.rules[i], ClaimsOf(lib, env, JSONOf(m), req, st).0);
  }

  // ---- whom a contract rule asks -----------------------------------------------------------------

  /** The consumer the request names. */
  function Consumer(req: Request): string {
    if req.parties.Some? then req.parties.value.consumer else ""
  }

  /** The provider the request names, or else the configured one. */
  function Provider(configured: string, req: Request): string {
    if req.parties.Some? && req.parties.value.provider != "" then req.parties.value.provider else configured
  }

  /**
   * Nothing is asked exactly when the body is unusable or a party is missing; otherwise the first question
   * is for the contracts of the request's consumer with the request's provider, or with the configured
   * provider if it names none.
   */
  lemma FirstQuestion(lib: Library, env: LookupEnv, m: Matcher, req: Request, st: LookupState)
    requires m.ContractMatcher?
    ensures var next, p, c := ContractClaimsOf(lib, env, m, req, st).1, Provider(m.providerSD, req), Consumer(req);
      if UsableBody(lib, req).None? || p == "" || c == "" then next == st
      else st.calls + [AskContracts(p, c)] <= next.calls
  {
    var p, c := Provider(m.providerSD, req), Consumer(req);
    if UsableBody(lib, req).Some? && p != "" && c != "" {
      var decoded := UsableBody(lib, req).value;
      var answer := env.oracle.contracts(|st.calls|, p, c);
      if UsableContracts(lib, p, c, answer).Ok? {
        var _ := Cost.FacadeCost(lib, env, m, decoded, p, c, st, answer.value);
      }
    }
  }

  // ---- contract rules ------------------------------------------------------------------------------

  function UriPointer(m: RawMatcher): string {
    if m.uriPointer != "" then m.uriPointer else "/id"
  }

  /** The matcher compiled from a contract rule. */
  function ContractOf(m: RawMatcher, service: RawContractService): Matcher {
    ContractMatcher(service.providerSelfDescription, m.items, m.itemsIsArray, m.owner, UriPointer(m), m.participant)
  }

  /** The item's URI, the first contract that governs it, and an answer about that contract. */
  ghost predicate Governed(catalog: Catalog, m: RawMatcher, contracts: seq<Contract>, item: Json, uri: string, i: nat) {
    StringAt(item, UriPointer(m), uri) && IsFirstGoverning(contracts, uri, i) && catalog(contracts[i]).Ok?
  }

  ghost predicate NamesOwnerAndContract(catalog: Catalog, m: RawMatcher, contracts: seq<Contract>, item: Json) {
    HasString(item, m.owner) && exists uri, i: nat :: Governed(catalog, m, contracts, item, uri, i)
  }

  ghost predicate ClaimsOwnerAndContract(catalog: Catalog, m: RawMatcher, contracts: seq<Contract>, at: Located,
                                         claim: Claim)
  {
    && claim.selector == Pointer(at.selector) && claim.participant == m.participant
    && StringAt(at.item, m.owner, claim.ownerID)
    && exists uri, i: nat ::
         Governed(catalog, m, contracts, at.item, uri, i)
         && claim.dataResource == FirstPII(catalog(contracts[i]).value).id
  }

  ghost predicate ContractAnswer(catalog: Catalog, m: RawMatcher, contracts: seq<Contract>, at: seq<Located>,
                                 r: Result<seq<Claim>, Error>)
  {
    && (r.Ok? <==> forall k :: 0 <= k < |at| ==> NamesOwnerAndContract(catalog, m, contracts, at[k].item))
    && (r.Ok? ==> |r.value| == |at|
                  && forall k :: 0 <= k < |at| ==> ClaimsOwnerAndContract(catalog, m, contracts, at[k], r.value[k]))
  }

  lemma GovernedFromFile(catalog: Catalog, m: RawMatcher, service: RawContractService, contracts: seq<Contract>,
                         item: Json, i: nat)
    ensures GovernedAt(ContractOf(m, service), contracts, item, i) && catalog(contracts[i]).Ok?
       <==> exists uri :: Governed(catalog, m, contracts, item, uri, i)
  {
    RequiredExactly(item, UriPointer(m));
    if GovernedAt(ContractOf(m, service), contracts, item, i) && catalog(contracts[i]).Ok? {
      assert Governed(catalog, m, contracts, item, Required(item, UriPointer(m)).value, i);
    }
  }

  lemma ContractUsableFromFile(catalog: Catalog, m: RawMatcher, service: RawContractService,
                               contracts: seq<Contract>, item: Json)
    ensures ContractUsable(catalog, ContractOf(m, service), contracts, item)
       <==> NamesOwnerAndContract(catalog, m, contracts, item)
  {
    RequiredExactly(item, m.owner);
    forall i: nat
      ensures GovernedAt(ContractOf(m, service), contracts, item, i) && catalog(contracts[i]).Ok?
         <==> exists uri :: Governed(catalog, m, contracts, item, uri, i)
    {
      GovernedFromFile(catalog, m, service, contracts, item, i);
    }
  }

  lemma ContractClaimFromFile(catalog: Catalog, m: RawMatcher, service: RawContractService, contracts: seq<Contract>,
                              at: Located, claim: Claim)
    requires IsContractClaim(catalog, ContractOf(m, service), contracts, at, claim)
    ensures ClaimsOwnerAndContract(catalog, m, contracts, at, claim)
  {
    RequiredExactly(at.item, m.owner);
    var i: nat :| GovernedAt(ContractOf(m, service), contracts, at.item, i) && catalog(contracts[i]).Ok?
                  && claim.dataResource == FirstPII(catalog(contracts[i]).value).id;
    GovernedFromFile(catalog, m, service, contracts, at.item, i);
    var uri :| Governed(catalog, m, contracts, at.item, uri, i);
  }

  lemma ContractExactFromFile(catalog: Catalog, m: RawMatcher, service: RawContractService, contracts: seq<Contract>,
                              at: seq<Located>, r: Result<seq<Claim>, Error>)
    requires ContractExact(catalog, ContractOf(m, service), contracts, at, r)
    ensures ContractAnswer(catalog, m, contracts, at, r)
  {
    forall k | 0 <= k < |at|
      ensures ContractUsable(catalog, ContractOf(m, service), contracts, at[k].item)
         <==> NamesOwnerAndContract(catalog, m, contracts, at[k].item)
      ensures r.Ok? ==> ClaimsOwnerAndContract(catalog, m, contracts, at[k], r.value[k])
    {
      ContractUsableFromFile(catalog, m, service, contracts, at[k].item);
      if r.Ok? { ContractClaimFromFile(catalog, m, service, contracts, at[k], r.value[k]); }
    }
  }

  /** The contracts the facade names for the parties, if it was asked and named some. */
  ghost function NamedContracts(env: LookupEnv, st: LookupState, provider: string, consumer: string)
    : Option<seq<Contract>>
  {
    var answer := env.oracle.contracts(|st.calls|, provider, consumer);
    if provider != "" && consumer != "" && answer.Ok? && answer.value != [] then Some(answer.value) else None
  }

  lemma NamedContractsExactly(env: LookupEnv, m: RawMatcher, service: RawContractService, req: Request,
                              st: LookupState)
    ensures ContractsFor(env, ContractOf(m, service), req, st)
         == NamedContracts(env, st, Provider(service.providerSelfDescription, req), Consumer(req))
  {
  }

  /** The answer for a body and the contracts named: the items must be there, and some contract. */
  ghost predicate ContractBodyAnswer(catalog: Catalog, m: RawMatcher, body: Option<Json>,
                                     named: Option<seq<Contract>>, r: Result<seq<Claim>, Error>)
  {
    if body.Some? && named.Some? && LocatedItems(m.items, m.itemsIsArray, body.value).Some? then
      ContractAnswer(catalog, m, named.value, LocatedItems(m.items, m.itemsIsArray, body.value).value, r)
    else r.Err?
  }

  lemma ContractMatcherAnswers(lib: Library, env: LookupEnv, catalog: Catalog, m: RawMatcher,
                               service: RawContractService, req: Request, st: LookupState)
    requires Monotone(env.ticks) && ById(catalog)
    requires Steady(env, st, |ContractClaimsOf(lib, env, ContractOf(m, service), req, st).1.calls|, catalog)
    ensures ContractBodyAnswer(catalog, m, UsableBody(lib, req),
                               NamedContracts(env, st, Provider(service.providerSelfDescription, req), Consumer(req)),
                               ContractClaimsOf(lib, env, ContractOf(m, service), req, st).0)
  {
    var r, body := ContractClaimsOf(lib, env, ContractOf(m, service), req, st).0, UsableBody(lib, req);
    var named := NamedContracts(env, st, Provider(service.providerSelfDescription, req), Consumer(req));
    NamedContractsExactly(env, m, service, req, st);
    ContractRuleExactly(lib, env, catalog, ContractOf(m, service), req, st);
    if body.Some? && named.Some? && LocatedItems(m.items, m.itemsIsArray, body.value).Some? {
      ContractExactFromFile(catalog, m, service, named.value,
                            LocatedItems(m.items, m.itemsIsArray, body.value).value, r);
    }
  }

  lemma ClaimsOfContract(lib: Library, env: LookupEnv, m: Matcher, req: Request, st: LookupState)
    requires m.ContractMatcher? && WellFormed(m)
    ensures ClaimsOf(lib, env, m, req, st) == ContractClaimsOf(lib, env, m, req, st)
  {
  }

  lemma OnlyContractsCompile(lib: Library, raw: RawConfig, i: nat)
    requires i < |raw.rules| && CompileRule(lib, raw, i).Ok? && raw.rules[i].matcher.kind != "contract"
    ensures !CompileRule(lib, raw, i).value.matcher.ContractMatcher?
  {
  }

  lemma ContractRuleCompiles(lib: Library, raw: RawConfig, i: nat)
    requires i < |raw.rules| && raw.rules[i].matcher.kind == "contract" && CompileRule(lib, raw, i).Ok?
    ensures raw.contractService.Some? && raw.rules[i].consentRequired
    ensures CompileRule(lib, raw, i).value.matcher == ContractOf(raw.rules[i].matcher, raw.contractService.value)
  {
  }

  lemma ContractRuleClaims(lib: Library, env: LookupEnv, raw: RawConfig, cr: ConfigResolver, req: Request,
                           st: LookupState, i: nat)
    requires Loaded(lib, raw, cr) && Decides(lib, raw, req.resource, i) && raw.rules[i].matcher.kind == "contract"
    ensures Valid(cr) && raw.contractService.Some? && raw.rules[i].consentRequired
    ensures cr.rules[i].matcher == ContractOf(raw.rules[i].matcher, raw.contractService.value)
    ensures var rr, (claims, next) := raw.rules[i], ContractClaimsOf(lib, env, cr.rules[i].matcher, req, st);
      ResolveOf(lib, env, cr, req, st) == (Answering(rr.consentRequired, SchemeOfRule(raw, rr), claims), next)
  {
    RuleDecides(lib, env, raw, cr, req, st, i);
    ContractRuleCompiles(lib, raw, i);
    ClaimsOfContract(lib, env, cr.rules[i].matcher, req, st);
  }

  /**
   * A contract rule finds its items where the file says, one or many. While the facade keeps to one
   * catalog it answers exactly when the body is usable, both parties are known, the facade names
   * contracts for them, and every item names an owner and a URI some contract governs, about whose
   * resources there is an answer. Each claim is that owner's, with the file's participant and the
   * governing contract's first personal resource; consent is always required.
   */
  lemma ContractRuleAnswers(lib: Library, env: LookupEnv, catalog: Catalog, raw: RawConfig, cr: ConfigResolver,
                            req: Request, st: LookupState, i: nat)
    requires Loaded(lib, raw, cr) && Decides(lib, raw, req.resource, i) && raw.rules[i].matcher.kind == "contract"
    requires Monotone(env.ticks) && ById(catalog) && Valid(cr)
    requires Steady(env, st, |ResolveOf(lib, env, cr, req, st).1.calls|, catalog)
    ensures raw.contractService.Some? && raw.rules[i].consentRequired
    ensures var configured, r := raw.contractService.value.providerSelfDescription, ResolveOf(lib, env, cr, req, st).0;
            var named := NamedContracts(env, st, Provider(configured, req), Consumer(req));
      && FlaggedAs(raw, raw.rules[i], r)
      && ContractBodyAnswer(catalog, raw.rules[i].matcher, UsableBody(lib, req), named, ClaimsIn(r))
  {
    var m := cr.rules[i].matcher;
    ContractRuleClaims(lib, env, raw, cr, req, st, i);
    ContractMatcherAnswers(lib, env, catalog, raw.rules[i].matcher, raw.contractService.value, req, st);
    AnsweringExactly(raw, raw.rules[i], ContractClaimsOf(lib, env, m, req, st).0);
  }

  /** From the file: whom the deciding rule asks first, if it asks at all; only a contract rule does. */
  lemma WhoIsAsked(lib: Library, env: LookupEnv, raw: RawConfig, cr: ConfigResolver, req: Request, st: LookupState,
                   i: nat)
    requires Loaded(lib, raw, cr) && Decides(lib, raw, req.resource, i)
    ensures Valid(cr)
    ensures var next := ResolveOf(lib, env, cr, req, st).1;
      if raw.rules[i].matcher.kind != "contract" then next == st
      else
        && raw.contractService.Some?
        && var p, c := Provider(raw.contractService.value.providerSelfDescription, req), Consumer(req);
           if UsableBody(lib, req).None? || p == "" || c == "" then next == st
           else st.calls + [AskContracts(p, c)] <= next.calls
  {
    if raw.rules[i].matcher.kind == "contract" {
      ContractRuleClaims(lib, env, raw, cr, req, st, i);
      FirstQuestion(lib, env, cr.rules[i].matcher, req, st);
    } else {
      RuleDecides(lib, env, raw, cr, req, st, i);
      OnlyContractsCompile(lib, raw, i);
      OnlyContractsSeeParties(lib, env, env, cr.rules[i].matcher, req, req, st, st);
    }
  }
}

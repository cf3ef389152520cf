/** Configuration and rule dispatch (internal/resolver/config.go). */
module Resolver {
  import opened Results
  import opened Text
  import opened Payload
  import opened Lookup
  import opened Matchers

  // ---- the decoded configuration file --------------------------------------------------

  datatype RawContractService = RawContractService(url: string, providerSelfDescription: string,
                                                   resourceCacheTtlMs: int)

  datatype RawMatch = RawMatch(service: string, pathPattern: string)

  datatype RawMatcher = RawMatcher(kind: string, pattern: string, items: string, itemsIsArray: bool,
                                   owner: string, resourcePointer: string, uriPointer: string,
                                   resource: string, participant: string, scheme: string)

  datatype RawRule = RawRule(name: string, match_: RawMatch, consentRequired: bool, matcher: RawMatcher)

  datatype RawConfig = RawConfig(defaultConsentRequired: bool, defaultScheme: string,
                                 contractService: Option<RawContractService>, rules: seq<RawRule>)

  // ---- the compiled configuration ------------------------------------------------------

  datatype CompiledRule = CompiledRule(name: string, service: string, pathRe: Option<Regexp>,
                                       consentRequired: bool, scheme: string, matcher: Matcher)
  {
    predicate IsCatchAll() { service == "" && pathRe.None? }

    predicate Matches(res: Resource) {
      && (service != "" ==> service == res.service)
      && (pathRe.Some? ==> pathRe.value.find(res.path).Some?)
    }
  }

  datatype ConfigResolver = ConfigResolver(defaultConsentRequired: bool, defaultScheme: string,
                                           rules: seq<CompiledRule>)

  datatype MatcherError = NoPattern | BadPattern | NoOwnerGroup | NoOwner | NoClient | NoKind | UnknownKind

  datatype RuleError = BadPathPattern | NeedsConsent | BadMatcher(why: MatcherError) | BadScheme

  datatype ConfigError =
    | BadDefaultScheme
    | NoServiceURL
    | BadRule(index: nat, ruleError: RuleError)
    | DeadRule(index: nat)

  predicate ValidScheme(scheme: string) { scheme in ["identifier", "email", "did"] }

  const DEFAULT_TTL_MS: int := 30000

  /** Nanoseconds: unset means the default, negative disables the cache. */
  function ResourceCacheTTL(ms: int): int {
    (if ms == 0 then DEFAULT_TTL_MS else ms) * 1_000_000
  }

  /** The facade behind a cache, unless the configured time to live is negative. */
  method OpenLookup(inner: Facade, clock: Clock, ms: int) returns (l: ContractLookup)
    ensures l.Cached? <==> ms >= 0
    ensures l.Cached? ==>
      && l.cache.inner == inner && l.cache.clock == clock && fresh(l.cache) && l.cache.items == map[]
      && l.cache.ttl == (if ms == 0 then 30_000_000_000 else ms * 1_000_000)
    ensures l.Direct? ==> l.client == inner
  {
    var lookup := NewCachingLookup(inner, ResourceCacheTTL(ms), clock);
    l := lookup.value;
  }

  /** The position of the last group with a name, or -1. */
  function LastNamed(names: seq<string>, name: string): (i: int)
    ensures -1 <= i < |names|
    ensures i >= 0 ==> names[i] == name
    ensures forall j :: i < j < |names| ==> names[j] != name
  {
    if names == [] then -1
    else if names[|names| - 1] == name then |names| - 1
    else LastNamed(names[..|names| - 1], name)
  }

  function CompileMatcher(lib: Library, m: RawMatcher, service: Option<RawContractService>)
    : Result<Matcher, MatcherError>
  {
    if m.kind == "path" then
      if m.pattern == "" then Err(NoPattern)
      else
        match lib.compile(m.pattern)
        case Err(_) => Err(BadPattern)
        case Ok(re) =>
          var owner := LastNamed(re.names, "owner");
          if owner < 0 then Err(NoOwnerGroup)
          else Ok(PathMatcher(re, owner, LastNamed(re.names, "resource"), m.resource, m.participant))
    else if m.kind == "json" then
      if m.owner == "" then Err(NoOwner)
      else Ok(JSONMatcher(m.items, m.itemsIsArray, m.owner, m.resourcePointer, m.resource, m.participant))
    else if m.kind == "static" then
      if m.owner == "" then Err(NoOwner) else Ok(StaticMatcher(m.owner, m.resource, m.participant))
    else if m.kind == "contract" then
      if service.None? then Err(NoClient)
      else if m.owner == "" then Err(NoOwner)
      else Ok(ContractMatcher(service.value.providerSelfDescription, m.items, m.itemsIsArray, m.owner,
                              if m.uriPointer == "" then "/id" else m.uriPointer, m.participant))
    else if m.kind == "" then Err(NoKind)
    else Err(UnknownKind)
  }

  method NewPathMatcher(lib: Library, m: RawMatcher) returns (r: Result<Matcher, MatcherError>)
    requires m.kind == "path"
    ensures r == CompileMatcher(lib, m, None)
  {
    if m.pattern == "" {
      return Err(NoPattern);
    }
    var compiled := lib.compile(m.pattern);
    if compiled.Err? {
      return Err(BadPattern);
    }
    var re := compiled.value;
    var ownerGroup, resGroup := -1, -1;
    for i := 0 to |re.names|
      invariant ownerGroup == LastNamed(re.names[..i], "owner")
      invariant resGroup == LastNamed(re.names[..i], "resource")
    {
      assert re.names[..i + 1][..i] == re.names[..i];
      if re.names[i] == "owner" {
        ownerGroup := i;
      } else if re.names[i] == "resource" {
        resGroup := i;
      }
    }
    assert re.names[..|re.names|] == re.names;
    if ownerGroup < 0 {
      return Err(NoOwnerGroup);
    }
    return Ok(PathMatcher(re, ownerGroup, resGroup, m.resource, m.participant));
  }

  method BuildMatcher(lib: Library, m: RawMatcher, service: Option<RawContractService>)
    returns (r: Result<Matcher, MatcherError>)
    ensures r == CompileMatcher(lib, m, service)
  {
    if m.kind == "path" {
      r := NewPathMatcher(lib, m);
    } else {
      r := CompileMatcher(lib, m, service);
    }
  }

  function SchemeOr(scheme: string, default: string): string {
    if scheme == "" then default else scheme
  }

  function CompileRule(lib: Library, raw: RawConfig, i: nat): Result<CompiledRule, RuleError>
    requires i < |raw.rules|
  {
    var rr := raw.rules[i];
    var path := if rr.match_.pathPattern == "" then Ok(None)
                else match lib.compile(rr.match_.pathPattern)
                     case Ok(re) => Ok(Some(re))
                     case Err(_) => Err(BadPathPattern);
    if path.Err? then Err(path.error)
    else if rr.matcher.kind == "contract" && !rr.consentRequired then Err(NeedsConsent)
    else
      match CompileMatcher(lib, rr.matcher, raw.contractService)
      case Err(e) => Err(BadMatcher(e))
      case Ok(m) =>
        var scheme := SchemeOr(rr.matcher.scheme, SchemeOr(raw.defaultScheme, "identifier"));
        if !ValidScheme(scheme) then Err(BadScheme)
        else Ok(CompiledRule(if rr.name == "" then "#" + Itoa(i) else rr.name,
                             rr.match_.service, path.value, rr.consentRequired, scheme, m))
  }

  /** What a rule must say: each condition is one an operator can check in the file. */
  ghost predicate WellSpecified(lib: Library, raw: RawConfig, rr: RawRule) {
    var m := rr.matcher;
    && (rr.match_.pathPattern != "" ==> lib.compile(rr.match_.pathPattern).Ok?)
    && m.kind in ["path", "json", "static", "contract"]
    && (m.kind != "path" ==> m.owner != "")
    && (m.kind == "path" ==>
          m.pattern != "" && lib.compile(m.pattern).Ok? && "owner" in lib.compile(m.pattern).value.names)
    && (m.kind == "contract" ==> rr.consentRequired && raw.contractService.Some?)
    && ValidScheme(SchemeOr(m.scheme, SchemeOr(raw.defaultScheme, "identifier")))
  }

  /** A rule compiles exactly when it is well specified, and keeps what the file says. */
  lemma CompilesExactly(lib: Library, raw: RawConfig, i: nat)
    requires i < |raw.rules|
    ensures var rr, r := raw.rules[i], CompileRule(lib, raw, i);
      && (r.Ok? <==> WellSpecified(lib, raw, rr))
      && (r.Ok? ==> r.value.consentRequired == rr.consentRequired && r.value.service == rr.match_.service
                    && (r.value.pathRe.Some? <==> rr.match_.pathPattern != ""))
      && (r.Ok? && rr.matcher.kind == "contract" ==>
            && r.value.matcher.ContractMatcher? && r.value.matcher.ownerPtr == rr.matcher.owner
            && r.value.matcher.uriPtr == (if rr.matcher.uriPointer == "" then "/id" else rr.matcher.uriPointer)
            && r.value.matcher.providerSD == raw.contractService.value.providerSelfDescription)
  {
    var m := raw.rules[i].matcher;
    if m.kind == "path" && m.pattern != "" && lib.compile(m.pattern).Ok? {
      var names := lib.compile(m.pattern).value.names;
      assert "owner" in names <==> LastNamed(names, "owner") >= 0;
    }
  }

  /** The checks Parse makes before it looks at the rules. */
  predicate HeaderOk(raw: RawConfig) {
    && ValidScheme(SchemeOr(raw.defaultScheme, "identifier"))
    && (raw.contractService.Some? ==> raw.contractService.value.url != "")
  }

  /** The configuration is accepted: every rule compiles, and only the last may match everything. */
  predicate Acceptable(lib: Library, raw: RawConfig) {
    && HeaderOk(raw)
    && (forall i :: 0 <= i < |raw.rules| ==> CompileRule(lib, raw, i).Ok?)
    && (forall i :: 0 <= i < |raw.rules| - 1 ==> !CompileRule(lib, raw, i).value.IsCatchAll())
  }

  /** The body of Parse's loop over the rules. */
  method ParseRule(lib: Library, raw: RawConfig, i: nat) returns (r: Result<CompiledRule, RuleError>)
    requires i < |raw.rules|
    ensures r == CompileRule(lib, raw, i)
  {
    var rr := raw.rules[i];
    var name := rr.name;
    if name == "" {
      name := "#" + Itoa(i);
    }
    var pathRe: Option<Regexp> := None;
    if rr.match_.pathPattern != "" {
      var re := lib.compile(rr.match_.pathPattern);
      if re.Err? {
        return Err(BadPathPattern);
      }
      pathRe := Some(re.value);
    }
    if rr.matcher.kind == "contract" && !rr.consentRequired {
      return Err(NeedsConsent);
    }
    var matcher := BuildMatcher(lib, rr.matcher, raw.contractService);
    if matcher.Err? {
      return Err(BadMatcher(matcher.error));
    }
    var scheme := SchemeOr(rr.matcher.scheme, SchemeOr(raw.defaultScheme, "identifier"));
    if !ValidScheme(scheme) {
      return Err(BadScheme);
    }
    return Ok(CompiledRule(name, rr.match_.service, pathRe, rr.consentRequired, scheme, matcher.value));
  }

  /** The first rule that hides the ones after it, if any. */
  method RejectDeadRules(rules: seq<CompiledRule>) returns (dead: Option<nat>)
    ensures dead.None? <==> forall i :: 0 <= i < |rules| - 1 ==> !rules[i].IsCatchAll()
    ensures dead.Some? ==>
      && dead.value < |rules| - 1 && rules[dead.value].IsCatchAll()
      && forall i :: 0 <= i < dead.value ==> !rules[i].IsCatchAll()
  {
    for i := 0 to |rules|
      invariant forall j :: 0 <= j < i && j < |rules| - 1 ==> !rules[j].IsCatchAll()
    {
      if rules[i].IsCatchAll() && i < |rules| - 1 {
        return Some(i);
      }
    }
    return None;
  }

  /** The rules of an accepted configuration, one for one and in order. */
  ghost predicate CompiledFrom(lib: Library, raw: RawConfig, cr: ConfigResolver) {
    && cr.defaultConsentRequired == raw.defaultConsentRequired
    && cr.defaultScheme == SchemeOr(raw.defaultScheme, "identifier")
    && |cr.rules| == |raw.rules|
    && forall i :: 0 <= i < |raw.rules| ==> CompileRule(lib, raw, i) == Ok(cr.rules[i])
  }

  /** The rule does not compile, and those before it do. */
  predicate FirstToFail(lib: Library, raw: RawConfig, i: nat, why: RuleError) {
    && i < |raw.rules| && CompileRule(lib, raw, i) == Err(why)
    && forall j :: 0 <= j < i ==> CompileRule(lib, raw, j).Ok?
  }

  /** All rules compile, and this is the first catch-all before the last rule. */
  predicate FirstToHide(lib: Library, raw: RawConfig, i: nat) {
    && i < |raw.rules| - 1
    && (forall j :: 0 <= j < |raw.rules| ==> CompileRule(lib, raw, j).Ok?)
    && CompileRule(lib, raw, i).value.IsCatchAll()
    && forall j :: 0 <= j < i ==> !CompileRule(lib, raw, j).value.IsCatchAll()
  }

  /** What the configuration is refused for: its scheme, then its URL, then a rule, then an early catch-all. */
  predicate FirstFault(lib: Library, raw: RawConfig, e: ConfigError) {
    if !ValidScheme(SchemeOr(raw.defaultScheme, "identifier")) then e == BadDefaultScheme
    else if raw.contractService.Some? && raw.contractService.value.url == "" then e == NoServiceURL
    else
      match e
      case BadRule(i, why) => FirstToFail(lib, raw, i, why)
      case DeadRule(i) => FirstToHide(lib, raw, i)
      case _ => false
  }

  lemma {:induction false} SomeRuleFailsFirst(lib: Library, raw: RawConfig, i: nat) returns (e: ConfigError)
    requires i < |raw.rules| && CompileRule(lib, raw, i).Err?
    ensures e.BadRule? && FirstToFail(lib, raw, e.index, e.ruleError)
  {
    if j :| 0 <= j < i && CompileRule(lib, raw, j).Err? {
      e := SomeRuleFailsFirst(lib, raw, j);
    } else {
      e := BadRule(i, CompileRule(lib, raw, i).error);
    }
  }

  lemma {:induction false} SomeRuleHidesFirst(lib: Library, raw: RawConfig, i: nat) returns (e: ConfigError)
    requires forall j :: 0 <= j < |raw.rules| ==> CompileRule(lib, raw, j).Ok?
    requires i < |raw.rules| - 1 && CompileRule(lib, raw, i).value.IsCatchAll()
    ensures e.DeadRule? && FirstToHide(lib, raw, e.index)
  {
    if j :| 0 <= j < i && CompileRule(lib, raw, j).value.IsCatchAll() {
      e := SomeRuleHidesFirst(lib, raw, j);
    } else {
      e := DeadRule(i);
    }
  }

  /** A configuration has at most one first fault, and none exactly when it is acceptable. */
  lemma FaultsExactly(lib: Library, raw: RawConfig)
    ensures forall e, e' :: FirstFault(lib, raw, e) && FirstFault(lib, raw, e') ==> e == e'
    ensures Acceptable(lib, raw) <==> forall e :: !FirstFault(lib, raw, e)
  {
    if Acceptable(lib, raw) {
    } else if !ValidScheme(SchemeOr(raw.defaultScheme, "identifier")) {
      assert FirstFault(lib, raw, BadDefaultScheme);
    } else if raw.contractService.Some? && raw.contractService.value.url == "" {
      assert FirstFault(lib, raw, NoServiceURL);
    } else if i :| 0 <= i < |raw.rules| && CompileRule(lib, raw, i).Err? {
      var e := SomeRuleFailsFirst(lib, raw, i);
      assert FirstFault(lib, raw, e);
    } else {
      var i :| 0 <= i < |raw.rules| - 1 && CompileRule(lib, raw, i).value.IsCatchAll();
      var e := SomeRuleHidesFirst(lib, raw, i);
      assert FirstFault(lib, raw, e);
    }
  }

  /** What every parsed configuration satisfies. */
  predicate Valid(cr: ConfigResolver) {
    && ValidScheme(cr.defaultScheme)
    && (forall i :: 0 <= i < |cr.rules| ==>
          && WellFormed(cr.rules[i].matcher) && ValidScheme(cr.rules[i].scheme)
          && (cr.rules[i].matcher.ContractMatcher? ==> cr.rules[i].consentRequired))
    && (forall i :: 0 <= i < |cr.rules| - 1 ==> !cr.rules[i].IsCatchAll())
  }

  lemma CompiledRuleOk(lib: Library, raw: RawConfig, i: nat)
    requires i < |raw.rules| && CompileRule(lib, raw, i).Ok?
    ensures var rule := CompileRule(lib, raw, i).value;
      && WellFormed(rule.matcher) && ValidScheme(rule.scheme)
      && (rule.matcher.ContractMatcher? ==> rule.consentRequired)
      && (rule.matcher.PathMatcher? ==> rule.matcher.re.names[rule.matcher.ownerGroup] == "owner")
  {
  }

  /** What compiled from an acceptable file is valid. */
  lemma CompiledIsValid(lib: Library, raw: RawConfig, cr: ConfigResolver)
    requires CompiledFrom(lib, raw, cr) && ValidScheme(cr.defaultScheme)
    requires forall i :: 0 <= i < |cr.rules| - 1 ==> !cr.rules[i].IsCatchAll()
    ensures Valid(cr)
  {
    forall i | 0 <= i < |cr.rules|
      ensures WellFormed(cr.rules[i].matcher) && ValidScheme(cr.rules[i].scheme)
      ensures cr.rules[i].matcher.ContractMatcher? ==> cr.rules[i].consentRequired
    {
      assert CompileRule(lib, raw, i) == Ok(cr.rules[i]);
      CompiledRuleOk(lib, raw, i);
    }
  }

  /** The rules before some position compiled, one for one and in order. */
  ghost predicate CompiledUpTo(lib: Library, raw: RawConfig, rules: seq<CompiledRule>, i: nat) {
    |rules| == i <= |raw.rules| && forall j :: 0 <= j < i ==> CompileRule(lib, raw, j) == Ok(rules[j])
  }

  lemma RuleFails(lib: Library, raw: RawConfig, rules: seq<CompiledRule>, i: nat, why: RuleError)
    requires HeaderOk(raw) && CompiledUpTo(lib, raw, rules, i)
    requires i < |raw.rules| && CompileRule(lib, raw, i) == Err(why)
    ensures FirstFault(lib, raw, BadRule(i, why)) && !Acceptable(lib, raw)
  {
  }

  lemma RuleHides(lib: Library, raw: RawConfig, rules: seq<CompiledRule>, i: nat)
    requires HeaderOk(raw) && CompiledUpTo(lib, raw, rules, |raw.rules|)
    requires i < |rules| - 1 && rules[i].IsCatchAll() && forall j :: 0 <= j < i ==> !rules[j].IsCatchAll()
    ensures FirstFault(lib, raw, DeadRule(i)) && !Acceptable(lib, raw)
  {
  }

  lemma NoFault(lib: Library, raw: RawConfig, cr: ConfigResolver)
    requires HeaderOk(raw) && CompiledFrom(lib, raw, cr)
    requires forall i :: 0 <= i < |cr.rules| - 1 ==> !cr.rules[i].IsCatchAll()
    ensures Acceptable(lib, raw) && Valid(cr)
  {
    CompiledIsValid(lib, raw, cr);
  }

  /** Parse, from the decoded file on. */
  method Parse(lib: Library, raw: RawConfig) returns (r: Result<ConfigResolver, ConfigError>)
    ensures r.Ok? <==> Acceptable(lib, raw)
    ensures r.Ok? ==> CompiledFrom(lib, raw, r.value) && Valid(r.value)
    ensures r.Err? ==> FirstFault(lib, raw, r.error)
  {
    var defaultScheme := raw.defaultScheme;
    if defaultScheme == "" {
      defaultScheme := "identifier";
    }
    if !ValidScheme(defaultScheme) {
      return Err(BadDefaultScheme);
    }
    if raw.contractService.Some? && raw.contractService.value.url == "" {
      return Err(NoServiceURL);
    }
    r := ParseRules(lib, raw, defaultScheme);
  }

  /** The rest of Parse: the rules. */
  method ParseRules(lib: Library, raw: RawConfig, defaultScheme: string)
    returns (r: Result<ConfigResolver, ConfigError>)
    requires HeaderOk(raw) && defaultScheme == SchemeOr(raw.defaultScheme, "identifier")
    ensures r.Ok? <==> Acceptable(lib, raw)
    ensures r.Ok? ==> CompiledFrom(lib, raw, r.value) && Valid(r.value)
    ensures r.Err? ==> FirstFault(lib, raw, r.error)
  {
    var rules: seq<CompiledRule> := [];
    for i := 0 to |raw.rules|
      invariant CompiledUpTo(lib, raw, rules, i)
    {
      var rule := ParseRule(lib, raw, i);
      if rule.Err? {
        RuleFails(lib, raw, rules, i, rule.error);
        return Err(BadRule(i, rule.error));
      }
      rules := rules + [rule.value];
    }
    var dead := RejectDeadRules(rules);
    if dead.Some? {
      RuleHides(lib, raw, rules, dead.value);
      return Err(DeadRule(dead.value));
    }
    var cr := ConfigResolver(raw.defaultConsentRequired, defaultScheme, rules);
    NoFault(lib, raw, cr);
    return Ok(cr);
  }

  // ---- Resolve -------------------------------------------------------------------------

  datatype ResolveResult = ResolveResult(consentRequired: bool, scheme: string, claims: seq<Claim>)

  function FirstMatch(rules: seq<CompiledRule>, res: Resource): (r: Option<CompiledRule>)
    ensures r.Some? ==> r.value in rules && r.value.Matches(res)
    ensures r.None? <==> forall i :: 0 <= i < |rules| ==> !rules[i].Matches(res)
  {
    if rules == [] then None
    else if rules[0].Matches(res) then Some(rules[0])
    else FirstMatch(rules[1..], res)
  }

  /** The rule that decides is the topmost that matches. */
  lemma {:induction false} FirstMatchIsTopmost(rules: seq<CompiledRule>, res: Resource, i: nat)
    requires i < |rules| && rules[i].Matches(res)
    requires forall j :: 0 <= j < i ==> !rules[j].Matches(res)
    ensures FirstMatch(rules, res) == Some(rules[i])
  {
    if i > 0 {
      assert !rules[0].Matches(res);
      FirstMatchIsTopmost(rules[1..], res, i - 1);
    }
  }

  ghost function ResolveOf(lib: Library, env: LookupEnv, cr: ConfigResolver, req: Request, st: LookupState)
    : (Result<ResolveResult, Error>, LookupState)
    requires Valid(cr)
  {
    match FirstMatch(cr.rules, req.resource)
    case None => (Ok(ResolveResult(cr.defaultConsentRequired, cr.defaultScheme, [])), st)
    case Some(rule) =>
      var (claims, next) := ClaimsOf(lib, env, rule.matcher, req, st);
      match claims
      case Err(e) => (Err(e), next)
      case Ok(cs) => (Ok(ResolveResult(rule.consentRequired, rule.scheme, cs)), next)
  }

  /** The rule that decides reads the body: no other does. */
  predicate BodyIsRead(cr: ConfigResolver, req: Request) {
    var rule := FirstMatch(cr.rules, req.resource);
    rule.Some? && NeedsBody(rule.value.matcher)
  }

  /** First match wins; the body is decoded at most once, and only for a rule that reads it. */
  method Resolve(lib: Library, cr: ConfigResolver, lookup: ContractLookup, req: Request)
    returns (r: Result<ResolveResult, Error>, ghost decodes: nat)
    requires Valid(cr)
    modifies lookup.Footprint()
    ensures (r, lookup.State()) == ResolveOf(lib, lookup.Env(), cr, req, old(lookup.State()))
    ensures decodes == if BodyIsRead(cr, req) then 1 else 0
  {
    var body := new LazyPayload(lib, req.body);
    for i := 0 to |cr.rules|
      invariant FirstMatch(cr.rules, req.resource) == FirstMatch(cr.rules[i..], req.resource)
      invariant body.Valid() && body.decodes == 0 && lookup.State() == old(lookup.State())
    {
      var rule := cr.rules[i];
      if !rule.Matches(req.resource) {
        continue;
      }
      var claims := Claims(lib, rule.matcher, lookup, req, body);
      if claims.Err? {
        return Err(claims.error), body.decodes;
      }
      return Ok(ResolveResult(rule.consentRequired, rule.scheme, claims.value)), body.decodes;
    }
    return Ok(ResolveResult(cr.defaultConsentRequired, cr.defaultScheme, [])), body.decodes;
  }
}

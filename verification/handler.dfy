/**
 * From resolver outcome to status and failure counter
 * (internal/api/handler.go, internal/api/logging.go).
 */
module Handling {
  import opened Results
  import opened Text
  import opened Payload
  import opened Lookup
  import opened Matchers
  import opened Resolver
  import opened Guarantees
  import opened Collections
  import opened Observability
  import opened Histogram

  // ---- error classes ------------------------------------------------------------------------

  const UNSPECIFIED: string := "unspecified"

  function ErrorClass(message: string): string {
    match CutBefore(message, ": ")
    case Some(head) => if head == "" then UNSPECIFIED else head
    case None => UNSPECIFIED
  }

  /** The class of an error is the component it blames, whatever the detail says. */
  lemma ClassIsComponent(component: string, message: string)
    requires component + ": " <= message && ':' !in component
    ensures ErrorClass(message) == if component == "" then "unspecified" else component
  {
    CutAfter(component, ": ", message);
  }

  const ALL_CLASSES: set<string> := PAYLOAD_ERRORS + MATCHER_ERRORS

  lemma AtMostSeven()
    ensures |ALL_CLASSES| <= 7
  {
    AtMostFour("decode json body", "base64 body must be a JSON string", "decode base64 body", "decode body");
    AtMostThree("path matcher", "json matcher", "contract matcher");
    assert |PAYLOAD_ERRORS| <= 4 && |MATCHER_ERRORS| <= 3;
  }

  lemma PayloadComponents(c: string)
    requires c in PAYLOAD_ERRORS
    ensures c != "" && ':' !in c
  {
  }

  lemma MatcherComponents(c: string)
    requires c in MATCHER_ERRORS
    ensures c != "" && ':' !in c
  {
  }

  /** The class of every error Resolve can return is one of seven. */
  lemma ResolveClassIsKnown(lib: Library, env: LookupEnv, cr: ConfigResolver, req: Request, st: LookupState)
    requires Valid(cr)
    ensures var r := ResolveOf(lib, env, cr, req, st).0;
      r.Err? ==> ErrorClass(r.error.message) in ALL_CLASSES
  {
    var r := ResolveOf(lib, env, cr, req, st).0;
    if r.Err? {
      ResolveErrors(lib, env, cr, req, st);
      KnownClass(r.error);
    }
  }

  lemma KnownClass(e: Error)
    requires KnownError(e)
    ensures ErrorClass(e.message) in ALL_CLASSES
  {
    var component :| Blames(e, component) && component in (if e.badRequest then PAYLOAD_ERRORS else MATCHER_ERRORS);
    if e.badRequest {
      PayloadComponents(component);
    } else {
      MatcherComponents(component);
    }
    ClassIsComponent(component, e.message);
  }

  // ---- POST /resolve --------------------------------------------------------------------------

  /** What arrives at the route: turned away at the door, or a decoded envelope. */
  datatype Incoming =
    | WrongMethod
    | Unauthorized
    | TooLarge
    | Malformed(why: string)
    | Decoded(req: Request)

  datatype Reply = Answer(result: ResolveResult) | Refusal(code: int, text: string)

  function StatusOf(reply: Reply): int {
    match reply
    case Answer(_) => 200
    case Refusal(code, _) => code
  }

  /** The refusal of a failed resolve says what failed, never why. */
  function ReplyFor(r: Result<ResolveResult, Error>): Reply {
    match r
    case Ok(result) => Answer(result)
    case Err(e) =>
      if e.badRequest then Refusal(400, "invalid request body") else Refusal(422, "cannot resolve owner")
  }

  function CountFailure(failures: map<string, nat>, r: Result<ResolveResult, Error>): map<string, nat> {
    match r
    case Ok(_) => failures
    case Err(e) => Failed(failures, ErrorClass(e.message))
  }

  datatype HandlerState = HandlerState(lookup: LookupState, failures: map<string, nat>)

  ghost function Handle(lib: Library, env: LookupEnv, cr: ConfigResolver, incoming: Incoming, st: HandlerState)
    : (Reply, HandlerState)
    requires Valid(cr)
  {
    match incoming
    case WrongMethod => (Refusal(405, "only POST is allowed"), st)
    case Unauthorized => (Refusal(401, "unauthorized"), st)
    case TooLarge => (Refusal(413, "request body too large"), st)
    case Malformed(why) => (Refusal(400, "invalid request body: " + why), st)
    case Decoded(req) => HandleDecoded(lib, env, cr, req, st)
  }

  ghost function HandleDecoded(lib: Library, env: LookupEnv, cr: ConfigResolver, req: Request, st: HandlerState)
    : (Reply, HandlerState)
    requires Valid(cr)
  {
    var (r, lookup) := ResolveOf(lib, env, cr, req, st.lookup);
    (ReplyFor(r), HandlerState(lookup, CountFailure(st.failures, r)))
  }

  /** The handler's state and the request metrics beside it. */
  datatype ServerState = ServerState(handler: HandlerState, seen: Observability.State)

  ghost function ServeOf(lib: Library, env: LookupEnv, cr: ConfigResolver, incoming: Incoming, seconds: real,
                         st: ServerState): (Reply, ServerState)
    requires Valid(cr) && FullSlices(st.seen.bucketCounts)
  {
    var (reply, next) := Handle(lib, env, cr, incoming, st.handler);
    (reply, ServerState(next, Observed(st.seen, Observation("/resolve", StatusOf(reply), seconds))))
  }

  class Handler {
    const lib: Library
    const cr: ConfigResolver
    const lookup: ContractLookup
    const metrics: Metrics

    constructor (lib: Library, cr: ConfigResolver, lookup: ContractLookup)
      ensures this.lib == lib && this.cr == cr && this.lookup == lookup && fresh(metrics)
      ensures Counted() == ServerState(HandlerState(lookup.State(), map[]), AfterObservations([]))
    {
      this.lib, this.cr, this.lookup := lib, cr, lookup;
      metrics := new Metrics();
    }

    ghost function State(): HandlerState
      reads lookup.Footprint(), metrics
    {
      HandlerState(lookup.State(), metrics.failures)
    }

    method Resolve(incoming: Incoming) returns (reply: Reply)
      requires Valid(cr)
      modifies lookup.Footprint(), metrics
      ensures (reply, State()) == Handle(lib, lookup.Env(), cr, incoming, old(State()))
      ensures metrics.Observations() == old(metrics.Observations())
    {
      match incoming
      case WrongMethod => reply := Refusal(405, "only POST is allowed");
      case Unauthorized => reply := Refusal(401, "unauthorized");
      case TooLarge => reply := Refusal(413, "request body too large");
      case Malformed(why) => reply := Refusal(400, "invalid request body: " + why);
      case Decoded(req) => reply := ResolveDecoded(req);
    }

    /** Counts a failure once, under the class of its error. */
    method ResolveDecoded(req: Request) returns (reply: Reply)
      requires Valid(cr)
      modifies lookup.Footprint(), metrics
      ensures (reply, State()) == HandleDecoded(lib, lookup.Env(), cr, req, old(State()))
      ensures metrics.Observations() == old(metrics.Observations())
    {
      ghost var failures := metrics.failures;
      var result, _ := Resolver.Resolve(lib, cr, lookup, req);
      ghost var after := lookup.State();
      assert metrics.failures == failures;
      reply := Report(result);
      assert lookup.State() == after;
    }

    method Report(result: Result<ResolveResult, Error>) returns (reply: Reply)
      modifies metrics
      ensures reply == ReplyFor(result) && metrics.failures == CountFailure(old(metrics.failures), result)
      ensures metrics.Observations() == old(metrics.Observations())
    {
      if result.Ok? {
        return Answer(result.value);
      }
      metrics.ObserveFailure(ErrorClass(result.error.message));
      if result.error.badRequest {
        return Refusal(400, "invalid request body");
      }
      return Refusal(422, "cannot resolve owner");
    }

    ghost function Counted(): ServerState
      reads lookup.Footprint(), metrics
    {
      ServerState(State(), metrics.Observations())
    }

    /** What instrument records. */
    method Count(status: int, seconds: real)
      requires FullSlices(metrics.bucketCounts)
      modifies metrics
      ensures State() == old(State()) && FullSlices(metrics.bucketCounts)
      ensures metrics.Observations()
           == Observed(old(metrics.Observations()), Observation("/resolve", status, seconds))
    {
      metrics.Observe("/resolve", status, seconds);
    }

    /** The handler wrapped by instrument: the outcome is counted once the handler is done. */
    method Serve(incoming: Incoming, seconds: real) returns (reply: Reply)
      requires Valid(cr) && FullSlices(metrics.bucketCounts)
      modifies lookup.Footprint(), metrics
      ensures (reply, Counted()) == ServeOf(lib, lookup.Env(), cr, incoming, seconds, old(Counted()))
      ensures FullSlices(metrics.bucketCounts)
    {
      reply := Resolve(incoming);
      Count(StatusOf(reply), seconds);
    }
  }

  /**
   * After a decodable envelope: 400 exactly when the deciding rule reads a body that cannot be
   * decoded, 422 for every other failure, 200 otherwise.
   */
  lemma StatusSplit(lib: Library, env: LookupEnv, cr: ConfigResolver, req: Request, st: HandlerState)
    requires Valid(cr)
    ensures var status := StatusOf(Handle(lib, env, cr, Decoded(req), st).0);
            var ok := ResolveOf(lib, env, cr, req, st.lookup).0.Ok?;
      && (status == 200 <==> ok)
      && (status == 400 <==> BodyIsRead(cr, req) && DecodeBody(lib, req.body).Err?)
      && (status == 422 <==> !ok && !(BodyIsRead(cr, req) && DecodeBody(lib, req.body).Err?))
  {
    ResolveErrors(lib, env, cr, req, st.lookup);
  }

  /** The reply carries exactly what the resolver answered, and then nothing is counted as a failure. */
  lemma ReplyCarriesResult(lib: Library, env: LookupEnv, cr: ConfigResolver, req: Request, st: HandlerState,
                           result: ResolveResult)
    requires Valid(cr)
    ensures var (reply, next) := Handle(lib, env, cr, Decoded(req), st);
      && (reply == Answer(result) <==> ResolveOf(lib, env, cr, req, st.lookup).0 == Ok(result))
      && (reply == Answer(result) ==> next.failures == st.failures)
  {
  }

  lemma DecodedReply(lib: Library, env: LookupEnv, cr: ConfigResolver, req: Request, st: HandlerState)
    requires Valid(cr)
    ensures Handle(lib, env, cr, Decoded(req), st).0 == ReplyFor(ResolveOf(lib, env, cr, req, st.lookup).0)
  {
  }

  lemma SameStatusSameReply(r: Result<ResolveResult, Error>, r': Result<ResolveResult, Error>)
    requires r.Err? && r'.Err? && StatusOf(ReplyFor(r)) == StatusOf(ReplyFor(r'))
    ensures ReplyFor(r) == ReplyFor(r')
  {
  }

  /** A failed resolve is refused with its status alone: no two with one status can be told apart. */
  lemma RefusalsSayNothing(lib: Library, env: LookupEnv, cr: ConfigResolver, req: Request, st: HandlerState,
                           env': LookupEnv, req': Request, st': HandlerState)
    requires Valid(cr)
    requires ResolveOf(lib, env, cr, req, st.lookup).0.Err? && ResolveOf(lib, env', cr, req', st'.lookup).0.Err?
    ensures var reply := Handle(lib, env, cr, Decoded(req), st).0;
            var reply' := Handle(lib, env', cr, Decoded(req'), st').0;
      StatusOf(reply) == StatusOf(reply') ==> reply == reply'
  {
    DecodedReply(lib, env, cr, req, st);
    DecodedReply(lib, env', cr, req', st');
    var r, r' := ResolveOf(lib, env, cr, req, st.lookup).0, ResolveOf(lib, env', cr, req', st'.lookup).0;
    if StatusOf(ReplyFor(r)) == StatusOf(ReplyFor(r')) {
      SameStatusSameReply(r, r');
    }
  }

  /** What is turned away at the door gets its own status, and changes nothing. */
  lemma TurnedAway(lib: Library, env: LookupEnv, cr: ConfigResolver, incoming: Incoming, st: HandlerState)
    requires Valid(cr) && !incoming.Decoded?
    ensures var (reply, next) := Handle(lib, env, cr, incoming, st);
      && next == st && reply.Refusal?
      && (incoming.WrongMethod? <==> reply.code == 405) && (incoming.Unauthorized? <==> reply.code == 401)
      && (incoming.TooLarge? <==> reply.code == 413) && (incoming.Malformed? <==> reply.code == 400)
  {
  }

  // ---- every run of the handler ------------------------------------------------------------------

  ghost function StateAfter(lib: Library, env: LookupEnv, cr: ConfigResolver, ins: seq<Incoming>, st: HandlerState)
    : HandlerState
    requires Valid(cr)
  {
    if ins == [] then st
    else Handle(lib, env, cr, Last(ins), StateAfter(lib, env, cr, Init(ins), st)).1
  }

  ghost function LastReply(lib: Library, env: LookupEnv, cr: ConfigResolver, ins: seq<Incoming>, st: HandlerState)
    : Reply
    requires Valid(cr) && ins != []
  {
    Handle(lib, env, cr, Last(ins), StateAfter(lib, env, cr, Init(ins), st)).0
  }

  /** The class counted for one request: none, unless it reached Resolve and failed there. */
  ghost function ClassOf(lib: Library, env: LookupEnv, cr: ConfigResolver, incoming: Incoming, st: LookupState)
    : seq<string>
    requires Valid(cr)
  {
    match incoming
    case Decoded(req) =>
      (match ResolveOf(lib, env, cr, req, st).0
       case Ok(_) => []
       case Err(e) => [ErrorClass(e.message)])
    case _ => []
  }

  lemma OneRequest(lib: Library, env: LookupEnv, cr: ConfigResolver, incoming: Incoming, st: HandlerState)
    requires Valid(cr)
    ensures var classes := ClassOf(lib, env, cr, incoming, st.lookup);
            var (reply, next) := Handle(lib, env, cr, incoming, st);
      && (forall c :: c in classes ==> c in ALL_CLASSES)
      && (classes == [] || |classes| == 1)
      && next.failures == (if classes == [] then st.failures else Failed(st.failures, classes[0]))
      && (StatusOf(reply) in {400, 422} <==> classes != [] || incoming.Malformed?)
      && (classes != [] ==> incoming.Decoded?)
  {
    if incoming.Decoded? {
      ResolveClassIsKnown(lib, env, cr, incoming.req, st.lookup);
    }
  }

  /** The classes of the failed resolves of a run, in order. */
  ghost function Classes(lib: Library, env: LookupEnv, cr: ConfigResolver, ins: seq<Incoming>, st: HandlerState)
    : seq<string>
    requires Valid(cr)
  {
    if ins == [] then []
    else
      Classes(lib, env, cr, Init(ins), st)
      + ClassOf(lib, env, cr, Last(ins), StateAfter(lib, env, cr, Init(ins), st).lookup)
  }

  lemma {:induction false} FailuresFollowClasses(lib: Library, env: LookupEnv, cr: ConfigResolver, ins: seq<Incoming>,
                                                 st: HandlerState)
    requires Valid(cr) && st.failures == map[]
    ensures StateAfter(lib, env, cr, ins, st).failures == AfterFailures(Classes(lib, env, cr, ins, st))
    ensures forall c :: c in Classes(lib, env, cr, ins, st) ==> c in ALL_CLASSES
  {
    if ins != [] {
      FailuresFollowClasses(lib, env, cr, Init(ins), st);
      var mid := StateAfter(lib, env, cr, Init(ins), st);
      var before, added := Classes(lib, env, cr, Init(ins), st), ClassOf(lib, env, cr, Last(ins), mid.lookup);
      OneRequest(lib, env, cr, Last(ins), mid);
      if added == [] {
        assert before + added == before;
      } else {
        assert Init(before + added) == before && Last(before + added) == added[0];
      }
    }
  }

  /**
   * In every run, whatever is sent and whatever the facade answers, the failure counter holds only the
   * seven known classes, each with its exact count: the cap of 64 is never reached.
   */
  lemma CapIsNeverReached(lib: Library, env: LookupEnv, cr: ConfigResolver, ins: seq<Incoming>, st: HandlerState)
    requires Valid(cr) && st.failures == map[]
    ensures var failures, classes := StateAfter(lib, env, cr, ins, st).failures, Classes(lib, env, cr, ins, st);
      && failures.Keys <= ALL_CLASSES && |failures| <= 7 < MAX_CLASSES
      && failures.Keys == (set c | c in classes)
      && (forall c :: c in failures ==> failures[c] == CountOf(classes, c))
      && Total(failures) == |classes|
  {
    var failures, classes := StateAfter(lib, env, cr, ins, st).failures, Classes(lib, env, cr, ins, st);
    AtMostSeven();
    FailuresFollowClasses(lib, env, cr, ins, st);
    WithinCap(classes, ALL_CLASSES);
    FailuresAddUp(classes);
    SubsetIsSmaller(failures.Keys, ALL_CLASSES);
  }

  // ---- the two kinds of counter agree -----------------------------------------------------------

  function CountMalformed(ins: seq<Incoming>): nat {
    if ins == [] then 0 else CountMalformed(Init(ins)) + if Last(ins).Malformed? then 1 else 0
  }

  /** What instrument records for a run whose requests took the given times. */
  ghost function ObservationsOf(lib: Library, env: LookupEnv, cr: ConfigResolver, ins: seq<Incoming>,
                                seconds: seq<real>, st: HandlerState): seq<Observation>
    requires Valid(cr) && |seconds| == |ins|
  {
    if ins == [] then []
    else ObservationsOf(lib, env, cr, Init(ins), Init(seconds), st)
         + [Observation("/resolve", StatusOf(LastReply(lib, env, cr, ins, st)), Last(seconds))]
  }

  lemma {:induction false} RefusalsObserved(lib: Library, env: LookupEnv, cr: ConfigResolver, ins: seq<Incoming>,
                                            seconds: seq<real>, st: HandlerState)
    requires Valid(cr) && |seconds| == |ins|
    ensures var seen := ObservationsOf(lib, env, cr, ins, seconds, st);
      SeenWith(seen, "/resolve", 400) + SeenWith(seen, "/resolve", 422)
        == |Classes(lib, env, cr, ins, st)| + CountMalformed(ins)
  {
    if ins != [] {
      RefusalsObserved(lib, env, cr, Init(ins), Init(seconds), st);
      OneRequest(lib, env, cr, Last(ins), StateAfter(lib, env, cr, Init(ins), st));
      var seen := ObservationsOf(lib, env, cr, ins, seconds, st);
      assert Init(seen) == ObservationsOf(lib, env, cr, Init(ins), Init(seconds), st);
    }
  }

  /** What Serve leaves after a run, from a server that has just started. */
  ghost function ServedAll(lib: Library, env: LookupEnv, cr: ConfigResolver, ins: seq<Incoming>, seconds: seq<real>,
                           lookup: LookupState): (st: ServerState)
    requires Valid(cr) && |seconds| == |ins|
    ensures FullSlices(st.seen.bucketCounts)
  {
    if ins == [] then ServerState(HandlerState(lookup, map[]), AfterObservations([]))
    else
      var before := ServedAll(lib, env, cr, Init(ins), Init(seconds), lookup);
      ServeOf(lib, env, cr, Last(ins), Last(seconds), before).1
  }

  /** The two halves of that state, each on its own. */
  lemma {:induction false} ServedHalves(lib: Library, env: LookupEnv, cr: ConfigResolver, ins: seq<Incoming>,
                                        seconds: seq<real>, lookup: LookupState)
    requires Valid(cr) && |seconds| == |ins|
    ensures var start, st := HandlerState(lookup, map[]), ServedAll(lib, env, cr, ins, seconds, lookup);
      && st.handler == StateAfter(lib, env, cr, ins, start)
      && st.seen == AfterObservations(ObservationsOf(lib, env, cr, ins, seconds, start))
  {
    if ins != [] {
      ServedHalves(lib, env, cr, Init(ins), Init(seconds), lookup);
      var seen := ObservationsOf(lib, env, cr, ins, seconds, HandlerState(lookup, map[]));
      assert Init(seen) == ObservationsOf(lib, env, cr, Init(ins), Init(seconds), HandlerState(lookup, map[]));
    }
  }

  /**
   * Conservation between the two counters a run leaves: the 400 and 422 series of the route add up to
   * the failures counted, over all classes, plus the malformed envelopes.
   */
  lemma FailuresAreTheRefusals(lib: Library, env: LookupEnv, cr: ConfigResolver, ins: seq<Incoming>,
                               seconds: seq<real>, lookup: LookupState)
    requires Valid(cr) && |seconds| == |ins|
    ensures var st := ServedAll(lib, env, cr, ins, seconds, lookup);
      Get(st.seen.requests, ("/resolve", 400)) + Get(st.seen.requests, ("/resolve", 422))
        == Total(st.handler.failures) + CountMalformed(ins)
  {
    var start := HandlerState(lookup, map[]);
    var seen := ObservationsOf(lib, env, cr, ins, seconds, start);
    ServedHalves(lib, env, cr, ins, seconds, lookup);
    RefusalsObserved(lib, env, cr, ins, seconds, start);
    StatusesAreExact(seen, "/resolve", 400);
    StatusesAreExact(seen, "/resolve", 422);
    CapIsNeverReached(lib, env, cr, ins, start);
  }
}

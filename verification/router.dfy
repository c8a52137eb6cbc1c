/**
 * The `Router`: a table of compiled routes per HTTP verb, the per-client
 * rate limiter, `request_response` (route lookup, the size checks of
 * `put`/`post` routes, the user callback) and `dispatch`.
 *
 * The user callback is the parameter `call`; what it does is opaque, only
 * its outcome matters: a Response, None, another value or an exception.
 * The clock reading the rate limiter needs is the parameter `ms`.
 */
module Routing {
  import opened Wrappers
  import opened Text
  import opened Patterns
  import opened Matcher
  import Resources
  import Headers
  import opened Cache
  import opened Limiter

  type Route = Resources.Route

  /** The verbs `route_table` has a list for. */
  const Verbs: set<string> := {"DELETE", "GET", "POST", "PUT"}

  /** `RateLimiter(5, 60*1000, 1024)` */
  const Limit: int := 5
  const IntervalMs: nat := 60000
  const Capacity: int := 1024

  /** A `route_table` entry: `(regex, tokens, route)`. */
  datatype Entry = Entry(compiled: Compiled, route: Route)

  /** A route `registerRoutes` accepts: its pattern compiles and its verb has a table. */
  predicate Registrable(route: Route) {
    Compile(route.pattern).Success? && route.verb in Verbs
  }

  predicate AllRegistrable(routes: seq<Route>) {
    forall i :: 0 <= i < |routes| ==> Registrable(routes[i])
  }

  /** The segments a registrable route matches with. */
  function SegsOf(route: Route): seq<Seg>
    requires Compile(route.pattern).Success?
  {
    Compile(route.pattern).value
  }

  function EntryOf(route: Route): Entry
    requires Compile(route.pattern).Success?
  {
    var segs := SegsOf(route);
    Entry(Compiled(RegexSource(segs), segs, Tokens(segs)), route)
  }

  /** The entries of the routes with verb `verb`, in registration order. */
  function Entries(routes: seq<Route>, verb: string): seq<Entry>
    requires AllRegistrable(routes)
    decreases |routes|
  {
    if routes == [] then []
    else (if routes[0].verb == verb then [EntryOf(routes[0])] else []) + Entries(routes[1..], verb)
  }

  /** `table` is the `route_table` after registering `routes` in order: one list per verb, in registration order. */
  ghost predicate IsTableOf(table: map<string, seq<Entry>>, routes: seq<Route>)
    requires AllRegistrable(routes)
  {
    && (forall v :: v in table <==> v in Verbs)
    && (forall v :: v in table ==> table[v] == Entries(routes, v))
  }

  lemma {:induction false} EntriesAppend(routes: seq<Route>, route: Route, verb: string)
    requires AllRegistrable(routes) && Registrable(route)
    ensures AllRegistrable(routes + [route])
    ensures Entries(routes + [route], verb) == Entries(routes, verb) + (if route.verb == verb then [EntryOf(route)] else [])
    decreases |routes|
  {
    AppendRegistrable(routes, route);
    if routes == [] {
      assert routes + [route] == [route];
      assert [route][1..] == [];
    } else {
      var all := routes + [route];
      assert all[0] == routes[0];
      assert all[1..] == routes[1..] + [route];
      TailRegistrable(routes);
      EntriesAppend(routes[1..], route, verb);
    }
  }

  lemma AppendRegistrable(routes: seq<Route>, route: Route)
    requires AllRegistrable(routes) && Registrable(route)
    ensures AllRegistrable(routes + [route])
  {
    forall i | 0 <= i < |routes| + 1 ensures Registrable((routes + [route])[i]) {
      if i < |routes| {
        assert (routes + [route])[i] == routes[i];
      }
    }
  }

  // ---------------------------------------------------------------- registration

  /** The two `ValueError`s `registerRoutes` raises. */
  datatype RouterError = BadPattern(e: PatternError) | UnsupportedMethod(verb: string)

  /** Why a route is refused: the pattern is compiled first, the verb checked after. */
  function ErrorOf(route: Route): RouterError
    requires !Registrable(route)
  {
    if Compile(route.pattern).Failure? then BadPattern(InvalidPattern(route.pattern))
    else UnsupportedMethod(route.verb)
  }

  /** How many routes at the front of `routes` are registered before one is refused. */
  function AcceptedPrefix(routes: seq<Route>): (k: nat)
    ensures k <= |routes| && AllRegistrable(routes[..k])
    ensures k < |routes| ==> !Registrable(routes[k])
    decreases |routes|
  {
    if routes == [] || !Registrable(routes[0]) then 0
    else
      var k := 1 + AcceptedPrefix(routes[1..]);
      assert forall i :: 1 <= i < k ==> routes[..k][i] == routes[1..][..k - 1][i - 1];
      k
  }

  /** The first `k` routes are accepted and the next one is not: `k` is the accepted prefix. */
  lemma {:induction false} AcceptedPrefixAt(routes: seq<Route>, k: nat)
    requires k <= |routes| && AllRegistrable(routes[..k])
    requires k < |routes| ==> !Registrable(routes[k])
    ensures AcceptedPrefix(routes) == k
    decreases |routes|
  {
    if k > 0 {
      PrefixTail(routes, k);
      assert k - 1 < |routes[1..]| ==> routes[1..][k - 1] == routes[k];
      AcceptedPrefixAt(routes[1..], k - 1);
    }
  }

  /** A non-empty registrable prefix starts with a registrable route and continues in the tail. */
  lemma PrefixTail(routes: seq<Route>, k: nat)
    requires 0 < k <= |routes| && AllRegistrable(routes[..k])
    ensures Registrable(routes[0]) && AllRegistrable(routes[1..][..k - 1])
  {
    assert routes[..k][0] == routes[0];
    var tail := routes[1..][..k - 1];
    forall j | 0 <= j < |tail| ensures Registrable(tail[j]) {
      assert tail[j] == routes[..k][j + 1];
    }
  }

  /** Appending one entry to its verb's list gives the table of the longer route list. */
  lemma RegisterStep(routes: seq<Route>, table: map<string, seq<Entry>>, route: Route, compiled: Compiled)
    requires AllRegistrable(routes) && IsTableOf(table, routes) && Registrable(route)
    requires compiled == EntryOf(route).compiled
    ensures AllRegistrable(routes + [route])
    ensures IsTableOf(table[route.verb := table[route.verb] + [Entry(compiled, route)]], routes + [route])
  {
    EntriesAppend(routes, route, route.verb);
    forall v | v in table ensures Entries(routes + [route], v) == Entries(routes, v) + (if route.verb == v then [EntryOf(route)] else []) {
      EntriesAppend(routes, route, v);
    }
  }

  /** One more route accepted: the accepted prefix and the route list both grow by it. */
  lemma AcceptOne(before: seq<Route>, routes: seq<Route>, i: nat)
    requires i < |routes| && AllRegistrable(routes[..i]) && Registrable(routes[i])
    ensures AllRegistrable(routes[..i + 1])
    ensures before + routes[..i] + [routes[i]] == before + routes[..i + 1]
  {
    assert routes[..i + 1] == routes[..i] + [routes[i]];
  }

  // ---------------------------------------------------------------- lookup

  type Captures = map<string, Capture>

  /** The first entry whose expression matches `path`, with its groups keyed by token. */
  function FirstMatch(entries: seq<Entry>, path: string): Option<(Route, Captures)>
    decreases |entries|
  {
    if entries == [] then None
    else match MatchFrom(entries[0].compiled.segs, path)
      case Some(groups) => Some((entries[0].route, ZipDict(entries[0].compiled.tokens, groups)))
      case None => FirstMatch(entries[1..], path)
  }

  /** `getRoute(method, path)` on the table of `routes`. */
  function Lookup(routes: seq<Route>, verb: string, path: string): Option<(Route, Captures)>
    requires AllRegistrable(routes)
  {
    if verb !in Verbs then None else FirstMatch(Entries(routes, verb), path)
  }

  /** `routes[i]` has verb `verb`, matches `path`, and no earlier route with that verb does. */
  ghost predicate EarliestMatch(routes: seq<Route>, verb: string, path: string, i: nat)
    requires AllRegistrable(routes)
  {
    && i < |routes| && routes[i].verb == verb && MatchFrom(SegsOf(routes[i]), path).Some?
    && forall j :: 0 <= j < i && routes[j].verb == verb ==> MatchFrom(SegsOf(routes[j]), path).None?
  }

  /** No route with verb `verb` matches `path`. */
  ghost predicate NoMatch(routes: seq<Route>, verb: string, path: string)
    requires AllRegistrable(routes)
  {
    forall j :: 0 <= j < |routes| && routes[j].verb == verb ==> MatchFrom(SegsOf(routes[j]), path).None?
  }

  /**
   * `getRoute` finds the earliest registered route with the request's verb
   * whose expression matches the path, and keys its groups by token name;
   * it finds nothing for a verb outside the table or when no route matches.
   */
  ghost predicate LookupFinds(routes: seq<Route>, verb: string, path: string, i: nat)
    requires AllRegistrable(routes)
  {
    && (Lookup(routes, verb, path).None? <==> verb !in Verbs || NoMatch(routes, verb, path))
    && (Lookup(routes, verb, path).Some? ==>
         && verb in Verbs && EarliestMatch(routes, verb, path, i)
         && var segs := SegsOf(routes[i]);
         Lookup(routes, verb, path).value == (routes[i], ZipDict(Tokens(segs), MatchFrom(segs, path).value)))
  }

  lemma {:induction false} LookupEarliest(routes: seq<Route>, verb: string, path: string) returns (i: nat)
    requires AllRegistrable(routes)
    ensures LookupFinds(routes, verb, path, i)
    decreases |routes|, 1
  {
    if routes == [] || verb !in Verbs {
      NothingFound(routes, verb, path);
      i := 0;
    } else if routes[0].verb == verb && MatchFrom(SegsOf(routes[0]), path).Some? {
      HeadFound(routes, verb, path);
      i := 0;
    } else {
      i := LookupPastHead(routes, verb, path);
    }
  }

  /** The earliest match when the first route does not count is the tail's, one place later. */
  lemma {:induction false} LookupPastHead(routes: seq<Route>, verb: string, path: string) returns (i: nat)
    requires AllRegistrable(routes) && routes != [] && verb in Verbs
    requires !(routes[0].verb == verb && MatchFrom(SegsOf(routes[0]), path).Some?)
    ensures LookupFinds(routes, verb, path, i)
    decreases |routes|, 0
  {
    TailRegistrable(routes);
    var i' := LookupEarliest(routes[1..], verb, path);
    i := i' + 1;
    ShiftFinds(routes, verb, path, i');
  }

  /** No routes, or a verb outside the table: nothing is found. */
  lemma NothingFound(routes: seq<Route>, verb: string, path: string)
    requires AllRegistrable(routes) && (routes == [] || verb !in Verbs)
    ensures LookupFinds(routes, verb, path, 0)
  {
  }

  /** What is found past a first route that does not count is found one place later. */
  lemma ShiftFinds(routes: seq<Route>, verb: string, path: string, i': nat)
    requires AllRegistrable(routes) && routes != [] && verb in Verbs
    requires !(routes[0].verb == verb && MatchFrom(SegsOf(routes[0]), path).Some?)
    requires AllRegistrable(routes[1..]) && LookupFinds(routes[1..], verb, path, i')
    ensures LookupFinds(routes, verb, path, i' + 1)
  {
    SkipHead(routes, verb, path);
    ShiftMatches(routes, verb, path, i');
  }

  /** The routes after the first are registrable too. */
  lemma TailRegistrable(routes: seq<Route>)
    requires AllRegistrable(routes) && routes != []
    ensures AllRegistrable(routes[1..])
  {
    forall j | 0 <= j < |routes| - 1 ensures Registrable(routes[1..][j]) {
      assert routes[1..][j] == routes[j + 1];
    }
  }

  /** A first route with the verb that matches is the one found. */
  lemma HeadFound(routes: seq<Route>, verb: string, path: string)
    requires AllRegistrable(routes) && routes != [] && verb in Verbs
    requires routes[0].verb == verb && MatchFrom(SegsOf(routes[0]), path).Some?
    ensures Lookup(routes, verb, path)
      == Some((routes[0], ZipDict(Tokens(SegsOf(routes[0])), MatchFrom(SegsOf(routes[0]), path).value)))
    ensures LookupFinds(routes, verb, path, 0)
  {
    TailRegistrable(routes);
    assert Entries(routes, verb) == [EntryOf(routes[0])] + Entries(routes[1..], verb);
  }

  /** A first route with another verb, or one that does not match, is passed over. */
  lemma SkipHead(routes: seq<Route>, verb: string, path: string)
    requires AllRegistrable(routes) && routes != [] && verb in Verbs
    requires !(routes[0].verb == verb && MatchFrom(SegsOf(routes[0]), path).Some?)
    ensures AllRegistrable(routes[1..]) && Lookup(routes, verb, path) == Lookup(routes[1..], verb, path)
  {
    TailRegistrable(routes);
    var rest := Entries(routes[1..], verb);
    if routes[0].verb == verb {
      var entries := [EntryOf(routes[0])] + rest;
      assert Entries(routes, verb) == entries;
      assert entries[0].compiled.segs == SegsOf(routes[0]);
      assert entries[1..] == rest;
    } else {
      assert Entries(routes, verb) == rest;
    }
  }

  /** Past a first route that does not count, matches in the tail shift by one place. */
  lemma ShiftMatches(routes: seq<Route>, verb: string, path: string, i': nat)
    requires AllRegistrable(routes) && routes != []
    requires !(routes[0].verb == verb && MatchFrom(SegsOf(routes[0]), path).Some?)
    ensures AllRegistrable(routes[1..])
    ensures NoMatch(routes, verb, path) <==> NoMatch(routes[1..], verb, path)
    ensures EarliestMatch(routes[1..], verb, path, i') ==> EarliestMatch(routes, verb, path, i' + 1)
  {
    TailRegistrable(routes);
    var rest := routes[1..];
    forall j | 0 < j < |routes| ensures routes[j] == rest[j - 1] {
    }
  }

  // ---------------------------------------------------------------- request_response

  /** A response's payload: the `{'error': ...}` JSON of the router's own answers, or the handler's. */
  datatype Payload = ErrorJson(error: string) | Content(body: Bytes)

  datatype Response = Response(statusCode: int, payload: Payload)

  /** `JsonResponse({'error': message}, code)` */
  function ErrorResponse(code: int, message: string): Response {
    Response(code, ErrorJson(message))
  }

  /**
   * The request's header dictionary: the server builds a
   * `CaseInsensitiveDict`, the test client a plain dict (whose value lists
   * may hold None).
   */
  datatype HeaderDict = PlainDict(entries: map<Bytes, seq<Option<Bytes>>>) | FoldedDict(entries: map<Bytes, seq<Option<Bytes>>>) {
    function Get(key: Bytes): Option<seq<Option<Bytes>>> {
      match this
      case PlainDict(m) => if key in m then Some(m[key]) else None
      case FoldedDict(m) => Headers.Lookup(m, key)
    }
  }

  datatype Request = Request(clientHost: string, verb: string, path: string, headers: HeaderDict)

  /** What the user callback did. */
  datatype Outcome = Returned(response: Response) | ReturnedNone | ReturnedOther | Raised

  /** The exceptions that leave `dispatch`. */
  datatype DispatchError = TypeError | LimiterFailed(e: LimiterError)

  /** `b'Content-Length'` */
  const ContentLengthKey: Bytes := [67, 111, 110, 116, 101, 110, 116, 45, 76, 101, 110, 103, 116, 104]

  /**
   * `int(headers[b'Content-Length'][0])`, with 0 for a negative number and
   * for every exception (an empty list, None, bytes that are not a number).
   */
  function DeclaredLength(values: seq<Option<Bytes>>): (n: nat) {
    if values == [] || values[0].None? then 0
    else match ParseInt(Latin1(values[0].value))
      case None => 0
      case Some(v) => if v < 0 then 0 else v
  }

  /** `route.options.get('max_content_length', None)` */
  function MaxContent(route: Route): Option<int> {
    if Resources.MaxContentKey in route.options then route.options[Resources.MaxContentKey] else None
  }

  /** The error response the size checks choose before the callback, if any. */
  function SizeCheck(route: Route, headers: HeaderDict): Option<Response> {
    match MaxContent(route)
    case None => None
    case Some(max) =>
      var values := headers.Get(ContentLengthKey);
      var length := if values.None? then 0 else DeclaredLength(values.value);
      if length > max then Some(ErrorResponse(413, "Payload too large"))
      else if values.None? then Some(ErrorResponse(411, "Content-Length not specified"))
      else None
  }

  /** `request_response(router, request)` given what `getRoute` found. */
  function RequestResponse(found: Option<(Route, Captures)>, req: Request,
                           call: (Route, Request, Captures) -> Outcome): (r: Result<Response, DispatchError>)
    ensures r.Failure? <==>
      found.Some? && SizeCheck(found.value.0, req.headers).None? && call(found.value.0, req, found.value.1).ReturnedOther?
    ensures r.Success? && r.value.statusCode !in {404, 411, 413, 500} ==>
      && found.Some?
      && SizeCheck(found.value.0, req.headers).None?
      && call(found.value.0, req, found.value.1) == Returned(r.value)
  {
    match found
    case None => Success(ErrorResponse(404, "path not found"))
    case Some((route, matches)) =>
      match SizeCheck(route, req.headers)
      case Some(refusal) => Success(refusal)
      case None =>
        match call(route, req, matches)
        case Returned(response) => Success(response)
        case ReturnedNone => Success(ErrorResponse(500, "route failed to return a response"))
        case Raised => Success(ErrorResponse(500, "route failed to return a response"))
        case ReturnedOther => Failure(TypeError)
  }

  /** No route: 404, and the callback is not consulted. */
  lemma NotFound(req: Request, call: (Route, Request, Captures) -> Outcome)
    ensures RequestResponse(None, req, call) == Success(ErrorResponse(404, "path not found"))
  {
  }

  /**
   * On a route with a size limit: a missing Content-Length gives 411 (or
   * 413 when the limit is negative), a declared length above the limit
   * gives 413, and one at or below it lets the callback run.
   */
  lemma SizeLimits(route: Route, matches: Captures, req: Request, call: (Route, Request, Captures) -> Outcome, max: int)
    requires MaxContent(route) == Some(max)
    ensures var r := RequestResponse(Some((route, matches)), req, call);
      var values := req.headers.Get(ContentLengthKey);
      && (values.None? && max >= 0 ==> r == Success(ErrorResponse(411, "Content-Length not specified")))
      && (values.None? && max < 0 ==> r == Success(ErrorResponse(413, "Payload too large")))
      && (values.Some? && DeclaredLength(values.value) > max ==> r == Success(ErrorResponse(413, "Payload too large")))
      && (values.Some? && DeclaredLength(values.value) <= max ==> r == RequestResponse(Some((route, matches)), req, call))
      && (values.Some? && DeclaredLength(values.value) <= max ==> SizeCheck(route, req.headers).None?)
  {
  }

  /** A route without a size limit goes straight to the callback. */
  lemma NoSizeLimit(route: Route, headers: HeaderDict)
    requires MaxContent(route).None?
    ensures SizeCheck(route, headers).None?
  {
  }

  /** The callback runs only when no error has been chosen: otherwise the answer does not depend on it. */
  lemma CallbackOnlyWhenValid(found: Option<(Route, Captures)>, req: Request,
                              call1: (Route, Request, Captures) -> Outcome, call2: (Route, Request, Captures) -> Outcome)
    requires found.None? || SizeCheck(found.value.0, req.headers).Some?
    ensures RequestResponse(found, req, call1) == RequestResponse(found, req, call2)
  {
  }

  /** Once the checks pass, an exception or None gives 500, and anything but a Response raises TypeError. */
  lemma CallbackOutcomes(route: Route, matches: Captures, req: Request, call: (Route, Request, Captures) -> Outcome)
    requires SizeCheck(route, req.headers).None?
    ensures var r := RequestResponse(Some((route, matches)), req, call);
      match call(route, req, matches)
      case Returned(response) => r == Success(response)
      case ReturnedNone => r == Success(ErrorResponse(500, "route failed to return a response"))
      case Raised => r == Success(ErrorResponse(500, "route failed to return a response"))
      case ReturnedOther => r == Failure(TypeError)
  {
  }

  /** A Content-Length written in decimal is read back, negatives as 0. */
  lemma {:induction false} DeclaredLengthOfDecimal(n: int)
    ensures DeclaredLength([Some(Utf8(IntToDecimal(n)))]) == if n < 0 then 0 else n
  {
    var s := IntToDecimal(n);
    assert forall i :: 0 <= i < |s| ==> s[i] < 0x80 as char by {
      var d := NatToDecimal(if n < 0 then -n else n);
      assert forall i :: 0 <= i < |d| ==> IsDigit(d[i]);
    }
    Utf8Ascii(s);
    assert Latin1(Utf8(s)) == s;
    ParseIntOfDecimal(n);
  }

  // ---------------------------------------------------------------- dispatch

  /** `dispatch(request)` up to `_get_payload`: the limiter first, then `request_response`. */
  function DispatchSpec(limits: CacheState<string, SlotView>, routes: seq<Route>, req: Request, ms: nat,
                        call: (Route, Request, Captures) -> Outcome)
    : (Result<Response, DispatchError>, CacheState<string, SlotView>)
    requires AllRegistrable(routes)
  {
    var (verdict, limits') := InsertSpec(limits, req.clientHost, ms, Limit, IntervalMs);
    match verdict
    case Failure(e) => (Failure(LimiterFailed(e)), limits')
    case Success(true) => (Success(ErrorResponse(429, "Too Many Requests")), limits')
    case Success(false) => (RequestResponse(Lookup(routes, req.verb, req.path), req, call), limits')
  }

  /** A blocked client gets 429 whatever the routes and the callback. */
  lemma TooManyFirst(limits: CacheState<string, SlotView>, routes: seq<Route>, req: Request, ms: nat,
                     call: (Route, Request, Captures) -> Outcome)
    requires AllRegistrable(routes)
    requires InsertSpec(limits, req.clientHost, ms, Limit, IntervalMs).0 == Success(true)
    ensures DispatchSpec(limits, routes, req, ms, call).0 == Success(ErrorResponse(429, "Too Many Requests"))
    ensures DispatchSpec(limits, routes, req, ms, call) == DispatchSpec(limits, [], req, ms, call)
  {
  }

  /** The router's limiter starts with no counter. */
  lemma InitialStuck()
    ensures Coherent(Initial(Capacity)) && Stuck(Initial(Capacity))
  {
    assert Distinct(Initial(Capacity).keys);
  }

  /**
   * While the clock is past the fifth window of 15 seconds, a limiter
   * whose counters never left index 0 blocks nobody: every counter is
   * reset to `[1]` on each request, so `dispatch` answers with
   * `request_response` (or raises AttributeError for the client
   * "capacity"), and the counters stay at index 0.
   */
  lemma NeverTooMany(limits: CacheState<string, SlotView>, routes: seq<Route>, req: Request, ms: nat,
                     call: (Route, Request, Captures) -> Outcome)
    requires AllRegistrable(routes) && Coherent(limits) && Stuck(limits) && ms >= 75000
    ensures var r := DispatchSpec(limits, routes, req, ms, call).0;
      r == RequestResponse(Lookup(routes, req.verb, req.path), req, call) || r == Failure(LimiterFailed(AttributeError))
    ensures Stuck(DispatchSpec(limits, routes, req, ms, call).1) && Coherent(DispatchSpec(limits, routes, req, ms, call).1)
  {
    assert ms / (IntervalMs / Bins) > Bins;
    NeverBlocksPastFourthWindow(limits, req.clientHost, ms, Limit, IntervalMs);
    InsertKeepsCoherent(limits, req.clientHost, ms, Limit, IntervalMs);
  }

  // ---------------------------------------------------------------- the object

  class Router {
    /** `route_table` */
    var table: map<string, seq<Entry>>
    /** `routes` */
    var routes: seq<Route>
    const limiter: RateLimiter

    ghost predicate TableOk()
      reads this
    {
      AllRegistrable(routes) && IsTableOf(table, routes)
    }

    ghost predicate Valid()
      reads this, limiter, limiter.Repr
    {
      && TableOk()
      && limiter.Valid() && this !in limiter.Repr
      && limiter.limit == Limit && limiter.intervalMs == IntervalMs
    }

    /** `Router()`: empty tables and a `RateLimiter(5, 60*1000, 1024)`. */
    constructor ()
      ensures Valid() && routes == [] && fresh(limiter) && fresh(limiter.Repr)
      ensures limiter.View() == Initial(Capacity)
    {
      table := map v | v in Verbs :: [];
      routes := [];
      limiter := new RateLimiter(Limit, IntervalMs, Capacity);
    }

    /**
     * One turn of `registerRoutes`'s loop: the pattern is compiled, the verb
     * checked, and the entry appended to its verb's list and the route to
     * `routes`; a refused route changes nothing.
     */
    method RegisterRoute(route: Route) returns (r: Result<(), RouterError>)
      requires TableOk()
      modifies this
      ensures TableOk()
      ensures r.Success? <==> Registrable(route)
      ensures r.Success? ==> routes == old(routes) + [route]
      ensures r.Failure? ==> routes == old(routes) && r.error == ErrorOf(route)
    {
      var compiled := PatternToRegex(route.pattern);
      if compiled.Failure? {
        return Failure(BadPattern(compiled.error));
      }
      if route.verb !in table {
        return Failure(UnsupportedMethod(route.verb));
      }
      RegisterStep(routes, table, route, compiled.value);
      table := table[route.verb := table[route.verb] + [Entry(compiled.value, route)]];
      routes := routes + [route];
      return Success(());
    }

    /**
     * `registerRoutes(routes)`: the routes are registered in order until
     * one is refused; the ones before it stay registered. Only the tables
     * change, so the rate limiter, which the router does not own a part of,
     * stays valid.
     */
    method RegisterRoutes(newRoutes: seq<Route>) returns (r: Result<(), RouterError>)
      requires TableOk()
      modifies this
      ensures TableOk()
      ensures var k := AcceptedPrefix(newRoutes);
        && routes == old(routes) + newRoutes[..k]
        && (r.Success? <==> k == |newRoutes|)
        && (r.Failure? ==> r.error == ErrorOf(newRoutes[k]))
    {
      var i := 0;
      while i < |newRoutes|
        invariant 0 <= i <= |newRoutes|
        invariant AllRegistrable(newRoutes[..i])
        invariant routes == old(routes) + newRoutes[..i]
        invariant TableOk()
      {
        var one := RegisterRoute(newRoutes[i]);
        if one.Failure? {
          AcceptedPrefixAt(newRoutes, i);
          return one;
        }
        AcceptOne(old(routes), newRoutes, i);
        i := i + 1;
      }
      assert newRoutes[..i] == newRoutes;
      AcceptedPrefixAt(newRoutes, i);
      return Success(());
    }

    /** `getRoute(method, path)` */
    function GetRoute(verb: string, path: string): (r: Option<(Route, Captures)>)
      requires TableOk()
      reads this
      ensures r == Lookup(routes, verb, path)
    {
      if verb !in table then None else FirstMatch(table[verb], path)
    }

    /** `dispatch(request)` at clock reading `ms`. */
    method Dispatch(req: Request, ms: nat, call: (Route, Request, Captures) -> Outcome)
      returns (r: Result<Response, DispatchError>)
      requires Valid()
      modifies limiter, limiter.Repr
      ensures Valid() && fresh(limiter.Repr - old(limiter.Repr))
      ensures (r, limiter.View()) == DispatchSpec(old(limiter.View()), routes, req, ms, call)
    {
      var verdict := limiter.Insert(req.clientHost, ms);
      match verdict
      case Failure(e) =>
        r := Failure(LimiterFailed(e));
      case Success(blocked) =>
        if blocked {
          r := Success(ErrorResponse(429, "Too Many Requests"));
        } else {
          r := RequestResponse(GetRoute(req.verb, req.path), req, call);
        }
    }
  }
}

/**
 * Declaring routes: the `get`/`put`/`post`/`delete`/`header`/`param`/
 * `ratelimit` decorators record their arguments on the handler function,
 * `OrderedPropertyMap` records the order in which a class body defines its
 * members, and `Resource()` turns the decorated members into `Route`s in
 * that order.
 *
 * A handler function is the value `Handler`; the attributes the decorators
 * set are its fields, with None for an attribute that was never set.
 */
module Resources {
  import opened Wrappers
  import opened Text

  /** Default `max_content_length` of `put` and `post`: 5 MiB. */
  const MaxContentDefault: int := 5 * 1024 * 1024

  const MaxContentKey := "max_content_length"

  /** `_route` and `_methods[0]`: every verb decorator sets both, with a one-element list. */
  datatype Endpoint = Endpoint(path: string, verb: string)

  type Options = map<string, Option<int>>

  /** A function object and the attributes the decorators may have put on it. */
  datatype Handler = Handler(
    funcName: string,
    endpoint: Option<Endpoint>,
    options: Option<Options>,
    ratelimit: Option<(int, string)>,
    headers: Option<seq<string>>,
    params: Option<seq<string>>)

  /** A plain, undecorated function. */
  function Plain(funcName: string): Handler {
    Handler(funcName, None, None, None, None, None)
  }

  // ---------------------------------------------------------------- the decorators

  /** `@get(path)` */
  function Get(path: string, f: Handler): (g: Handler)
    ensures g.endpoint == Some(Endpoint(path, "GET"))
    ensures g.(endpoint := f.endpoint) == f
  {
    f.(endpoint := Some(Endpoint(path, "GET")))
  }

  /** `@delete(path)` */
  function Delete(path: string, f: Handler): (g: Handler)
    ensures g.endpoint == Some(Endpoint(path, "DELETE"))
    ensures g.(endpoint := f.endpoint) == f
  {
    f.(endpoint := Some(Endpoint(path, "DELETE")))
  }

  /** `@put(path, max_content_length)`; `max_content_length` None is Python's None. */
  function Put(path: string, maxContentLength: Option<int>, f: Handler): (g: Handler)
    ensures g.endpoint == Some(Endpoint(path, "PUT"))
    ensures g.options == Some(map[MaxContentKey := maxContentLength])
    ensures g.(endpoint := f.endpoint, options := f.options) == f
  {
    f.(endpoint := Some(Endpoint(path, "PUT")), options := Some(map[MaxContentKey := maxContentLength]))
  }

  /** `@post(path, max_content_length)` */
  function Post(path: string, maxContentLength: Option<int>, f: Handler): (g: Handler)
    ensures g.endpoint == Some(Endpoint(path, "POST"))
    ensures g.options == Some(map[MaxContentKey := maxContentLength])
    ensures g.(endpoint := f.endpoint, options := f.options) == f
  {
    f.(endpoint := Some(Endpoint(path, "POST")), options := Some(map[MaxContentKey := maxContentLength]))
  }

  /** `@header(name)`: appended to `_header`, created empty the first time. */
  function Header(name: string, f: Handler): (g: Handler)
    ensures g.headers.Some? && |g.headers.value| >= 1 && g.headers.value[|g.headers.value| - 1] == name
    ensures g.headers.value == f.headers.GetOr([]) + [name]
    ensures g.(headers := f.headers) == f
  {
    f.(headers := Some(f.headers.GetOr([]) + [name]))
  }

  /** `@param(name)` */
  function Param(name: string, f: Handler): (g: Handler)
    ensures g.params.Some? && |g.params.value| >= 1 && g.params.value[|g.params.value| - 1] == name
    ensures g.params.value == f.params.GetOr([]) + [name]
    ensures g.(params := f.params) == f
  {
    f.(params := Some(f.params.GetOr([]) + [name]))
  }

  // ---------------------------------------------------------------- ratelimit("count/unit")

  /** The `ValueError` `ratelimit` raises, and the one `int()` raises. */
  datatype RateError = BadRate(rate: string)

  const Units: seq<string> := ["second", "minute", "hour", "day"]

  /** The parse `ratelimit(rate)` does before it returns its decorator. */
  function ParseRate(rate: string): (r: Result<(int, string), RateError>)
    ensures r.Success? ==> r.value.1 in Units
    ensures r.Success? ==> exists count :: rate == count + "/" + r.value.1 && ParseInt(count) == Some(r.value.0)
  {
    JoinSplit(rate, '/');
    var parts := Split(rate, '/');
    if |parts| != 2 then Failure(BadRate(rate))
    else if parts[1] !in Units then Failure(BadRate(rate))
    else match ParseInt(parts[0])
      case None => Failure(BadRate(rate))
      case Some(count) => Success((count, parts[1]))
  }

  /** `@ratelimit(rate)`: the parse, then `_ratelimit = (count, unit)`. */
  function Ratelimit(rate: string, f: Handler): (r: Result<Handler, RateError>)
    ensures r.Success? <==> ParseRate(rate).Success?
    ensures r.Success? ==> r.value == f.(ratelimit := Some(ParseRate(rate).value))
  {
    match ParseRate(rate)
    case Failure(e) => Failure(e)
    case Success(limit) => Success(f.(ratelimit := Some(limit)))
  }

  /** `rate.split("/")` has one piece more than `rate` has slashes. */
  lemma {:induction false} SplitPieces(s: string)
    ensures |Split(s, '/')| == multiset(s)['/'] + 1
    decreases |s|
  {
    if s != [] {
      SplitPieces(s[1..]);
      assert s == [s[0]] + s[1..];
      assert multiset(s) == multiset([s[0]]) + multiset(s[1..]);
    }
  }

  /** A rate with no slash, or with more than one, is refused. */
  lemma SlashCount(rate: string)
    requires multiset(rate)['/'] != 1
    ensures ParseRate(rate).Failure?
  {
    SplitPieces(rate);
  }

  /** A decimal count and a known unit split into exactly those two pieces. */
  lemma RatePieces(count: int, unit: string)
    requires unit in Units
    ensures Split(IntToDecimal(count) + "/" + unit, '/') == [IntToDecimal(count), unit]
  {
    var c := IntToDecimal(count);
    assert '/' !in c by {
      var d := NatToDecimal(if count < 0 then -count else count);
      assert forall i :: 0 <= i < |d| ==> d[i] != '/';
    }
    assert '/' !in unit;
    SplitAfterPiece(c, '/', unit);
    SplitNoSeparator(unit, '/');
  }

  /** A count written in decimal followed by a known unit parses back to itself. */
  lemma ParseRateRoundTrip(count: int, unit: string)
    requires unit in Units
    ensures ParseRate(IntToDecimal(count) + "/" + unit) == Success((count, unit))
  {
    RatePieces(count, unit);
    ParseIntOfDecimal(count);
  }

  // ---------------------------------------------------------------- OrderedPropertyMap

  /** The class-body namespace that remembers the order names were first defined in. */
  class OrderedPropertyMap<V> {
    var entries: map<string, V>
    var memberNames: seq<string>
    /** Every name definedNames so far, in assignment order. */
    ghost var definedNames: seq<string>

    ghost predicate Valid()
      reads this
    {
      memberNames == FirstDefinitions(definedNames) && forall k :: k in entries <==> k in definedNames
    }

    constructor ()
      ensures Valid() && entries == map[] && memberNames == [] && definedNames == []
    {
      entries := map[];
      memberNames := [];
      definedNames := [];
    }

    /** `ns[key] = value`: a new name goes to the end of `member_names`; a redefinition keeps its place. */
    method Set(key: string, value: V)
      requires Valid()
      modifies this
      ensures Valid() && definedNames == old(definedNames) + [key]
      ensures entries == old(entries)[key := value]
      ensures memberNames == if key in old(entries) then old(memberNames) else old(memberNames) + [key]
    {
      FirstDefinitionsListsEach(definedNames);
      assert (definedNames + [key])[..|definedNames|] == definedNames;
      if key !in entries {
        memberNames := memberNames + [key];
      }
      entries := entries[key := value];
      definedNames := definedNames + [key];
    }
  }

  /**
   * The `member_names` a class body produces when it defines `names` in
   * this order: each name at its first definition.
   */
  function FirstDefinitions(names: seq<string>): seq<string>
    decreases |names|
  {
    if names == [] then []
    else
      var init := FirstDefinitions(names[..|names| - 1]);
      var last := names[|names| - 1];
      if last in init then init else init + [last]
  }

  /** Every defined name is listed exactly once. */
  lemma {:induction false} FirstDefinitionsListsEach(names: seq<string>)
    ensures Distinct(FirstDefinitions(names))
    ensures forall k :: k in FirstDefinitions(names) <==> k in names
    decreases |names|
  {
    if names != [] {
      var init := names[..|names| - 1];
      FirstDefinitionsListsEach(init);
      assert names == init + [names[|names| - 1]];
    }
  }

  /** Later definitions only add names at the end. */
  lemma {:induction false} FirstDefinitionsPrefix(names: seq<string>, k: nat)
    requires k <= |names|
    ensures FirstDefinitions(names[..k]) <= FirstDefinitions(names)
    decreases |names| - k
  {
    if k < |names| {
      FirstDefinitionsPrefix(names, k + 1);
      assert names[..k + 1][..k] == names[..k];
    } else {
      assert names[..k] == names;
    }
  }

  /**
   * A name defined before another one that is first defined later is
   * listed before it.
   */
  lemma {:induction false} FirstDefinitionsOrder(names: seq<string>, i: nat, j: nat) returns (p: nat, q: nat)
    requires i < j < |names| && names[j] !in names[..j]
    ensures p < q < |FirstDefinitions(names)|
    ensures FirstDefinitions(names)[p] == names[i] && FirstDefinitions(names)[q] == names[j]
  {
    var before := FirstDefinitions(names[..j]);
    FirstDefinitionsListsEach(names[..j]);
    assert names[i] == names[..j][i];
    assert names[i] in before;
    p :| 0 <= p < |before| && before[p] == names[i];
    assert names[..j + 1][..j] == names[..j];
    assert FirstDefinitions(names[..j + 1]) == before + [names[j]];
    q := |before|;
    FirstDefinitionsPrefix(names, j + 1);
  }

  // ---------------------------------------------------------------- Resource()

  /** `Route(name, method, pattern, callback)` with the `ratelimit` and `options` set after it. */
  datatype Route = Route(
    name: string,
    verb: string,
    pattern: string,
    callback: string,
    ratelimit: (int, string),
    options: Options)

  /** A class member: its name and, when it is a function, the function. */
  datatype Member = Member(name: string, value: Option<Handler>)

  /** The members `Resource()` turns into routes: public, with a `_route`. */
  predicate Routed(m: Member) {
    !(|m.name| > 0 && m.name[0] == '_') && m.value.Some? && m.value.value.endpoint.Some?
  }

  /** `ClassName.replace("Resource", "").lower() + "." + func.__name__` */
  function RouteName(className: string, funcName: string): string {
    Lower(ReplaceAll(className, "Resource", "")) + "." + funcName
  }

  /** `s.replace(pat, rep)` keeps a first character that does not start an occurrence. */
  lemma ReplaceSkips(s: string, pat: string, rep: string)
    requires |pat| > 0 && |s| >= |pat| && s[0] != pat[0]
    ensures ReplaceAll(s, pat, rep) == [s[0]] + ReplaceAll(s[1..], pat, rep)
  {
    assert s[..|pat|][0] != pat[0];
  }

  /** `"UserResource".replace("Resource", "")` */
  lemma DropResource()
    ensures ReplaceAll("UserResource", "Resource", "") == "User"
  {
    var pat := "Resource";
    assert ReplaceAll(pat, pat, "") == "" by {
      assert pat[..|pat|] == pat;
      assert pat[|pat|..] == "";
    }
    var s := "UserResource";
    assert s[4..] == pat;
    ReplaceSkips(s[3..], pat, "");
    assert s[3..][1..] == s[4..];
    ReplaceSkips(s[2..], pat, "");
    assert s[2..][1..] == s[3..];
    ReplaceSkips(s[1..], pat, "");
    assert s[1..][1..] == s[2..];
    ReplaceSkips(s, pat, "");
    assert [s[0]] + ([s[1]] + ([s[2]] + ([s[3]] + ""))) == "User";
  }

  /** The `get` handler of `UserResource` is the route `user.get`. */
  lemma UserRouteName()
    ensures RouteName("UserResource", "get") == "user.get"
  {
    DropResource();
    assert Lower("User") == "user";
  }

  /** The route for one routed member; the callback is the bound method named by the member. */
  function RouteOf(className: string, m: Member): (r: Route)
    requires Routed(m)
    ensures r.verb == m.value.value.endpoint.value.verb
    ensures r.pattern == m.value.value.endpoint.value.path
    ensures m.value.value.ratelimit.None? ==> r.ratelimit == (1, "second")
    ensures m.value.value.options.None? ==> r.options == map[]
    ensures r.name == RouteName(className, m.value.value.funcName)
    ensures r.callback == m.name
    ensures r.ratelimit == m.value.value.ratelimit.GetOr((1, "second"))
    ensures r.options == m.value.value.options.GetOr(map[])
  {
    var f := m.value.value;
    Route(RouteName(className, f.funcName), f.endpoint.value.verb, f.endpoint.value.path, m.name,
      f.ratelimit.GetOr((1, "second")), f.options.GetOr(map[]))
  }

  /** The routes of the routed members, in member order. */
  function RoutesOf(className: string, members: seq<Member>): seq<Route>
    decreases |members|
  {
    if members == [] then []
    else
      var init := RoutesOf(className, members[..|members| - 1]);
      var last := members[|members| - 1];
      if Routed(last) then init + [RouteOf(className, last)] else init
  }

  /** `Resource.__init__`: the loop over `member_names`. */
  method CollectRoutes(className: string, members: seq<Member>) returns (routes: seq<Route>)
    ensures routes == RoutesOf(className, members)
  {
    routes := [];
    var i := 0;
    while i < |members|
      invariant 0 <= i <= |members|
      invariant routes == RoutesOf(className, members[..i])
    {
      assert members[..i + 1][..i] == members[..i];
      var m := members[i];
      if |m.name| > 0 && m.name[0] == '_' {
        i := i + 1;
        continue;
      }
      if m.value.Some? && m.value.value.endpoint.Some? {
        routes := routes + [RouteOf(className, m)];
      }
      i := i + 1;
    }
    assert members[..|members|] == members;
  }

  /** Every route comes from a routed member, and routes keep the members' order. */
  lemma {:induction false} RoutesFromMembers(className: string, members: seq<Member>, j: nat) returns (i: nat)
    requires j < |RoutesOf(className, members)|
    ensures i < |members| && Routed(members[i])
    ensures RoutesOf(className, members)[j] == RouteOf(className, members[i])
    ensures |RoutesOf(className, members[..i])| == j
    decreases |members|
  {
    var init := members[..|members| - 1];
    if j < |RoutesOf(className, init)| {
      i := RoutesFromMembers(className, init, j);
      assert members[..i] == init[..i];
    } else {
      i := |members| - 1;
      assert members[..i] == init;
    }
  }

  /** Every routed member gives a route. */
  lemma {:induction false} MembersGiveRoutes(className: string, members: seq<Member>, i: nat)
    requires i < |members| && Routed(members[i])
    ensures RouteOf(className, members[i]) in RoutesOf(className, members)
    decreases |members|
  {
    var init := members[..|members| - 1];
    if i < |members| - 1 {
      MembersGiveRoutes(className, init, i);
      assert members[i] == init[i];
    }
  }

  /**
   * `put` and `post` handlers carry a size limit, 5 MiB unless given;
   * `get` and `delete` handlers carry no options at all.
   */
  lemma VerbOptions(className: string, name: string, path: string, funcName: string)
    requires |name| == 0 || name[0] != '_'
    ensures RouteOf(className, Member(name, Some(Put(path, Some(MaxContentDefault), Plain(funcName))))).options
      == map[MaxContentKey := Some(5242880)]
    ensures RouteOf(className, Member(name, Some(Post(path, Some(MaxContentDefault), Plain(funcName))))).options
      == map[MaxContentKey := Some(5242880)]
    ensures RouteOf(className, Member(name, Some(Get(path, Plain(funcName))))).options == map[]
    ensures RouteOf(className, Member(name, Some(Delete(path, Plain(funcName))))).options == map[]
  {
  }
}

/**
 * The test client's request building: `_coerce_dict`, which turns a dict
 * of header names and values into bytes, and `_build_request`, which
 * fills a route's template with positional arguments.
 *
 * The Python values `_coerce_dict` looks at are the datatype `PyValue`;
 * `PyList` stands for every iterable it may receive (list, tuple, ...).
 */
module Client {
  import opened Wrappers
  import opened Text
  import opened Patterns
  import opened Matcher
  import Resources
  import opened Routing

  datatype PyValue =
    | PyNone
    | PyInt(i: int)
    | PyStr(s: string)
    | PyBytes(b: Bytes)
    | PyList(items: seq<PyValue>)
    | PyOther

  /** The exceptions of the two routines. */
  datatype ClientError =
    | TooFewArguments(expected: nat, found: nat)  // ValueError; `expected` is `len(tokens)`
    | NameNotText                                  // TypeError on a name
    | ValueNotText                                 // TypeError on a value
    | NotIterable                                  // TypeError from `for value in values`
    | PositionalField                              // IndexError from `template.format(**kwargs)`

  // ---------------------------------------------------------------- _coerce_dict

  /** A name: str is encoded as UTF-8, bytes kept, anything else refused. */
  function CoerceName(name: PyValue): Result<Bytes, ClientError> {
    match name
    case PyStr(s) => Success(Utf8(s))
    case PyBytes(b) => Success(b)
    case _ => Failure(NameNotText)
  }

  /**
   * What `for value in values` walks over once None became `[]` and an int
   * or str became a one-element list. Iterating bytes gives ints.
   */
  function Elements(values: PyValue): Result<seq<PyValue>, ClientError> {
    match values
    case PyNone => Success([])
    case PyInt(_) => Success([values])
    case PyStr(_) => Success([values])
    case PyList(items) => Success(items)
    case PyBytes(b) => Success(seq(|b|, i requires 0 <= i < |b| => PyInt(b[i] as int)))
    case PyOther => Failure(NotIterable)
  }

  /** One value: None is kept, an int goes through `str`, a str is encoded, bytes kept. */
  function CoerceValue(v: PyValue): Result<Option<Bytes>, ClientError> {
    match v
    case PyNone => Success(None)
    case PyInt(i) => Success(Some(Utf8(IntToDecimal(i))))
    case PyStr(s) => Success(Some(Utf8(s)))
    case PyBytes(b) => Success(Some(b))
    case _ => Failure(ValueNotText)
  }

  /** The list built for one name, or the first value's error. */
  function CoerceValues(vs: seq<PyValue>): Result<seq<Option<Bytes>>, ClientError>
    decreases |vs|
  {
    if vs == [] then Success([])
    else match CoerceValues(vs[..|vs| - 1])
      case Failure(e) => Failure(e)
      case Success(init) =>
        match CoerceValue(vs[|vs| - 1])
        case Failure(e) => Failure(e)
        case Success(v) => Success(init + [v])
  }

  /** The entry for one `(name, values)` pair. */
  function CoerceItem(item: (PyValue, PyValue)): Result<(Bytes, seq<Option<Bytes>>), ClientError> {
    match CoerceName(item.0)
    case Failure(e) => Failure(e)
    case Success(name) =>
      match Elements(item.1)
      case Failure(e) => Failure(e)
      case Success(elems) =>
        match CoerceValues(elems)
        case Failure(e) => Failure(e)
        case Success(vs) => Success((name, vs))
  }

  /** `_coerce_dict(datadict)` for the items of `datadict`, in order (None and `{}` have none). */
  function Coerce(items: seq<(PyValue, PyValue)>): Result<map<Bytes, seq<Option<Bytes>>>, ClientError>
    decreases |items|
  {
    if items == [] then Success(map[])
    else match Coerce(items[..|items| - 1])
      case Failure(e) => Failure(e)
      case Success(m) =>
        match CoerceItem(items[|items| - 1])
        case Failure(e) => Failure(e)
        case Success((name, vs)) => Success(m[name := vs])
  }

  /** The first item that fails decides the error. */
  lemma {:induction false} CoerceFailsAt(items: seq<(PyValue, PyValue)>, i: nat, e: ClientError)
    requires i < |items| && Coerce(items[..i]).Success? && CoerceItem(items[i]) == Failure(e)
    ensures Coerce(items) == Failure(e)
    decreases |items|
  {
    var init := items[..|items| - 1];
    if i < |items| - 1 {
      assert init[..i] == items[..i] && init[i] == items[i];
      CoerceFailsAt(init, i, e);
    } else {
      assert init == items[..i];
    }
  }

  /** The first value that fails decides the error. */
  lemma {:induction false} CoerceValuesFailsAt(vs: seq<PyValue>, j: nat, e: ClientError)
    requires j < |vs| && CoerceValues(vs[..j]).Success? && CoerceValue(vs[j]) == Failure(e)
    ensures CoerceValues(vs) == Failure(e)
    decreases |vs|
  {
    var init := vs[..|vs| - 1];
    if j < |vs| - 1 {
      assert init[..j] == vs[..j] && init[j] == vs[j];
      CoerceValuesFailsAt(init, j, e);
    } else {
      assert init == vs[..j];
    }
  }

  /** An item that coerces extends the dictionary of the items before it. */
  lemma CoerceStep(items: seq<(PyValue, PyValue)>, i: nat, m: map<Bytes, seq<Option<Bytes>>>)
    requires i < |items| && Coerce(items[..i]) == Success(m) && CoerceItem(items[i]).Success?
    ensures Coerce(items[..i + 1]) == Success(m[CoerceItem(items[i]).value.0 := CoerceItem(items[i]).value.1])
  {
    assert items[..i + 1][..i] == items[..i];
  }

  /** A value that coerces extends the list of the values before it. */
  lemma CoerceValuesStep(vs: seq<PyValue>, j: nat, init: seq<Option<Bytes>>)
    requires j < |vs| && CoerceValues(vs[..j]) == Success(init) && CoerceValue(vs[j]).Success?
    ensures CoerceValues(vs[..j + 1]) == Success(init + [CoerceValue(vs[j]).value])
  {
    assert vs[..j + 1][..j] == vs[..j];
  }

  /** `_coerce_dict`'s inner loop: the list appended to for one name. */
  method CoerceValueList(vs: seq<PyValue>) returns (r: Result<seq<Option<Bytes>>, ClientError>)
    ensures r == CoerceValues(vs)
  {
    var list: seq<Option<Bytes>> := [];
    var j := 0;
    while j < |vs|
      invariant 0 <= j <= |vs|
      invariant CoerceValues(vs[..j]) == Success(list)
    {
      var coerced: Option<Bytes>;
      match vs[j] {
        case PyNone => coerced := None;
        case PyInt(n) => coerced := Some(Utf8(IntToDecimal(n)));
        case PyStr(s) => coerced := Some(Utf8(s));
        case PyBytes(b) => coerced := Some(b);
        case _ =>
          CoerceValuesFailsAt(vs, j, ValueNotText);
          return Failure(ValueNotText);
      }
      CoerceValuesStep(vs, j, list);
      list := list + [coerced];
      j := j + 1;
    }
    assert vs[..j] == vs;
    return Success(list);
  }

  /** `_coerce_dict`: the loop over the items. */
  method CoerceDict(items: seq<(PyValue, PyValue)>) returns (r: Result<map<Bytes, seq<Option<Bytes>>>, ClientError>)
    ensures r == Coerce(items)
  {
    var bytesdict: map<Bytes, seq<Option<Bytes>>> := map[];
    var i := 0;
    while i < |items|
      invariant 0 <= i <= |items|
      invariant Coerce(items[..i]) == Success(bytesdict)
    {
      var (nameValue, values) := items[i];
      var name;
      match nameValue {
        case PyStr(s) => name := Utf8(s);
        case PyBytes(b) => name := b;
        case _ =>
          CoerceFailsAt(items, i, NameNotText);
          return Failure(NameNotText);
      }
      var elems := Elements(values);
      if elems.Failure? {
        CoerceFailsAt(items, i, elems.error);
        return Failure(elems.error);
      }
      var list := CoerceValueList(elems.value);
      if list.Failure? {
        CoerceFailsAt(items, i, list.error);
        return Failure(list.error);
      }
      CoerceStep(items, i, bytesdict);
      bytesdict := bytesdict[name := list.value];
      i := i + 1;
    }
    assert items[..i] == items;
    return Success(bytesdict);
  }

  /** The keys are exactly the encoded names. */
  lemma {:induction false} CoercedNames(items: seq<(PyValue, PyValue)>, k: Bytes)
    requires Coerce(items).Success?
    ensures k in Coerce(items).value <==> exists i :: 0 <= i < |items| && CoerceName(items[i].0) == Success(k)
    decreases |items|
  {
    if items != [] {
      var init := items[..|items| - 1];
      CoercedNames(init, k);
      if exists i :: 0 <= i < |init| && CoerceName(init[i].0) == Success(k) {
        var i :| 0 <= i < |init| && CoerceName(init[i].0) == Success(k);
        assert items[i] == init[i];
      }
      if exists i :: 0 <= i < |items| && CoerceName(items[i].0) == Success(k) {
        var i :| 0 <= i < |items| && CoerceName(items[i].0) == Success(k);
        if i < |init| {
          assert items[i] == init[i];
        }
      }
    }
  }

  /** An item whose name is neither str nor bytes makes the whole call fail. */
  lemma {:induction false} BadNameFails(items: seq<(PyValue, PyValue)>, i: nat)
    requires i < |items| && !items[i].0.PyStr? && !items[i].0.PyBytes?
    ensures Coerce(items).Failure?
    decreases |items|
  {
    if i < |items| - 1 {
      assert items[..|items| - 1][i] == items[i];
      BadNameFails(items[..|items| - 1], i);
    }
  }

  /**
   * One header given as str, int, bytes or a list holding None: a str and
   * an int are encoded, bytes are iterated as their byte values (so
   * `b"a"` becomes `[b"97"]`), and None is kept in a list.
   */
  lemma OneHeader(name: string, value: string, n: int)
    ensures Coerce([(PyStr(name), PyStr(value))]) == Success(map[Utf8(name) := [Some(Utf8(value))]])
    ensures Coerce([(PyStr(name), PyInt(n))]) == Success(map[Utf8(name) := [Some(Utf8(IntToDecimal(n)))]])
    ensures Coerce([(PyStr(name), PyBytes([97]))]) == Success(map[Utf8(name) := [Some(Utf8(IntToDecimal(97)))]])
    ensures Coerce([(PyStr(name), PyList([PyNone]))]) == Success(map[Utf8(name) := [None]])
  {
    SingleItem(PyStr(name), PyStr(value));
    SingleItem(PyStr(name), PyInt(n));
    var b: Bytes := [97];
    assert Elements(PyBytes(b)).value[0] == PyInt(97);
    SingleItem(PyStr(name), PyBytes([97]));
    SingleItem(PyStr(name), PyList([PyNone]));
  }

  /** A dictionary with one name whose values iterate as one element. */
  lemma SingleItem(name: PyValue, values: PyValue)
    requires CoerceName(name).Success? && Elements(values).Success? && |Elements(values).value| == 1
    requires CoerceValue(Elements(values).value[0]).Success?
    ensures Coerce([(name, values)])
      == Success(map[CoerceName(name).value := [CoerceValue(Elements(values).value[0]).value]])
  {
    var vs := Elements(values).value;
    var v := CoerceValue(vs[0]).value;
    assert vs[..0] == [];
    assert CoerceValues(vs) == Success([] + [v]);
    assert [] + [v] == [v];
    assert Elements(values) == Success(vs);
    assert CoerceItem((name, values)) == Success((CoerceName(name).value, [v]));
    assert [(name, values)][..0] == [];
  }

  // ---------------------------------------------------------------- _build_request

  /**
   * A field name `str.format` reads as a positional index rather than a
   * keyword: empty (numbered automatically) or all digits. `format(**kwargs)`
   * has no positional arguments, so such a field raises.
   */
  predicate Positional(name: string) {
    forall i :: 0 <= i < |name| ==> IsDigit(name[i])
  }

  /** The characters that make `str.format` read more than a bare name: braces, lookups, conversion, format spec. */
  predicate FieldSyntax(c: char) {
    c in "{}[].!:"
  }

  /**
   * A segment whose template text `str.format` reads as written: a literal
   * without braces, or a token whose name has none of the field syntax.
   */
  predicate PlainSyntax(seg: Seg) {
    if seg.Lit? then '{' !in seg.text && '}' !in seg.text
    else forall c :: c in seg.name ==> !FieldSyntax(c)
  }

  /** Templates made of plain-syntax segments only. */
  predicate PlainTemplate(segs: seq<Seg>) {
    forall i :: 0 <= i < |segs| ==> PlainSyntax(segs[i])
  }

  /**
   * `template.format(**kwargs)` for the template of `segs`: `{name}` becomes
   * `kwargs[name]`. This is what `str.format` does for a plain template
   * whose token names are keywords; `BuildRequest` refuses positional names.
   */
  function Format(segs: seq<Seg>, kwargs: map<string, string>): string
    requires forall t :: t in Tokens(segs) ==> t in kwargs
    decreases |segs|
  {
    if segs == [] then ""
    else (if segs[0].Lit? then "/" + segs[0].text else "/" + kwargs[segs[0].name]) + Format(segs[1..], kwargs)
  }

  /** `{k: "" for k in tokens}` updated with `zip(tokens, args)` */
  function Kwargs(tokens: seq<string>, args: seq<string>): (kw: map<string, string>)
    ensures forall t :: t in tokens ==> t in kw
  {
    (map t | t in tokens :: "") + ZipDict(tokens, args)
  }

  /** `"".join(["/%s" % s for s in extra])` */
  function Extra(extra: seq<string>): string
    decreases |extra|
  {
    if extra == [] then "" else "/" + extra[0] + Extra(extra[1..])
  }

  /** The request `_build_request` makes, and the `matches` it sets on it. */
  datatype Built = Built(request: Request, matches: map<string, string>)

  /**
   * `_build_request`: the ValueError for too few arguments, then the
   * formatting, which raises on a positional field, then the headers.
   */
  function BuildRequest(route: Resources.Route, args: seq<string>, headers: seq<(PyValue, PyValue)>)
    : (r: Result<Built, ClientError>)
    ensures var segs := PatternSegments(route.pattern);
      r.Success? <==>
        && |args| >= Required(segs)
        && (forall t :: t in Tokens(segs) ==> !Positional(t))
        && Coerce(headers).Success?
    ensures r.Success? ==>
      && r.value.request == Request("127.0.0.1", route.verb, r.value.request.path, PlainDict(Coerce(headers).value))
      && r.value.matches.Keys
         == set i | 0 <= i < |Tokens(PatternSegments(route.pattern))| && i < |args| :: Tokens(PatternSegments(route.pattern))[i]
  {
    var segs := PatternSegments(route.pattern);
    var tokens := Tokens(segs);
    if |args| < Required(segs) then Failure(TooFewArguments(|tokens|, |args|))
    else if exists t :: t in tokens && Positional(t) then Failure(PositionalField)
    else
      var path := Format(segs, Kwargs(tokens, args)) + (if |args| > |tokens| then Extra(args[|tokens|..]) else "");
      match Coerce(headers)
      case Failure(e) => Failure(e)
      case Success(h) => Success(Built(Request("127.0.0.1", route.verb, path, PlainDict(h)), ZipDict(tokens, args)))
  }

  /**
   * A token with an empty or all-digit name makes the formatting raise
   * IndexError once there are enough arguments, before the headers are
   * looked at.
   */
  lemma PositionalRaises(route: Resources.Route, args: seq<string>, headers: seq<(PyValue, PyValue)>, i: nat)
    requires i < |Tokens(PatternSegments(route.pattern))| && Positional(Tokens(PatternSegments(route.pattern))[i])
    requires |args| >= Required(PatternSegments(route.pattern))
    ensures BuildRequest(route, args, headers) == Failure(PositionalField)
  {
    var tokens := Tokens(PatternSegments(route.pattern));
    assert tokens[i] in tokens;
  }

  /** `/files/:?` has the token `""`: its template `/files/{}` raises IndexError. */
  lemma OptionalWithoutName(route: Resources.Route, headers: seq<(PyValue, PyValue)>)
    requires route.pattern == "/files/:?"
    ensures BuildRequest(route, [], headers) == Failure(PositionalField)
  {
    FilesOptionalTokens();
    PositionalRaises(route, [], headers, 0);
  }

  /** Formatting with a value per token position is filling the template. */
  lemma {:induction false} FormatIsFill(segs: seq<Seg>, kwargs: map<string, string>, vals: seq<string>)
    requires |vals| == TokenCount(segs) == |Tokens(segs)|
    requires forall t :: t in Tokens(segs) ==> t in kwargs
    requires forall i :: 0 <= i < |vals| ==> kwargs[Tokens(segs)[i]] == vals[i]
    ensures Format(segs, kwargs) == Fill(segs, vals)
    decreases |segs|
  {
    RequiredAtMostTokens(segs);
    if segs != [] {
      var rest := Tokens(segs[1..]);
      if segs[0].Lit? {
        assert Tokens(segs) == rest;
        FormatIsFill(segs[1..], kwargs, vals);
      } else {
        assert Tokens(segs) == [segs[0].name] + rest;
        assert kwargs[segs[0].name] == vals[0];
        forall i | 0 <= i < |vals[1..]| ensures kwargs[rest[i]] == vals[1..][i] {
          assert rest[i] == Tokens(segs)[i + 1];
        }
        FormatIsFill(segs[1..], kwargs, vals[1..]);
      }
    }
  }

  /** Tokens past the last argument are formatted as empty strings. */
  function Padded(args: seq<string>, n: nat): (vals: seq<string>)
    ensures |vals| == n
  {
    seq(n, i requires 0 <= i < n => if i < |args| then args[i] else "")
  }

  /** With distinct token names each token gets its own argument, or "" past the last one. */
  lemma KwargsAt(tokens: seq<string>, args: seq<string>, i: nat)
    requires Distinct(tokens) && i < |tokens|
    ensures Kwargs(tokens, args)[tokens[i]] == Padded(args, |tokens|)[i]
  {
    if i < |args| {
      ZipDictAt(tokens, args, i);
    } else {
      assert tokens[i] !in ZipDict(tokens, args);
    }
  }

  /** The value `kwargs` gives each token position; a repeated name reads its last argument. */
  function TokenValues(tokens: seq<string>, kwargs: map<string, string>): (vals: seq<string>)
    requires forall t :: t in tokens ==> t in kwargs
    ensures |vals| == |tokens|
  {
    seq(|tokens|, i requires 0 <= i < |tokens| => kwargs[tokens[i]])
  }

  /**
   * For a plain template, a built request's path is the template filled
   * with the value `kwargs` holds for each token, followed by `/arg` for
   * every argument beyond the tokens.
   */
  lemma BuiltPath(route: Resources.Route, args: seq<string>, headers: seq<(PyValue, PyValue)>)
    requires PlainTemplate(PatternSegments(route.pattern))
    requires BuildRequest(route, args, headers).Success?
    ensures var segs := PatternSegments(route.pattern);
      var tokens := Tokens(segs);
      var n := |tokens|;
      && n == TokenCount(segs)
      && |args| >= Required(segs)
      && BuildRequest(route, args, headers).value.request.path
         == Fill(segs, TokenValues(tokens, Kwargs(tokens, args))) + (if |args| > n then Extra(args[n..]) else "")
  {
    var segs := PatternSegments(route.pattern);
    var tokens := Tokens(segs);
    RequiredAtMostTokens(segs);
    FormatIsFill(segs, Kwargs(tokens, args), TokenValues(tokens, Kwargs(tokens, args)));
  }

  /** A repeated token name takes its last argument everywhere: `/a/:x/:x` with `1`, `2` fills `2` twice. */
  lemma RepeatedNameLastWins()
    ensures TokenValues(["x", "x"], Kwargs(["x", "x"], ["1", "2"])) == ["2", "2"]
  {
    var tokens: seq<string> := ["x", "x"];
    var args: seq<string> := ["1", "2"];
    assert tokens[1..] == ["x"] && args[1..] == ["2"];
    assert ZipDict(["x"], ["2"]) == map["x" := "2"] + ZipDict([], []);
    assert ZipDict(tokens, args) == map["x" := "1"] + ZipDict(["x"], ["2"]);
    assert Kwargs(tokens, args)["x"] == "2";
  }

  /**
   * With distinct token names, the path is the template filled with the
   * arguments themselves (blanks for the missing optional ones), then the
   * extra `/arg`s.
   */
  lemma BuiltPathDistinct(route: Resources.Route, args: seq<string>, headers: seq<(PyValue, PyValue)>)
    requires PlainTemplate(PatternSegments(route.pattern))
    requires Distinct(Tokens(PatternSegments(route.pattern)))
    requires BuildRequest(route, args, headers).Success?
    ensures var segs := PatternSegments(route.pattern);
      var n := |Tokens(segs)|;
      && n == TokenCount(segs)
      && BuildRequest(route, args, headers).value.request.path
         == Fill(segs, Padded(args, n)) + (if |args| > n then Extra(args[n..]) else "")
  {
    var tokens := Tokens(PatternSegments(route.pattern));
    RequiredAtMostTokens(PatternSegments(route.pattern));
    BuiltPath(route, args, headers);
    forall i | 0 <= i < |tokens| ensures TokenValues(tokens, Kwargs(tokens, args))[i] == Padded(args, |tokens|)[i] {
      KwargsAt(tokens, args, i);
    }
    assert TokenValues(tokens, Kwargs(tokens, args)) == Padded(args, |tokens|);
  }

  /** Too few arguments for the required tokens raise ValueError. */
  lemma TooFew(route: Resources.Route, args: seq<string>, headers: seq<(PyValue, PyValue)>)
    requires |args| < Required(PatternSegments(route.pattern))
    ensures BuildRequest(route, args, headers).Failure?
    ensures BuildRequest(route, args, headers).error.TooFewArguments?
  {
  }

  /**
   * The round trip with the router: for a plain template of literals and
   * plain tokens with distinct keyword names, one non-empty slash-free
   * argument per token gives a path the route's expression matches, and the
   * captures it yields are the request's `matches`.
   */
  lemma BuiltRequestMatches(route: Resources.Route, args: seq<string>, headers: seq<(PyValue, PyValue)>)
    requires Simple(PatternSegments(route.pattern)) && PlainTemplate(PatternSegments(route.pattern))
    requires Distinct(Tokens(PatternSegments(route.pattern)))
    requires forall t :: t in Tokens(PatternSegments(route.pattern)) ==> !Positional(t)
    requires |args| == TokenCount(PatternSegments(route.pattern))
    requires forall i :: 0 <= i < |args| ==> Segment(args[i])
    requires Coerce(headers).Success?
    ensures BuildRequest(route, args, headers).Success?
    ensures var built := BuildRequest(route, args, headers).value;
      var segs := PatternSegments(route.pattern);
      && MatchFrom(segs, built.request.path) == Some(Captured(args))
      && forall t :: t in built.matches ==> ZipDict(Tokens(segs), Captured(args))[t] == Some(built.matches[t])
  {
    var segs := PatternSegments(route.pattern);
    var tokens := Tokens(segs);
    RequiredAtMostTokens(segs);
    BuiltPathDistinct(route, args, headers);
    assert Padded(args, |tokens|) == args;
    assert BuildRequest(route, args, headers).value.request.path == Fill(segs, args) + "";
    assert Fill(segs, args) + "" == Fill(segs, args);
    FillMatches(segs, args);
    forall t | t in ZipDict(tokens, args) ensures ZipDict(tokens, Captured(args))[t] == Some(ZipDict(tokens, args)[t]) {
      var i :| 0 <= i < |tokens| && i < |args| && tokens[i] == t;
      ZipDictAt(tokens, args, i);
      ZipDictAt(tokens, Captured(args), i);
    }
  }
}

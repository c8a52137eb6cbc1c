/**
 * The query-string half of `parse_url`: the query is split on `&`, empty
 * pieces are skipped, each piece is split at its first `=` into a name and
 * a value (a piece without `=` has the value None), and every value is
 * appended to the list kept for its name.
 *
 * `urlparse` itself is not modelled: the method receives the query part.
 * `x.decode("utf-8")` is the parameter `decode`, None where it raises
 * UnicodeDecodeError; `unquote` is the parameter `unquote`.
 */
module Query {
  import opened Wrappers
  import opened Text

  const Amp: byte := 38
  const Equals: byte := 61

  /** `s.split(sep, 1)` when `sep in s`, None otherwise. */
  function SplitOnce<T(==)>(s: seq<T>, sep: T): (r: Option<(seq<T>, seq<T>)>)
    ensures r.None? <==> sep !in s
    ensures r.Some? ==> s == r.value.0 + [sep] + r.value.1 && sep !in r.value.0
    decreases |s|
  {
    if s == [] then None
    else if s[0] == sep then Some(([], s[1..]))
    else match SplitOnce(s[1..], sep)
      case None => None
      case Some((a, b)) => Some(([s[0]] + a, b))
  }

  /** One `name=value` piece after decoding and unquoting. */
  datatype Field = Field(name: string, value: Option<string>)

  /** The UnicodeDecodeError `.decode("utf-8")` raises on bytes that are not UTF-8. */
  datatype QueryError = UnicodeDecodeError

  /** `unquote(x.decode("utf-8"))` */
  function Decoded(x: Bytes, decode: Bytes -> Option<string>, unquote: string -> string): Result<string, QueryError> {
    match decode(x)
    case None => Failure(UnicodeDecodeError)
    case Some(t) => Success(unquote(t))
  }

  /**
   * A piece without `=` is a name with the value None; otherwise it is cut
   * at its first `=`, and both halves must decode.
   */
  function ParseField(part: Bytes, decode: Bytes -> Option<string>, unquote: string -> string)
    : (f: Result<Field, QueryError>)
    ensures Equals !in part ==>
      && (f.Success? <==> decode(part).Some?)
      && (f.Success? ==> f.value == Field(unquote(decode(part).value), None))
    ensures forall a, b :: Equals !in a && part == a + [Equals] + b ==>
      && (f.Success? <==> decode(a).Some? && decode(b).Some?)
      && (f.Success? ==> f.value == Field(unquote(decode(a).value), Some(unquote(decode(b).value))))
  {
    match SplitOnce(part, Equals)
    case None =>
      (match Decoded(part, decode, unquote)
       case Failure(e) => Failure(e)
       case Success(name) => Success(Field(name, None)))
    case Some((a, b)) =>
      assert forall a', b' :: Equals !in a' && part == a' + [Equals] + b' ==> a' == a && b' == b by {
        forall a', b' | Equals !in a' && part == a' + [Equals] + b' ensures a' == a && b' == b {
          FirstSeparator(a, b, a', b', Equals);
        }
      }
      match Decoded(a, decode, unquote)
      case Failure(e) => Failure(e)
      case Success(name) =>
        match Decoded(b, decode, unquote)
        case Failure(e) => Failure(e)
        case Success(value) => Success(Field(name, Some(value)))
  }

  /** A sequence cut at its first separator is cut in one way only. */
  lemma FirstSeparator<T>(a: seq<T>, b: seq<T>, a': seq<T>, b': seq<T>, sep: T)
    requires sep !in a && sep !in a' && a + [sep] + b == a' + [sep] + b'
    ensures a == a' && b == b'
  {
    SplitOnceAt(a, b, sep);
    SplitOnceAt(a', b', sep);
  }

  lemma {:induction false} SplitOnceAt<T>(a: seq<T>, b: seq<T>, sep: T)
    requires sep !in a
    ensures SplitOnce(a + [sep] + b, sep) == Some((a, b))
    decreases |a|
  {
    var s := a + [sep] + b;
    if a == [] {
      assert s[1..] == b;
    } else {
      assert s[0] == a[0] && s[1..] == a[1..] + [sep] + b;
      SplitOnceAt(a[1..], b, sep);
      assert [a[0]] + a[1..] == a;
    }
  }

  /** The fields of the non-empty pieces, in order, or the error of the first piece that does not decode. */
  function Fields(parts: seq<Bytes>, decode: Bytes -> Option<string>, unquote: string -> string)
    : Result<seq<Field>, QueryError>
    decreases |parts|
  {
    if parts == [] then Success([])
    else
      match Fields(parts[..|parts| - 1], decode, unquote)
      case Failure(e) => Failure(e)
      case Success(init) =>
        var last := parts[|parts| - 1];
        if last == [] then Success(init)
        else match ParseField(last, decode, unquote)
          case Failure(e) => Failure(e)
          case Success(f) => Success(init + [f])
  }

  /** A refused query has a non-empty piece that does not decode... */
  lemma {:induction false} FailingPiece(parts: seq<Bytes>, decode: Bytes -> Option<string>, unquote: string -> string)
    returns (i: nat)
    requires Fields(parts, decode, unquote).Failure?
    ensures i < |parts| && parts[i] != [] && ParseField(parts[i], decode, unquote).Failure?
    decreases |parts|
  {
    var init := parts[..|parts| - 1];
    if Fields(init, decode, unquote).Failure? {
      i := FailingPiece(init, decode, unquote);
      assert parts[i] == init[i];
    } else {
      i := |parts| - 1;
    }
  }

  /** ... and such a piece refuses the query. */
  lemma {:induction false} FailureAt(parts: seq<Bytes>, decode: Bytes -> Option<string>, unquote: string -> string, i: nat)
    requires i < |parts| && parts[i] != [] && ParseField(parts[i], decode, unquote).Failure?
    ensures Fields(parts, decode, unquote).Failure?
    decreases |parts|
  {
    var init := parts[..|parts| - 1];
    if i < |init| {
      assert init[i] == parts[i];
      FailureAt(init, decode, unquote, i);
    }
  }

  /** The query is refused exactly when one of its non-empty pieces does not decode. */
  lemma FieldsFail(parts: seq<Bytes>, decode: Bytes -> Option<string>, unquote: string -> string)
    ensures Fields(parts, decode, unquote).Failure?
      <==> exists i :: 0 <= i < |parts| && parts[i] != [] && ParseField(parts[i], decode, unquote).Failure?
  {
    if Fields(parts, decode, unquote).Failure? {
      var i := FailingPiece(parts, decode, unquote);
    }
    forall i | 0 <= i < |parts| && parts[i] != [] && ParseField(parts[i], decode, unquote).Failure?
      ensures Fields(parts, decode, unquote).Failure?
    {
      FailureAt(parts, decode, unquote, i);
    }
  }

  /** `query[name].append(value)` on the `defaultdict(list)` */
  function Append(m: map<string, seq<Option<string>>>, f: Field): map<string, seq<Option<string>>> {
    m[f.name := (if f.name in m then m[f.name] else []) + [f.value]]
  }

  /** The `defaultdict(list)` after appending every field in turn. */
  function Collect(fields: seq<Field>): map<string, seq<Option<string>>>
    decreases |fields|
  {
    if fields == [] then map[] else Append(Collect(fields[..|fields| - 1]), fields[|fields| - 1])
  }

  /** One more piece: skipped when empty, otherwise its field is appended. */
  lemma CollectStep(parts: seq<Bytes>, decode: Bytes -> Option<string>, unquote: string -> string, i: nat)
    requires i < |parts| && Fields(parts[..i], decode, unquote).Success?
    requires parts[i] == [] || ParseField(parts[i], decode, unquote).Success?
    ensures Fields(parts[..i + 1], decode, unquote).Success?
    ensures Collect(Fields(parts[..i + 1], decode, unquote).value)
      == if parts[i] == [] then Collect(Fields(parts[..i], decode, unquote).value)
         else Append(Collect(Fields(parts[..i], decode, unquote).value), ParseField(parts[i], decode, unquote).value)
  {
    assert parts[..i + 1][..i] == parts[..i];
    var fs := Fields(parts[..i], decode, unquote).value;
    if parts[i] != [] {
      var f := ParseField(parts[i], decode, unquote).value;
      assert Fields(parts[..i + 1], decode, unquote) == Success(fs + [f]);
      assert (fs + [f])[..|fs|] == fs;
    }
  }

  /** The values of the fields named `name`, in order. */
  function ValuesOf(fields: seq<Field>, name: string): seq<Option<string>>
    decreases |fields|
  {
    if fields == [] then []
    else
      var f := fields[|fields| - 1];
      ValuesOf(fields[..|fields| - 1], name) + (if f.name == name then [f.value] else [])
  }

  /**
   * The dictionary maps each name that occurs to all its values in the
   * order they occur, and holds no other name.
   */
  lemma {:induction false} CollectGroups(fields: seq<Field>, name: string)
    ensures name in Collect(fields) <==> ValuesOf(fields, name) != []
    ensures name in Collect(fields) ==> Collect(fields)[name] == ValuesOf(fields, name)
    decreases |fields|
  {
    if fields != [] {
      CollectGroups(fields[..|fields| - 1], name);
    }
  }

  /**
   * `parse_url`'s loop over `query.split(b"&")`: UnicodeDecodeError at the
   * first piece that does not decode, otherwise the dictionary of the
   * fields.
   */
  method ParseQuery(query: Bytes, decode: Bytes -> Option<string>, unquote: string -> string)
    returns (r: Result<map<string, seq<Option<string>>>, QueryError>)
    ensures var parts := Split(query, Amp);
      r.Failure? <==> exists i :: 0 <= i < |parts| && parts[i] != [] && ParseField(parts[i], decode, unquote).Failure?
    ensures r.Success? ==>
      && Fields(Split(query, Amp), decode, unquote).Success?
      && r.value == Collect(Fields(Split(query, Amp), decode, unquote).value)
    ensures r.Success? ==> var fields := Fields(Split(query, Amp), decode, unquote).value;
      && (forall name :: name in r.value <==> ValuesOf(fields, name) != [])
      && (forall name :: name in r.value ==> r.value[name] == ValuesOf(fields, name))
  {
    var parts := Split(query, Amp);
    var q := map[];
    var i := 0;
    while i < |parts|
      invariant 0 <= i <= |parts|
      invariant Fields(parts[..i], decode, unquote).Success?
      invariant q == Collect(Fields(parts[..i], decode, unquote).value)
    {
      var part := parts[i];
      if part != [] {
        var field := ParseField(part, decode, unquote);
        if field.Failure? {
          r := Failure(field.error);
          assert parts == Split(query, Amp);
          assert exists k :: 0 <= k < |parts| && parts[k] != [] && ParseField(parts[k], decode, unquote).Failure? by {
            assert parts[i] == part;
          }
          return;
        }
        q := Append(q, field.value);
      }
      CollectStep(parts, decode, unquote, i);
      i := i + 1;
    }
    assert parts[..|parts|] == parts;
    FieldsFail(parts, decode, unquote);
    var fields := Fields(parts, decode, unquote).value;
    forall name {
      CollectGroups(fields, name);
    }
    r := Success(q);
  }
}

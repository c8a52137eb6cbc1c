/**
 * The language of the anchored expression `Patterns.RegexSource(segs)`
 * and the groups `re.match` reports for it.
 *
 * No regular-expression engine is modelled. `MatchFrom` interprets the five
 * fragments the compiler emits the way Python's backtracking engine runs
 * them: alternatives in order, greedy repetitions longest first, the first
 * successful path decides the groups, and a group that took no part in it
 * is `None`. Two details of Python's syntax matter: `.` does not match a
 * newline, and `$` matches at the end or before a newline that ends the
 * string. `InLanguage` states the same language without any search order.
 */
module Matcher {
  import opened Wrappers
  import opened Text
  import opened Patterns

  /** One entry of `m.groups()`: the captured text, or None. */
  type Capture = Option<string>

  /** The two repeated character classes: `.` and `[^\/]`. */
  datatype CharClass = AnyButNewline | AnyButSlash {
    predicate Accepts(c: char) {
      match this
      case AnyButNewline => c != '\n'
      case AnyButSlash => c != '/'
    }
  }

  predicate AllOf(cls: CharClass, w: string) {
    forall i :: 0 <= i < |w| ==> cls.Accepts(w[i])
  }

  /** How many characters a greedy repetition of `cls` takes first. */
  function Run(cls: CharClass, s: string): (n: nat)
    ensures n <= |s|
    ensures forall i :: 0 <= i < n ==> cls.Accepts(s[i])
    ensures n < |s| ==> !cls.Accepts(s[n])
  {
    if s == [] || !cls.Accepts(s[0]) then 0 else 1 + Run(cls, s[1..])
  }

  /** `$` without MULTILINE. */
  predicate AtEnd(s: string) {
    s == [] || s == ['\n']
  }

  /** The tail `\/?$`: an optional slash is taken if that leads to the end. */
  predicate EndMatches(s: string) {
    (s != [] && s[0] == '/' && AtEnd(s[1..])) || AtEnd(s)
  }

  // ---------------------------------------------------------------- the matcher

  /**
   * `re.match(RegexSource(p), s).groups()` when the expression starts at
   * segment list `p` with `s` still unread; None when there is no match.
   */
  function MatchFrom(p: seq<Seg>, s: string): (r: Option<seq<Capture>>)
    ensures r.Some? ==> |r.value| == TokenCount(p)
    decreases |p|, 0, 0
  {
    if p == [] then
      if EndMatches(s) then Some([]) else None
    else
      match p[0]
      case Lit(t) =>
        if |s| > |t| && s[..|t| + 1] == "/" + t then MatchFrom(p[1..], s[|t| + 1..]) else None
      case Plain(_) =>
        if s != [] && s[0] == '/' then Greedy(p[1..], s[1..], Run(AnyButSlash, s[1..]), 1) else None
      case Optional(_) =>
        Group(p[1..], s, AnyButSlash)
      case Star(_) =>
        Group(p[1..], s, AnyButNewline)
      case Plus(_) =>
        var viaSlash :=
          if s != [] && s[0] == '/' then Greedy(p[1..], s[1..], Run(AnyButNewline, s[1..]), 1) else None;
        if viaSlash.Some? then viaSlash else Greedy(p[1..], s, Run(AnyButNewline, s), 1)
  }

  /**
   * A greedy group over `t`: tries the lengths `n`, `n - 1`, ..., `lo` and
   * keeps the first one after which the rest of the expression matches.
   */
  function Greedy(rest: seq<Seg>, t: string, n: nat, lo: nat): (r: Option<seq<Capture>>)
    requires n <= |t|
    ensures r.Some? ==> |r.value| == TokenCount(rest) + 1
    decreases |rest|, 1, n
  {
    if n < lo then None
    else
      match MatchFrom(rest, t[n..])
      case Some(caps) => Some([Some(t[..n])] + caps)
      case None => if n == 0 then None else Greedy(rest, t, n - 1, lo)
  }

  /**
   * `(?:\/(cls*)|\/)?`: the first alternative, then the second (whose group
   * is unset), then skipping the whole group.
   */
  function Group(rest: seq<Seg>, s: string, cls: CharClass): (r: Option<seq<Capture>>)
    ensures r.Some? ==> |r.value| == TokenCount(rest) + 1
    decreases |rest|, 2, 0
  {
    var first := if s != [] && s[0] == '/' then Greedy(rest, s[1..], Run(cls, s[1..]), 0) else None;
    if first.Some? then first
    else
      var second := if s != [] && s[0] == '/' then MatchFrom(rest, s[1..]) else None;
      if second.Some? then Some([None] + second.value)
      else
        match MatchFrom(rest, s)
        case Some(caps) => Some([None] + caps)
        case None => None
  }

  // ---------------------------------------------------------------- the language

  /** The strings the expression for `p` accepts, with no search order. */
  ghost predicate InLanguage(p: seq<Seg>, s: string)
    decreases |p|, 0
  {
    if p == [] then EndMatches(s)
    else
      match p[0]
      case Lit(t) => |s| > |t| && s[..|t| + 1] == "/" + t && InLanguage(p[1..], s[|t| + 1..])
      case Plain(_) => s != [] && s[0] == '/' && Word(p[1..], s[1..], AnyButSlash, 1)
      case Optional(_) => (s != [] && s[0] == '/' && Word(p[1..], s[1..], AnyButSlash, 0)) || InLanguage(p[1..], s)
      case Star(_) => (s != [] && s[0] == '/' && Word(p[1..], s[1..], AnyButNewline, 0)) || InLanguage(p[1..], s)
      case Plus(_) =>
        (s != [] && s[0] == '/' && Word(p[1..], s[1..], AnyButNewline, 1)) || Word(p[1..], s, AnyButNewline, 1)
  }

  /** Some prefix of `t` of at least `lo` characters of class `cls`, then `rest`. */
  ghost predicate Word(rest: seq<Seg>, t: string, cls: CharClass, lo: nat)
    decreases |rest|, 1
  {
    exists n :: lo <= n <= |t| && AllOf(cls, t[..n]) && InLanguage(rest, t[n..])
  }

  /** The backtracking search finds a match exactly when the string is in the language. */
  lemma {:induction false} MatchIffInLanguage(p: seq<Seg>, s: string)
    ensures MatchFrom(p, s).Some? <==> InLanguage(p, s)
    decreases |p|, 0, 0
  {
    if p != [] {
      match p[0]
      case Lit(t) =>
        if |s| > |t| && s[..|t| + 1] == "/" + t {
          MatchIffInLanguage(p[1..], s[|t| + 1..]);
        }
      case Plain(_) =>
        if s != [] && s[0] == '/' {
          WordIff(p[1..], s[1..], AnyButSlash, 1);
        }
      case Optional(_) =>
        GroupIff(p[1..], s, AnyButSlash);
      case Star(_) =>
        GroupIff(p[1..], s, AnyButNewline);
      case Plus(_) =>
        if s != [] && s[0] == '/' {
          WordIff(p[1..], s[1..], AnyButNewline, 1);
        }
        WordIff(p[1..], s, AnyButNewline, 1);
    }
  }

  lemma {:induction false} GreedyIff(rest: seq<Seg>, t: string, n: nat, lo: nat)
    requires n <= |t|
    ensures Greedy(rest, t, n, lo).Some? <==> exists m :: lo <= m <= n && InLanguage(rest, t[m..])
    decreases |rest|, 1, n
  {
    if n >= lo {
      MatchIffInLanguage(rest, t[n..]);
      if MatchFrom(rest, t[n..]).None? && n > 0 {
        GreedyIff(rest, t, n - 1, lo);
      }
    }
  }

  lemma {:induction false} WordIff(rest: seq<Seg>, t: string, cls: CharClass, lo: nat)
    ensures Greedy(rest, t, Run(cls, t), lo).Some? <==> Word(rest, t, cls, lo)
    decreases |rest|, 1, |t| + 1
  {
    var r := Run(cls, t);
    GreedyIff(rest, t, r, lo);
    if Word(rest, t, cls, lo) {
      var n :| lo <= n <= |t| && AllOf(cls, t[..n]) && InLanguage(rest, t[n..]);
      RunMaximal(cls, t, n);
    }
    if exists m :: lo <= m <= r && InLanguage(rest, t[m..]) {
      var m :| lo <= m <= r && InLanguage(rest, t[m..]);
      RunPrefix(cls, t, m);
    }
  }

  /** No longer prefix than the greedy run is made of `cls` characters. */
  lemma RunMaximal(cls: CharClass, t: string, n: nat)
    requires n <= |t| && AllOf(cls, t[..n])
    ensures n <= Run(cls, t)
  {
  }

  /** Every prefix of the greedy run is made of `cls` characters. */
  lemma RunPrefix(cls: CharClass, t: string, m: nat)
    requires m <= Run(cls, t)
    ensures AllOf(cls, t[..m])
  {
  }

  lemma {:induction false} GroupIff(rest: seq<Seg>, s: string, cls: CharClass)
    ensures Group(rest, s, cls).Some? <==>
      (s != [] && s[0] == '/' && Word(rest, s[1..], cls, 0)) || InLanguage(rest, s)
    decreases |rest|, 2, 0
  {
    MatchIffInLanguage(rest, s);
    if s != [] && s[0] == '/' {
      WordIff(rest, s[1..], cls, 0);
      MatchIffInLanguage(rest, s[1..]);
      if InLanguage(rest, s[1..]) {
        assert s[1..][0..] == s[1..];
        assert AllOf(cls, s[1..][..0]);
      }
    }
  }

  // ---------------------------------------------------------------- what each token captures

  /** A request path as the router sees it: no newline (which `$` and `.` treat specially). */
  predicate NoNewline(s: string) {
    '\n' !in s
  }

  /** `s` without one trailing slash. */
  function StripSlash(s: string): (r: string)
    ensures r == s || s == r + "/"
  {
    if s != [] && s[|s| - 1] == '/' then s[..|s| - 1] else s
  }

  lemma EndMatchesPath(s: string)
    requires NoNewline(s)
    ensures EndMatches(s) <==> s == [] || s == "/"
  {
    if |s| >= 2 {
      assert s[1] in s;
      assert s[1..][0] == s[1];
    }
    if |s| == 1 {
      assert s == [s[0]];
    }
  }

  /** `StripSlash(t)` is the part of `t` before its only (and final) slash. */
  lemma StripSlashOf(t: string, w: string)
    requires '/' !in w && (t == w || t == w + "/")
    ensures StripSlash(t) == w
  {
    if t == w + "/" {
      assert t[..|t| - 1] == w;
    }
  }

  lemma RunAll(cls: CharClass, t: string)
    requires AllOf(cls, t)
    ensures Run(cls, t) == |t|
  {
  }

  /** The greedy run up to the first slash of `w + tail`, when `tail` starts with one. */
  lemma RunUpToSlash(w: string, tail: string)
    requires '/' !in w && (tail == [] || tail[0] == '/')
    ensures Run(AnyButSlash, w + tail) == |w|
  {
    var t := w + tail;
    assert AllOf(AnyButSlash, t[..|w|]) by {
      assert t[..|w|] == w;
    }
    RunMaximal(AnyButSlash, t, |w|);
    if |w| < |t| {
      assert t[|w|] == tail[0];
    }
  }

  /** Reference groups for the one-token pattern `/:t`. */
  function PlainGroups(s: string): Option<seq<Capture>> {
    if s != [] && s[0] == '/' && StripSlash(s[1..]) != [] && '/' !in StripSlash(s[1..])
    then Some([Some(StripSlash(s[1..]))])
    else None
  }

  /** Reference groups for `/:t?`. */
  function OptionalGroups(s: string): Option<seq<Capture>> {
    if s == [] then Some([None])
    else if s[0] == '/' && '/' !in StripSlash(s[1..]) then Some([Some(StripSlash(s[1..]))])
    else None
  }

  /** Reference groups for `/:t*`. */
  function StarGroups(s: string): Option<seq<Capture>> {
    if s == [] then Some([None])
    else if s[0] == '/' then Some([Some(s[1..])])
    else None
  }

  /** Reference groups for `/:t+`. */
  function PlusGroups(s: string): Option<seq<Capture>> {
    if s == [] then None
    else if s == "/" then Some([Some("/")])
    else if s[0] == '/' then Some([Some(s[1..])])
    else Some([Some(s)])
  }

  /**
   * A plain token takes exactly one non-empty, slash-free segment; a
   * trailing slash is allowed and not captured.
   */
  lemma PlainCaptures(name: string, s: string)
    requires NoNewline(s)
    ensures MatchFrom([Plain(name)], s) == PlainGroups(s)
  {
    if s != [] && s[0] == '/' {
      var t := s[1..];
      var m := Run(AnyButSlash, t);
      var w := StripSlash(t);
      assert [Plain(name)][1..] == [];
      GreedyIff([], t, m, 1);
      if w != [] && '/' !in w {
        assert t == w + t[|w|..];
        RunUpToSlash(w, t[|w|..]);
        assert t[m..] == [] || t[m..] == "/";
        assert t[..m] == w;
        EndMatchesPath(t[m..]);
        assert MatchFrom([], t[m..]) == Some([]);
        assert MatchFrom([Plain(name)], s) == Greedy([], t, m, 1);
        assert m >= 1;
        assert [Some(t[..m])] + [] == [Some(w)];
        assert Greedy([], t, m, 1) == Some([Some(w)]);
      }
    }
  }

  /**
   * An optional token takes at most one slash-free segment: the empty path
   * leaves it unset, and a bare `/` sets it to the empty string.
   */
  lemma OptionalCaptures(name: string, s: string)
    requires NoNewline(s)
    ensures MatchFrom([Optional(name)], s) == OptionalGroups(s)
  {
    assert [Optional(name)][1..] == [];
    assert MatchFrom([Optional(name)], s) == Group([], s, AnyButSlash);
    EndMatchesPath(s);
    if s == [] {
      assert MatchFrom([], s) == Some([]);
      var unset: seq<Capture> := [None];
      assert unset + [] == unset;
    } else if s[0] == '/' {
      var t := s[1..];
      var m := Run(AnyButSlash, t);
      var w := StripSlash(t);
      GreedyIff([], t, m, 0);
      EndMatchesPath(t);
      forall k | 0 <= k <= m && InLanguage([], t[k..])
        ensures StripSlash(t) == t[..k]
      {
        EndedRun(t, k);
      }
      if t == [] || t == "/" {
        StripSlashOf(t, []);
      }
      if '/' !in w {
        assert t == w + t[|w|..];
        RunUpToSlash(w, t[|w|..]);
        assert t[m..] == [] || t[m..] == "/";
        assert t[..m] == w;
        EndMatchesPath(t[m..]);
        assert MatchFrom([], t[m..]) == Some([]);
        assert [Some(t[..m])] + [] == [Some(w)];
        assert Greedy([], t, m, 0) == Some([Some(w)]);
      } else {
        assert Greedy([], t, m, 0).None?;
        assert MatchFrom([], t).None?;
        assert MatchFrom([], s).None?;
      }
    }
  }

  /** Where the tail matches right after a slash-free run, that run is the whole segment. */
  lemma EndedRun(t: string, k: nat)
    requires NoNewline(t) && k <= Run(AnyButSlash, t) && EndMatches(t[k..])
    ensures StripSlash(t) == t[..k]
  {
    assert NoNewline(t[k..]) by {
      forall c | c in t[k..] ensures c in t {
      }
    }
    EndMatchesPath(t[k..]);
    RunPrefix(AnyButSlash, t, k);
    assert t == t[..k] + t[k..];
    StripSlashOf(t, t[..k]);
  }

  /** A `*` token takes everything after the slash, trailing slash included. */
  lemma StarCaptures(name: string, s: string)
    requires NoNewline(s)
    ensures MatchFrom([Star(name)], s) == StarGroups(s)
  {
    assert [Star(name)][1..] == [];
    assert MatchFrom([Star(name)], s) == Group([], s, AnyButNewline);
    EndMatchesPath(s);
    if s == [] {
      assert MatchFrom([], s) == Some([]);
      var unset: seq<Capture> := [None];
      assert unset + [] == unset;
    } else if s[0] == '/' {
      var t := s[1..];
      RunAll(AnyButNewline, t);
      assert t[|t|..] == [] && t[..|t|] == t;
      assert MatchFrom([], t[|t|..]) == Some([]);
      assert [Some(t)] + [] == [Some(t)];
      assert Greedy([], t, |t|, 0) == Some([Some(t)]);
    }
  }

  /**
   * A `+` token takes at least one character: everything after a leading
   * slash, the bare slash itself, or a whole path that has no leading slash.
   */
  lemma PlusCaptures(name: string, s: string)
    requires NoNewline(s)
    ensures MatchFrom([Plus(name)], s) == PlusGroups(s)
  {
    assert [Plus(name)][1..] == [];
    RunAll(AnyButNewline, s);
    assert s[|s|..] == [] && s[..|s|] == s;
    assert MatchFrom([], s[|s|..]) == Some([]);
    assert [Some(s)] + [] == [Some(s)];
    if s != [] {
      assert Greedy([], s, |s|, 1) == Some([Some(s)]);
    }
    if s != [] && s[0] == '/' {
      var t := s[1..];
      RunAll(AnyButNewline, t);
      assert t[|t|..] == [] && t[..|t|] == t;
      assert MatchFrom([], t[|t|..]) == Some([]);
      assert [Some(t)] + [] == [Some(t)];
      if s == "/" {
        assert t == [];
        assert Greedy([], t, 0, 1).None?;
      } else {
        assert Greedy([], t, |t|, 1) == Some([Some(t)]);
      }
    }
  }

  // ---------------------------------------------------------------- composition

  predicate AllLiterals(segs: seq<Seg>) {
    forall i :: 0 <= i < |segs| ==> segs[i].Lit?
  }

  /** A leading literal consumes a slash and its own text. */
  lemma LitStep(p: seq<Seg>, tail: string)
    requires p != [] && p[0].Lit?
    ensures MatchFrom(p, "/" + p[0].text + tail) == MatchFrom(p[1..], tail)
  {
    var t := p[0].text;
    var whole := "/" + t + tail;
    assert whole[..|t| + 1] == "/" + t;
    assert whole[|t| + 1..] == tail;
  }

  /** A leading plain token captures a non-empty slash-free value up to the next slash. */
  lemma PlainStep(p: seq<Seg>, v: string, tail: string, caps: seq<Capture>)
    requires p != [] && p[0].Plain? && Segment(v) && (tail == [] || tail[0] == '/')
    requires MatchFrom(p[1..], tail) == Some(caps)
    ensures MatchFrom(p, "/" + v + tail) == Some([Some(v)] + caps)
  {
    var whole := "/" + v + tail;
    assert whole[1..] == v + tail;
    RunUpToSlash(v, tail);
    assert (v + tail)[|v|..] == tail && (v + tail)[..|v|] == v;
  }

  /** A run of literal segments consumes exactly its own template text. */
  lemma {:induction false} LiteralPrefix(lits: seq<Seg>, p: seq<Seg>, s: string)
    requires AllLiterals(lits)
    ensures MatchFrom(lits + p, TemplateText(lits) + s) == MatchFrom(p, s)
    decreases |lits|
  {
    if lits != [] {
      var t := lits[0].text;
      var tail := TemplateText(lits[1..]) + s;
      assert TemplateText(lits) + s == "/" + t + tail;
      assert (lits + p)[0] == lits[0] && (lits + p)[1..] == lits[1..] + p;
      LitStep(lits + p, tail);
      LiteralPrefix(lits[1..], p, s);
    } else {
      assert lits + p == p;
      assert TemplateText(lits) + s == s;
    }
  }

  /** On a path without newline, a trailing slash is tolerated: appending one never loses a match. */
  lemma TrailingSlash(p: seq<Seg>, s: string)
    requires NoNewline(s) && (s == [] || s[|s| - 1] != '/')
    ensures MatchFrom(p, s).Some? ==> MatchFrom(p, s + "/").Some?
  {
    MatchIffInLanguage(p, s);
    MatchIffInLanguage(p, s + "/");
    if InLanguage(p, s) {
      LanguageTrailingSlash(p, s);
    }
  }

  lemma {:induction false} LanguageTrailingSlash(p: seq<Seg>, s: string)
    requires NoNewline(s) && (s == [] || s[|s| - 1] != '/')
    requires InLanguage(p, s)
    ensures InLanguage(p, s + "/")
    decreases |p|, 0
  {
    var s' := s + "/";
    if p == [] {
      EndMatchesPath(s);
      assert s' == "/";
    } else {
      match p[0]
      case Lit(t) =>
        assert s'[..|t| + 1] == s[..|t| + 1];
        assert s'[|t| + 1..] == s[|t| + 1..] + "/";
        LanguageTrailingSlash(p[1..], s[|t| + 1..]);
      case Plain(_) =>
        assert s'[1..] == s[1..] + "/";
        WordTrailingSlash(p[1..], s[1..], AnyButSlash, 1);
      case Optional(_) =>
        if InLanguage(p[1..], s) {
          LanguageTrailingSlash(p[1..], s);
        } else {
          assert s'[1..] == s[1..] + "/";
          WordTrailingSlash(p[1..], s[1..], AnyButSlash, 0);
        }
      case Star(_) =>
        if InLanguage(p[1..], s) {
          LanguageTrailingSlash(p[1..], s);
        } else {
          assert s'[1..] == s[1..] + "/";
          WordTrailingSlash(p[1..], s[1..], AnyButNewline, 0);
        }
      case Plus(_) =>
        if s != [] && s[0] == '/' && Word(p[1..], s[1..], AnyButNewline, 1) {
          assert s'[1..] == s[1..] + "/";
          WordTrailingSlash(p[1..], s[1..], AnyButNewline, 1);
        } else {
          WordTrailingSlash(p[1..], s, AnyButNewline, 1);
        }
    }
  }

  lemma {:induction false} WordTrailingSlash(rest: seq<Seg>, t: string, cls: CharClass, lo: nat)
    requires NoNewline(t) && (t == [] || t[|t| - 1] != '/')
    requires Word(rest, t, cls, lo)
    ensures Word(rest, t + "/", cls, lo)
    decreases |rest|, 1
  {
    var n :| lo <= n <= |t| && AllOf(cls, t[..n]) && InLanguage(rest, t[n..]);
    var t' := t + "/";
    assert t'[..n] == t[..n];
    assert t'[n..] == t[n..] + "/";
    LanguageTrailingSlash(rest, t[n..]);
  }

  // ---------------------------------------------------------------- templates

  /** Only literals and plain tokens: the patterns whose template the test client can fill. */
  predicate Simple(segs: seq<Seg>) {
    forall i :: 0 <= i < |segs| ==> segs[i].Lit? || segs[i].Plain?
  }

  /** The template text with the tokens replaced, in order, by `vals`. */
  function Fill(segs: seq<Seg>, vals: seq<string>): (path: string)
    requires |vals| == TokenCount(segs)
    ensures path == [] || path[0] == '/'
  {
    if segs == [] then ""
    else if segs[0].Lit? then "/" + segs[0].text + Fill(segs[1..], vals)
    else "/" + vals[0] + Fill(segs[1..], vals[1..])
  }

  function Captured(vals: seq<string>): (caps: seq<Capture>)
    ensures |caps| == |vals|
    ensures forall i :: 0 <= i < |vals| ==> caps[i] == Some(vals[i])
  {
    seq(|vals|, i requires 0 <= i < |vals| => Some(vals[i]))
  }

  predicate Segment(v: string) {
    v != [] && '/' !in v
  }

  /**
   * Filling a literal-and-plain template with non-empty, slash-free values
   * gives a path the compiled expression accepts, capturing exactly those
   * values.
   */
  lemma {:induction false} FillMatches(segs: seq<Seg>, vals: seq<string>)
    requires Simple(segs) && |vals| == TokenCount(segs)
    requires forall i :: 0 <= i < |vals| ==> Segment(vals[i])
    ensures MatchFrom(segs, Fill(segs, vals)) == Some(Captured(vals))
    decreases |segs|
  {
    if segs == [] {
    } else if segs[0].Lit? {
      FillMatches(segs[1..], vals);
      LitStep(segs, Fill(segs[1..], vals));
    } else {
      assert forall i :: 0 <= i < |vals[1..]| ==> Segment(vals[1..][i]);
      FillMatches(segs[1..], vals[1..]);
      PlainStep(segs, vals[0], Fill(segs[1..], vals[1..]), Captured(vals[1..]));
      assert Captured(vals) == [Some(vals[0])] + Captured(vals[1..]);
    }
  }

  // ---------------------------------------------------------------- behaviour worth knowing

  /** `/files/:rest*` keeps the trailing slash of `/files/a/` in its group. */
  lemma StarKeepsTrailingSlash()
    ensures MatchFrom([Lit("files"), Star("rest")], "/files/a/") == Some([Some("a/")])
  {
    var p := [Lit("files"), Star("rest")];
    assert p[1..] == [Star("rest")];
    LitStep(p, "/a/");
    StarCaptures("rest", "/a/");
  }

  /** `/files/:rest+` needs no slash after the literal: `/filesabc` matches with `abc`. */
  lemma PlusWithoutSlash()
    ensures MatchFrom([Lit("files"), Plus("rest")], "/filesabc") == Some([Some("abc")])
  {
    var p := [Lit("files"), Plus("rest")];
    assert p[1..] == [Plus("rest")];
    LitStep(p, "abc");
    PlusCaptures("rest", "abc");
  }

  /** `/files/:rest+` accepts `/files/`, capturing the slash itself. */
  lemma PlusCapturesBareSlash()
    ensures MatchFrom([Lit("files"), Plus("rest")], "/files/") == Some([Some("/")])
  {
    var p := [Lit("files"), Plus("rest")];
    assert p[1..] == [Plus("rest")];
    LitStep(p, "/");
    PlusCaptures("rest", "/");
  }

  /** `$` also matches before a final newline, so `/a` accepts `/a` followed by one. */
  lemma NewlineBeforeEnd()
    ensures MatchFrom([Lit("a")], "/a\n") == Some([])
  {
    LiteralPrefix([Lit("a")], [], "\n");
  }
}

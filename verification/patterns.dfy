/**
 * The path-pattern compiler: `Router.patternToRegex` and
 * `Router.patternToTemplate`.
 *
 * A pattern such as `/user/:name/:rest*` is split at `/`; empty pieces are
 * dropped and every remaining part becomes one segment. A part starting
 * with `:` is a token whose last character selects its kind: `?`
 * (optional), `*` (zero or more characters), `+` (one or more characters),
 * anything else a plain token. Any other part is a literal.
 */
module Patterns {
  import opened Wrappers
  import opened Text

  datatype Seg =
    | Lit(text: string)       // `\/` + text
    | Plain(name: string)     // `\/([^\/]+)`
    | Optional(name: string)  // `(?:\/([^\/]*)|\/)?`
    | Star(name: string)      // `(?:\/(.*)|\/)?`
    | Plus(name: string)      // `\/?(.+)`
  {
    predicate IsToken() {
      !Lit?
    }

    /** The kinds of which a pattern may hold only one. */
    predicate IsFinal() {
      Optional? || Star? || Plus?
    }

    /** The kinds counted in `required`. */
    predicate IsRequired() {
      Plain? || Plus?
    }
  }

  /** `[part for part in pattern.split("/") if part]` */
  function Parts(pattern: string): (ps: seq<string>)
    ensures forall i :: 0 <= i < |ps| ==> ps[i] != []
  {
    NonEmpty(Split(pattern, '/'))
  }

  /** How both compilers read one non-empty part. */
  function Classify(part: string): (seg: Seg)
    requires part != []
  {
    if part[0] == ':' then
      var c := part[|part| - 1];
      if c == '?' then Optional(part[1..|part| - 1])
      else if c == '*' then Star(part[1..|part| - 1])
      else if c == '+' then Plus(part[1..|part| - 1])
      else Plain(part[1..])
    else Lit(part)
  }

  function Segments(parts: seq<string>): (segs: seq<Seg>)
    requires forall i :: 0 <= i < |parts| ==> parts[i] != []
    ensures |segs| == |parts|
  {
    seq(|parts|, i requires 0 <= i < |parts| => Classify(parts[i]))
  }

  /** The segments of the first `i + 1` parts extend those of the first `i` by the next part's. */
  lemma SegmentsStep(parts: seq<string>, i: nat)
    requires forall j :: 0 <= j < |parts| ==> parts[j] != []
    requires i < |parts|
    ensures Segments(parts)[..i + 1] == Segments(parts)[..i] + [Classify(parts[i])]
  {
    PrefixStep(Segments(parts), i);
  }

  /** The segments of a pattern, whether or not it compiles. */
  function PatternSegments(pattern: string): seq<Seg> {
    Segments(Parts(pattern))
  }

  /** Token names in pattern order (the `tokens` list). */
  function Tokens(segs: seq<Seg>): seq<string> {
    if segs == [] then []
    else (if segs[0].IsToken() then [segs[0].name] else []) + Tokens(segs[1..])
  }

  function TokenCount(segs: seq<Seg>): nat {
    if segs == [] then 0 else (if segs[0].IsToken() then 1 else 0) + TokenCount(segs[1..])
  }

  /** Number of plain and `+` tokens (the `required` counter). */
  function Required(segs: seq<Seg>): nat {
    if segs == [] then 0 else (if segs[0].IsRequired() then 1 else 0) + Required(segs[1..])
  }

  function FinalCount(segs: seq<Seg>): nat {
    if segs == [] then 0 else (if segs[0].IsFinal() then 1 else 0) + FinalCount(segs[1..])
  }

  datatype PatternError = InvalidPattern(pattern: string)

  /**
   * What compiling a pattern yields, stated declaratively: the segments of
   * its parts, unless two of them are `?`, `*` or `+` tokens.
   */
  function Compile(pattern: string): Result<seq<Seg>, PatternError> {
    var segs := PatternSegments(pattern);
    if FinalCount(segs) >= 2 then Failure(InvalidPattern(pattern)) else Success(segs)
  }

  /** The regular expression text the source emits for one segment. */
  function SegmentRegex(seg: Seg): (r: string)
    ensures |r| >= 2
  {
    match seg
    case Lit(t) => "\\/" + t
    case Plain(_) => "\\/([^\\/]+)"
    case Optional(_) => "(?:\\/([^\\/]*)|\\/)?"
    case Star(_) => "(?:\\/(.*)|\\/)?"
    case Plus(_) => "\\/?(.+)"
  }

  function SegmentsRegex(segs: seq<Seg>): string {
    if segs == [] then "" else SegmentRegex(segs[0]) + SegmentsRegex(segs[1..])
  }

  /** The whole anchored expression: `^`, the segments, `\/?`, `$`. */
  function RegexSource(segs: seq<Seg>): string {
    "^" + SegmentsRegex(segs) + "\\/?" + "$"
  }

  /** The template text: `/lit` for a literal, `/{name}` for a token. */
  function SegmentTemplate(seg: Seg): string {
    if seg.Lit? then "/" + seg.text else "/{" + seg.name + "}"
  }

  function TemplateText(segs: seq<Seg>): string {
    if segs == [] then "" else SegmentTemplate(segs[0]) + TemplateText(segs[1..])
  }

  // ---------------------------------------------------------------- append lemmas

  lemma {:induction false} AppendTokens(segs: seq<Seg>, seg: Seg)
    ensures Tokens(segs + [seg]) == Tokens(segs) + (if seg.IsToken() then [seg.name] else [])
    decreases |segs|
  {
    if segs != [] {
      AppendTokens(segs[1..], seg);
      assert (segs + [seg])[1..] == segs[1..] + [seg];
    }
  }

  lemma {:induction false} AppendTokenCount(segs: seq<Seg>, seg: Seg)
    ensures TokenCount(segs + [seg]) == TokenCount(segs) + (if seg.IsToken() then 1 else 0)
    decreases |segs|
  {
    if segs != [] {
      AppendTokenCount(segs[1..], seg);
      assert (segs + [seg])[1..] == segs[1..] + [seg];
    }
  }

  lemma {:induction false} AppendRequired(segs: seq<Seg>, seg: Seg)
    ensures Required(segs + [seg]) == Required(segs) + (if seg.IsRequired() then 1 else 0)
    decreases |segs|
  {
    if segs != [] {
      AppendRequired(segs[1..], seg);
      assert (segs + [seg])[1..] == segs[1..] + [seg];
    }
  }

  lemma {:induction false} AppendFinalCount(segs: seq<Seg>, seg: Seg)
    ensures FinalCount(segs + [seg]) == FinalCount(segs) + (if seg.IsFinal() then 1 else 0)
    decreases |segs|
  {
    if segs != [] {
      AppendFinalCount(segs[1..], seg);
      assert (segs + [seg])[1..] == segs[1..] + [seg];
    }
  }

  lemma {:induction false} AppendSegmentsRegex(segs: seq<Seg>, seg: Seg)
    ensures SegmentsRegex(segs + [seg]) == SegmentsRegex(segs) + SegmentRegex(seg)
    decreases |segs|
  {
    if segs != [] {
      AppendSegmentsRegex(segs[1..], seg);
      assert (segs + [seg])[1..] == segs[1..] + [seg];
    }
  }

  lemma {:induction false} AppendTemplateText(segs: seq<Seg>, seg: Seg)
    ensures TemplateText(segs + [seg]) == TemplateText(segs) + SegmentTemplate(seg)
    decreases |segs|
  {
    if segs != [] {
      AppendTemplateText(segs[1..], seg);
      assert (segs + [seg])[1..] == segs[1..] + [seg];
    }
  }

  lemma {:induction false} FinalCountPrefix(segs: seq<Seg>, i: nat)
    requires i <= |segs|
    ensures FinalCount(segs[..i]) <= FinalCount(segs)
    decreases |segs|
  {
    if i > 0 {
      FinalCountPrefix(segs[1..], i - 1);
      assert segs[..i][1..] == segs[1..][..i - 1];
    }
  }

  /**
   * `patternToRegex` raises ValueError exactly when some `?`, `*` or `+`
   * token is followed, anywhere later, by a second one; whatever else
   * follows the first (literals, plain tokens) is accepted.
   */
  lemma {:induction false} CompileFailsIffSecondFinal(pattern: string)
    ensures Compile(pattern).Failure? <==>
      exists i, j :: 0 <= i < j < |PatternSegments(pattern)|
        && PatternSegments(pattern)[i].IsFinal() && PatternSegments(pattern)[j].IsFinal()
  {
    TwoFinals(PatternSegments(pattern));
  }

  lemma {:induction false} TwoFinals(segs: seq<Seg>)
    ensures FinalCount(segs) >= 2 <==>
      exists i, j :: 0 <= i < j < |segs| && segs[i].IsFinal() && segs[j].IsFinal()
    decreases |segs|
  {
    if segs != [] {
      TwoFinals(segs[1..]);
      if FinalCount(segs) >= 2 {
        if segs[0].IsFinal() {
          OneFinal(segs[1..]);
          var j :| 0 <= j < |segs[1..]| && segs[1..][j].IsFinal();
          assert segs[0].IsFinal() && segs[j + 1].IsFinal();
        } else {
          var i, j :| 0 <= i < j < |segs[1..]| && segs[1..][i].IsFinal() && segs[1..][j].IsFinal();
          assert segs[i + 1].IsFinal() && segs[j + 1].IsFinal();
        }
      }
      if exists i, j :: 0 <= i < j < |segs| && segs[i].IsFinal() && segs[j].IsFinal() {
        var i, j :| 0 <= i < j < |segs| && segs[i].IsFinal() && segs[j].IsFinal();
        assert segs[1..][j - 1].IsFinal();
        OneFinal(segs[1..]);
        if i > 0 {
          assert segs[1..][i - 1].IsFinal();
        }
      }
    }
  }

  lemma {:induction false} OneFinal(segs: seq<Seg>)
    ensures FinalCount(segs) >= 1 <==> exists j :: 0 <= j < |segs| && segs[j].IsFinal()
    decreases |segs|
  {
    if segs != [] {
      OneFinal(segs[1..]);
      if exists j :: 0 <= j < |segs| && segs[j].IsFinal() {
        var j :| 0 <= j < |segs| && segs[j].IsFinal();
        if j > 0 {
          assert segs[1..][j - 1].IsFinal();
        }
      }
      if FinalCount(segs[1..]) >= 1 {
        var j :| 0 <= j < |segs[1..]| && segs[1..][j].IsFinal();
        assert segs[j + 1].IsFinal();
      }
    }
  }

  // ---------------------------------------------------------------- the two compilers

  datatype Compiled = Compiled(regex: string, segs: seq<Seg>, tokens: seq<string>)

  /**
   * The body of `patternToRegex`'s loop for one part: the text appended to
   * `re_str`, the tokens appended to `tokens` and the new `final`; `ok` is
   * false where the source raises, a second `?`, `*` or `+` token.
   */
  method CompilePart(part: string, final: bool) returns (ok: bool, piece: string, token: seq<string>, nowFinal: bool)
    requires part != []
    ensures ok <==> !(final && Classify(part).IsFinal())
    ensures ok ==> piece == SegmentRegex(Classify(part))
    ensures ok ==> token == if Classify(part).IsToken() then [Classify(part).name] else []
    ensures ok ==> nowFinal == (final || Classify(part).IsFinal())
  {
    token, nowFinal := [], final;
    if part[0] == ':' {
      var c := part[|part| - 1];
      if c == '?' {
        if final {
          return false, "", [], final;
        }
        token := [part[1..|part| - 1]];
        piece := "(?:\\/([^\\/]*)|\\/)?";
        nowFinal := true;
      } else if c == '*' {
        if final {
          return false, "", [], final;
        }
        token := [part[1..|part| - 1]];
        piece := "(?:\\/(.*)|\\/)?";
        nowFinal := true;
      } else if c == '+' {
        if final {
          return false, "", [], final;
        }
        token := [part[1..|part| - 1]];
        piece := "\\/?(.+)";
        nowFinal := true;
      } else {
        token := [part[1..]];
        piece := "\\/([^\\/]+)";
      }
    } else {
      piece := "\\/" + part;
    }
    ok := true;
  }

  /** Appending a segment's text keeps `re_str` the anchor followed by the segments' text. */
  lemma CompileStep(segs: seq<Seg>, seg: Seg, reStr: string, piece: string)
    requires reStr == "^" + SegmentsRegex(segs) && piece == SegmentRegex(seg)
    requires seg.Lit? ==> seg.text != []
    ensures reStr + piece == "^" + SegmentsRegex(segs + [seg]) && |reStr + piece| >= 4
  {
    AppendSegmentsRegex(segs, seg);
    ConcatAssoc("^", SegmentsRegex(segs), piece);
  }

  /** `re_str` is never exactly `^\\/`, so the optional trailing slash is always appended. */
  lemma RegexEnd(segs: seq<Seg>, reStr: string)
    requires reStr == "^" + SegmentsRegex(segs) && (segs == [] || |reStr| >= 4)
    ensures reStr != "^\\/" && reStr + "\\/?" + "$" == RegexSource(segs)
  {
    if segs == [] {
      assert reStr == "^";
    }
  }

  /** What `patternToRegex`'s loop has built after the first `i` parts. */
  ghost predicate RegexSoFar(parts: seq<string>, i: nat, segs: seq<Seg>, tokens: seq<string>, reStr: string, final: bool)
    requires forall j :: 0 <= j < |parts| ==> parts[j] != []
  {
    && i <= |parts| && segs == Segments(parts)[..i]
    && tokens == Tokens(segs)
    && reStr == "^" + SegmentsRegex(segs)
    && (segs == [] || |reStr| >= 4)
    && (final <==> FinalCount(segs) == 1)
    && FinalCount(segs) <= 1
  }

  /** A part that does not raise extends every piece of the loop state by its segment. */
  lemma RegexStep(parts: seq<string>, i: nat, segs: seq<Seg>, tokens: seq<string>, reStr: string, final: bool,
                  piece: string, token: seq<string>, nowFinal: bool)
    requires forall j :: 0 <= j < |parts| ==> parts[j] != []
    requires i < |parts| && RegexSoFar(parts, i, segs, tokens, reStr, final)
    requires !(final && Classify(parts[i]).IsFinal())
    requires piece == SegmentRegex(Classify(parts[i]))
    requires token == if Classify(parts[i]).IsToken() then [Classify(parts[i]).name] else []
    requires nowFinal == (final || Classify(parts[i]).IsFinal())
    ensures RegexSoFar(parts, i + 1, segs + [Classify(parts[i])], tokens + token, reStr + piece, nowFinal)
  {
    var seg := Classify(parts[i]);
    SegmentsStep(parts, i);
    AppendTokens(segs, seg);
    AppendFinalCount(segs, seg);
    CompileStep(segs, seg, reStr, piece);
  }

  /** A second `?`, `*` or `+` token makes the whole pattern fail to compile. */
  lemma RegexFails(pattern: string, i: nat, segs: seq<Seg>, tokens: seq<string>, reStr: string, final: bool)
    requires i < |Parts(pattern)| && RegexSoFar(Parts(pattern), i, segs, tokens, reStr, final)
    requires final && Classify(Parts(pattern)[i]).IsFinal()
    ensures Compile(pattern).Failure?
  {
    var parts := Parts(pattern);
    SegmentsStep(parts, i);
    AppendFinalCount(segs, Classify(parts[i]));
    FinalCountPrefix(Segments(parts), i + 1);
  }

  /** After the last part the pattern compiles to the segments built, and `re_str` is never `^\\/`. */
  lemma RegexDone(pattern: string, segs: seq<Seg>, tokens: seq<string>, reStr: string, final: bool)
    requires RegexSoFar(Parts(pattern), |Parts(pattern)|, segs, tokens, reStr, final)
    ensures Compile(pattern) == Success(segs) && tokens == Tokens(segs)
    ensures reStr != "^\\/" && reStr + "\\/?" + "$" == RegexSource(segs)
  {
    assert segs == PatternSegments(pattern);
    RegexEnd(segs, reStr);
  }

  /**
   * `Router.patternToRegex`. Next to `re_str` the loop keeps `segs`, the
   * structured form of the expression that `Matcher` interprets.
   */
  method PatternToRegex(pattern: string) returns (r: Result<Compiled, PatternError>)
    ensures r.Success? <==> Compile(pattern).Success?
    ensures r.Failure? ==> r.error == InvalidPattern(pattern)
    ensures r.Success? ==> r.value.segs == Compile(pattern).value
    ensures r.Success? ==> r.value.tokens == Tokens(r.value.segs)
    ensures r.Success? ==> r.value.regex == RegexSource(r.value.segs)
  {
    var parts := Parts(pattern);
    var tokens: seq<string> := [];
    var reStr := "^";
    var final := false;
    var segs: seq<Seg> := [];
    for i := 0 to |parts|
      invariant RegexSoFar(parts, i, segs, tokens, reStr, final)
    {
      var ok, piece, token, nowFinal := CompilePart(parts[i], final);
      if !ok {
        RegexFails(pattern, i, segs, tokens, reStr, final);
        return Failure(InvalidPattern(pattern));
      }
      RegexStep(parts, i, segs, tokens, reStr, final, piece, token, nowFinal);
      reStr, tokens, final := reStr + piece, tokens + token, nowFinal;
      segs := segs + [Classify(parts[i])];
    }
    RegexDone(pattern, segs, tokens, reStr, final);
    if reStr != "^\\/" {
      reStr := reStr + "\\/?";
    }
    reStr := reStr + "$";
    r := Success(Compiled(reStr, segs, tokens));
  }

  /** What `patternToTemplate`'s loop has built after the first `i` parts. */
  ghost predicate TemplateSoFar(parts: seq<string>, i: nat, tokens: seq<string>, template: string, required: nat)
    requires forall j :: 0 <= j < |parts| ==> parts[j] != []
  {
    && i <= |parts|
    && tokens == Tokens(Segments(parts)[..i])
    && template == TemplateText(Segments(parts)[..i])
    && required == Required(Segments(parts)[..i])
  }

  /** One more part extends the tokens, the template and the `required` counter by its segment. */
  lemma TemplateStep(parts: seq<string>, i: nat, tokens: seq<string>, template: string, required: nat)
    requires forall j :: 0 <= j < |parts| ==> parts[j] != []
    requires i < |parts| && TemplateSoFar(parts, i, tokens, template, required)
    ensures var seg := Classify(parts[i]);
      TemplateSoFar(parts, i + 1,
        tokens + (if seg.IsToken() then [seg.name] else []),
        template + SegmentTemplate(seg),
        required + (if seg.IsRequired() then 1 else 0))
  {
    var segs := Segments(parts)[..i];
    var seg := Classify(parts[i]);
    SegmentsStep(parts, i);
    AppendTokens(segs, seg);
    AppendRequired(segs, seg);
    AppendTemplateText(segs, seg);
  }

  /**
   * The body of `patternToTemplate`'s loop for one part: the tokens appended
   * to `tokens`, the text appended to `template` and the increment of
   * `required`.
   */
  method TemplatePart(part: string) returns (token: seq<string>, piece: string, counted: nat)
    requires part != []
    ensures token == if Classify(part).IsToken() then [Classify(part).name] else []
    ensures piece == SegmentTemplate(Classify(part))
    ensures counted == if Classify(part).IsRequired() then 1 else 0
  {
    token, counted := [], 0;
    if part[0] == ':' {
      var c := part[|part| - 1];
      if c == '?' || c == '*' {
        token := [part[1..|part| - 1]];
      } else if c == '+' {
        token := [part[1..|part| - 1]];
        counted := 1;
      } else {
        token := [part[1..]];
        counted := 1;
      }
      piece := "/{" + token[0] + "}";
    } else {
      piece := "/" + part;
    }
  }

  /** `Router.patternToTemplate`: never raises, whatever the pattern. */
  method PatternToTemplate(pattern: string) returns (template: string, tokens: seq<string>, required: nat)
    ensures template == TemplateText(PatternSegments(pattern))
    ensures tokens == Tokens(PatternSegments(pattern))
    ensures required == Required(PatternSegments(pattern))
  {
    var parts := Parts(pattern);
    tokens := [];
    template := "";
    required := 0;
    for i := 0 to |parts|
      invariant TemplateSoFar(parts, i, tokens, template, required)
    {
      var token, piece, counted := TemplatePart(parts[i]);
      TemplateStep(parts, i, tokens, template, required);
      tokens, template, required := tokens + token, template + piece, required + counted;
    }
    assert Segments(parts)[..|parts|] == PatternSegments(pattern);
  }

  /** `required` never exceeds the number of tokens. */
  lemma {:induction false} RequiredAtMostTokens(segs: seq<Seg>)
    ensures Required(segs) <= TokenCount(segs) == |Tokens(segs)|
    decreases |segs|
  {
    if segs != [] {
      RequiredAtMostTokens(segs[1..]);
    }
  }

  /** The parts of `/files/:?` */
  lemma FilesOptionalParts()
    ensures Parts("/files/:?") == ["files", ":?"]
  {
    var pattern: string := "/files/:?";
    assert pattern == "" + ['/'] + "files/:?";
    SplitAfterPiece("", '/', "files/:?");
    assert "files/:?" == "files" + ['/'] + ":?";
    SplitAfterPiece("files", '/', ":?");
    SplitNoSeparator(":?", '/');
    var split := Split(pattern, '/');
    assert split == [""] + (["files"] + [":?"]);
    assert split[1..] == ["files", ":?"];
    assert ["files", ":?"][1..] == [":?"];
    assert NonEmpty([":?"]) == [":?"] + NonEmpty([]);
  }

  /** `/files/:?` is a literal and an optional token named `""`. */
  lemma FilesOptionalSegments()
    ensures PatternSegments("/files/:?") == [Lit("files"), Optional("")]
  {
    FilesOptionalParts();
    FilesOptionalClassified();
  }

  lemma FilesOptionalClassified()
    ensures Segments(["files", ":?"]) == [Lit("files"), Optional("")]
  {
    var parts: seq<string> := ["files", ":?"];
    var segs := Segments(parts);
    assert segs[0] == Classify(parts[0]) == Lit("files");
    assert segs[1] == Classify(parts[1]);
    assert parts[1][1..|parts[1]| - 1] == "";
  }

  /** ... so its one token is `""`, and no argument is required. */
  lemma FilesOptionalTokens()
    ensures Tokens(PatternSegments("/files/:?")) == [""]
    ensures Required(PatternSegments("/files/:?")) == 0
  {
    FilesOptionalSegments();
    var segs: seq<Seg> := [Lit("files"), Optional("")];
    assert segs[1..] == [Optional("")];
    assert segs[1..][1..] == [];
    assert Tokens(segs[1..]) == [""];
    assert Required(segs[1..]) == 0;
  }
}

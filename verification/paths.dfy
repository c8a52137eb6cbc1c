/**
 * `path_join_safe(root_directory, filename)`: both arguments have their
 * back-slashes turned into slashes, and the filename is refused when one
 * of its `/`-separated components is `.` or `..`; otherwise the two are
 * joined with `os.path.join` (POSIX rules).
 *
 * The check lets an absolute filename through, and `os.path.join` then
 * drops the root: `PathJoinSafeAsWritten` is the function as written and
 * `AbsoluteFilenameEscapes` the input that shows it; `PathJoinSafe` also
 * refuses a leading slash and keeps its result under the root.
 */
module PathSafety {
  import opened Wrappers
  import opened Text

  /** The `ValueError("invalid path")` the check raises. */
  datatype PathError = InvalidPath

  /** `s.replace("\\", "/")` */
  function Normalize(s: string): (r: string)
    ensures |r| == |s| && '\\' !in r
    ensures forall i :: 0 <= i < |s| ==> r[i] == if s[i] == '\\' then '/' else s[i]
  {
    ReplaceChar(s, '\\', '/')
  }

  /** `".." in parts or "." in parts` for `parts = set(filename.split("/"))` */
  predicate HasDotPart(filename: string) {
    var parts := set p | p in Split(filename, '/');
    ".." in parts || "." in parts
  }

  /** `os.path.join(a, b)` on POSIX: an absolute `b` replaces `a`. */
  function PosixJoin(a: string, b: string): (r: string)
    ensures |b| > 0 && b[0] == '/' ==> r == b
    ensures (|b| == 0 || b[0] != '/') ==> a <= r && |r| >= |a| + |b| && r[|r| - |b|..] == b
  {
    if |b| > 0 && b[0] == '/' then b
    else if a == [] || a[|a| - 1] == '/' then a + b
    else a + ['/'] + b
  }

  /** The function as written, with `os.path.abspath` left out. */
  function PathJoinSafeAsWritten(root: string, filename: string): (res: Result<string, PathError>)
    ensures res.Success? <==> !HasDotPart(Normalize(filename))
    ensures res.Success? ==> var f := Normalize(filename);
      |f| <= |res.value| && res.value[|res.value| - |f|..] == f
    ensures res.Success? && (|Normalize(filename)| == 0 || Normalize(filename)[0] != '/') ==>
      Normalize(root) <= res.value
    ensures res.Success? && |Normalize(filename)| > 0 && Normalize(filename)[0] == '/' ==>
      res.value == Normalize(filename)
  {
    var r := Normalize(root);
    var f := Normalize(filename);
    if HasDotPart(f) then Failure(InvalidPath) else Success(PosixJoin(r, f))
  }

  /** The check that also refuses an absolute filename. */
  function PathJoinSafe(root: string, filename: string): (res: Result<string, PathError>)
    ensures res.Success? ==> Normalize(root) <= res.value
    ensures res.Success? ==> var r := Normalize(root);
      |res.value| == |r| || r == [] || r[|r| - 1] == '/' || res.value[|r|] == '/'
  {
    var r := Normalize(root);
    var f := Normalize(filename);
    if HasDotPart(f) || (|f| > 0 && f[0] == '/') then Failure(InvalidPath) else Success(PosixJoin(r, f))
  }

  // ---------------------------------------------------------------- split facts

  lemma {:induction false} SplitAround<T>(a: seq<T>, sep: T, b: seq<T>)
    ensures Split(a + [sep] + b, sep) == Split(a, sep) + Split(b, sep)
    decreases |a|
  {
    if |a| == 0 {
      assert a + [sep] + b == [sep] + b;
      assert ([sep] + b)[1..] == b;
    } else {
      var s := a + [sep] + b;
      assert s[0] == a[0] && s[1..] == a[1..] + [sep] + b;
      SplitAround(a[1..], sep, b);
    }
  }

  lemma {:induction false} JoinAppend<T>(p: seq<seq<T>>, q: seq<seq<T>>, sep: T)
    requires |p| >= 1 && |q| >= 1
    ensures Join(p + q, sep) == Join(p, sep) + [sep] + Join(q, sep)
    decreases |p|
  {
    if |p| > 1 {
      assert (p + q)[1..] == p[1..] + q;
      JoinAppend(p[1..], q, sep);
    }
  }

  // ---------------------------------------------------------------- what the check refuses

  /**
   * A `.` or `..` component anywhere in the filename (between two slashes,
   * or at either end) gets the filename refused.
   */
  lemma DotComponentRefused(root: string, filename: string, a: string, m: string, b: string)
    requires m == "." || m == ".."
    requires ['/'] + Normalize(filename) + ['/'] == a + ['/'] + m + ['/'] + b
    ensures PathJoinSafeAsWritten(root, filename).Failure?
    ensures PathJoinSafe(root, filename).Failure?
  {
    var n := Normalize(filename);
    SplitFramed(n, '/');
    SplitAroundPiece(a, m, b, '/');
    var j := |Split(a, '/')|;
    assert (Split(a, '/') + [m] + Split(b, '/'))[j] == m;
    assert Split(n, '/')[j - 1] == m;
  }

  lemma SplitFramed<T>(n: seq<T>, sep: T)
    ensures Split([sep] + n + [sep], sep) == [[]] + Split(n, sep) + [[]]
  {
    calc {
      Split([sep] + n + [sep], sep);
      { assert [sep] + n + [sep] == [] + [sep] + (n + [sep] + []); SplitAround([], sep, n + [sep] + []); }
      [[]] + Split(n + [sep] + [], sep);
      { SplitAround(n, sep, []); }
      [[]] + Split(n, sep) + [[]];
    }
  }

  lemma SplitAroundPiece<T>(a: seq<T>, m: seq<T>, b: seq<T>, sep: T)
    requires sep !in m
    ensures Split(a + [sep] + m + [sep] + b, sep) == Split(a, sep) + [m] + Split(b, sep)
  {
    calc {
      Split(a + [sep] + m + [sep] + b, sep);
      { assert a + [sep] + m + [sep] + b == a + [sep] + (m + [sep] + b); SplitAround(a, sep, m + [sep] + b); }
      Split(a, sep) + Split(m + [sep] + b, sep);
      { SplitAfterPiece(m, sep, b); }
      Split(a, sep) + [m] + Split(b, sep);
    }
  }

  /** Conversely, a refused filename has such a component. */
  lemma RefusedHasDotComponent(root: string, filename: string) returns (a: string, m: string, b: string)
    requires PathJoinSafeAsWritten(root, filename).Failure?
    ensures m == "." || m == ".."
    ensures ['/'] + Normalize(filename) + ['/'] == a + ['/'] + m + ['/'] + b
  {
    var n := Normalize(filename);
    var parts := Split(n, '/');
    assert exists p :: p in parts && (p == "." || p == "..");
    var i :| 0 <= i < |parts| && (parts[i] == "." || parts[i] == "..");
    m := parts[i];
    assert parts == parts[..i] + [m] + parts[i + 1..];
    JoinSplit(n, '/');
    a, b := JoinAroundPiece(parts[..i], m, parts[i + 1..], '/');
  }

  /** A piece of a joined sequence sits between two separators once the whole is framed by them. */
  lemma JoinAroundPiece<T>(pre: seq<seq<T>>, m: seq<T>, post: seq<seq<T>>, sep: T) returns (a: seq<T>, b: seq<T>)
    ensures [sep] + Join(pre + [m] + post, sep) + [sep] == a + [sep] + m + [sep] + b
  {
    var tail := if post == [] then m else m + [sep] + Join(post, sep);
    assert Join([m] + post, sep) == tail by {
      if post != [] {
        assert ([m] + post)[1..] == post;
      }
    }
    var head := if pre == [] then [] else Join(pre, sep) + [sep];
    assert Join(pre + [m] + post, sep) == head + tail by {
      assert pre + [m] + post == pre + ([m] + post);
      if pre != [] {
        JoinAppend(pre, [m] + post, sep);
      }
    }
    a := if pre == [] then [] else [sep] + Join(pre, sep);
    b := if post == [] then [] else Join(post, sep) + [sep];
    assert [sep] + head == a + [sep] by {
      if pre != [] {
        ConcatAssoc([sep], Join(pre, sep), [sep]);
      }
    }
    assert tail + [sep] == m + [sep] + b by {
      if post != [] {
        ConcatAssoc(m + [sep], Join(post, sep), [sep]);
      } else {
        assert m + [sep] + b == m + [sep];
      }
    }
    Reassemble(head, tail, a, m, b, sep);
  }

  lemma Reassemble<T>(head: seq<T>, tail: seq<T>, a: seq<T>, m: seq<T>, b: seq<T>, sep: T)
    requires [sep] + head == a + [sep] && tail + [sep] == m + [sep] + b
    ensures [sep] + (head + tail) + [sep] == a + [sep] + m + [sep] + b
  {
    calc {
      [sep] + (head + tail) + [sep];
      { ConcatAssoc([sep], head, tail); }
      ([sep] + head) + tail + [sep];
      { ConcatAssoc([sep] + head, tail, [sep]); }
      (a + [sep]) + (m + [sep] + b);
      { ConcatAssoc(a + [sep], m + [sep], b); ConcatAssoc(a + [sep], m, [sep]); }
      a + [sep] + m + [sep] + b;
    }
  }

  // ---------------------------------------------------------------- the absolute filename

  /** A path without back-slashes is left as it is. */
  lemma NormalizeKeeps(s: string)
    requires '\\' !in s
    ensures Normalize(s) == s
  {
  }

  /** An absolute path of two components splits into an empty piece and the two. */
  lemma SplitTwoComponents(x: string, y: string)
    requires '/' !in x && '/' !in y
    ensures Split(['/'] + x + ['/'] + y, '/') == ["", x, y]
  {
    assert ['/'] + x + ['/'] + y == [] + ['/'] + (x + ['/'] + y);
    SplitAround([], '/', x + ['/'] + y);
    SplitAfterPiece(x, '/', y);
    SplitNoSeparator(y, '/');
  }

  lemma SplitEtcPasswd()
    ensures Split("/etc/passwd", '/') == ["", "etc", "passwd"]
  {
    assert "/etc/passwd" == ['/'] + "etc" + ['/'] + "passwd";
    SplitTwoComponents("etc", "passwd");
  }

  /**
   * `path_join_safe("/srv/www", "/etc/passwd")` returns `/etc/passwd`: no
   * component is `.` or `..`, and the join drops the root.
   */
  lemma AbsoluteFilenameEscapes()
    ensures PathJoinSafeAsWritten("/srv/www", "/etc/passwd") == Success("/etc/passwd")
    ensures !("/srv/www" <= "/etc/passwd")
  {
    NormalizeKeeps("/etc/passwd");
    SplitEtcPasswd();
    assert !HasDotPart("/etc/passwd");
    assert "/srv/www"[1] != "/etc/passwd"[1];
  }

  /** On filenames that are not absolute the corrected check agrees with the original. */
  lemma RelativeAgrees(root: string, filename: string)
    requires |filename| == 0 || (filename[0] != '/' && filename[0] != '\\')
    ensures PathJoinSafe(root, filename) == PathJoinSafeAsWritten(root, filename)
  {
  }
}

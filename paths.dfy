/**
 * Slash-separated file paths and the lexical operations of Go's
 * `path/filepath` on Unix that the templater uses: `IsAbs`, `Clean`, `Join`,
 * `Dir`, `Abs` and `Rel`.
 */
module FilePaths {
  import opened Wrappers

  /**
   * A path string split at its separators: whether it starts at the root, and
   * the elements between separators, empty ones included (`a//b` has the
   * elements `a`, ``, `b`). The empty string is `Path(false, [])`.
   */
  datatype Path = Path(absolute: bool, segments: seq<string>)

  const Empty: Path := Path(false, [])
  const Dot: Path := Path(false, ["."])
  const Root: Path := Path(true, [])

  predicate IsAbs(p: Path) { p.absolute }

  /** Elements with no lexical meaning: not empty, not `.`, not `..`. */
  predicate Plain(s: seq<string>)
  {
    forall i | 0 <= i < |s| :: s[i] != "" && s[i] != "." && s[i] != ".."
  }

  /** The elements of a cleaned path: no empty or `.` element, and `..` only as a leading run of a relative path. */
  predicate CleanSegments(absolute: bool, s: seq<string>)
  {
    forall i | 0 <= i < |s| ::
      s[i] != "" && s[i] != "." &&
      (s[i] == ".." ==> !absolute && forall j | 0 <= j < i :: s[j] == "..")
  }

  /** What `filepath.Clean` can return: `.`, or a non-empty relative or any absolute path with clean elements. */
  predicate IsClean(p: Path)
  {
    p == Dot || (CleanSegments(p.absolute, p.segments) && (p.absolute || p.segments != []))
  }

  /** One element of `filepath.Clean`'s scan: drop empty and `.`, let `..` undo the previous element. */
  function Push(absolute: bool, stack: seq<string>, seg: string): seq<string>
  {
    if seg == "" || seg == "." then stack
    else if seg == ".." then
      if stack != [] && stack[|stack| - 1] != ".." then stack[..|stack| - 1]
      else if absolute then stack        // `..` at the root stays at the root
      else stack + [".."]
    else stack + [seg]
  }

  function CleanFrom(absolute: bool, stack: seq<string>, segs: seq<string>): seq<string>
    decreases |segs|
  {
    if segs == [] then stack else CleanFrom(absolute, Push(absolute, stack, segs[0]), segs[1..])
  }

  /**
   * `filepath.Clean`: the shortest lexically equivalent path; `.` when nothing
   * is left of a relative path, so the result is never the empty string.
   */
  function Clean(p: Path): (r: Path)
    ensures r.absolute == p.absolute && r != Empty
  {
    var s := CleanFrom(p.absolute, [], p.segments);
    if !p.absolute && s == [] then Dot else Path(p.absolute, s)
  }

  /** `filepath.Join(a, b)`: the elements of both, cleaned; an empty first argument is skipped. */
  function Join(a: Path, b: Path): (r: Path)
    ensures r == Empty <==> a == Empty && b == Empty
    ensures r.absolute == if a == Empty then b.absolute else a.absolute
  {
    if a == Empty then (if b == Empty then Empty else Clean(b))
    else Clean(Path(a.absolute, a.segments + b.segments))
  }

  /** The elements before the last one; none of none. */
  function DropLast(s: seq<string>): seq<string>
  {
    if s == [] then [] else s[..|s| - 1]
  }

  /** `filepath.Dir`: everything before the last element, cleaned; `.` rather than empty, and the root stays the root. */
  function Dir(p: Path): (r: Path)
    ensures r.absolute == p.absolute && r != Empty
  {
    Clean(Path(p.absolute, DropLast(p.segments)))
  }

  /** Why `filepath.Abs` failed: the working directory could not be determined. */
  datatype AbsError = GetwdFailed

  /** `filepath.Abs`: a relative path is joined to the working directory `cwd` (`None` when `os.Getwd` fails). */
  function Abs(p: Path, cwd: Option<Path>): (r: Result<Path, AbsError>)
    ensures r.Failure? <==> !IsAbs(p) && cwd.None?
    ensures r.Success? ==> (r.value.absolute <==> p.absolute || cwd.value.absolute)
  {
    if IsAbs(p) then Success(Clean(p))
    else if cwd.None? then Failure(GetwdFailed)
    else Success(Join(cwd.value, p))
  }

  /** The number of leading elements two element sequences share. */
  function CommonPrefix(a: seq<string>, b: seq<string>): (n: nat)
    ensures n <= |a| && n <= |b| && a[..n] == b[..n]
    ensures n < |a| && n < |b| ==> a[n] != b[n]
  {
    if a == [] || b == [] || a[0] != b[0] then 0
    else
      var n := CommonPrefix(a[1..], b[1..]);
      assert a[..n + 1] == [a[0]] + a[1..][..n];
      assert b[..n + 1] == [b[0]] + b[1..][..n];
      n + 1
  }

  function Ups(n: nat): (r: seq<string>)
    ensures |r| == n && forall i | 0 <= i < n :: r[i] == ".."
  {
    if n == 0 then [] else Ups(n - 1) + [".."]
  }

  /** Why `filepath.Rel` failed. */
  datatype RelError = CannotMakeRelative(targ: Path, base: Path)

  /**
   * `filepath.Rel(basepath, targpath)`: a relative path that leads from the
   * cleaned base to the cleaned target; impossible when one is absolute and
   * the other not, or when the base would have to climb out of a `..`.
   */
  function Rel(basepath: Path, targpath: Path): (r: Result<Path, RelError>)
    ensures basepath.absolute != targpath.absolute ==> r.Failure?
    ensures Clean(basepath) == Clean(targpath) ==> r == Success(Dot)
    ensures r.Success? ==> !r.value.absolute
  {
    var base, targ := Clean(basepath), Clean(targpath);
    if targ == base then Success(Dot)
    else if base.absolute != targ.absolute then Failure(CannotMakeRelative(targpath, basepath))
    else
      var bs := if base == Dot then [] else base.segments;
      var n := CommonPrefix(bs, targ.segments);
      if n < |bs| && bs[n] == ".." then Failure(CannotMakeRelative(targpath, basepath))
      else Success(Path(false, Ups(|bs| - n) + targ.segments[n..]))
  }

  /** The elements a cleaned path contributes when joined: none for `.`. */
  function Elements(p: Path): seq<string>
  {
    if p == Dot then [] else p.segments
  }

  // ---------------------------------------------------------------------------
  // Clean

  lemma {:induction false} PushKeepsClean(absolute: bool, stack: seq<string>, seg: string)
    requires CleanSegments(absolute, stack)
    ensures CleanSegments(absolute, Push(absolute, stack, seg))
  {
    var r := Push(absolute, stack, seg);
    if seg == ".." && !(stack != [] && stack[|stack| - 1] != "..") && !absolute {
      forall i | 0 <= i < |r| && r[i] == ".." ensures forall j | 0 <= j < i :: r[j] == ".." {
        if i == |stack| && stack != [] {
          assert stack[|stack| - 1] == "..";
        }
      }
    }
  }

  lemma {:induction false} CleanFromKeepsClean(absolute: bool, stack: seq<string>, segs: seq<string>)
    requires CleanSegments(absolute, stack)
    ensures CleanSegments(absolute, CleanFrom(absolute, stack, segs))
    decreases |segs|
  {
    if segs != [] {
      PushKeepsClean(absolute, stack, segs[0]);
      CleanFromKeepsClean(absolute, Push(absolute, stack, segs[0]), segs[1..]);
    }
  }

  /** Cleaning a sequence in two parts is cleaning the first and carrying on with the second. */
  lemma {:induction false} CleanFromAppend(absolute: bool, stack: seq<string>, s: seq<string>, t: seq<string>)
    ensures CleanFrom(absolute, stack, s + t) == CleanFrom(absolute, CleanFrom(absolute, stack, s), t)
    decreases |s|
  {
    if s == [] {
      assert s + t == t;
    } else {
      assert (s + t)[1..] == s[1..] + t;
      CleanFromAppend(absolute, Push(absolute, stack, s[0]), s[1..], t);
    }
  }

  /** Elements that are already clean after a clean stack pass through unchanged. */
  lemma {:induction false} CleanFromClean(absolute: bool, stack: seq<string>, segs: seq<string>)
    requires CleanSegments(absolute, stack + segs)
    ensures CleanFrom(absolute, stack, segs) == stack + segs
    decreases |segs|
  {
    if segs != [] {
      var st := stack + segs;
      assert st[|stack|] == segs[0];
      if segs[0] == ".." {
        assert stack == [] || stack[|stack| - 1] == ".." by {
          if stack != [] { assert st[|stack| - 1] == stack[|stack| - 1]; }
        }
      }
      assert Push(absolute, stack, segs[0]) == stack + [segs[0]];
      assert (stack + [segs[0]]) + segs[1..] == st;
      CleanFromClean(absolute, stack + [segs[0]], segs[1..]);
    } else {
      assert stack + segs == stack;
    }
  }

  /** A cleaned path is in canonical form and keeps its absolute flag. */
  lemma CleanIsClean(p: Path)
    ensures IsClean(Clean(p)) && Clean(p).absolute == p.absolute
  {
    CleanFromKeepsClean(p.absolute, [], p.segments);
  }

  /** `Clean` returns a clean path unchanged, so cleaning twice is cleaning once. */
  lemma CleanIdempotent(p: Path)
    ensures Clean(Clean(p)) == Clean(p)
  {
    var c := Clean(p);
    CleanIsClean(p);
    if c != Dot {
      CleanFromClean(c.absolute, [], c.segments);
      assert [] + c.segments == c.segments;
    }
  }

  /** A plain element sequence is clean after any clean stack. */
  lemma PlainAfterClean(absolute: bool, stack: seq<string>, r: seq<string>)
    requires CleanSegments(absolute, stack) && Plain(r)
    ensures CleanSegments(absolute, stack + r)
  {
    var s := stack + r;
    forall i | 0 <= i < |s| && s[i] == ".." ensures !absolute && forall j | 0 <= j < i :: s[j] == ".." {
      assert i < |stack|;
      assert s[i] == stack[i];
      assert forall j | 0 <= j < i :: s[j] == stack[j];
    }
  }

  // ---------------------------------------------------------------------------
  // Join, Dir, Abs, Rel

  /** Joining plain relative elements to a clean directory appends them: the result stays under that directory. */
  lemma JoinPlain(base: Path, r: seq<string>)
    requires IsClean(base) && Plain(r) && r != []
    ensures Join(base, Path(false, r)) == Path(base.absolute, Elements(base) + r)
  {
    var all := base.segments + r;
    CleanFromAppend(base.absolute, [], base.segments, r);
    if base == Dot {
      assert CleanFrom(false, [], ["."]) == [];
      PlainAfterClean(false, [], r);
      CleanFromClean(false, [], r);
      assert [] + r == r;
    } else {
      assert base != Empty;
      CleanFromClean(base.absolute, [], base.segments);
      assert [] + base.segments == base.segments;
      PlainAfterClean(base.absolute, base.segments, r);
      CleanFromClean(base.absolute, base.segments, r);
    }
  }

  /** `Dir` drops the last plain element of a clean path. */
  lemma DirPlain(dir: Path, r: seq<string>, name: string)
    requires IsClean(dir) && Plain(r + [name])
    ensures Dir(Path(dir.absolute, Elements(dir) + r + [name])) ==
      if !dir.absolute && Elements(dir) + r == [] then Dot else Path(dir.absolute, Elements(dir) + r)
  {
    var s := Elements(dir) + r;
    assert (s + [name])[..|s + [name]| - 1] == s;
    assert Plain(r) by { assert forall i | 0 <= i < |r| :: r[i] == (r + [name])[i]; }
    assert CleanSegments(dir.absolute, Elements(dir));
    PlainAfterClean(dir.absolute, Elements(dir), r);
    CleanFromClean(dir.absolute, [], s);
    assert [] + s == s;
  }

  /** An absolute path's directory is absolute, and `Abs` of any path is absolute when the working directory is. */
  lemma AbsIsAbsolute(p: Path, cwd: Option<Path>)
    requires cwd.Some? ==> cwd.value.absolute
    ensures Abs(p, cwd).Success? ==> Abs(p, cwd).value.absolute && IsClean(Abs(p, cwd).value)
    ensures Abs(p, cwd).Success? ==> Dir(Abs(p, cwd).value).absolute
  {
    if Abs(p, cwd).Success? {
      var a := Abs(p, cwd).value;
      if p.absolute {
        CleanIsClean(p);
      } else {
        CleanIsClean(Path(cwd.value.absolute, cwd.value.segments + p.segments));
      }
      CleanIsClean(Path(a.absolute, DropLast(a.segments)));
    }
  }

  /** Joining plain names to any directory appends them to the directory's cleaned elements, giving a clean path. */
  lemma JoinUnder(base: Path, r: seq<string>)
    requires Plain(r) && r != []
    ensures Join(base, Path(false, r)) == Path(base.absolute, Elements(Clean(base)) + r)
    ensures Clean(Join(base, Path(false, r))) == Join(base, Path(false, r))
    ensures Clean(base).absolute == base.absolute
  {
    CleanIsClean(base);
    var t := Join(base, Path(false, r));
    if base == Empty {
      assert t == Clean(Path(false, r));
      PlainAfterClean(false, [], r);
      CleanFromClean(false, [], r);
      assert [] + r == r;
      assert Clean(base) == Dot;
    } else {
      CleanFromAppend(base.absolute, [], base.segments, r);
      var cs := CleanFrom(base.absolute, [], base.segments);
      CleanFromKeepsClean(base.absolute, [], base.segments);
      PlainAfterClean(base.absolute, cs, r);
      CleanFromClean(base.absolute, cs, r);
      assert t == Path(base.absolute, cs + r);
      CleanIdempotent(Path(base.absolute, base.segments + r));
    }
  }

  /** `Rel` undoes `Join`: from a directory, the relative path of a file below it is the file's plain elements. */
  lemma RelOfJoin(base: Path, r: seq<string>)
    requires Plain(r) && r != []
    ensures Rel(base, Join(base, Path(false, r))) == Success(Path(false, r))
  {
    JoinUnder(base, r);
    var cb := Clean(base);
    var t := Join(base, Path(false, r));
    var bs := Elements(cb);
    assert t.segments == bs + r;
    assert t.segments[..|bs|] == bs;
    var n := CommonPrefix(bs, t.segments);
    assert n == |bs|;
    assert t.segments[n..] == r;
    assert Ups(0) == [];
    assert t != cb by { assert |t.segments| > |bs|; }
    assert Ups(|bs| - n) + t.segments[n..] == r;
  }
}

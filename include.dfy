/**
 * The `include` template function of `processTemplate`: each include function
 * is bound to a base directory; it resolves its argument against that
 * directory, reads the file, and renders it with an include function rebound
 * to the included file's own directory. Template parsing and execution belong
 * to Go's `text/template`; here a template body is reduced to what matters for
 * includes: literal text, include calls, and calls that fail.
 */
module Include {
  import opened Wrappers
  import opened FilePaths

  /** `makeIncludeFunc(currentBaseDir)`: an include function bound to a base directory. */
  datatype IncludeFunc = IncludeFunc(baseDir: Path)

  /** The part of a parsed template that rendering an include depends on. */
  datatype Piece =
    | Text(s: string)               // output produced without calling include
    | IncludeCall(arg: Path)        // `{{ include "arg" . }}`
    | FailingCall(reason: string)   // any other action whose execution fails

  /** What reading and parsing a file gives. */
  datatype TemplateFile =
    | Unreadable(reason: string)
    | Unparsable(reason: string)
    | Source(body: seq<Piece>)

  /** The files as `os.ReadFile` sees them; a missing path cannot be read. */
  type FileSystem = map<Path, TemplateFile>

  /** The errors `include` reports; each names the resolved path. */
  datatype IncludeError =
    | ReadFailed(path: Path, reason: string)       // "failed to read include file %s: %w"
    | ParseFailed(path: Path, reason: string)      // "failed to parse include file %s: %w"
    | ExecFailed(path: Path, cause: ExecError)     // "failed to execute include file %s: %w"

  /** Why executing a template body failed. */
  datatype ExecError =
    | CallFailed(reason: string)
    | IncludeFailed(error: IncludeError)
    | DepthExhausted                               // the model's bound on nested includes

  const NotFound: string := "no such file or directory"

  /** The path an include argument names: an absolute one as it is, a relative one joined to the bound directory. */
  function ResolvePath(f: IncludeFunc, filePath: Path): (r: Path)
    ensures IsAbs(filePath) ==> r == filePath
    ensures r.absolute <==> filePath.absolute || f.baseDir.absolute
  {
    if IsAbs(filePath) then filePath else Join(f.baseDir, filePath)
  }

  /** The include function an included template is given: bound to the directory of the file itself. */
  function Rebind(resolvedPath: Path): (r: IncludeFunc)
    ensures r.baseDir.absolute == resolvedPath.absolute && r.baseDir != Empty
  {
    IncludeFunc(Dir(resolvedPath))
  }

  /**
   * Execute a template body whose `include` is `f`: the pieces' output in
   * order, or the first failure. Each nested include spends one unit of `fuel`.
   */
  function Render(f: IncludeFunc, body: seq<Piece>, fs: FileSystem, fuel: nat): (r: Result<string, ExecError>)
    ensures r.Success? ==> forall i | 0 <= i < |body| :: !body[i].FailingCall?
    ensures (forall i | 0 <= i < |body| :: body[i].Text?) ==> r.Success?
    decreases fuel, 0, |body|
  {
    if body == [] then Success("")
    else
      assert forall i | 1 <= i < |body| :: body[i] == body[1..][i - 1];
      var head: Result<string, ExecError> :=
        match body[0]
        case Text(s) => Success(s)
        case FailingCall(reason) => Failure(CallFailed(reason))
        case IncludeCall(arg) =>
          if fuel == 0 then Failure(DepthExhausted)
          else match Include(f, arg, fs, fuel - 1)
            case Failure(e) => Failure(IncludeFailed(e))
            case Success(s) => Success(s);
      match head
      case Failure(e) => Failure(e)
      case Success(s) =>
        match Render(f, body[1..], fs, fuel)
        case Failure(e) => Failure(e)
        case Success(rest) => Success(s + rest)
  }

  /** One call of the include function `f` with argument `filePath`. */
  function Include(f: IncludeFunc, filePath: Path, fs: FileSystem, fuel: nat): (r: Result<string, IncludeError>)
    ensures ResolvePath(f, filePath) !in fs ==> r.Failure?
    ensures r.Failure? ==> r.error.path == ResolvePath(f, filePath)
    decreases fuel, 1, 0
  {
    var resolvedPath := ResolvePath(f, filePath);
    if resolvedPath !in fs then Failure(ReadFailed(resolvedPath, NotFound))
    else match fs[resolvedPath]
      case Unreadable(reason) => Failure(ReadFailed(resolvedPath, reason))
      case Unparsable(reason) => Failure(ParseFailed(resolvedPath, reason))
      case Source(body) =>
        match Render(Rebind(resolvedPath), body, fs, fuel)
        case Failure(e) => Failure(ExecFailed(resolvedPath, e))
        case Success(out) => Success(out)
  }

  /** The file a chain of includes reaches: each hop resolved against the directory of the file the previous hop reached. */
  function ResolveChain(f: IncludeFunc, hops: seq<Path>): Path
    requires hops != []
    decreases |hops|
  {
    var resolvedPath := ResolvePath(f, hops[0]);
    if |hops| == 1 then resolvedPath else ResolveChain(Rebind(resolvedPath), hops[1..])
  }

  /** The elements a chain of plain hops appends to its base: every hop's directory, then the whole last hop. */
  function ChainElements(hops: seq<Path>): seq<string>
    requires hops != []
  {
    if |hops| == 1 then hops[0].segments else DropLast(hops[0].segments) + ChainElements(hops[1..])
  }

  // ---------------------------------------------------------------------------

  /** An absolute argument is used as it is: the caller's base directory makes no difference. */
  lemma AbsoluteIncludeIgnoresBase(f1: IncludeFunc, f2: IncludeFunc, filePath: Path, fs: FileSystem, fuel: nat)
    requires IsAbs(filePath)
    ensures Include(f1, filePath, fs, fuel) == Include(f2, filePath, fs, fuel)
  {
  }

  /** The file the first `i + 1` hops of a chain reach. */
  function Hop(f: IncludeFunc, hops: seq<Path>, i: nat): Path
    requires i < |hops|
  {
    ResolveChain(f, hops[..i + 1])
  }

  /** The file at `p` holds nothing but an include of `next`. */
  predicate Forwards(fs: FileSystem, p: Path, next: Path)
  {
    p in fs && fs[p] == Source([IncludeCall(next)])
  }

  /** A relative include argument made of plain elements only. */
  predicate PlainRelative(h: Path)
  {
    !h.absolute && h.segments != [] && Plain(h.segments)
  }

  /** Every hop of a chain is a plain relative argument. */
  predicate PlainHops(hops: seq<Path>)
  {
    hops == [] || (PlainRelative(hops[0]) && PlainHops(hops[1..]))
  }

  /**
   * A chain of includes, each file holding only the next include call and the
   * last only text, renders that text, reading each hop against the directory
   * of the file the previous hop reached.
   */
  lemma {:induction false} ChainRenders(f: IncludeFunc, hops: seq<Path>, fs: FileSystem, fuel: nat, s: string)
    requires hops != [] && |hops| <= fuel + 1
    requires forall i | 0 <= i < |hops| - 1 :: Forwards(fs, Hop(f, hops, i), hops[i + 1])
    requires ResolveChain(f, hops) in fs && fs[ResolveChain(f, hops)] == Source([Text(s)])
    ensures Include(f, hops[0], fs, fuel) == Success(s)
    decreases |hops|
  {
    var r0 := ResolvePath(f, hops[0]);
    assert hops[..1] == [hops[0]];
    if |hops| == 1 {
      assert Render(Rebind(r0), [Text(s)], fs, fuel) == Success(s + "");
      assert s + "" == s;
    } else {
      var g := Rebind(r0);
      var tail := hops[1..];
      forall i | 0 <= i < |tail| - 1 ensures Forwards(fs, Hop(g, tail, i), tail[i + 1]) {
        assert hops[..i + 2][1..] == tail[..i + 1];
        assert Hop(f, hops, i + 1) == Hop(g, tail, i);
      }
      assert ResolveChain(f, hops) == ResolveChain(g, tail);
      ChainRenders(g, tail, fs, fuel - 1, s);
      assert Hop(f, hops, 0) == r0;
      assert Render(g, [IncludeCall(hops[1])], fs, fuel) == Success(s + "");
      assert s + "" == s;
    }
  }

  /** One relative hop from a clean directory: the file it reaches, and that file's directory. */
  lemma HopPlain(base: Path, h: Path)
    requires IsClean(base) && PlainRelative(h)
    ensures ResolvePath(IncludeFunc(base), h) == Path(base.absolute, Elements(base) + h.segments)
    ensures IsClean(Rebind(ResolvePath(IncludeFunc(base), h)).baseDir)
    ensures Rebind(ResolvePath(IncludeFunc(base), h)).baseDir.absolute == base.absolute
    ensures Elements(Rebind(ResolvePath(IncludeFunc(base), h)).baseDir) == Elements(base) + DropLast(h.segments)
  {
    JoinPlain(base, h.segments);
    HopDir(base, h.segments);
  }

  /** The directory of a file reached by plain elements from a clean directory: the base and all but the last element. */
  lemma HopDir(base: Path, s: seq<string>)
    requires IsClean(base) && Plain(s) && s != []
    ensures IsClean(Dir(Path(base.absolute, Elements(base) + s)))
    ensures Elements(Dir(Path(base.absolute, Elements(base) + s))) == Elements(base) + DropLast(s)
  {
    var dirs, name := s[..|s| - 1], s[|s| - 1];
    assert s == dirs + [name];
    assert Elements(base) + s == Elements(base) + dirs + [name];
    DirPlain(base, dirs, name);
    CleanIsClean(Path(base.absolute, DropLast(Elements(base) + s)));
  }

  /**
   * With plain relative hops from a clean base directory (one `Clean` leaves
   * unchanged), the chain ends at
   * the base, then every hop's directory in turn, then the last hop: each hop
   * is relative to its caller's location, not to the root's.
   */
  lemma {:induction false} ChainPlain(base: Path, hops: seq<Path>)
    requires Clean(base) == base && hops != []
    requires PlainHops(hops)
    ensures ResolveChain(IncludeFunc(base), hops) == Path(base.absolute, Elements(base) + ChainElements(hops))
    decreases |hops|, 1
  {
    if |hops| == 1 {
      CleanIsClean(base);
      HopPlain(base, hops[0]);
    } else {
      ChainPlainLonger(base, hops);
    }
  }

  /** The inductive step of `ChainPlain`: the first hop, then the rest of the chain from the reached directory. */
  lemma {:induction false} ChainPlainLonger(base: Path, hops: seq<Path>)
    requires Clean(base) == base && |hops| > 1
    requires PlainHops(hops)
    ensures ResolveChain(IncludeFunc(base), hops) == Path(base.absolute, Elements(base) + ChainElements(hops))
    decreases |hops|, 0
  {
    var d := ChainStep(base, hops);
    ChainPlain(d, hops[1..]);
    ChainElementsStep(base, d, hops);
  }

  /** The elements of a longer chain: the first hop's directory, then those of the rest. */
  lemma ChainElementsStep(base: Path, d: Path, hops: seq<Path>)
    requires |hops| > 1 && d.absolute == base.absolute
    requires Elements(d) == Elements(base) + DropLast(hops[0].segments)
    ensures Path(d.absolute, Elements(d) + ChainElements(hops[1..])) ==
      Path(base.absolute, Elements(base) + ChainElements(hops))
  {
    var e, d0, rest := Elements(base), DropLast(hops[0].segments), ChainElements(hops[1..]);
    assert ChainElements(hops) == d0 + rest;
    AppendAssociates(e, d0, rest);
  }

  lemma AppendAssociates(a: seq<string>, b: seq<string>, c: seq<string>)
    ensures (a + b) + c == a + (b + c)
  {
  }

  /** The first hop of a longer chain: the rest of the chain continues from the reached file's directory. */
  lemma ChainStep(base: Path, hops: seq<Path>) returns (d: Path)
    requires Clean(base) == base && |hops| > 1 && PlainRelative(hops[0])
    ensures Clean(d) == d && d.absolute == base.absolute && Elements(d) == Elements(base) + DropLast(hops[0].segments)
    ensures ResolveChain(IncludeFunc(base), hops) == ResolveChain(IncludeFunc(d), hops[1..])
  {
    CleanIsClean(base);
    HopPlain(base, hops[0]);
    var r := ResolvePath(IncludeFunc(base), hops[0]);
    d := Rebind(r).baseDir;
    CleanIdempotent(Path(r.absolute, DropLast(r.segments)));
  }

  /** The includes of the nested example: `sub/child.tpl` from `/x`, then `grandchild.tpl`. */
  function NestedHops(): seq<Path>
  {
    [Path(false, ["sub", "child.tpl"]), Path(false, ["grandchild.tpl"])]
  }

  /** The files of the nested example, with a decoy `grandchild.tpl` at the root's level. */
  function NestedFiles(): FileSystem
  {
    map[
      Path(true, ["x", "sub", "child.tpl"]) := Source([IncludeCall(Path(false, ["grandchild.tpl"]))]),
      Path(true, ["x", "sub", "grandchild.tpl"]) := Source([Text("nested")]),
      Path(true, ["x", "grandchild.tpl"]) := Source([Text("root level")])]
  }

  /** From `/x`, `sub/child.tpl` then `grandchild.tpl` reaches `/x/sub/grandchild.tpl`, not `/x/grandchild.tpl`. */
  lemma NestedChainResolves()
    ensures ResolveChain(IncludeFunc(Path(true, ["x"])), NestedHops()) == Path(true, ["x", "sub", "grandchild.tpl"])
  {
    var base := Path(true, ["x"]);
    var hops := NestedHops();
    assert Clean(base) == base;
    assert hops[1..][1..] == [];
    assert PlainHops(hops);
    ChainPlain(base, hops);
    assert DropLast(hops[0].segments) == ["sub"];
    assert hops[1..] == [hops[1]];
    assert ChainElements(hops) == ["sub"] + ["grandchild.tpl"] == ["sub", "grandchild.tpl"];
    assert Elements(base) == ["x"];
    assert ["x"] + ["sub", "grandchild.tpl"] == ["x", "sub", "grandchild.tpl"];
  }

  /** The first include of the nested example reads `/x/sub/child.tpl`. */
  lemma NestedFirstHop()
    ensures Hop(IncludeFunc(Path(true, ["x"])), NestedHops(), 0) == Path(true, ["x", "sub", "child.tpl"])
  {
    var base := Path(true, ["x"]);
    var hops := NestedHops();
    assert IsClean(base);
    assert hops[..1] == [hops[0]];
    HopPlain(base, hops[0]);
    assert Elements(base) + hops[0].segments == ["x", "sub", "child.tpl"];
  }

  /**
   * `/x/root.tpl` includes `sub/child.tpl`, which includes `grandchild.tpl`:
   * the output is the text of `/x/sub/grandchild.tpl`.
   */
  lemma NestedIncludeUsesIncludersDirectory()
    ensures Render(IncludeFunc(Path(true, ["x"])), [IncludeCall(NestedHops()[0])], NestedFiles(), 2) == Success("nested")
  {
    var root := IncludeFunc(Path(true, ["x"]));
    var hops, fs := NestedHops(), NestedFiles();
    NestedChainResolves();
    NestedFirstHop();
    assert Forwards(fs, Hop(root, hops, 0), hops[1]);
    ChainRenders(root, hops, fs, 1, "nested");
    var body := [IncludeCall(hops[0])];
    assert body[1..] == [];
    assert Render(root, body[1..], fs, 2) == Success("");
    assert "nested" + "" == "nested";
  }
}

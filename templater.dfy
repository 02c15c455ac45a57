/**
 * The decisions `processTemplate` and `main` make before a template is
 * rendered: reading standard input line by line, choosing the base directory
 * that the root template's `include` is bound to, choosing where output goes,
 * and mapping each file of a directory walk to its output path.
 */
module Templater {
  import opened Wrappers
  import opened FilePaths
  import opened Include

  newtype byte = x: int | 0 <= x < 256

  const NL: byte := 10
  const CR: byte := 13

  /** `bufio.MaxScanTokenSize`: the scanner's buffer never grows beyond this. */
  const MaxScanTokenSize: nat := 65536

  /** The input path that means standard input. */
  const StdinMarker: Path := Path(false, ["-"])

  // ---------------------------------------------------------------------------
  // Standard input

  /** The index of the first newline, or the length when there is none. */
  function LineEnd(input: seq<byte>): (n: nat)
    ensures n <= |input| && (n < |input| ==> input[n] == NL)
  {
    if input == [] || input[0] == NL then 0 else 1 + LineEnd(input[1..])
  }

  /** No newline comes before `LineEnd`: a line never holds a newline. */
  lemma {:induction false} LineEndIsFirst(input: seq<byte>)
    ensures forall j | 0 <= j < LineEnd(input) :: input[j] != NL
    decreases |input|
  {
    if input != [] && input[0] != NL {
      LineEndIsFirst(input[1..]);
      forall j | 0 <= j < LineEnd(input) ensures input[j] != NL {
        if j > 0 {
          assert input[j] == input[1..][j - 1];
        }
      }
    }
  }

  /** `bufio.ScanLines` drops one carriage return before the newline. */
  function DropCR(line: seq<byte>): (r: seq<byte>)
    ensures line == r || line == r + [CR]
  {
    if line != [] && line[|line| - 1] == CR then line[..|line| - 1] else line
  }

  /** A token a line scanner can yield: shorter than its buffer, without a newline. */
  predicate IsLine(t: seq<byte>)
  {
    |t| < MaxScanTokenSize && NL !in t
  }

  /** The first line of the input, when it fits the buffer, is a token. */
  lemma FirstLineIsLine(input: seq<byte>)
    requires LineEnd(input) < MaxScanTokenSize
    ensures IsLine(DropCR(input[..LineEnd(input)]))
  {
    var n := LineEnd(input);
    LineEndIsFirst(input);
    var t := DropCR(input[..n]);
    assert forall j | 0 <= j < |t| :: t[j] == input[j];
  }

  /** What a line scanner yields: its tokens, and whether it stopped on a line too long for its buffer. */
  datatype Scan = Scan(tokens: seq<seq<byte>>, tooLong: bool)

  /**
   * The tokens `bufio.Scanner` with `ScanLines` returns for `input`: one per
   * line, without its newline and carriage return, the last line also when it
   * has no newline; it stops with `ErrTooLong` at a line of
   * `MaxScanTokenSize` bytes or more.
   */
  function ScanLines(input: seq<byte>): (r: Scan)
    ensures |r.tokens| <= |input|
    ensures forall i | 0 <= i < |r.tokens| :: IsLine(r.tokens[i])
    decreases |input|
  {
    if input == [] then Scan([], false)
    else
      var n := LineEnd(input);
      if n >= MaxScanTokenSize then Scan([], true)
      else
        FirstLineIsLine(input);
        if n == |input| then
          assert input[..n] == input;
          Scan([DropCR(input)], false)
        else
          var rest := ScanLines(input[n + 1..]);
          var line := DropCR(input[..n]);
          assert forall i | 1 <= i < |rest.tokens| + 1 :: ([line] + rest.tokens)[i] == rest.tokens[i - 1];
          Scan([line] + rest.tokens, rest.tooLong)
  }

  /** Every token followed by one newline. */
  function Reassemble(tokens: seq<seq<byte>>): seq<byte>
  {
    if tokens == [] then [] else Reassemble(tokens[..|tokens| - 1]) + tokens[|tokens| - 1] + [NL]
  }

  datatype StdinError = TokenTooLong

  /** The stdin branch of `processTemplate`: append each scanned line and a newline, then report a scanner error. */
  method ReadStdin(input: seq<byte>) returns (r: Result<seq<byte>, StdinError>)
    ensures r.Failure? <==> ScanLines(input).tooLong
    ensures r.Success? ==> r.value == Reassemble(ScanLines(input).tokens)
  {
    var scan := ScanLines(input);
    var content: seq<byte> := [];
    var i := 0;
    while i < |scan.tokens|
      invariant 0 <= i <= |scan.tokens|
      invariant content == Reassemble(scan.tokens[..i])
    {
      assert scan.tokens[..i + 1][..i] == scan.tokens[..i];
      content := content + scan.tokens[i];
      content := content + [NL];
      i := i + 1;
    }
    assert scan.tokens[..i] == scan.tokens;
    // After the last successful Scan the scanner holds no token, so appending its bytes adds nothing.
    if scan.tooLong {
      return Failure(TokenTooLong);
    }
    return Success(content);
  }

  lemma {:induction false} ReassembleCons(t: seq<byte>, ts: seq<seq<byte>>)
    ensures Reassemble([t] + ts) == t + [NL] + Reassemble(ts)
    decreases |ts|
  {
    if ts == [] {
      assert [t] + ts == [t];
      assert [t][..0] == [];
    } else {
      var all := [t] + ts;
      assert all[..|all| - 1] == [t] + ts[..|ts| - 1];
      ReassembleCons(t, ts[..|ts| - 1]);
    }
  }

  predicate NoCR(s: seq<byte>)
  {
    forall j | 0 <= j < |s| :: s[j] != CR
  }

  lemma DropCRWithoutCR(line: seq<byte>)
    requires NoCR(line)
    ensures DropCR(line) == line
  {
    if line != [] {
      assert line[|line| - 1] != CR;
    }
  }

  /** One step of the scan: the first line, then the scan of what follows its newline. */
  lemma ScanStep(input: seq<byte>, n: nat)
    requires n == LineEnd(input) && n < |input| && n < MaxScanTokenSize
    requires DropCR(input[..n]) == input[..n]
    ensures ScanLines(input).tokens == [input[..n]] + ScanLines(input[n + 1..]).tokens
    ensures ScanLines(input).tooLong == ScanLines(input[n + 1..]).tooLong
  {
  }

  /** The parts of the input around its first newline, neither holding a carriage return. */
  lemma SplitAtLineEnd(input: seq<byte>, n: nat)
    requires NoCR(input) && n < |input| && input[n] == NL
    ensures NoCR(input[..n]) && NoCR(input[n + 1..])
    ensures input == input[..n] + [NL] + input[n + 1..]
  {
    var line, tail := input[..n], input[n + 1..];
    forall j | 0 <= j < |line| ensures line[j] != CR { assert line[j] == input[j]; }
    forall j | 0 <= j < |tail| ensures tail[j] != CR { assert tail[j] == input[n + 1 + j]; }
    assert input[n] == NL;
  }

  /**
   * Reading standard input gives back the input, with a newline added when
   * the last line had none, provided no line is too long and the input holds
   * no carriage return.
   */
  lemma {:induction false} ReassembleRoundTrip(input: seq<byte>)
    requires NoCR(input)
    requires !ScanLines(input).tooLong
    ensures Reassemble(ScanLines(input).tokens) ==
      if input == [] || input[|input| - 1] == NL then input else input + [NL]
    decreases |input|
  {
    if input != [] {
      var n := LineEnd(input);
      if n == |input| {
        LineEndIsFirst(input);
        DropCRWithoutCR(input);
        assert ScanLines(input).tokens == [input];
        assert [input][..0] == [];
      } else {
        var tail := input[n + 1..];
        SplitAtLineEnd(input, n);
        DropCRWithoutCR(input[..n]);
        ScanStep(input, n);
        ReassembleRoundTrip(tail);
        ReassembleCons(input[..n], ScanLines(tail).tokens);
        if tail != [] {
          assert input[|input| - 1] == tail[|tail| - 1];
        }
      }
    }
  }

  // ---------------------------------------------------------------------------
  // processTemplate

  /** Where rendered output goes. */
  datatype Destination = Stdout | OutputFile(path: Path)

  /** What `processTemplate` has decided when it hands the template to `text/template`. */
  datatype Plan = Plan(
    content: seq<byte>,       // the template text
    rootInclude: IncludeFunc, // the root template's `include`, bound to its base directory
    destination: Destination,
    stdinNotice: bool)        // the "Output path will be stdout" notice was printed

  datatype ProcessError =
    | StdinFailed(stdinError: StdinError)
    | TemplateUnreadable(path: Path)
    | AbsFailed(absError: AbsError)

  /**
   * The steps of `processTemplate` before parsing: read the template from
   * standard input or from `files` (what `os.ReadFile` would give), bind the
   * root `include` to the working directory `cwd` for standard input (empty
   * when `os.Getwd` fails, as its error is ignored) or to the directory of
   * the file's absolute path, and pick the output.
   */
  method ProcessTemplate(inputPath: Path, outputPath: Path, stdin: seq<byte>, cwd: Option<Path>,
                         files: map<Path, seq<byte>>) returns (r: Result<Plan, ProcessError>)
    ensures inputPath == StdinMarker ==>
      (r.Failure? <==> ScanLines(stdin).tooLong) &&
      (r.Success? ==>
        r.value.content == Reassemble(ScanLines(stdin).tokens) &&
        r.value.rootInclude == IncludeFunc(if cwd.Some? then cwd.value else Empty) &&
        r.value.destination == Stdout &&
        r.value.stdinNotice == (outputPath != Empty))
    ensures inputPath != StdinMarker ==>
      (r.Success? <==> inputPath in files && Abs(inputPath, cwd).Success?) &&
      (inputPath !in files ==> r == Failure(TemplateUnreadable(inputPath))) &&
      (r.Success? ==>
        r.value.content == files[inputPath] &&
        r.value.rootInclude == IncludeFunc(Dir(Abs(inputPath, cwd).value)) &&
        r.value.destination == (if outputPath == Empty then Stdout else OutputFile(outputPath)) &&
        !r.value.stdinNotice)
  {
    var content: seq<byte>;
    var baseDir: Path;
    var out := outputPath;
    var notice := false;
    if inputPath == StdinMarker {
      var read := ReadStdin(stdin);
      if read.Failure? {
        return Failure(StdinFailed(read.error));
      }
      content := read.value;
      if out != Empty {
        notice := true;
        out := Empty;
      }
      baseDir := if cwd.Some? then cwd.value else Empty;
    } else {
      if inputPath !in files {
        return Failure(TemplateUnreadable(inputPath));
      }
      content := files[inputPath];
      var absPath := Abs(inputPath, cwd);
      if absPath.Failure? {
        return Failure(AbsFailed(absPath.error));
      }
      baseDir := Dir(absPath.value);
    }
    var destination := if out != Empty then OutputFile(out) else Stdout;
    return Success(Plan(content, IncludeFunc(baseDir), destination, notice));
  }

  /**
   * A relative include in a root template read from a file resolves next to
   * that file, wherever the process runs: for `/d/t.tpl`, `r` is `/d/r`.
   */
  lemma RootIncludeIsSibling(dir: seq<string>, name: string, cwd: Option<Path>, r: seq<string>)
    requires Plain(dir + [name]) && Plain(r) && r != []
    ensures
      var inputPath := Path(true, dir + [name]);
      Abs(inputPath, cwd).Success? &&
      ResolvePath(IncludeFunc(Dir(Abs(inputPath, cwd).value)), Path(false, r)) == Path(true, dir + r)
  {
    var inputPath := Path(true, dir + [name]);
    PlainAfterClean(true, [], dir + [name]);
    assert [] + (dir + [name]) == dir + [name];
    CleanFromClean(true, [], dir + [name]);
    assert Abs(inputPath, cwd).value == inputPath;
    assert IsClean(Root) && Elements(Root) == [];
    assert [] + dir + [name] == dir + [name];
    DirPlain(Root, dir, name);
    assert [] + dir == dir;
    var d := Path(true, dir);
    assert Dir(inputPath) == d;
    assert Plain(dir) by { assert forall i | 0 <= i < |dir| :: dir[i] == (dir + [name])[i]; }
    PlainAfterClean(true, [], dir);
    assert [] + dir == dir;
    assert IsClean(d);
    JoinPlain(d, r);
  }

  // ---------------------------------------------------------------------------
  // Directory mode

  /** One entry `filepath.Walk` hands to the callback: its path, whether it is a directory, and its error. */
  datatype WalkEntry = WalkEntry(path: Path, isDir: bool, err: Option<string>)

  /** One `processTemplate(path, outputFilePath)` call of directory mode. */
  datatype Job = Job(inputPath: Path, outputPath: Path)

  datatype WalkError =
    | EntryFailed(path: Path, reason: string)
    | RelFailed(error: RelError)
    | RenderFailed(job: Job, reason: string)   // the error `processTemplate` returned for that call

  /** The output path of one walked file: `outputPath/rel`, or empty (standard output) when no output path was given. */
  function OutputFor(outputPath: Path, rel: Path): (r: Path)
    ensures r == Empty <==> outputPath == Empty
  {
    if outputPath != Empty then Join(outputPath, rel) else Empty
  }

  /**
   * The calls the walk callback makes for `entries`, in order, and the error
   * that stops the walk: an entry's own error, a failing `filepath.Rel`, or
   * the error of a `processTemplate` call, which `render` gives for each call
   * (`None` when it succeeds); directories are skipped.
   */
  function WalkJobs(inputPath: Path, outputPath: Path, entries: seq<WalkEntry>, render: Job -> Option<string>)
    : (r: (seq<Job>, Option<WalkError>))
    ensures |r.0| <= |entries|
    ensures r.1.None? <==> forall i | 0 <= i < |entries| ::
      entries[i].err.None? &&
      (!entries[i].isDir ==>
        Rel(inputPath, entries[i].path).Success? &&
        render(Job(entries[i].path, OutputFor(outputPath, Rel(inputPath, entries[i].path).value))).None?)
  {
    if entries == [] then ([], None)
    else
      assert forall i | 1 <= i < |entries| :: entries[i] == entries[1..][i - 1];
      var e := entries[0];
      if e.err.Some? then ([], Some(EntryFailed(e.path, e.err.value)))
      else if e.isDir then WalkJobs(inputPath, outputPath, entries[1..], render)
      else match Rel(inputPath, e.path)
        case Failure(err) => ([], Some(RelFailed(err)))
        case Success(rel) =>
          var job := Job(e.path, OutputFor(outputPath, rel));
          if render(job).Some? then ([job], Some(RenderFailed(job, render(job).value)))
          else
            var (jobs, err) := WalkJobs(inputPath, outputPath, entries[1..], render);
            ([job] + jobs, err)
  }

  /** The walk callback of `main`'s directory mode, applied to every entry in order until one fails. */
  method WalkDirectory(inputPath: Path, outputPath: Path, entries: seq<WalkEntry>, render: Job -> Option<string>)
    returns (jobs: seq<Job>, err: Option<WalkError>)
    ensures (jobs, err) == WalkJobs(inputPath, outputPath, entries, render)
  {
    jobs := [];
    var i := 0;
    assert entries[0..] == entries;
    assert [] + WalkJobs(inputPath, outputPath, entries, render).0 == WalkJobs(inputPath, outputPath, entries, render).0;
    while i < |entries|
      invariant 0 <= i <= |entries|
      invariant WalkJobs(inputPath, outputPath, entries, render) ==
        (jobs + WalkJobs(inputPath, outputPath, entries[i..], render).0, WalkJobs(inputPath, outputPath, entries[i..], render).1)
    {
      assert entries[i..][1..] == entries[i + 1..];
      var e := entries[i];
      if e.err.Some? {
        assert jobs + [] == jobs;
        return jobs, Some(EntryFailed(e.path, e.err.value));
      }
      if !e.isDir {
        var rel := Rel(inputPath, e.path);
        if rel.Failure? {
          assert jobs + [] == jobs;
          return jobs, Some(RelFailed(rel.error));
        }
        var outputFilePath := OutputFor(outputPath, rel.value);
        var job := Job(e.path, outputFilePath);
        var failure := render(job);
        if failure.Some? {
          assert WalkJobs(inputPath, outputPath, entries[i..], render) == ([job], Some(RenderFailed(job, failure.value)));
          return jobs + [job], Some(RenderFailed(job, failure.value));
        }
        var rest := WalkJobs(inputPath, outputPath, entries[i + 1..], render);
        assert WalkJobs(inputPath, outputPath, entries[i..], render) == ([job] + rest.0, rest.1);
        assert jobs + ([job] + rest.0) == (jobs + [job]) + rest.0;
        jobs := jobs + [job];
      } else {
        assert WalkJobs(inputPath, outputPath, entries[i..], render) == WalkJobs(inputPath, outputPath, entries[i + 1..], render);
      }
      i := i + 1;
    }
    assert entries[i..] == [];
    assert jobs + [] == jobs;
    return jobs, None;
  }

  /** A walked entry below the input directory: its path is the input path joined with plain names. */
  predicate Below(inputPath: Path, e: WalkEntry, names: seq<string>)
  {
    Plain(names) && names != [] && e.path == Join(inputPath, Path(false, names))
  }

  /**
   * Directory mode mirrors the input tree: a file found at `inputPath/names`
   * is rendered to `outputPath/names`, cleaned, or to standard output
   * without an output path.
   */
  lemma OutputMirrorsInput(inputPath: Path, outputPath: Path, e: WalkEntry, names: seq<string>)
    requires Below(inputPath, e, names)
    ensures Rel(inputPath, e.path) == Success(Path(false, names))
    ensures OutputFor(outputPath, Path(false, names)) ==
      if outputPath == Empty then Empty else Path(outputPath.absolute, Elements(Clean(outputPath)) + names)
  {
    RelOfJoin(inputPath, names);
    if outputPath != Empty {
      JoinUnder(outputPath, names);
    }
  }

  /**
   * An entry as `filepath.Walk` reports it for a tree below `inputPath` that
   * can be read: no error, and either a directory (no `name`) or a file at
   * `inputPath/name`.
   */
  predicate WalkedCleanly(inputPath: Path, e: WalkEntry, name: Option<seq<string>>)
  {
    e.err.None? && (e.isDir <==> name.None?) && (name.Some? ==> Below(inputPath, e, name.value))
  }

  /** One call per file among `entries`, in walk order, rendering `inputPath/name` to `outputPath/name`; directories give none. */
  function MirrorJobs(outputPath: Path, entries: seq<WalkEntry>, names: seq<Option<seq<string>>>): seq<Job>
    requires |names| == |entries|
  {
    if entries == [] then []
    else
      var rest := MirrorJobs(outputPath, entries[1..], names[1..]);
      if names[0].None? then rest
      else [Job(entries[0].path, OutputFor(outputPath, Path(false, names[0].value)))] + rest
  }

  /**
   * `processTemplate` called for each of `jobs` in order until one fails:
   * the calls made, the failing one last, and its error.
   */
  function RunJobs(jobs: seq<Job>, render: Job -> Option<string>): (r: (seq<Job>, Option<WalkError>))
    ensures r.0 <= jobs
    ensures r.1.None? <==> forall j | 0 <= j < |jobs| :: render(jobs[j]).None?
    ensures r.1.None? ==> r.0 == jobs
    ensures r.1.Some? ==>
      r.0 != [] && render(r.0[|r.0| - 1]).Some? &&
      r.1 == Some(RenderFailed(r.0[|r.0| - 1], render(r.0[|r.0| - 1]).value)) &&
      forall j | 0 <= j < |r.0| - 1 :: render(r.0[j]).None?
  {
    if jobs == [] then ([], None)
    else
      assert forall j | 1 <= j < |jobs| :: jobs[j] == jobs[1..][j - 1];
      if render(jobs[0]).Some? then ([jobs[0]], Some(RenderFailed(jobs[0], render(jobs[0]).value)))
      else
        var (done, err) := RunJobs(jobs[1..], render);
        assert [jobs[0]] + jobs[1..] == jobs;
        ([jobs[0]] + done, err)
  }

  /**
   * When no entry fails, the walk (the input directory, its subdirectories
   * and its files, in any order) calls `processTemplate` for its files, in
   * walk order, each with its mirrored output path, skipping its
   * directories, until the first call that fails.
   */
  lemma {:induction false} WalkRendersEveryFile(inputPath: Path, outputPath: Path, entries: seq<WalkEntry>,
                                                names: seq<Option<seq<string>>>, render: Job -> Option<string>)
    requires |names| == |entries|
    requires forall i | 0 <= i < |entries| :: WalkedCleanly(inputPath, entries[i], names[i])
    ensures WalkJobs(inputPath, outputPath, entries, render) == RunJobs(MirrorJobs(outputPath, entries, names), render)
    decreases |entries|
  {
    if entries != [] {
      if names[0].Some? {
        OutputMirrorsInput(inputPath, outputPath, entries[0], names[0].value);
      }
      forall i | 0 <= i < |entries| - 1 ensures WalkedCleanly(inputPath, entries[1..][i], names[1..][i]) {
        assert entries[1..][i] == entries[i + 1] && names[1..][i] == names[i + 1];
      }
      WalkRendersEveryFile(inputPath, outputPath, entries[1..], names[1..], render);
    }
  }
}

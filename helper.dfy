/**
 * The layered value resolver of `pkg/helper`: value files are folded into an
 * accumulator from the last one to the first, the accumulator winning every
 * collision, and the result is handed to templates under the key `Values`.
 */
module Helper {
  import opened Wrappers
  import opened ValueTree

  /** A Go `map[string]any`: a reference whose entries the helpers update in place. */
  class Table {
    var entries: Tree

    constructor (init: Tree)
      ensures entries == init
    {
      entries := init;
    }
  }

  /** `MergeYaml(map1, map2)`: coalesce `map2` into `map1`, which takes precedence, and return `map1`. */
  method MergeYaml(map1: Table, map2: Table) returns (merged: Table)
    modifies map1
    ensures merged == map1
    ensures map1.entries == Coalesce(old(map1.entries), old(map2.entries))
  {
    map1.entries := Coalesce(map1.entries, map2.entries);
    merged := map1;
  }

  /** `pruneReplaced(dst, src)`: delete from `src` every subtree a replace-marked mapping of `dst` claims. */
  method PruneReplaced(dst: Table, src: Table)
    modifies src
    ensures src.entries == Prune(old(dst.entries), old(src.entries))
  {
    src.entries := Prune(dst.entries, src.entries);
  }

  /** `StripReplaceAnnotations(m)`: delete the replace marker at every depth of `m`. */
  method StripReplaceAnnotations(m: Table)
    modifies m
    ensures m.entries == Strip(old(m.entries))
  {
    m.entries := Strip(m.entries);
  }

  /** Why loading the value files failed. */
  datatype ValuesError =
    | ReadError(path: string)      // `os.ReadFile` failed; its error names the path
    | YamlError(detail: string)    // `yaml.Unmarshal` failed; its error does not name the file

  /** One value file as the loop meets it: what reading and parsing it gave. */
  datatype ValueFile =
    | Parsed(tree: Tree)
    | Unreadable(path: string)
    | Unparsable(detail: string)
  {
    function Error(): ValuesError
      requires !Parsed?
    {
      if Unreadable? then ReadError(path) else YamlError(detail)
    }
  }

  /** The key under which templates address the resolved tree (`.Values.foo`). */
  const ValuesKey: string := "Values"

  /**
   * The accumulator after the loop has visited `files` from its last element
   * down to its first: each file is pruned against the accumulator and then
   * merged into it; the first failure met (that of the highest index) ends it.
   */
  function Fold(files: seq<ValueFile>): (r: Result<Tree, ValuesError>)
    ensures r.Success? ==> forall i | 0 <= i < |files| :: files[i].Parsed? && files[i].tree.Keys <= r.value.Keys
  {
    if files == [] then Success(map[])
    else
      assert forall i | 1 <= i < |files| :: files[i] == files[1..][i - 1];
      match Fold(files[1..])
      case Failure(e) => Failure(e)
      case Success(acc) =>
        if files[0].Parsed? then Success(Merge(acc, files[0].tree)) else Failure(files[0].Error())
  }

  /** What `ParseYAMLValues` returns for the given files, as the tests require it. */
  function Resolve(files: seq<ValueFile>): (r: Result<Tree, ValuesError>)
    ensures r.Failure? <==> Fold(files).Failure?
    ensures r.Failure? ==> r.error == Fold(files).error
    ensures r.Success? ==> r.value.Keys == if files == [] then {} else {ValuesKey}
  {
    if files == [] then Success(map[])
    else match Fold(files)
      case Failure(e) => Failure(e)
      case Success(acc) => Success(map[ValuesKey := Map(Strip(acc))])
  }

  /**
   * `ParseYAMLValues`: walk the files from the last down to the first, prune
   * and merge each into the accumulator, strip the markers and wrap the tree
   * under `Values`; no file means an empty map without the wrapper.
   */
  method ParseYAMLValues(files: seq<ValueFile>) returns (r: Result<Tree, ValuesError>)
    ensures r == Resolve(files)
  {
    if |files| == 0 {
      return Success(map[]);
    }
    var data := new Table(map[]);
    var i := |files| - 1;
    while i >= 0
      invariant -1 <= i < |files|
      invariant Fold(files[i + 1..]) == Success(data.entries)
    {
      assert files[i..][1..] == files[i + 1..];
      match files[i]
      case Unreadable(path) =>
        FoldFailureIsFinal(files, i);
        return Failure(ReadError(path));
      case Unparsable(detail) =>
        FoldFailureIsFinal(files, i);
        return Failure(YamlError(detail));
      case Parsed(tree) =>
        var values := new Table(tree);
        PruneReplaced(data, values);
        var _ := MergeYaml(data, values);
      i := i - 1;
    }
    assert files[0..] == files;
    StripReplaceAnnotations(data);
    return Success(map[ValuesKey := Map(data.entries)]);
  }

  /** Once the loop has met a failure, visiting the remaining files cannot change it. */
  lemma {:induction false} FoldFailureIsFinal(files: seq<ValueFile>, i: nat)
    requires i <= |files| && Fold(files[i..]).Failure?
    ensures Fold(files) == Fold(files[i..])
    decreases i
  {
    if i > 0 {
      assert files[1..][i - 1..] == files[i..];
      FoldFailureIsFinal(files[1..], i - 1);
    } else {
      assert files[0..] == files;
    }
  }

  /**
   * The loop exactly as `ParseYAMLValues` is written: each file is only
   * coalesced into the accumulator (no pruning), and the markers are never
   * stripped.
   */
  function FoldAsWritten(files: seq<ValueFile>): (r: Result<Tree, ValuesError>)
    ensures r.Failure? <==> Fold(files).Failure?
    ensures r.Failure? ==> r.error == Fold(files).error
  {
    if files == [] then Success(map[])
    else match FoldAsWritten(files[1..])
      case Failure(e) => Failure(e)
      case Success(acc) =>
        if files[0].Parsed? then Success(Coalesce(acc, files[0].tree)) else Failure(files[0].Error())
  }

  /** What `ParseYAMLValues` returns as written: it fails on the same files, with the same error, as `Resolve`. */
  function ResolveAsWritten(files: seq<ValueFile>): (r: Result<Tree, ValuesError>)
    ensures r.Failure? <==> Resolve(files).Failure?
    ensures r.Failure? ==> r == Resolve(files)
  {
    if files == [] then Success(map[])
    else match FoldAsWritten(files)
      case Failure(e) => Failure(e)
      case Success(acc) => Success(map[ValuesKey := Map(acc)])
  }

  /** How `ParseSetValues` wraps the error of Helm's `--set` parser. */
  const SetErrorPrefix: string := "failed parsing --set data: "

  /**
   * How Helm's `strvals.ParseInto` failed on one entry: it writes the pairs
   * of the entry into the tree as it reads them, so a failure leaves the tree
   * as far as it got (`a=1,b` leaves `a` set), beside the message.
   */
  datatype SetFailure = SetFailure(partial: Tree, message: string)

  /**
   * Apply the `--set` entries in order with `parseInto` (Helm's
   * `strvals.ParseInto`, whose coercion rules are not part of this model),
   * each on the tree the previous ones left; the first failure stops it and
   * leaves the tree that failing entry had partly written.
   * Gives the final tree and the error, if any.
   */
  function ApplySets(setValues: seq<string>, dest: Tree, parseInto: (string, Tree) -> Result<Tree, SetFailure>)
    : (Tree, Option<string>)
  {
    if setValues == [] then (dest, None)
    else match parseInto(setValues[0], dest)
      case Failure(e) => (e.partial, Some(SetErrorPrefix + e.message))
      case Success(next) => ApplySets(setValues[1..], next, parseInto)
  }

  /** `ParseSetValues`: parse every `--set` entry into `dest`, in order, stopping at the first failure. */
  method ParseSetValues(setValues: seq<string>, dest: Table, parseInto: (string, Tree) -> Result<Tree, SetFailure>)
    returns (err: Option<string>)
    modifies dest
    ensures (dest.entries, err) == ApplySets(setValues, old(dest.entries), parseInto)
  {
    for i := 0 to |setValues|
      invariant ApplySets(setValues[i..], dest.entries, parseInto) == ApplySets(setValues, old(dest.entries), parseInto)
    {
      assert setValues[i..][1..] == setValues[i + 1..];
      match parseInto(setValues[i], dest.entries)
      case Failure(e) =>
        dest.entries := e.partial;
        return Some(SetErrorPrefix + e.message);
      case Success(next) =>
        dest.entries := next;
    }
    return None;
  }

  /**
   * The entries form an ordered fold: applying `a + b` is applying `a` and
   * then, if that succeeded, applying `b` to the tree `a` left.
   */
  lemma {:induction false} ApplySetsAppend(a: seq<string>, b: seq<string>, dest: Tree,
                                           parseInto: (string, Tree) -> Result<Tree, SetFailure>)
    ensures ApplySets(a + b, dest, parseInto) ==
      var (t, err) := ApplySets(a, dest, parseInto);
      if err.Some? then (t, err) else ApplySets(b, t, parseInto)
    decreases |a|
  {
    if a != [] {
      assert (a + b)[1..] == a[1..] + b;
      match parseInto(a[0], dest)
      case Failure(_) =>
      case Success(next) => ApplySetsAppend(a[1..], b, next, parseInto);
    } else {
      assert a + b == b;
    }
  }

  /**
   * A failure comes from the first entry that fails, applied to the tree the
   * entries before it left: its message behind the `--set` prefix, and the
   * tree that entry had partly written.
   */
  lemma {:induction false} ApplySetsError(setValues: seq<string>, dest: Tree,
                                          parseInto: (string, Tree) -> Result<Tree, SetFailure>)
    ensures ApplySets(setValues, dest, parseInto).1.Some? ==>
      exists i | 0 <= i < |setValues| ::
        ApplySets(setValues[..i], dest, parseInto).1.None? &&
        var t := ApplySets(setValues[..i], dest, parseInto).0;
        parseInto(setValues[i], t).Failure? &&
        ApplySets(setValues, dest, parseInto) ==
          (parseInto(setValues[i], t).error.partial, Some(SetErrorPrefix + parseInto(setValues[i], t).error.message))
    decreases |setValues|
  {
    if setValues != [] {
      match parseInto(setValues[0], dest)
      case Failure(_) =>
        assert setValues[..0] == [];
      case Success(next) =>
        ApplySetsError(setValues[1..], next, parseInto);
        if ApplySets(setValues, dest, parseInto).1.Some? {
          var rest := setValues[1..];
          var i :| 0 <= i < |rest| &&
            ApplySets(rest[..i], next, parseInto).1.None? &&
            var t := ApplySets(rest[..i], next, parseInto).0;
            parseInto(rest[i], t).Failure? &&
            ApplySets(rest, next, parseInto) ==
              (parseInto(rest[i], t).error.partial, Some(SetErrorPrefix + parseInto(rest[i], t).error.message));
          assert rest[i] == setValues[i + 1];
          assert setValues[..i + 1][0] == setValues[0];
          assert setValues[..i + 1][1..] == rest[..i];
          assert ApplySets(setValues[..i + 1], dest, parseInto) == ApplySets(rest[..i], next, parseInto);
        }
    }
  }

  // ---------------------------------------------------------------------------
  // Properties of the resolution

  /** No value file: an empty map, no `Values` wrapper, no error. */
  lemma ResolveEmpty()
    ensures Resolve([]) == Success(map[])
  {
  }

  /** Resolution fails exactly when some file fails, and then with the error of the highest-index failing file. */
  lemma {:induction false} FoldFailsAtLastBadFile(files: seq<ValueFile>)
    ensures Fold(files).Failure? <==> exists j | 0 <= j < |files| :: !files[j].Parsed?
    ensures Fold(files).Failure? ==>
      exists j | 0 <= j < |files| ::
        !files[j].Parsed? && Fold(files).error == files[j].Error() &&
        forall l | j < l < |files| :: files[l].Parsed?
  {
    if files != [] {
      FoldFailsAtLastBadFile(files[1..]);
      assert forall j | 1 <= j < |files| :: files[j] == files[1..][j - 1];
      if Fold(files[1..]).Failure? {
        var j' :| 0 <= j' < |files[1..]| && !files[1..][j'].Parsed? &&
          Fold(files[1..]).error == files[1..][j'].Error() &&
          forall l | j' < l < |files[1..]| :: files[1..][l].Parsed?;
        assert !files[j' + 1].Parsed?;
      } else if !files[0].Parsed? {
        forall l | 0 < l < |files| ensures files[l].Parsed? {
          assert files[l] == files[1..][l - 1];
        }
      }
    }
  }

  /** A non-empty file list that resolves gives, under its one key `Values`, a marker-free tree. */
  lemma ResolveWrapsValues(files: seq<ValueFile>)
    requires files != [] && Resolve(files).Success?
    ensures Resolve(files).value[ValuesKey].Map?
    ensures MarkerFree(Resolve(files).value[ValuesKey].entries)
  {
    StripRemovesMarkers(Fold(files).value);
  }

  /** What the later files resolved to survives every earlier file folded in after them. */
  lemma {:induction false} FoldKeepsLaterFiles(files: seq<ValueFile>, j: nat)
    requires j <= |files| && Fold(files).Success?
    ensures Fold(files[j..]).Success? && Covers(Fold(files).value, Fold(files[j..]).value)
    decreases j
  {
    if j == 0 {
      assert files[0..] == files;
      CoversReflexive(Fold(files).value);
    } else {
      FoldKeepsLaterFiles(files[1..], j - 1);
      assert files[1..][j - 1..] == files[j..];
      MergeKeepsAcc(Fold(files[1..]).value, files[0].tree);
      CoversTransitive(Fold(files).value, Fold(files[1..]).value, Fold(files[j..]).value);
    }
  }

  /**
   * The last file has the highest priority: every scalar and sequence it sets,
   * at any depth, is what templates see, whatever the earlier files say.
   */
  lemma LastFileWins(files: seq<ValueFile>)
    requires files != [] && Resolve(files).Success?
    ensures files[|files| - 1].Parsed?
    ensures Covers(Resolve(files).value[ValuesKey].entries, Strip(files[|files| - 1].tree))
  {
    var last := |files| - 1;
    FoldKeepsLaterFiles(files, last);
    assert files[last..][1..] == [];
    CoalesceIdentity(files[last].tree);
    StripKeepsCover(Fold(files).value, files[last].tree);
  }
}

module HelperExamples {
  import opened Wrappers
  import opened ValueTree
  import opened Helper

  function Class(entries: Tree): Tree { map["class" := Map(entries)] }

  /** Coalescing two one-key mappings under the same key coalesces what they hold. */
  lemma CoalesceSingle(k: string, a: Tree, b: Tree)
    ensures Coalesce(map[k := Map(a)], map[k := Map(b)]) == map[k := Map(Coalesce(a, b))]
  {
  }

  /** Pruning under an unmarked one-key mapping prunes what it holds. */
  lemma PruneSingle(k: string, a: Tree, b: Tree)
    requires !IsReplaced(Map(a))
    ensures Prune(map[k := Map(a)], map[k := Map(b)]) == map[k := Map(Prune(a, b))]
  {
  }

  /** A higher-priority `name` beside a lower-priority `name` and `grade`: the merge keeps `name` and gains `grade`. */
  lemma DeepMergeByDefault()
    ensures Merge(Class(map["name" := Str("suresh")]), Class(map["name" := Str("rajesh"), "grade" := Int(10)])) ==
      Class(map["name" := Str("suresh"), "grade" := Int(10)])
  {
    var a, b := map["name" := Str("suresh")], map["name" := Str("rajesh"), "grade" := Int(10)];
    PruneSingle("class", a, b);
    assert Prune(a, b) == b;
    CoalesceSingle("class", a, b);
    assert Coalesce(a, b) == map["name" := Str("suresh"), "grade" := Int(10)];
  }

  /** val1.yaml, val2.yaml and val3.yaml of the resolver's integration tests. */
  function Val1(): Tree { Class(map["name" := Str("rajesh"), "grade" := Int(10)]) }
  function Val2(): Tree { Class(map[ReplaceKey := Bool(true), "name" := Str("suresh")]) }
  function Val3(): Tree { Class(map["section" := Str("A")]) }

  lemma TwoFilesReplace()
    ensures Resolve([Parsed(Val1()), Parsed(Val2())]) ==
      Success(map[ValuesKey := Map(Class(map["name" := Str("suresh")]))])
  {
    var files := [Parsed(Val1()), Parsed(Val2())];
    CoalesceIdentity(Val2());
    assert Prune(map[], Val2()) == Val2();
    assert files[1..][1..] == [];
    assert Fold(files[1..]) == Success(Val2());
    assert IsReplaced(Val2()["class"]);
    assert Prune(Val2(), Val1()) == map[];
    assert Fold(files) == Success(Val2());
    var inner := Val2()["class"].entries;
    assert Strip(inner) == map["name" := Str("suresh")];
    assert Strip(Val2()) == Class(map["name" := Str("suresh")]);
  }

  /** As written, the loop lets the lower-priority `grade` through and leaks the marker to templates. */
  lemma AsWrittenIgnoresReplace()
    ensures ResolveAsWritten([Parsed(Val1()), Parsed(Val2())]) ==
      Success(map[ValuesKey := Map(Class(map[ReplaceKey := Bool(true), "name" := Str("suresh"), "grade" := Int(10)]))])
    ensures ResolveAsWritten([Parsed(Val1()), Parsed(Val2())]) != Resolve([Parsed(Val1()), Parsed(Val2())])
  {
    var files := [Parsed(Val1()), Parsed(Val2())];
    CoalesceIdentity(Val2());
    assert files[1..][1..] == [];
    assert FoldAsWritten(files[1..]) == Success(Val2());
    var merged := map[ReplaceKey := Bool(true), "name" := Str("suresh"), "grade" := Int(10)];
    assert Coalesce(Val2()["class"].entries, Val1()["class"].entries) == merged;
    CoalesceSingle("class", Val2()["class"].entries, Val1()["class"].entries);
    TwoFilesReplace();
    var written := ResolveAsWritten(files).value[ValuesKey].entries["class"].entries;
    var intended := Resolve(files).value[ValuesKey].entries["class"].entries;
    assert "grade" in written && "grade" !in intended;
  }

  /** The tree of the three-file case before the markers are stripped. */
  function MiddleClass(): Tree
  {
    map["section" := Str("A"), ReplaceKey := Bool(true), "name" := Str("suresh")]
  }

  /** Folding val3 then val2: both `class` mappings coalesce, the marker still in place. */
  lemma FoldVal2Val3()
    ensures Fold([Parsed(Val2()), Parsed(Val3())]) == Success(Class(MiddleClass()))
  {
    var files := [Parsed(Val2()), Parsed(Val3())];
    assert files[1..][1..] == [];
    CoalesceIdentity(Val3());
    assert Prune(map[], Val3()) == Val3();
    assert Fold(files[1..]) == Success(Val3());
    var inner3, inner2 := Val3()["class"].entries, Val2()["class"].entries;
    assert Prune(inner3, inner2) == inner2;
    PruneSingle("class", inner3, inner2);
    assert Coalesce(inner3, inner2) == MiddleClass();
    CoalesceSingle("class", inner3, inner2);
  }

  /** Folding val1 last: the marked `class` of the accumulator blocks all of val1. */
  lemma FoldAllThree()
    ensures Fold([Parsed(Val1()), Parsed(Val2()), Parsed(Val3())]) == Success(Class(MiddleClass()))
  {
    var files := [Parsed(Val1()), Parsed(Val2()), Parsed(Val3())];
    assert files[1..] == [Parsed(Val2()), Parsed(Val3())];
    FoldVal2Val3();
    var acc := Class(MiddleClass());
    assert Merge(acc, Val1()) == acc by {
      assert IsReplaced(acc["class"]);
      assert Prune(acc, Val1()) == map[];
      CoalesceIdentity(acc);
    }
  }

  /** Three files with the marker in the middle one: `class = {name: suresh, section: A}`. */
  lemma ThreeFilesReplaceInMiddle()
    ensures Resolve([Parsed(Val1()), Parsed(Val2()), Parsed(Val3())]) ==
      Success(map[ValuesKey := Map(Class(map["name" := Str("suresh"), "section" := Str("A")]))])
  {
    FoldAllThree();
    StripMiddleClass();
  }

  lemma StripMiddleClass()
    ensures Strip(Class(MiddleClass())) == Class(map["name" := Str("suresh"), "section" := Str("A")])
  {
    assert Strip(MiddleClass()) == map["name" := Str("suresh"), "section" := Str("A")];
  }

  function NestedConfig(): Tree { map[ReplaceKey := Bool(true), "port" := Int(8080)] }
  function NestedDst(): Tree { map["app" := Map(map["config" := Map(NestedConfig())])] }
  function NestedSrcApp(): Tree
  {
    map["config" := Map(map["port" := Int(3000), "host" := Str("localhost")]), "version" := Str("1.0")]
  }
  function NestedSrc(): Tree { map["app" := Map(NestedSrcApp())] }
  function NestedMergedApp(): Tree { map["config" := Map(NestedConfig()), "version" := Str("1.0")] }

  /** Pruning removes the marked `config` from the source but keeps its sibling `version`. */
  lemma NestedPrune()
    ensures Prune(NestedDst(), NestedSrc()) == map["app" := Map(map["version" := Str("1.0")])]
  {
    var app := map["config" := Map(NestedConfig())];
    assert IsReplaced(app["config"]);
    assert Prune(app, NestedSrcApp()) == map["version" := Str("1.0")];
  }

  /** The merge keeps the marked `config` whole and adds `version` beside it. */
  lemma NestedMerge()
    ensures Merge(NestedDst(), NestedSrc()) == map["app" := Map(NestedMergedApp())]
  {
    NestedPrune();
    var app := map["config" := Map(NestedConfig())];
    assert Coalesce(app, map["version" := Str("1.0")]) == NestedMergedApp();
    CoalesceSingle("app", app, map["version" := Str("1.0")]);
  }

  lemma StripNestedConfig()
    ensures Strip(NestedConfig()) == map["port" := Int(8080)]
  {
    assert Strip(NestedConfig()).Keys == {"port"};
  }

  lemma StripNestedMergedApp()
    ensures Strip(NestedMergedApp()) == map["config" := Map(map["port" := Int(8080)]), "version" := Str("1.0")]
  {
    StripNestedConfig();
    assert Strip(NestedMergedApp()).Keys == {"config", "version"};
  }

  /** Stripping a one-key mapping strips the mapping under that key. */
  lemma StripSingle(k: string, t: Tree)
    requires k != ReplaceKey
    ensures Strip(map[k := Map(t)]) == map[k := Map(Strip(t))]
  {
  }

  /** A marker two levels down blocks only its own subtree; the sibling `version` still merges in. */
  lemma NestedReplace()
    ensures Strip(Merge(NestedDst(), NestedSrc())) ==
      map["app" := Map(map["config" := Map(map["port" := Int(8080)]), "version" := Str("1.0")])]
  {
    NestedMerge();
    StripNestedMergedApp();
    StripSingle("app", NestedMergedApp());
  }
}

/**
 * The value tree that templates see as `.Values`, and the three tree walks that
 * resolve layered value files: coalescing a lower-priority tree into the
 * accumulator (Helm's `chartutil.CoalesceTables`, called by `MergeYaml`),
 * pruning the subtrees a `__replace: true` mapping claims, and stripping the
 * markers once every file is folded in.
 */
module ValueTree {
  import opened Wrappers

  /** A parsed YAML node. Scalars and sequences are atomic for merging; only mappings recurse. */
  datatype Value =
    | Null
    | Bool(b: bool)
    | Int(i: int)
    | Str(s: string)
    | Seq(items: seq<Value>)
    | Map(entries: map<string, Value>)

  /** A mapping node's contents: Go's `map[string]any`. */
  type Tree = map<string, Value>

  /** The reserved key of a mapping that claims its whole subtree. */
  const ReplaceKey: string := "__replace"

  /** A mapping that carries `__replace: true`; any other marker value is ignored. */
  predicate IsReplaced(v: Value)
  {
    v.Map? && ReplaceKey in v.entries && v.entries[ReplaceKey] == Bool(true)
  }

  /**
   * Coalesce `src` into `dst`: `dst` wins every collision, a key only `src`
   * has is added as it is, and two colliding mappings are coalesced
   * recursively.
   */
  function Coalesce(dst: Tree, src: Tree): (r: Tree)
    ensures r.Keys == dst.Keys + src.Keys
    decreases Map(dst)
  {
    map k | k in dst.Keys + src.Keys ::
      if k !in dst then src[k]
      else if k in src && dst[k].Map? && src[k].Map? then Map(Coalesce(dst[k].entries, src[k].entries))
      else dst[k]
  }

  /**
   * Remove from the lower-priority `src` every subtree that a replace-marked
   * mapping of `dst` claims: a key both trees hold whose `dst` value is
   * replace-marked goes; two unmarked colliding mappings are pruned recursively.
   */
  function Prune(dst: Tree, src: Tree): (r: Tree)
    ensures r.Keys == src.Keys - set k | k in dst && k in src && IsReplaced(dst[k])
    decreases Map(dst)
  {
    map k | k in src && !(k in dst && IsReplaced(dst[k])) ::
      if k in dst && dst[k].Map? && src[k].Map? then Map(Prune(dst[k].entries, src[k].entries))
      else src[k]
  }

  /** Delete the replace marker from every mapping of the tree, at every depth. */
  function Strip(m: Tree): (r: Tree)
    ensures r.Keys == m.Keys - {ReplaceKey}
    decreases Map(m)
  {
    map k | k in m && k != ReplaceKey :: if m[k].Map? then Map(Strip(m[k].entries)) else m[k]
  }

  /** One step of the resolver's fold: prune `src` against the accumulator, then coalesce it in. */
  function Merge(acc: Tree, src: Tree): (r: Tree)
    ensures r.Keys == acc.Keys + src.Keys
  {
    Coalesce(acc, Prune(acc, src))
  }

  /** The value reached from the root of `t` by following the keys of `p`. */
  function Lookup(t: Tree, p: seq<string>): Option<Value>
    decreases |p|
  {
    if p == [] || p[0] !in t then None
    else if |p| == 1 then Some(t[p[0]])
    else if t[p[0]].Map? then Lookup(t[p[0]].entries, p[1..])
    else None
  }

  /**
   * `big` holds everything `small` holds: the same scalar or sequence at every
   * key path of `small`, and a mapping wherever `small` has a mapping.
   */
  ghost predicate Covers(big: Tree, small: Tree)
    decreases Map(small)
  {
    forall k | k in small ::
      k in big &&
      if small[k].Map? then big[k].Map? && Covers(big[k].entries, small[k].entries)
      else big[k] == small[k]
  }

  /** No mapping anywhere in the tree carries the replace key. */
  ghost predicate MarkerFree(t: Tree)
    decreases Map(t)
  {
    ReplaceKey !in t && forall k | k in t && t[k].Map? :: MarkerFree(t[k].entries)
  }

  /** No mapping anywhere in the tree is replace-marked. */
  ghost predicate NoReplaceMarks(t: Tree)
    decreases Map(t)
  {
    forall k | k in t :: !IsReplaced(t[k]) && (t[k].Map? ==> NoReplaceMarks(t[k].entries))
  }

  /** The two trees never disagree on a key's kind: wherever both hold a key, both hold mappings. */
  ghost predicate Compatible(a: Tree, b: Tree)
    decreases Map(a)
  {
    forall k | k in a && k in b ::
      a[k].Map? && b[k].Map? && Compatible(a[k].entries, b[k].entries)
  }

  // ---------------------------------------------------------------------------
  // Coalesce

  lemma {:induction false} CoversReflexive(t: Tree)
    ensures Covers(t, t)
    decreases Map(t)
  {
    forall k | k in t && t[k].Map? ensures Covers(t[k].entries, t[k].entries) {
      CoversReflexive(t[k].entries);
    }
  }

  lemma {:induction false} CoversTransitive(a: Tree, b: Tree, c: Tree)
    requires Covers(a, b) && Covers(b, c)
    ensures Covers(a, c)
    decreases Map(c)
  {
    forall k | k in c && c[k].Map? ensures Covers(a[k].entries, c[k].entries) {
      CoversTransitive(a[k].entries, b[k].entries, c[k].entries);
    }
  }

  /** The accumulator wins at every depth: everything `dst` holds survives the coalesce. */
  lemma {:induction false} CoalesceKeepsDst(dst: Tree, src: Tree)
    ensures Covers(Coalesce(dst, src), dst)
    decreases Map(dst)
  {
    var r := Coalesce(dst, src);
    forall k | k in dst && dst[k].Map? ensures r[k].Map? && Covers(r[k].entries, dst[k].entries) {
      if k in src && src[k].Map? {
        CoalesceKeepsDst(dst[k].entries, src[k].entries);
      } else {
        CoversReflexive(dst[k].entries);
      }
    }
  }

  /**
   * When every key the two trees share holds a mapping on both sides, at
   * every depth, coalescing is their deep union: the result covers both.
   */
  lemma {:induction false} CoalesceCompatibleIsUnion(dst: Tree, src: Tree)
    requires Compatible(dst, src)
    ensures Covers(Coalesce(dst, src), dst) && Covers(Coalesce(dst, src), src)
    decreases Map(dst)
  {
    CoalesceKeepsDst(dst, src);
    var r := Coalesce(dst, src);
    forall k | k in src && src[k].Map? ensures r[k].Map? && Covers(r[k].entries, src[k].entries) {
      if k in dst {
        CoalesceCompatibleIsUnion(dst[k].entries, src[k].entries);
      } else {
        CoversReflexive(src[k].entries);
      }
    }
  }

  /**
   * What `src` still contributes beneath `dst`: the keys `dst` lacks, and,
   * where both hold mappings, what it contributes beneath them. Its scalars
   * that collide with `dst` are dropped, and so are its mappings that collide
   * with a `dst` scalar.
   */
  ghost function Underneath(dst: Tree, src: Tree): Tree
    decreases Map(dst)
  {
    map k | k in src && (k !in dst || (dst[k].Map? && src[k].Map?)) ::
      if k in dst then Map(Underneath(dst[k].entries, src[k].entries)) else src[k]
  }

  /**
   * Coalescing is a deep merge, not a replacement: besides all of `dst`, the
   * result holds everything `src` contributes beneath it, at every depth.
   */
  lemma {:induction false} CoalesceKeepsUnderneath(dst: Tree, src: Tree)
    ensures Covers(Coalesce(dst, src), Underneath(dst, src))
    decreases Map(dst)
  {
    var r, u := Coalesce(dst, src), Underneath(dst, src);
    forall k | k in u && u[k].Map? ensures r[k].Map? && Covers(r[k].entries, u[k].entries) {
      if k in dst {
        CoalesceKeepsUnderneath(dst[k].entries, src[k].entries);
      } else {
        CoversReflexive(src[k].entries);
      }
    }
  }

  /** An empty source changes nothing, and coalescing into an empty accumulator copies the source. */
  lemma {:induction false} CoalesceIdentity(t: Tree)
    ensures Coalesce(t, map[]) == t && Coalesce(map[], t) == t
  {
  }

  /** Coalescing a tree into itself changes nothing. */
  lemma {:induction false} CoalesceIdempotent(t: Tree)
    ensures Coalesce(t, t) == t
    decreases Map(t)
  {
    forall k | k in t && t[k].Map? ensures Coalesce(t[k].entries, t[k].entries) == t[k].entries {
      CoalesceIdempotent(t[k].entries);
    }
  }

  // ---------------------------------------------------------------------------
  // Prune and the merge step

  /** Pruning against an accumulator with no replace marks removes nothing. */
  lemma {:induction false} PruneWithoutMarks(dst: Tree, src: Tree)
    requires NoReplaceMarks(dst)
    ensures Prune(dst, src) == src
    decreases Map(dst)
  {
    forall k | k in src && k in dst && dst[k].Map? && src[k].Map?
      ensures Prune(dst[k].entries, src[k].entries) == src[k].entries
    {
      PruneWithoutMarks(dst[k].entries, src[k].entries);
    }
  }

  /** Without replace marks in the accumulator, one merge step is the plain coalesce. */
  lemma MergeWithoutMarks(acc: Tree, src: Tree)
    requires NoReplaceMarks(acc)
    ensures Merge(acc, src) == Coalesce(acc, src)
  {
    PruneWithoutMarks(acc, src);
  }

  /** A merge step never loses anything the accumulator holds. */
  lemma MergeKeepsAcc(acc: Tree, src: Tree)
    ensures Covers(Merge(acc, src), acc)
  {
    CoalesceKeepsDst(acc, Prune(acc, src));
  }

  /**
   * A merge step descends normally through an unmarked mapping: keys the
   * accumulator lacks arrive unchanged, and two colliding mappings whose
   * accumulator side is not replace-marked are merged one level down.
   */
  lemma MergeDescends(acc: Tree, src: Tree, k: string)
    requires k in src
    ensures k !in acc ==> Merge(acc, src)[k] == src[k]
    ensures k in acc && acc[k].Map? && src[k].Map? && !IsReplaced(acc[k]) ==>
      Merge(acc, src)[k] == Map(Merge(acc[k].entries, src[k].entries))
  {
  }

  /**
   * A replace-marked mapping in the accumulator, at any depth, comes out of a
   * merge step exactly as it went in: nothing of `src` reaches that subtree.
   */
  lemma {:induction false} ReplacedSubtreeKept(acc: Tree, src: Tree, p: seq<string>)
    requires Lookup(acc, p).Some? && IsReplaced(Lookup(acc, p).value)
    ensures Lookup(Merge(acc, src), p) == Lookup(acc, p)
    decreases |p|
  {
    var k := p[0];
    var r := Merge(acc, src);
    if |p| > 1 && !IsReplaced(acc[k]) && k in src && src[k].Map? {
      assert r[k] == Map(Merge(acc[k].entries, src[k].entries));
      ReplacedSubtreeKept(acc[k].entries, src[k].entries, p[1..]);
    }
  }

  // ---------------------------------------------------------------------------
  // Strip

  /** After stripping, no mapping at any depth carries the replace key. */
  lemma {:induction false} StripRemovesMarkers(m: Tree)
    ensures MarkerFree(Strip(m))
    decreases Map(m)
  {
    var r := Strip(m);
    forall k | k in r && r[k].Map? ensures MarkerFree(r[k].entries) {
      StripRemovesMarkers(m[k].entries);
    }
  }

  /** Stripping a tree that carries no markers changes nothing. */
  lemma {:induction false} StripMarkerFree(m: Tree)
    requires MarkerFree(m)
    ensures Strip(m) == m
    decreases Map(m)
  {
    forall k | k in m && m[k].Map? ensures Strip(m[k].entries) == m[k].entries {
      StripMarkerFree(m[k].entries);
    }
  }

  /** Stripping twice is stripping once. */
  lemma StripIdempotent(m: Tree)
    ensures Strip(Strip(m)) == Strip(m)
  {
    StripRemovesMarkers(m);
    StripMarkerFree(Strip(m));
  }

  /** Stripping keeps every other key at every depth: what one tree covers, its stripped form still covers. */
  lemma {:induction false} StripKeepsCover(big: Tree, small: Tree)
    requires Covers(big, small)
    ensures Covers(Strip(big), Strip(small))
    decreases Map(small)
  {
    var b, s := Strip(big), Strip(small);
    forall k | k in s && s[k].Map? ensures b[k].Map? && Covers(b[k].entries, s[k].entries) {
      StripKeepsCover(big[k].entries, small[k].entries);
    }
  }
}

/** Absolute paths, the tree they name, and what copying, removing and renaming do to it. */
module FileTree {

  type Path = seq<string>

  datatype Node = Dir | File(content: seq<bv8>)

  type Tree = map<Path, Node>

  predicate Hidden(name: string) {
    name != "" && name[0] == '.'
  }

  /** No component is hidden, so a listing without the Hidden flag shows it at every level. */
  predicate Visible(rel: Path) {
    forall i :: 0 <= i < |rel| ==> !Hidden(rel[i])
  }

  predicate IsDir(t: Tree, p: Path) {
    p in t && t[p].Dir?
  }

  predicate ParentIsDir(t: Tree, p: Path) {
    p != [] && IsDir(t, p[..|p| - 1])
  }

  /** Every existing path other than the root lies in an existing directory. */
  ghost predicate WellFormed(t: Tree) {
    && IsDir(t, [])
    && forall p {:trigger ParentIsDir(t, p)} :: p in t ==> p == [] || ParentIsDir(t, p)
  }

  predicate StrictlyInside(p: Path, base: Path) {
    base <= p && p != base
  }

  // In what follows a path under a base is written base + r.

  /** t' has everything t has, with the same kind and content. */
  ghost predicate Extends(t: Tree, t': Tree) {
    forall p :: p in t ==> p in t' && t'[p] == t[p]
  }

  /** Every entry added between t and t' is a directory leading to dst or the copy of a visible source entry. */
  ghost predicate OnlyCopiesAdded(t: Tree, t': Tree, src: Path, dst: Path) {
    && (forall p :: p in t' && p !in t ==> (p <= dst && t'[p] == Dir) || dst <= p)
    && (forall r :: dst + r in t' && dst + r !in t ==>
          Visible(r) && src + r in t' && t'[src + r] == t'[dst + r])
  }

  /** Everything visible under src in t is present under dst in t', with the same kind and content. */
  ghost predicate CopiedAll(t: Tree, t': Tree, src: Path, dst: Path) {
    forall r :: src + r in t && Visible(r) ==> dst + r in t' && t'[dst + r] == t[src + r]
  }

  /** Only entries under base and visible below it are missing from t'. */
  ghost predicate OnlyVisibleRemoved(t: Tree, t': Tree, base: Path) {
    && Extends(t', t)
    && (forall p :: p in t && p !in t' ==> base <= p)
    && (forall r :: base + r in t && base + r !in t' ==> Visible(r))
  }

  ghost predicate NothingUnder(t: Tree, base: Path) {
    forall p :: p in t ==> !(base <= p)
  }

  /** No listing at or below base reaches deeper than the bound. */
  ghost predicate DepthWithin(t: Tree, base: Path, bound: nat) {
    forall p :: p in t && base <= p && Visible(p[|base|..]) ==> |p| <= bound
  }

  /** Nor does the part of the way from src to dst that a listing shows. */
  ghost predicate RouteWithin(src: Path, dst: Path, bound: nat) {
    src <= dst ==> forall k :: |src| <= k <= |dst| && Visible(dst[|src|..k]) ==> k <= bound
  }

  /** Listing src, level by level, would come upon dst. */
  predicate LeadsInto(src: Path, dst: Path) {
    StrictlyInside(dst, src) && Visible(dst[|src|..])
  }

  /** The longest path. */
  ghost function Deepest(paths: set<Path>): (d: nat)
    ensures forall p :: p in paths ==> |p| <= d
  {
    if paths == {} then 0
    else
      var p :| p in paths;
      var d := Deepest(paths - {p});
      if |p| > d then |p| else d
  }

  /** Entries added by copying src to dst are no deeper, relative to dst, than src allows. */
  ghost predicate AddedWithin(t: Tree, t': Tree, src: Path, dst: Path, bound: nat) {
    forall p :: p in t' && p !in t ==> |p| + |src| <= bound + |dst|
  }

  /** What a rename does: the entry at src and all below it move, the rest stays. */
  ghost predicate Relocated(t: Tree, t': Tree, src: Path, dst: Path) {
    && UnchangedElsewhere(t, t', src)
    && (forall r :: src + r in t ==> dst + r in t' && t'[dst + r] == t[src + r])
    && (forall r :: dst + r in t' ==> src + r in t)
    && (forall p :: p in t' && !(dst <= p) ==> p in t && !(src <= p))
  }

  ghost predicate UnchangedElsewhere(t: Tree, t': Tree, src: Path) {
    forall p :: p in t && !(src <= p) ==> p in t' && t'[p] == t[p]
  }

  ghost predicate Holds(t: Tree, p: Path, n: Node) {
    p in t && t[p] == n
  }

  /** The entry at src + r is still there in t': in place, or at its place relative to one of the targets. */
  ghost predicate KeptAt(t: Tree, t': Tree, src: Path, targets: set<Path>, r: Path)
    requires src + r in t
  {
    || Holds(t', src + r, t[src + r])
    || exists d :: d in targets && Holds(t', d + r, t[src + r])
  }

  ghost predicate FileAt(t: Tree, p: Path) {
    p in t && t[p].File?
  }

  ghost predicate Kept(t: Tree, t': Tree, src: Path, targets: set<Path>) {
    forall r :: FileAt(t, src + r) ==> KeptAt(t, t', src, targets, r)
  }

  /** No file under src is lost and nothing that existed elsewhere is touched. */
  ghost predicate Conserved(t: Tree, t': Tree, src: Path, targets: set<Path>) {
    Kept(t, t', src, targets) && UnchangedElsewhere(t, t', src)
  }

  /** dst is src or around it, and the place of r under dst lies under src. */
  predicate Buried(src: Path, dst: Path, r: Path) {
    dst <= src <= dst + r
  }

  /** No file under src has its place under dst buried under src. */
  ghost predicate NoneBuried(t: Tree, src: Path, dst: Path) {
    forall r :: FileAt(t, src + r) ==> !Buried(src, dst, r)
  }

  /** Every file whose place under dst is not buried is kept. */
  ghost predicate UnburiedKept(t: Tree, t': Tree, src: Path, dst: Path, targets: set<Path>) {
    forall r :: FileAt(t, src + r) && !Buried(src, dst, r) ==> KeptAt(t, t', src, targets, r)
  }

  /** What no listing shows stays where it is. */
  ghost predicate HiddenStays(t: Tree, t': Tree, src: Path) {
    forall r :: src + r in t && !Visible(r) ==> Holds(t', src + r, t[src + r])
  }

  /** Everything under src is at its place under dst. */
  ghost predicate AllMoved(t: Tree, t': Tree, src: Path, dst: Path) {
    forall r :: src + r in t ==> Holds(t', dst + r, t[src + r])
  }

  /** What trashing src keeps: all but what is buried at the place, and of the hidden entries all. */
  ghost predicate KeptApart(t: Tree, t': Tree, src: Path, place: Path, target: Path) {
    && UnchangedElsewhere(t, t', src)
    && UnburiedKept(t, t', src, place, {target})
    && (HiddenStays(t, t', src) || AllMoved(t, t', src, target))
  }

  /** The tree after a rename. */
  function Moved(t: Tree, src: Path, dst: Path): Tree
    requires NothingUnder(t, dst)
  {
    var stay := set p | p in t && !(src <= p);
    var go := set p | p in t && src <= p :: dst + p[|src|..];
    map q | q in stay + go :: if dst <= q then (MovedFrom(t, src, dst, q); t[src + q[|dst|..]]) else t[q]
  }

  lemma MovedFrom(t: Tree, src: Path, dst: Path, q: Path)
    requires NothingUnder(t, dst)
    requires q in (set p | p in t && !(src <= p)) + (set p | p in t && src <= p :: dst + p[|src|..])
    requires dst <= q
    ensures src + q[|dst|..] in t
  {
    var p :| p in t && src <= p && q == dst + p[|src|..];
    assert q[|dst|..] == p[|src|..];
    assert src + p[|src|..] == p;
  }

  // ---- When nothing outside the tree goes wrong

  /** No file stands in the way of creating p and its ancestors. */
  ghost predicate PathOpen(t: Tree, p: Path) {
    forall q {:trigger q in t} :: q <= p && q in t ==> IsDir(t, q)
  }

  /** Wherever both sides have an entry, both are directories. */
  ghost predicate NoConflict(t: Tree, src: Path, dst: Path) {
    forall r :: r != [] && Visible(r) && src + r in t && dst + r in t ==> IsDir(t, src + r) && IsDir(t, dst + r)
  }

  ghost predicate CanCopyDir(t: Tree, src: Path, dst: Path) {
    IsDir(t, src) && PathOpen(t, dst) && NoConflict(t, src, dst)
  }

  ghost predicate CanCopyFile(t: Tree, src: Path, dst: Path) {
    src in t && t[src].File? && dst !in t && ParentIsDir(t, dst)
  }

  ghost predicate CanCopyEntry(t: Tree, src: Path, dst: Path) {
    if IsDir(t, src) then CanCopyDir(t, src, dst) else CanCopyFile(t, src, dst)
  }

  ghost predicate CanRename(t: Tree, src: Path, dst: Path) {
    src != [] && src in t && dst !in t && !(src <= dst) && ParentIsDir(t, dst)
  }

  ghost predicate Unrelated(a: Path, b: Path) {
    !(a <= b) && !(b <= a)
  }

  ghost predicate AllVisible(t: Tree, base: Path) {
    forall r :: base + r in t ==> Visible(r)
  }

  // ---- Facts about paths and well-formed trees

  lemma Split(p: Path, base: Path)
    requires base <= p
    ensures p == base + p[|base|..]
  {}

  lemma PrefixTransitive(a: Path, b: Path, c: Path)
    requires a <= b && b <= c
    ensures a <= c
  {}

  lemma PrefixesComparable(p: Path, a: Path, b: Path)
    requires a <= p && b <= p
    ensures if |a| <= |b| then a <= b else b <= a
  {
    if |a| <= |b| {
      assert b[..|a|] == p[..|a|];
    } else {
      assert a[..|b|] == p[..|b|];
    }
  }

  lemma ChildrenStayOutside(src: Path, dst: Path, name: string)
    requires !StrictlyInside(dst, src)
    ensures !StrictlyInside(dst + [name], src + [name])
  {
    var s, d := src + [name], dst + [name];
    if s <= d {
      assert d[..|src|] == s[..|src|] == src;
      assert src <= dst;
    }
  }

  /** What lies under a place that no listing of src leads to is hidden from src as well. */
  lemma BelowHidden(src: Path, dst: Path, r: Path) returns (q: Path)
    requires StrictlyInside(dst, src) && !LeadsInto(src, dst)
    ensures dst + r == src + q && !Visible(q)
  {
    var v := dst[|src|..];
    q := v + r;
    var i :| 0 <= i < |v| && Hidden(v[i]);
    assert q[i] == v[i];
  }

  /** Below a hidden name nothing is listed, at any level. */
  lemma ChildrenStayApart(src: Path, dst: Path, name: string)
    requires !LeadsInto(src, dst) && !Hidden(name)
    ensures !LeadsInto(src + [name], dst + [name])
  {
    var s, d := src + [name], dst + [name];
    if StrictlyInside(d, s) {
      assert d[..|src|] == s[..|src|] == src;
      assert |src| < |dst| && src <= dst;
      var q := BelowHidden(src, dst, [name]);
      assert q == [name] + d[|s|..];
    }
  }

  lemma {:induction false} PrefixExists(t: Tree, p: Path, k: nat)
    requires WellFormed(t) && p in t && k < |p|
    ensures IsDir(t, p[..k])
    decreases |p|
  {
    assert ParentIsDir(t, p);
    var parent := p[..|p| - 1];
    if k < |p| - 1 {
      PrefixExists(t, parent, k);
      assert parent[..k] == p[..k];
    }
  }

  lemma NothingBelowFile(t: Tree, f: Path, p: Path)
    requires WellFormed(t) && p in t && f <= p && !IsDir(t, f)
    ensures p == f
  {
    if |f| < |p| {
      assert p[..|f|] == f;
      PrefixExists(t, p, |f|);
    }
  }

  lemma NothingBelowMissing(t: Tree, f: Path)
    requires WellFormed(t) && f !in t
    ensures NothingUnder(t, f)
  {
    forall p | p in t ensures !(f <= p) {
      if f <= p { NothingBelowFile(t, f, p); }
    }
  }

  lemma AddingKeepsWellFormed(t: Tree, p: Path, n: Node)
    requires WellFormed(t) && p !in t && ParentIsDir(t, p)
    ensures WellFormed(t[p := n])
  {
    var t' := t[p := n];
    forall q | q in t' && q != [] ensures ParentIsDir(t', q) {
      assert ParentIsDir(t, q);
    }
  }

  lemma RemovingKeepsWellFormed(t: Tree, p: Path)
    requires WellFormed(t) && p != []
    requires forall q :: q in t ==> !StrictlyInside(q, p)
    ensures WellFormed(t - {p})
  {
    var t' := t - {p};
    forall q | q in t' && q != [] ensures ParentIsDir(t', q) {
      assert ParentIsDir(t, q);
      assert !StrictlyInside(q, p);
    }
  }

  function TreeOf(dirs: set<Path>, files: set<Path>, content: seq<bv8>): Tree {
    map p | p in dirs + files :: if p in dirs then Dir else File(content)
  }

  lemma TreeOfIsWellFormed(dirs: set<Path>, files: set<Path>, content: seq<bv8>)
    requires [] in dirs && forall p :: p in dirs + files && p != [] ==> p[..|p| - 1] in dirs
    ensures WellFormed(TreeOf(dirs, files, content))
  {}

  // ---- Conservation

  /** A delete after a full copy loses nothing that is not buried: what is removed was visible, so it was copied. */
  lemma CopyThenDeleteKeeps(t: Tree, copied: Tree, left: Tree, src: Path, dst: Path)
    requires Extends(t, copied) && CopiedAll(t, copied, src, dst) && OnlyVisibleRemoved(copied, left, src)
    requires !LeadsInto(src, dst)
    ensures UnburiedKept(t, left, src, dst, {dst}) && HiddenStays(t, left, src) && UnchangedElsewhere(t, left, src)
  {
    forall r | FileAt(t, src + r) && !Buried(src, dst, r) ensures KeptAt(t, left, src, {dst}, r) {
      if src + r !in left {
        assert Holds(copied, dst + r, t[src + r]);
        if dst + r !in left { RemovedMeansBuried(copied, left, src, dst, r); }
        assert Holds(left, dst + r, t[src + r]);
      }
    }
  }

  lemma RemovedMeansBuried(copied: Tree, left: Tree, src: Path, dst: Path, r: Path)
    requires OnlyVisibleRemoved(copied, left, src) && !LeadsInto(src, dst)
    requires dst + r in copied && dst + r !in left
    ensures Buried(src, dst, r)
  {
    PrefixesComparable(dst + r, src, dst);
    if StrictlyInside(dst, src) { var q := BelowHidden(src, dst, r); }
  }

  /** Exactly when a delete that removed everything after a full copy lost nothing. */
  lemma DeletedAllConservesExactly(t: Tree, copied: Tree, left: Tree, src: Path, dst: Path)
    requires Extends(t, copied) && CopiedAll(t, copied, src, dst)
    requires OnlyVisibleRemoved(copied, left, src) && NothingUnder(left, src)
    ensures Conserved(t, left, src, {dst}) <==> forall r :: FileAt(t, src + r) ==> !(src <= dst + r)
  {
    forall r | FileAt(t, src + r) ensures KeptAt(t, left, src, {dst}, r) <==> !(src <= dst + r) {
      assert src + r !in left;
      if !(src <= dst + r) { assert Holds(left, dst + r, t[src + r]); }
    }
  }

  /** With nothing left, what is buried is lost. */
  lemma BuriedIsLost(t: Tree, left: Tree, src: Path, dst: Path)
    requires NothingUnder(left, src) && Conserved(t, left, src, {dst})
    ensures NoneBuried(t, src, dst)
  {
    forall r | FileAt(t, src + r) ensures !Buried(src, dst, r) {
      assert KeptAt(t, left, src, {dst}, r);
    }
  }

  lemma NoneBuriedConserves(t: Tree, t': Tree, src: Path, dst: Path, targets: set<Path>)
    requires NoneBuried(t, src, dst) && UnburiedKept(t, t', src, dst, targets) && UnchangedElsewhere(t, t', src)
    ensures Conserved(t, t', src, targets)
  {}

  /**
   * Why the target must not contain the source: with a directory x/x/y in it, copying `to`/x onto `to` and then
   * deleting `to`/x does all that a successful copy and delete promise, and loses the file.
   */
  lemma CopyOntoAncestorLoses(t: Tree, to: Path, x: string, y: string) returns (copied: Tree, left: Tree)
    requires !Hidden(x) && !Hidden(y) && to + [x, y] !in t
    requires IsDir(t, to + [x]) && IsDir(t, to + [x, x]) && to + [x, x, y] in t && t[to + [x, x, y]].File?
    requires forall p :: p in t && to + [x] <= p ==> p == to + [x] || p == to + [x, x] || p == to + [x, x, y]
    requires IsDir(t, to)
    ensures Extends(t, copied) && OnlyCopiesAdded(t, copied, to + [x], to) && CopiedAll(t, copied, to + [x], to)
    ensures OnlyVisibleRemoved(copied, left, to + [x]) && NothingUnder(left, to + [x])
    ensures !Conserved(t, left, to + [x], {to})
  {
    var (src, file) := (to + [x], t[to + [x, x, y]]);
    copied := t[to + [x, y] := file];
    left := map p | p in copied && !(src <= p) :: copied[p];
    forall r | src + r in t && Visible(r) ensures to + r in copied && copied[to + r] == t[src + r] {
      ThreeWays(t, to, x, y, r);
    }
    forall r | to + r in copied && to + r !in t ensures Visible(r) && src + r in copied && copied[src + r] == file {
      assert to + r == to + [x, y] && (to + r)[|to|..] == r && (to + [x, y])[|to|..] == [x, y];
      assert src + r == to + [x, x, y];
    }
    forall r | src + r in copied ensures Visible(r) {
      assert (src + r)[|src|..] == r;
      if src + r == to + [x, y] { assert (to + [x, y])[|src|..] == [y]; }
      else { ThreeWays(t, to, x, y, r); }
    }
    assert src + [x, y] == to + [x, x, y];
    assert to + [x, y] == src + [y];
    assert FileAt(t, src + [x, y]) && !KeptAt(t, left, src, {to}, [x, y]);
  }

  lemma ThreeWays(t: Tree, to: Path, x: string, y: string, r: Path)
    requires forall p :: p in t && to + [x] <= p ==> p == to + [x] || p == to + [x, x] || p == to + [x, x, y]
    requires to + [x] + r in t
    ensures r == [] || r == [x] || r == [x, y]
    ensures to + [] == to
  {
    var p := to + [x] + r;
    assert p[|to| + 1..] == r;
    assert (to + [x, x])[|to| + 1..] == [x] && (to + [x, x, y])[|to| + 1..] == [x, y];
  }

  lemma RelocationConserves(t: Tree, t': Tree, src: Path, dst: Path)
    requires Relocated(t, t', src, dst)
    ensures Conserved(t, t', src, {dst})
  {
    forall r | src + r in t ensures Holds(t', dst + r, t[src + r]) {}
  }

  /** A copy beside the source outlives whatever happens under the source. */
  lemma CopySurvives(t: Tree, copied: Tree, left: Tree, src: Path, dst: Path)
    requires CopiedAll(t, copied, src, dst) && UnchangedElsewhere(copied, left, src) && Unrelated(src, dst)
    ensures CopiedAll(t, left, src, dst)
  {
    forall r | src + r in t && Visible(r) ensures dst + r in left && left[dst + r] == t[src + r] {
      if src <= dst + r { PrefixesComparable(dst + r, src, dst); }
    }
  }

  /** A copy that is not around the source outlives the recursive delete of the source. */
  lemma CopySurvivesDelete(t: Tree, copied: Tree, left: Tree, src: Path, dst: Path)
    requires CopiedAll(t, copied, src, dst) && OnlyVisibleRemoved(copied, left, src)
    requires !LeadsInto(src, dst) && !(dst <= src)
    ensures CopiedAll(t, left, src, dst)
  {
    forall r | src + r in t && Visible(r) ensures dst + r in left && left[dst + r] == t[src + r] {
      if dst + r !in left { RemovedMeansBuried(copied, left, src, dst, r); }
    }
  }

  /** A move by copying and trashing keeps each file that is not buried under the source on both sides. */
  lemma MoveKeeps(t: Tree, copied: Tree, left: Tree, src: Path, dst: Path, place: Path, target: Path)
    requires Extends(t, copied) && CopiedAll(t, copied, src, dst) && !LeadsInto(src, dst)
    requires KeptApart(copied, left, src, place, target)
    requires forall r :: FileAt(t, src + r) ==> !Buried(src, dst, r) || !Buried(src, place, r)
    ensures Conserved(t, left, src, {dst, target})
  {
    forall r | FileAt(t, src + r) ensures KeptAt(t, left, src, {dst, target}, r) {
      if !Buried(src, place, r) {
        assert KeptAt(copied, left, src, {target}, r);
      } else if HiddenStays(copied, left, src) {
        if Visible(r) { CopyOutlivesTrash(t, copied, left, src, dst, r); }
        else { assert Holds(left, src + r, t[src + r]); }
      } else {
        assert Holds(left, target + r, t[src + r]);
      }
    }
  }

  lemma CopyOutlivesTrash(t: Tree, copied: Tree, left: Tree, src: Path, dst: Path, r: Path)
    requires CopiedAll(t, copied, src, dst) && !LeadsInto(src, dst)
    requires UnchangedElsewhere(copied, left, src) && HiddenStays(copied, left, src)
    requires src + r in t && Visible(r) && !Buried(src, dst, r)
    ensures Holds(left, dst + r, t[src + r])
  {
    if src <= dst + r {
      PrefixesComparable(dst + r, src, dst);
      var q := BelowHidden(src, dst, r);
    }
  }

  /** A copy beside the source adds nothing to it. */
  lemma CopyBesideShows(t: Tree, copied: Tree, src: Path, dst: Path)
    requires Extends(t, copied) && OnlyCopiesAdded(t, copied, src, dst) && Unrelated(src, dst)
    ensures AllVisible(copied, src) <==> AllVisible(t, src)
  {
    forall r ensures src + r in copied <==> src + r in t {
      if src + r in copied && src + r !in t {
        if dst <= src + r { PrefixesComparable(src + r, src, dst); }
        else { PrefixTransitive(src, src + r, dst); }
      }
    }
  }

  lemma FileShows(t: Tree, f: Path)
    requires WellFormed(t) && FileAt(t, f)
    ensures AllVisible(t, f)
  {
    forall r | f + r in t ensures r == [] { NothingBelowFile(t, f, f + r); }
  }

  /** Exactly when a move by copying and trashing that left nothing behind lost nothing. */
  lemma MovedAllConservesExactly(t: Tree, copied: Tree, left: Tree, src: Path, dst: Path, target: Path)
    requires Extends(t, copied) && CopiedAll(t, copied, src, dst)
    requires KeptApart(copied, left, src, target, target) && HiddenStays(copied, left, src) && NothingUnder(left, src)
    ensures Conserved(t, left, src, {dst, target})
            <==> forall r :: FileAt(t, src + r) ==> !(src <= dst + r) || !(src <= target + r)
  {
    NothingHiddenIsLeft(copied, left, src);
    forall r | FileAt(t, src + r)
      ensures KeptAt(t, left, src, {dst, target}, r) <==> !(src <= dst + r) || !(src <= target + r)
    {
      if !(src <= dst + r) { assert Holds(left, dst + r, t[src + r]); }
      if !(src <= target + r) {
        assert KeptAt(copied, left, src, {target}, r);
        assert Holds(left, target + r, t[src + r]);
      }
    }
    ElsewhereFromExtended(t, copied, left, src);
  }

  lemma NothingHiddenIsLeft(t: Tree, left: Tree, src: Path)
    requires HiddenStays(t, left, src) && NothingUnder(left, src)
    ensures AllVisible(t, src)
  {
    assert forall r :: src + r !in left;
  }

  lemma ElsewhereFromExtended(t: Tree, mid: Tree, t': Tree, src: Path)
    requires Extends(t, mid) && UnchangedElsewhere(mid, t', src)
    ensures UnchangedElsewhere(t, t', src)
  {}

  lemma KeptApartFromExtended(t: Tree, mid: Tree, t': Tree, src: Path, place: Path, target: Path)
    requires Extends(t, mid) && KeptApart(mid, t', src, place, target)
    ensures KeptApart(t, t', src, place, target) && (HiddenStays(mid, t', src) ==> HiddenStays(t, t', src))
  {}

  lemma RelocationKeepsApart(t: Tree, t': Tree, src: Path, place: Path, target: Path)
    requires Relocated(t, t', src, target)
    ensures KeptApart(t, t', src, place, target)
  {
    RelocationConserves(t, t', src, target);
  }

  lemma ExtendingKeepsApart(t: Tree, t': Tree, src: Path, place: Path, target: Path)
    requires Extends(t, t')
    ensures KeptApart(t, t', src, place, target) && HiddenStays(t, t', src)
  {}

  lemma ConservationIsElsewhere(t: Tree, t': Tree, src: Path, targets: set<Path>)
    requires Conserved(t, t', src, targets)
    ensures UnchangedElsewhere(t, t', src)
  {}

  lemma ExtendsAt(t: Tree, t': Tree, p: Path)
    requires Extends(t, t') && p in t
    ensures p in t' && t'[p] == t[p]
  {}

  lemma CopyIsNear(t: Tree, t': Tree, src: Path, dst: Path)
    requires OnlyCopiesAdded(t, t', src, dst)
    ensures forall p :: p in t' && p !in t ==> p <= dst || dst <= p
  {}

  lemma CopiedFromExtended(t: Tree, mid: Tree, t': Tree, src: Path, dst: Path)
    requires Extends(t, mid) && CopiedAll(mid, t', src, dst)
    ensures CopiedAll(t, t', src, dst)
  {}

  lemma RelocationCopies(t: Tree, t': Tree, src: Path, dst: Path)
    requires Relocated(t, t', src, dst)
    ensures CopiedAll(t, t', src, dst)
  {}

  lemma ExtendingConserves(t: Tree, t': Tree, src: Path, targets: set<Path>)
    requires Extends(t, t')
    ensures Conserved(t, t', src, targets)
  {}

  lemma MoreTargetsConserve(t: Tree, t': Tree, src: Path, targets: set<Path>, more: set<Path>)
    requires Conserved(t, t', src, targets) && targets <= more
    ensures Conserved(t, t', src, more)
  {}

  lemma MovedIsRelocated(t: Tree, src: Path, dst: Path)
    requires NothingUnder(t, dst)
    ensures Relocated(t, Moved(t, src, dst), src, dst)
  {
    var t' := Moved(t, src, dst);
    forall r | src + r in t ensures dst + r in t' && t'[dst + r] == t[src + r] {
      assert (src + r)[|src|..] == r && (dst + r)[|dst|..] == r;
    }
    forall r | dst + r in t' ensures src + r in t {
      MovedFrom(t, src, dst, dst + r);
      assert (dst + r)[|dst|..] == r;
    }
  }

  lemma RelocationKeepsWellFormed(t: Tree, t': Tree, src: Path, dst: Path)
    requires WellFormed(t) && src in t && src != [] && !(src <= dst) && ParentIsDir(t, dst)
    requires Relocated(t, t', src, dst)
    ensures WellFormed(t')
  {
    assert !(src <= []) && !(dst <= []);
    forall p | p in t' && p != [] ensures ParentIsDir(t', p) {
      var parent := p[..|p| - 1];
      if p == dst {
        if src <= parent { PrefixTransitive(src, parent, dst); }
      } else if dst <= p {
        var r := p[|dst|..];
        Split(p, dst);
        assert src + r in t && ParentIsDir(t, src + r);
        assert (src + r)[..|src + r| - 1] == src + r[..|r| - 1];
        assert parent == dst + r[..|r| - 1];
      } else {
        assert ParentIsDir(t, p);
        if src <= parent { PrefixTransitive(src, parent, p); }
      }
    }
  }

  lemma RelocationEmptiesSource(t: Tree, t': Tree, src: Path, dst: Path)
    requires WellFormed(t) && src in t && dst !in t && !(src <= dst) && Relocated(t, t', src, dst)
    ensures NothingUnder(t', src)
  {
    NothingBelowMissing(t, dst);
    forall p | p in t' ensures !(src <= p) {
      if src <= p && dst <= p { PrefixesComparable(p, src, dst); }
    }
  }

  // ---- One step of a recursive copy

  lemma BoundCovers(t: Tree, src: Path, dst: Path)
    ensures var bound := Deepest(t.Keys + {dst}); DepthWithin(t, src, bound) && RouteWithin(src, dst, bound)
  {
    var bound := Deepest(t.Keys + {dst});
    assert dst in t.Keys + {dst};
    assert forall p :: p in t ==> p in t.Keys + {dst};
  }

  lemma ExtendsTransitive(a: Tree, b: Tree, c: Tree)
    requires Extends(a, b) && Extends(b, c)
    ensures Extends(a, c)
  {}

  lemma ListedIsThere(listed: Tree, now: Tree, src: Path, dst: Path, name: string)
    requires Extends(listed, now) && src + [name] in listed && IsDir(listed, dst)
    ensures src + [name] in now && IsDir(now, dst)
  {}

  /** A copy that its source does not lead into never makes the listed part of the source deeper: the recursion ends. */
  lemma SourceStaysShallow(t: Tree, now: Tree, src: Path, dst: Path, bound: nat, name: string)
    requires src in t && DepthWithin(t, src, bound) && RouteWithin(src, dst, bound) && !LeadsInto(src, dst)
    requires AddedWithin(t, now, src, dst, bound) && OnlyCopiesAdded(t, now, src, dst)
    requires !Hidden(name)
    ensures DepthWithin(now, src + [name], bound)
  {
    hide Visible, AddedWithin, OnlyCopiesAdded;
    var s := src + [name];
    forall p | p in now && s <= p && Visible(p[|s|..]) ensures |p| <= bound {
      ListedOnTop(name, p[|s|..]);
      assert p == src + ([name] + p[|s|..]);
      ListedIsShallow(t, now, src, dst, bound, [name] + p[|s|..]);
    }
  }

  lemma ListedOnTop(name: string, r: Path)
    requires !Hidden(name) && Visible(r)
    ensures Visible([name] + r)
  {}

  lemma ListedIsShallow(t: Tree, now: Tree, src: Path, dst: Path, bound: nat, q: Path)
    requires DepthWithin(t, src, bound) && RouteWithin(src, dst, bound) && !LeadsInto(src, dst)
    requires AddedWithin(t, now, src, dst, bound) && OnlyCopiesAdded(t, now, src, dst)
    requires src + q in now && Visible(q)
    ensures |src| + |q| <= bound
  {
    assert (src + q)[|src|..] == q;
    if src + q <= dst {
      assert dst[|src|..|src + q|] == q;
    } else if src + q !in t {
      assert dst <= src + q;
      PrefixesComparable(src + q, src, dst);
      if StrictlyInside(dst, src) { ListingLeadsThere(src, dst, q); }
    }
  }

  lemma ListingLeadsThere(src: Path, dst: Path, q: Path)
    requires StrictlyInside(dst, src) && dst <= src + q && Visible(q)
    ensures LeadsInto(src, dst)
  {
    assert dst[|src|..] == q[..|dst| - |src|];
  }

  lemma DepthHere(t: Tree, base: Path, bound: nat)
    requires DepthWithin(t, base, bound) && base in t
    ensures |base| <= bound
  {
    assert base[|base|..] == [];
  }

  lemma RouteStaysShort(now: Tree, src: Path, dst: Path, bound: nat, name: string)
    requires RouteWithin(src, dst, bound) && !LeadsInto(src, dst) && !Hidden(name)
    requires src + [name] in now && DepthWithin(now, src + [name], bound)
    ensures RouteWithin(src + [name], dst + [name], bound)
  {
    hide Visible, LeadsInto;
    var s, d := src + [name], dst + [name];
    ChildrenStayApart(src, dst, name);
    DepthHere(now, s, bound);
    if s <= d {
      forall k | |s| <= k <= |d| && Visible(d[|s|..k]) ensures k <= bound {
        if k == |d| {
          assert d[|s|..k] == d[|s|..];
          if d != s { WholeRouteLeads(s, d, d[|s|..]); }
        } else {
          RouteShortens(src, dst, name, k);
          ListedOnTop(name, d[|s|..k]);
        }
      }
    }
  }

  lemma WholeRouteLeads(src: Path, dst: Path, r: Path)
    requires dst == src + r && r != [] && Visible(r)
    ensures LeadsInto(src, dst)
  {
    assert dst[|src|..] == r;
  }

  lemma RouteShortens(src: Path, dst: Path, name: string, k: nat)
    requires src + [name] <= dst + [name] && |src| < k <= |dst|
    ensures src <= dst && dst[|src|..k] == [name] + (dst + [name])[|src + [name]|..k]
  {
    var d := dst + [name];
    assert d[..|src|] == (src + [name])[..|src|] == src;
    assert d[|src|] == (src + [name])[|src|];
  }

  /** Copying one listed entry keeps what the loop of the copy maintains. */
  lemma CopyStep(t: Tree, before: Tree, after: Tree, src: Path, dst: Path, name: string, bound: nat)
    requires WellFormed(before) && Extends(before, after) && dst in before && !Hidden(name)
    requires OnlyCopiesAdded(t, before, src, dst)
    requires OnlyCopiesAdded(before, after, src + [name], dst + [name])
    requires AddedWithin(t, before, src, dst, bound) && AddedWithin(before, after, src + [name], dst + [name], bound)
    ensures OnlyCopiesAdded(t, after, src, dst) && AddedWithin(t, after, src, dst, bound)
  {
    var s, d := src + [name], dst + [name];
    forall p | p in after && p !in before ensures d <= p {
      if p <= d && p != d {
        assert dst == d[..|d| - 1];
        assert p == dst[..|p|];
        if p != dst { PrefixExists(before, dst, |p|); }
      }
    }
    forall p | p in after && p !in t ensures (p <= dst && after[p] == Dir) || dst <= p {
      if p !in before { assert dst <= d <= p; }
    }
    forall r | dst + r in after && dst + r !in t
      ensures Visible(r) && src + r in after && after[src + r] == after[dst + r]
    {
      if dst + r !in before {
        assert dst + [] == dst;
        assert (dst + r)[|dst|] == name;
        var q := r[1..];
        assert r == [name] + q;
        assert d + q == dst + r && s + q == src + r;
      }
    }
  }

  /** Making the destination directory is the start of the copy. */
  lemma CopyStarts(t: Tree, made: Tree, src: Path, dst: Path, bound: nat)
    requires IsDir(t, src) && Extends(t, made) && |src| <= bound
    requires forall p :: p in made && p !in t ==> p <= dst && made[p] == Dir
    ensures OnlyCopiesAdded(t, made, src, dst) && AddedWithin(t, made, src, dst, bound)
  {
    forall r | dst + r in made && dst + r !in t ensures r == [] && src + r == src {
      assert dst + r <= dst;
    }
  }

  lemma CopyStepKeepsEarlierCopies(listed: Tree, before: Tree, after: Tree, src: Path, dst: Path,
                                   names: seq<string>, i: nat)
    requires Extends(listed, before) && Extends(before, after) && i < |names|
    requires CopiedAll(before, after, src + [names[i]], dst + [names[i]])
    requires forall j :: 0 <= j < i ==> CopiedAll(listed, before, src + [names[j]], dst + [names[j]])
    ensures Extends(listed, after)
    ensures forall j :: 0 <= j <= i ==> CopiedAll(listed, after, src + [names[j]], dst + [names[j]])
  {}

  lemma CopiedFile(before: Tree, src: Path, dst: Path, bound: nat)
    requires WellFormed(before) && src in before && before[src].File?
    requires dst !in before && |src| <= bound
    ensures var after := before[dst := before[src]];
            Extends(before, after) && CopiedAll(before, after, src, dst) && OnlyCopiesAdded(before, after, src, dst)
            && AddedWithin(before, after, src, dst, bound)
  {
    forall r | src + r in before ensures r == [] {
      NothingBelowFile(before, src, src + r);
    }
    assert src + [] == src && dst + [] == dst;
    var after := before[dst := before[src]];
    forall r | dst + r in after && dst + r !in before ensures r == [] {
      assert dst + r == dst;
    }
  }

  lemma NothingAdded(t: Tree, src: Path, dst: Path, bound: nat)
    ensures Extends(t, t) && OnlyCopiesAdded(t, t, src, dst) && AddedWithin(t, t, src, dst, bound)
  {}

  /** Copying every listed entry copies the whole of what is visible. */
  lemma CopiedChildrenCopyAll(t: Tree, listed: Tree, after: Tree, src: Path, dst: Path, names: seq<string>)
    requires WellFormed(listed) && Extends(t, listed) && Extends(listed, after)
    requires IsDir(t, src) && IsDir(listed, dst)
    requires forall n :: n in names <==> src + [n] in listed && !Hidden(n)
    requires forall j :: 0 <= j < |names| ==> CopiedAll(listed, after, src + [names[j]], dst + [names[j]])
    ensures CopiedAll(t, after, src, dst)
  {
    forall r | src + r in t && Visible(r) ensures dst + r in after && after[dst + r] == t[src + r] {
      if r == [] {
        assert src + r == src && dst + r == dst;
      } else {
        var q := r[1..];
        var s := src + [r[0]];
        assert s + q == src + r && dst + [r[0]] + q == dst + r;
        assert s in listed by {
          if q != [] { PrefixExists(listed, s + q, |s|); assert (s + q)[..|s|] == s; }
          else { assert s + q == s; }
        }
        assert r[0] in names;
        var j :| 0 <= j < |names| && names[j] == r[0];
        assert CopiedAll(listed, after, s, dst + [r[0]]);
        assert Visible(q);
      }
    }
  }

  /** The children of a directory that can be copied can be copied. */
  lemma EntriesCanBeCopied(t: Tree, made: Tree, src: Path, dst: Path, names: seq<string>)
    requires WellFormed(t) && CanCopyDir(t, src, dst) && Unrelated(src, dst)
    requires Extends(t, made) && WellFormed(made) && IsDir(made, dst)
    requires forall p :: p in made && p !in t ==> p <= dst && made[p] == Dir
    requires forall n :: n in names <==> src + [n] in made && !Hidden(n)
    ensures forall j :: 0 <= j < |names| ==> CanCopyEntry(made, src + [names[j]], dst + [names[j]])
  {
    forall j | 0 <= j < |names| ensures CanCopyEntry(made, src + [names[j]], dst + [names[j]]) {
      var n := names[j];
      var s, d := src + [n], dst + [n];
      assert n in names;
      assert d[..|d| - 1] == dst;
      forall r | s + r in made || d + r in made
        ensures s + r in made ==> src + ([n] + r) in t && t[src + ([n] + r)] == made[s + r]
        ensures d + r in made ==> dst + ([n] + r) in t && t[dst + ([n] + r)] == made[d + r]
      {
        assert s + r == src + ([n] + r) && d + r == dst + ([n] + r);
        if s + r <= dst { PrefixTransitive(src, s + r, dst); }
      }
      assert Visible([n]);
      assert s + [] == s && d + [] == d;
      assert [n] + [] == [n];
      assert !IsDir(made, s) ==> d !in made;
      if IsDir(made, s) {
        forall q | q <= d && q in made ensures IsDir(made, q) {
          if q != d {
            assert q == dst[..|q|];
            if q != dst { PrefixExists(made, dst, |q|); }
          } else {
            assert d + [] in made;
          }
        }
        forall r | r != [] && Visible(r) && s + r in made && d + r in made
          ensures IsDir(made, s + r) && IsDir(made, d + r)
        {
          assert Visible([n] + r);
        }
      }
    }
  }

  /** Copying one entry does not get in the way of another. */
  lemma OtherEntriesCanStillBeCopied(before: Tree, after: Tree, src: Path, dst: Path, done: string, name: string)
    requires WellFormed(before) && Extends(before, after) && Unrelated(src, dst) && done != name
    requires IsDir(before, dst) && OnlyCopiesAdded(before, after, src + [done], dst + [done])
    requires src + [name] in before && CanCopyEntry(before, src + [name], dst + [name])
    ensures CanCopyEntry(after, src + [name], dst + [name])
  {
    var s, d, o := src + [name], dst + [name], dst + [done];
    forall p | p in after && p !in before ensures o <= p {
      if p <= o && p != o {
        assert dst == o[..|o| - 1];
        assert p == dst[..|p|];
        if p != dst { PrefixExists(before, dst, |p|); }
      }
    }
    forall p | p in after && p !in before ensures !(s <= p) && !(d <= p) && !(p <= d) {
      PrefixTransitive(dst, o, p);
      assert p[|dst|] == done;
      if s <= p { PrefixTransitive(src, s, p); PrefixesComparable(p, src, dst); }
    }
    forall r | r != [] && Visible(r) && s + r in after && d + r in after
      ensures s + r in before && d + r in before
    {}
    assert d[..|d| - 1] == dst;
  }

  lemma LaterEntriesCanStillBeCopied(listed: Tree, before: Tree, after: Tree, src: Path, dst: Path,
                                     names: seq<string>, i: nat)
    requires WellFormed(before) && Extends(listed, before) && Extends(before, after) && Unrelated(src, dst)
    requires i < |names| && IsDir(before, dst)
    requires forall j, k :: 0 <= j < k < |names| ==> names[j] != names[k]
    requires forall n :: n in names ==> src + [n] in listed
    requires OnlyCopiesAdded(before, after, src + [names[i]], dst + [names[i]])
    requires forall j :: i <= j < |names| ==> CanCopyEntry(before, src + [names[j]], dst + [names[j]])
    ensures forall j :: i < j < |names| ==> CanCopyEntry(after, src + [names[j]], dst + [names[j]])
  {
    forall j | i < j < |names| ensures CanCopyEntry(after, src + [names[j]], dst + [names[j]]) {
      assert names[j] in names;
      OtherEntriesCanStillBeCopied(before, after, src, dst, names[i], names[j]);
    }
  }

  lemma ChildrenUnrelated(src: Path, dst: Path, name: string)
    requires Unrelated(src, dst)
    ensures Unrelated(src + [name], dst + [name])
  {
    ChildrenStayOutside(src, dst, name);
    ChildrenStayOutside(dst, src, name);
    assert (src + [name])[..|src|] == src && (dst + [name])[..|dst|] == dst;
  }

  // ---- The loop of a recursive copy

  ghost predicate CopyLoop(t: Tree, listed: Tree, now: Tree, src: Path, dst: Path, names: seq<string>, i: nat,
                           bound: nat, smooth: bool) {
    && i <= |names|
    && WellFormed(listed) && Extends(t, listed) && IsDir(t, src) && IsDir(listed, dst)
    && (forall n :: n in names <==> src + [n] in listed && !Hidden(n))
    && (forall j, k :: 0 <= j < k < |names| ==> names[j] != names[k])
    && DepthWithin(t, src, bound) && RouteWithin(src, dst, bound) && !LeadsInto(src, dst)
    && WellFormed(now) && Extends(listed, now)
    && OnlyCopiesAdded(t, now, src, dst) && AddedWithin(t, now, src, dst, bound)
    && (forall j :: 0 <= j < i ==> CopiedAll(listed, now, src + [names[j]], dst + [names[j]]))
    && (smooth ==> Unrelated(src, dst)
                   && forall j :: i <= j < |names| ==> CanCopyEntry(now, src + [names[j]], dst + [names[j]]))
  }

  lemma CopyLoopStarts(t: Tree, listed: Tree, src: Path, dst: Path, names: seq<string>, bound: nat)
    requires WellFormed(t) && WellFormed(listed) && Extends(t, listed) && IsDir(t, src) && IsDir(listed, dst)
    requires forall p :: p in listed && p !in t ==> p <= dst && listed[p] == Dir
    requires forall n :: n in names <==> src + [n] in listed && !Hidden(n)
    requires forall j, k :: 0 <= j < k < |names| ==> names[j] != names[k]
    requires DepthWithin(t, src, bound) && RouteWithin(src, dst, bound) && !LeadsInto(src, dst)
    ensures CopyLoop(t, listed, listed, src, dst, names, 0, bound, Unrelated(src, dst) && CanCopyDir(t, src, dst))
  {
    assert src + [] == src;
    CopyStarts(t, listed, src, dst, bound);
    if Unrelated(src, dst) && CanCopyDir(t, src, dst) { EntriesCanBeCopied(t, listed, src, dst, names); }
  }

  lemma CopyLoopEntry(t: Tree, listed: Tree, now: Tree, src: Path, dst: Path, names: seq<string>, i: nat,
                      bound: nat, smooth: bool)
    requires CopyLoop(t, listed, now, src, dst, names, i, bound, smooth) && i < |names|
    ensures WellFormed(now) && src + [names[i]] in now && DepthWithin(now, src + [names[i]], bound)
    ensures RouteWithin(src + [names[i]], dst + [names[i]], bound)
    ensures !LeadsInto(src + [names[i]], dst + [names[i]])
    ensures smooth ==> Unrelated(src, dst) && CanCopyEntry(now, src + [names[i]], dst + [names[i]])
  {
    assert names[i] in names;
    SourceStaysShallow(t, now, src, dst, bound, names[i]);
    RouteStaysShort(now, src, dst, bound, names[i]);
    ChildrenStayApart(src, dst, names[i]);
  }

  lemma CopyLoopStep(t: Tree, listed: Tree, before: Tree, after: Tree, src: Path, dst: Path, names: seq<string>,
                     i: nat, bound: nat, smooth: bool)
    requires CopyLoop(t, listed, before, src, dst, names, i, bound, smooth) && i < |names|
    requires WellFormed(after) && Extends(before, after)
    requires OnlyCopiesAdded(before, after, src + [names[i]], dst + [names[i]])
    requires AddedWithin(before, after, src + [names[i]], dst + [names[i]], bound)
    ensures Extends(t, after) && OnlyCopiesAdded(t, after, src, dst) && AddedWithin(t, after, src, dst, bound)
    ensures CopiedAll(before, after, src + [names[i]], dst + [names[i]])
            ==> CopyLoop(t, listed, after, src, dst, names, i + 1, bound, smooth)
  {
    assert names[i] in names;
    ListedIsThere(listed, before, src, dst, names[i]);
    CopyStep(t, before, after, src, dst, names[i], bound);
    ExtendsTransitive(t, listed, before);
    ExtendsTransitive(t, before, after);
    ExtendsTransitive(listed, before, after);
    if CopiedAll(before, after, src + [names[i]], dst + [names[i]]) {
      CopyStepKeepsEarlierCopies(listed, before, after, src, dst, names, i);
      if smooth { LaterEntriesCanStillBeCopied(listed, before, after, src, dst, names, i); }
    }
  }

  lemma CopyLoopEnds(t: Tree, listed: Tree, now: Tree, src: Path, dst: Path, names: seq<string>,
                     bound: nat, smooth: bool)
    requires CopyLoop(t, listed, now, src, dst, names, |names|, bound, smooth)
    ensures WellFormed(now) && Extends(t, now) && OnlyCopiesAdded(t, now, src, dst)
    ensures AddedWithin(t, now, src, dst, bound) && CopiedAll(t, now, src, dst)
  {
    ExtendsTransitive(t, listed, now);
    CopiedChildrenCopyAll(t, listed, now, src, dst, names);
  }

  // ---- The loop of a recursive delete

  lemma DeleteStep(t: Tree, before: Tree, after: Tree, path: Path, name: string)
    requires OnlyVisibleRemoved(t, before, path)
    requires OnlyVisibleRemoved(before, after, path + [name])
    requires !Hidden(name) && path in before
    ensures OnlyVisibleRemoved(t, after, path)
    ensures path in after
    ensures forall n :: n != name && path + [n] in before ==> path + [n] in after
  {
    var e := path + [name];
    forall n | n != name && path + [n] in before ensures path + [n] in after {
      assert (path + [n])[|path|] == n && e[|path|] == name;
    }
    forall p | p in t && p !in after ensures path <= p {
      if p in before { assert path <= e <= p; }
    }
    forall r | path + r in t && path + r !in after ensures Visible(r) {
      if path + r in before {
        assert path + [] == path;
        var q := r[1..];
        assert (path + r)[|path|] == name;
        assert r == [name] + q && e + q == path + r;
      }
    }
  }

  lemma RemovedFile(t: Tree, t': Tree, path: Path)
    requires WellFormed(t) && (path in t ==> t[path].File?) && (t' == t || t' == t - {path})
    ensures OnlyVisibleRemoved(t, t', path)
    ensures path !in t' ==> NothingUnder(t', path)
  {
    forall p | p in t && path <= p ensures p == path {
      if path in t { NothingBelowFile(t, path, p); } else { NothingBelowMissing(t, path); }
    }
    forall r | path + r in t ensures r == [] {}
  }

  lemma ChildrenAreVisible(t: Tree, now: Tree, path: Path, name: string)
    requires Extends(now, t) && AllVisible(t, path)
    ensures AllVisible(now, path + [name])
  {
    forall r | path + [name] + r in now ensures Visible(r) {
      assert path + [name] + r == path + ([name] + r);
      assert Visible([name] + r);
      assert forall i :: 0 <= i < |r| ==> r[i] == ([name] + r)[i + 1];
    }
  }

  /** With everything visible and every listed child gone, the directory is empty. */
  lemma NothingIsLeft(t: Tree, now: Tree, path: Path, names: seq<string>)
    requires WellFormed(t) && Extends(now, t) && AllVisible(t, path)
    requires forall n :: n in names <==> path + [n] in t && !Hidden(n)
    requires forall j :: 0 <= j < |names| ==> NothingUnder(now, path + [names[j]])
    ensures forall p :: p in now ==> !StrictlyInside(p, path)
  {
    forall p | p in now && StrictlyInside(p, path) ensures false {
      var r := p[|path|..];
      Split(p, path);
      assert Visible(r);
      var c := path + [r[0]];
      assert c == p[..|c|];
      if c != p { PrefixExists(t, p, |c|); }
    }
  }

  ghost predicate DeleteLoop(t: Tree, now: Tree, path: Path, names: seq<string>, i: nat) {
    && i <= |names| && WellFormed(t) && WellFormed(now) && path in now
    && (forall n :: n in names <==> path + [n] in t && !Hidden(n))
    && (forall j, k :: 0 <= j < k < |names| ==> names[j] != names[k])
    && OnlyVisibleRemoved(t, now, path)
    && (forall j :: 0 <= j < i ==> NothingUnder(now, path + [names[j]]))
    && (forall j :: i <= j < |names| ==> path + [names[j]] in now)
  }

  lemma DeleteLoopStarts(t: Tree, path: Path, names: seq<string>)
    requires WellFormed(t) && path in t
    requires forall n :: n in names <==> path + [n] in t && !Hidden(n)
    requires forall j, k :: 0 <= j < k < |names| ==> names[j] != names[k]
    ensures DeleteLoop(t, t, path, names, 0)
  {
    forall j | 0 <= j < |names| ensures path + [names[j]] in t { assert names[j] in names; }
  }

  /** What the recursive call is given: a listed child, strictly smaller, with nothing hidden unless path has. */
  lemma DeleteLoopEntry(t: Tree, now: Tree, path: Path, names: seq<string>, i: nat)
    requires DeleteLoop(t, now, path, names, i) && i < |names|
    ensures WellFormed(now) && path + [names[i]] in now
    ensures (set p | p in now && path + [names[i]] <= p) < (set p | p in t && path <= p)
    ensures AllVisible(t, path) ==> AllVisible(now, path + [names[i]])
  {
    var entry := path + [names[i]];
    var below, all := set p | p in now && entry <= p, set p | p in t && path <= p;
    forall p | p in below ensures p in all { PrefixTransitive(path, entry, p); }
    assert path in all && path !in below;
    if AllVisible(t, path) { ChildrenAreVisible(t, now, path, names[i]); }
  }

  lemma DeleteLoopStep(t: Tree, before: Tree, after: Tree, path: Path, names: seq<string>, i: nat)
    requires DeleteLoop(t, before, path, names, i) && i < |names|
    requires WellFormed(after) && OnlyVisibleRemoved(before, after, path + [names[i]])
    ensures OnlyVisibleRemoved(t, after, path)
    ensures NothingUnder(after, path + [names[i]]) ==> DeleteLoop(t, after, path, names, i + 1)
  {
    assert names[i] in names;
    DeleteStep(t, before, after, path, names[i]);
  }

  lemma DeleteLoopEnds(t: Tree, now: Tree, path: Path, names: seq<string>)
    requires DeleteLoop(t, now, path, names, |names|)
    ensures OnlyVisibleRemoved(t, now, path) && OnlyVisibleRemoved(t, now - {path}, path)
    ensures IsDir(t, path) == IsDir(now, path)
    ensures AllVisible(t, path) ==> forall p :: p in now ==> !StrictlyInside(p, path)
    ensures NothingUnder(now - {path}, path) ==> AllVisible(t, path)
  {
    if AllVisible(t, path) { NothingIsLeft(t, now, path, names); }
    forall r | path + r in t && path + r !in now - {path} ensures Visible(r) {}
  }
}

/** The file manager's tree operations. Every primitive may fail, at any point, for reasons outside the tree. */
module FileManager {
  import opened FileTree
  import FirstFreeName

  /** The names in use in a directory, hidden ones included. */
  function NamesUsed(t: Tree, dir: Path): set<string> {
    set p | p in t && dir <= p && |p| == |dir| + 1 :: p[|dir|]
  }

  lemma NameIsUsed(t: Tree, dir: Path, n: string)
    ensures n in NamesUsed(t, dir) <==> dir + [n] in t
  {
    if dir + [n] in t {
      var p := dir + [n];
      assert p[|dir|] == n;
    }
    if n in NamesUsed(t, dir) {
      var p :| p in t && dir <= p && |p| == |dir| + 1 && p[|dir|] == n;
      assert p == dir + [n];
    }
  }

  function TrashNames(path: Path): FirstFreeName.Scheme
    requires path != []
  {
    FirstFreeName.Trash(path[|path| - 1])
  }

  /** Where the trash fallback would put the entry. */
  ghost function TrashPlace(t: Tree, trashDir: Path, path: Path): Path
    requires path != []
  {
    trashDir + [FirstFreeName.Chosen(TrashNames(path), NamesUsed(t, trashDir))]
  }

  /** The place it settles on when every name it tries is taken. */
  ghost function LastPlace(trashDir: Path, path: Path): Path
    requires path != []
  {
    var s := TrashNames(path);
    trashDir + [FirstFreeName.Candidate(s, FirstFreeName.Tries(s) - 1)]
  }

  /** One of the names the trash fallback tries is free. */
  ghost predicate NameLeft(t: Tree, trashDir: Path, path: Path)
    requires path != []
  {
    exists n :: n in FirstFreeName.Candidates(TrashNames(path)) && trashDir + [n] !in t
  }

  /** No place in the trash that the fallback tries lies inside the entry where a listing would come upon it. */
  ghost predicate TrashOutside(t: Tree, trashDir: Path, path: Path)
    requires path != []
  {
    || FileAt(t, path)
    || forall n :: n in FirstFreeName.Candidates(TrashNames(path)) ==> !LeadsInto(path, trashDir + [n])
  }

  /** Copying to the place and deleting afterwards would bury no file. */
  ghost predicate TrashSpares(t: Tree, trashDir: Path, path: Path)
    requires path != []
  {
    NoneBuried(t, path, TrashPlace(t, trashDir, path))
  }

  lemma PlaceIsTried(t: Tree, trashDir: Path, path: Path)
    requires path != [] && TrashOutside(t, trashDir, path)
    ensures FileAt(t, path) || !LeadsInto(path, TrashPlace(t, trashDir, path))
  {
    FirstFreeName.ChosenIsFirst(TrashNames(path), NamesUsed(t, trashDir));
  }

  /** The place is free while a name is left, and the last one tried otherwise. */
  lemma PlaceIsFreeOrLast(t: Tree, trashDir: Path, path: Path)
    requires path != []
    ensures if NameLeft(t, trashDir, path) then TrashPlace(t, trashDir, path) !in t
            else TrashPlace(t, trashDir, path) == LastPlace(trashDir, path)
  {
    var s, used := TrashNames(path), NamesUsed(t, trashDir);
    FirstFreeName.ChosenIsFirst(s, used);
    NameIsUsed(t, trashDir, FirstFreeName.Chosen(s, used));
    if NameLeft(t, trashDir, path) {
      var n :| n in FirstFreeName.Candidates(s) && trashDir + [n] !in t;
      NameIsUsed(t, trashDir, n);
    } else {
      forall i: nat | i < FirstFreeName.Tries(s) ensures FirstFreeName.Candidate(s, i) in used {
        assert FirstFreeName.Candidate(s, i) in FirstFreeName.Candidates(s);
        NameIsUsed(t, trashDir, FirstFreeName.Candidate(s, i));
      }
    }
  }

  /** A place that is free contains no existing entry, so a name left in the trash is enough to lose nothing. */
  lemma FreeNameSpares(t: Tree, trashDir: Path, path: Path)
    requires WellFormed(t) && path != [] && NameLeft(t, trashDir, path)
    ensures TrashSpares(t, trashDir, path)
  {
    var place := TrashPlace(t, trashDir, path);
    PlaceIsFreeOrLast(t, trashDir, path);
    NothingBelowMissing(t, place);
    forall r | FileAt(t, path + r) ensures !Buried(path, place, r) {
      if place <= path { PrefixTransitive(place, path, path + r); }
    }
  }

  /** And a name is left while the trash holds fewer entries than the fallback tries names. */
  lemma RoomLeavesName(t: Tree, trashDir: Path, path: Path)
    requires path != [] && |NamesUsed(t, trashDir)| < 10000
    ensures NameLeft(t, trashDir, path)
  {
    var s, used := TrashNames(path), NamesUsed(t, trashDir);
    FirstFreeName.FewerTakenThanTried(s, 10000, used);
    var i: nat :| i < 10000 && FirstFreeName.Candidate(s, i) !in used;
    NameIsUsed(t, trashDir, FirstFreeName.Candidate(s, i));
    assert FirstFreeName.Candidate(s, i) in FirstFreeName.Candidates(s);
  }

  /** Making the trash directory takes no name in it. */
  lemma MakingTrashTakesNoName(t: Tree, made: Tree, trashDir: Path)
    requires Extends(t, made) && forall p :: p in made && p !in t ==> p <= trashDir
    ensures NamesUsed(made, trashDir) == NamesUsed(t, trashDir)
  {
    forall n ensures n in NamesUsed(made, trashDir) <==> n in NamesUsed(t, trashDir) {
      NameIsUsed(made, trashDir, n);
      NameIsUsed(t, trashDir, n);
    }
  }

  lemma PlaceIs(t: Tree, trashDir: Path, path: Path, name: string, taken: set<string>)
    requires path != [] && taken == NamesUsed(t, trashDir) && name == FirstFreeName.Chosen(TrashNames(path), taken)
    ensures trashDir + [name] == TrashPlace(t, trashDir, path)
  {}

  /** Nor does it hide or show anything in an entry that is not around it. */
  lemma MakingDirectoriesShows(t: Tree, made: Tree, trashDir: Path, path: Path)
    requires Extends(t, made) && !(path <= trashDir) && forall p :: p in made && p !in t ==> p <= trashDir
    ensures AllVisible(made, path) <==> AllVisible(t, path)
  {
    forall r ensures path + r in made <==> path + r in t {
      if path + r <= trashDir { PrefixTransitive(path, path + r, trashDir); }
    }
  }

  lemma MakingTrashMovesNothing(t: Tree, made: Tree, trashDir: Path, path: Path)
    requires path != [] && Extends(t, made)
    requires forall p :: p in made && p !in t ==> p <= trashDir && made[p] == Dir
    ensures TrashPlace(made, trashDir, path) == TrashPlace(t, trashDir, path)
    ensures TrashSpares(made, trashDir, path) <==> TrashSpares(t, trashDir, path)
  {
    MakingTrashTakesNoName(t, made, trashDir);
    forall r ensures FileAt(made, path + r) <==> FileAt(t, path + r) {}
  }

  /** Nothing in the tree keeps the fallback from trashing the entry: the way into the trash is open, a name is left. */
  ghost predicate CanTrash(t: Tree, trashDir: Path, path: Path)
    requires path != []
  {
    path in t && !(path <= trashDir) && PathOpen(t, trashDir) && NameLeft(t, trashDir, path)
  }

  /** A free name can be renamed to, and copied to as well. */
  lemma FreePlaceCanBeReached(t: Tree, made: Tree, trashDir: Path, path: Path)
    requires WellFormed(t) && WellFormed(made) && path != [] && IsDir(made, trashDir) && Extends(t, made)
    requires forall p :: p in made && p !in t ==> p <= trashDir && made[p] == Dir
    requires CanTrash(t, trashDir, path)
    ensures var place := TrashPlace(t, trashDir, path);
            CanRename(made, path, place) && CanCopyEntry(made, path, place) && Unrelated(path, place)
  {
    var place := TrashPlace(t, trashDir, path);
    PlaceIsFreeOrLast(t, trashDir, path);
    assert |place| == |trashDir| + 1 && place[..|place| - 1] == trashDir;
    assert path <= place ==> path <= trashDir || path == place;
    NothingBelowMissing(t, place);
    hide TrashPlace, NameLeft;
    NothingBelowMissing(made, place);
    forall q | q <= place && q in made ensures IsDir(made, q) {
      assert q <= trashDir && q == trashDir[..|q|];
      if q != trashDir { PrefixExists(made, trashDir, |q|); }
    }
  }

  /** A free name in the trash is out of the way of a copy to the destination. */
  ghost predicate NameLeftBeside(t: Tree, trashDir: Path, path: Path, dest: Path)
    requires path != []
  {
    exists n :: n in FirstFreeName.Candidates(TrashNames(path)) && trashDir + [n] !in t
                && Unrelated(trashDir + [n], dest)
  }

  /** Nothing in the tree keeps the entry from being trashed once it has been copied to the destination. */
  ghost predicate CanTrashBeside(t: Tree, trashDir: Path, source: Path, dest: Path)
    requires source != []
  {
    source in t && !(source <= trashDir) && PathOpen(t, trashDir) && NameLeftBeside(t, trashDir, source, dest)
  }

  lemma CanTrashAfterCopy(t: Tree, full: Tree, trashDir: Path, source: Path, dest: Path)
    requires source != [] && Extends(t, full) && OnlyCopiesAdded(t, full, source, dest)
    requires CanTrashBeside(t, trashDir, source, dest)
    ensures CanTrash(full, trashDir, source)
  {
    var n :| n in FirstFreeName.Candidates(TrashNames(source)) && trashDir + [n] !in t
             && Unrelated(trashDir + [n], dest);
    assert trashDir + [n] !in full;
    forall q | q <= trashDir && q in full ensures IsDir(full, q) {
      if dest <= q { PrefixTransitive(dest, q, trashDir); PrefixTransitive(dest, trashDir, trashDir + [n]); }
    }
  }

  /**
   * A move buries no file twice: at the destination, and at the last place tried in the trash while no free name
   * there is out of the destination's way.
   */
  ghost predicate MoveSpares(t: Tree, trashDir: Path, source: Path, dest: Path)
    requires source != []
  {
    || (forall r :: FileAt(t, source + r) ==>
          !Buried(source, dest, r) || !Buried(source, LastPlace(trashDir, source), r))
    || NameLeftBeside(t, trashDir, source, dest)
  }

  lemma MoveSparesAfterCopy(t: Tree, copied: Tree, trashDir: Path, source: Path, dest: Path)
    requires WellFormed(copied) && source != [] && Extends(t, copied) && MoveSpares(t, trashDir, source, dest)
    requires forall p :: p in copied && p !in t ==> p <= dest || dest <= p
    ensures var place := TrashPlace(copied, trashDir, source);
            forall r :: FileAt(t, source + r) ==> !Buried(source, dest, r) || !Buried(source, place, r)
  {
    PlaceIsFreeOrLast(copied, trashDir, source);
    if NameLeft(copied, trashDir, source) {
      FreeNameSpares(copied, trashDir, source);
      forall r | FileAt(t, source + r) ensures !Buried(source, TrashPlace(copied, trashDir, source), r) {
        assert FileAt(copied, source + r);
      }
    } else {
      forall n | n in FirstFreeName.Candidates(TrashNames(source)) && trashDir + [n] !in t
        ensures !Unrelated(trashDir + [n], dest)
      {
        assert trashDir + [n] in copied;
      }
    }
  }

  /** The end of the trash fallback, seen from before the trash directory was made. */
  lemma TrashedAfterMaking(t: Tree, made: Tree, t': Tree, trashDir: Path, path: Path, to: Path)
    requires path != [] && Extends(t, made) && KeptApart(made, t', path, to, to)
    requires NoneBuried(made, path, to) <==> NoneBuried(t, path, to)
    requires forall p :: p in made && p !in t ==> made[p] == Dir
    ensures KeptApart(t, t', path, to, to)
    ensures HiddenStays(made, t', path) ==> HiddenStays(t, t', path)
    ensures Conserved(t, t', path, {to}) <==> Conserved(made, t', path, {to})
  {
    KeptApartFromExtended(t, made, t', path, to, to);
    forall r | FileAt(made, path + r) ensures FileAt(t, path + r) {}
    forall r | FileAt(t, path + r) ensures KeptAt(t, t', path, {to}, r) <==> KeptAt(made, t', path, {to}, r) {}
  }

  /** The copy fallback of the trash, once everything is copied and whatever could be is deleted. */
  lemma CopyThenDelete(t: Tree, full: Tree, left: Tree, path: Path, to: Path)
    requires path in t && Extends(t, full) && CopiedAll(t, full, path, to) && OnlyVisibleRemoved(full, left, path)
    requires !LeadsInto(path, to)
    ensures KeptApart(t, left, path, to, to) && HiddenStays(t, left, path)
    ensures NoneBuried(t, path, to) ==> Conserved(t, left, path, {to})
    ensures NothingUnder(left, path) && Conserved(t, left, path, {to}) ==> NoneBuried(t, path, to)
    ensures NothingUnder(left, path) ==> !StrictlyInside(to, path)
    ensures !(to <= path) ==> CopiedAll(t, left, path, to)
  {
    CopyThenDeleteKeeps(t, full, left, path, to);
    if NoneBuried(t, path, to) { NoneBuriedConserves(t, left, path, to, {to}); }
    if NothingUnder(left, path) && Conserved(t, left, path, {to}) { BuriedIsLost(t, left, path, to); }
    if !(to <= path) {
      CopySurvivesDelete(t, full, left, path, to);
      assert path + [] == path && to + [] == to;
    }
  }

  lemma TrashStaysOutside(t: Tree, copied: Tree, trashDir: Path, path: Path)
    requires path in t && path != [] && Extends(t, copied) && TrashOutside(t, trashDir, path)
    ensures TrashOutside(copied, trashDir, path)
  {}

  /** A move that copied everything and then trashed the source, whatever came of it. */
  lemma MoveEnds(t: Tree, full: Tree, left: Tree, trashDir: Path, source: Path, dest: Path, target: Path)
    requires WellFormed(full) && source != [] && Extends(t, full) && CopiedAll(t, full, source, dest)
    requires !LeadsInto(source, dest)
    requires forall p :: p in full && p !in t ==> p <= dest || dest <= p
    requires KeptApart(full, left, source, TrashPlace(full, trashDir, source), target)
    ensures UnchangedElsewhere(t, left, source)
    ensures MoveSpares(t, trashDir, source, dest) ==> Conserved(t, left, source, {dest, target})
    ensures Unrelated(source, dest) ==> CopiedAll(t, left, source, dest)
  {
    var place := TrashPlace(full, trashDir, source);
    ElsewhereFromExtended(t, full, left, source);
    if MoveSpares(t, trashDir, source, dest) {
      MoveSparesAfterCopy(t, full, trashDir, source, dest);
      MoveKeeps(t, full, left, source, dest, place, target);
    }
    if Unrelated(source, dest) { CopySurvives(t, full, left, source, dest); }
  }

  // ---- The input on which the trash loses a file

  /** The directories and files of a tree in which `names` are taken in `dir`, and `to`/x/x/y exists besides. */
  ghost function StagedDirs(dir: Path, to: Path, x: string): set<Path> {
    (set k | 0 <= k <= |dir| :: dir[..k]) + {to, to + [x], to + [x, x]}
  }

  ghost function StagedFiles(dir: Path, to: Path, x: string, y: string, names: set<string>): set<Path> {
    (set n | n in names && dir + [n] != to :: dir + [n]) + {to + [x, x, y]}
  }

  lemma StagedDirHasParent(dir: Path, to: Path, x: string, p: Path)
    requires p in StagedDirs(dir, to, x) && p != [] && to != [] && to[..|to| - 1] == dir
    ensures p[..|p| - 1] in StagedDirs(dir, to, x)
  {
    assert dir[..|dir|] == dir;
    if p == to + [x] {
      assert p[..|p| - 1] == to;
    } else if p == to + [x, x] {
      assert p[..|p| - 1] == to + [x];
    } else if p != to {
      var k :| 0 <= k <= |dir| && p == dir[..k];
      assert p[..|p| - 1] == dir[..k - 1];
    }
  }

  lemma StagedFileHasParent(dir: Path, to: Path, x: string, y: string, names: set<string>, p: Path)
    requires p in StagedFiles(dir, to, x, y, names)
    ensures p != [] && p[..|p| - 1] in StagedDirs(dir, to, x)
  {
    assert dir[..|dir|] == dir;
    if p == to + [x, x, y] {
      assert p[..|p| - 1] == to + [x, x];
    } else {
      assert p[..|p| - 1] == dir;
    }
  }

  lemma StagedIsWellFormed(dir: Path, to: Path, x: string, y: string, names: set<string>, content: seq<bv8>)
    requires to != [] && to[..|to| - 1] == dir
    ensures WellFormed(TreeOf(StagedDirs(dir, to, x), StagedFiles(dir, to, x, y, names), content))
  {
    var dirs, files := StagedDirs(dir, to, x), StagedFiles(dir, to, x, y, names);
    assert dir[..0] == [] && [] in dirs;
    hide StagedDirs, StagedFiles;
    forall p | p in dirs + files && p != [] ensures p[..|p| - 1] in dirs {
      if p in dirs { StagedDirHasParent(dir, to, x, p); } else { StagedFileHasParent(dir, to, x, y, names, p); }
    }
    TreeOfIsWellFormed(dirs, files, content);
  }

  lemma LastPlaceIsInTrash(trashDir: Path, path: Path)
    requires path != []
    ensures |LastPlace(trashDir, path)| == |trashDir| + 1 && LastPlace(trashDir, path)[..|trashDir|] == trashDir
  {}

  /** All 10000 names that x would be given are taken, and the last is that of a directory with x/x/y in it. */
  ghost function FullTrash(trashDir: Path, x: string, y: string, content: seq<bv8>): Tree {
    var to, names := LastPlace(trashDir, [x]), FirstFreeName.Candidates(TrashNames([x]));
    TreeOf(StagedDirs(trashDir, to, x), StagedFiles(trashDir, to, x, y, names), content)
  }

  lemma FullTrashIsWellFormed(trashDir: Path, x: string, y: string, content: seq<bv8>)
    ensures WellFormed(FullTrash(trashDir, x, y, content))
  {
    var to := LastPlace(trashDir, [x]);
    LastPlaceIsInTrash(trashDir, [x]);
    StagedIsWellFormed(trashDir, to, x, y, FirstFreeName.Candidates(TrashNames([x])), content);
  }

  lemma FullTrashHasNoNameLeft(trashDir: Path, x: string, y: string, content: seq<bv8>)
    ensures var t, path := FullTrash(trashDir, x, y, content), LastPlace(trashDir, [x]) + [x];
            !NameLeft(t, trashDir, path) && TrashPlace(t, trashDir, path) == LastPlace(trashDir, [x])
  {
    var t, path := FullTrash(trashDir, x, y, content), LastPlace(trashDir, [x]) + [x];
    assert TrashNames(path) == TrashNames([x]);
    PlaceIsFreeOrLast(t, trashDir, path);
  }

  /** What is staged under the directory to be trashed. */
  lemma StagedUnder(dir: Path, to: Path, x: string, y: string, names: set<string>, content: seq<bv8>)
    requires x != y && |to| == |dir| + 1
    ensures var t := TreeOf(StagedDirs(dir, to, x), StagedFiles(dir, to, x, y, names), content);
            && IsDir(t, to) && IsDir(t, to + [x]) && IsDir(t, to + [x, x])
            && FileAt(t, to + [x, x, y]) && to + [x, y] !in t
            && forall p :: p in t && to + [x] <= p ==> p == to + [x] || p == to + [x, x] || p == to + [x, x, y]
  {
    var dirs, files := StagedDirs(dir, to, x), StagedFiles(dir, to, x, y, names);
    forall p | p in dirs && |p| > |dir| + 1 ensures p == to + [x] || p == to + [x, x] {}
    forall p | p in files && |p| > |dir| + 1 ensures p == to + [x, x, y] {}
    hide StagedDirs;
    assert |to + [x, x, y]| == |dir| + 4 && |to + [x, y]| == |dir| + 3;
    assert (to + [x, x])[|dir| + 2] == x && (to + [x, y])[|dir| + 2] == y;
  }

  /**
   * The input on which the trash fallback loses a file: the trash is full, x is trashed out of the directory that
   * has the last name, and everything is copied and deleted as promised.
   */
  lemma FullTrashLoses(trashDir: Path, x: string, y: string, content: seq<bv8>)
    returns (t: Tree, path: Path, copied: Tree, left: Tree)
    requires !Hidden(x) && !Hidden(y) && x != y
    ensures WellFormed(t) && path != [] && IsDir(t, path) && TrashOutside(t, trashDir, path)
    ensures !NameLeft(t, trashDir, path) && !TrashSpares(t, trashDir, path)
    ensures var place := TrashPlace(t, trashDir, path);
            && place in t && Extends(t, copied) && OnlyCopiesAdded(t, copied, path, place)
            && CopiedAll(t, copied, path, place)
            && OnlyVisibleRemoved(copied, left, path) && NothingUnder(left, path)
            && !Conserved(t, left, path, {place})
  {
    hide LastPlace, TrashPlace, TrashNames, StagedDirs, StagedFiles, TreeOf, FirstFreeName.Candidates, NameLeft,
      WellFormed, Conserved, Hidden, OnlyCopiesAdded, CopiedAll,
      OnlyVisibleRemoved, NothingUnder, TrashSpares, TrashOutside;
    var to := LastPlace(trashDir, [x]);
    t, path := FullTrash(trashDir, x, y, content), to + [x];
    FullTrashIsWellFormed(trashDir, x, y, content);
    FullTrashHasNoNameLeft(trashDir, x, y, content);
    assert |to| == |trashDir| + 1 by { LastPlaceIsInTrash(trashDir, [x]); }
    StagedUnder(trashDir, to, x, y, FirstFreeName.Candidates(TrashNames([x])), content);
    copied, left := CopyOntoAncestorLoses(t, to, x, y);
    BuriedInLastPlace(t, trashDir, x, y);
  }

  lemma BuriedInLastPlace(t: Tree, trashDir: Path, x: string, y: string)
    requires FileAt(t, LastPlace(trashDir, [x]) + [x, x, y])
    ensures var path := LastPlace(trashDir, [x]) + [x];
            && TrashOutside(t, trashDir, path)
            && (TrashPlace(t, trashDir, path) == LastPlace(trashDir, [x]) ==> !TrashSpares(t, trashDir, path))
  {
    hide TrashNames, TrashPlace;
    var to := LastPlace(trashDir, [x]);
    var path := to + [x];
    assert path + [x, y] == to + [x, x, y];
    assert to + [x, y] == path + [y];
    assert Buried(path, to, [x, y]);
  }

  /** With no name left in the trash the place is known before the move, and so is what would be lost. */
  lemma MoveWithFullTrash(t: Tree, full: Tree, left: Tree, trashDir: Path, source: Path, dest: Path)
    requires source != [] && IsDir(t, source) && Extends(t, full) && CopiedAll(t, full, source, dest)
    requires !LeadsInto(source, dest) && TrashOutside(t, trashDir, source) && !NameLeft(t, trashDir, source)
    requires HiddenStays(full, left, source) && NothingUnder(left, source)
    ensures var target := TrashPlace(full, trashDir, source);
            MoveSpares(t, trashDir, source, dest) <==>
              forall r :: FileAt(t, source + r) ==> !(source <= dest + r) || !(source <= target + r)
  {
    var last := LastPlace(trashDir, source);
    PlaceIsFreeOrLast(t, trashDir, source);
    PlaceIsFreeOrLast(full, trashDir, source);
    assert !NameLeft(full, trashDir, source);
    assert last in full by { LastIsTaken(t, trashDir, source); }
    PlaceIsTried(t, trashDir, source);
    assert source + [] == source && dest + [] == dest;
    hide TrashPlace, LastPlace, TrashOutside, NameLeft, TrashNames, CopiedAll;
    GoneIsNotInside(full, left, source, dest);
    GoneIsNotInside(full, left, source, last);
    forall r ensures source <= dest + r ==> Buried(source, dest, r) {
      if source <= dest + r { PrefixesComparable(dest + r, source, dest); }
    }
    forall r ensures source <= last + r ==> Buried(source, last, r) {
      if source <= last + r { PrefixesComparable(last + r, source, last); }
    }
  }

  lemma LastIsTaken(t: Tree, trashDir: Path, path: Path)
    requires path != [] && !NameLeft(t, trashDir, path)
    ensures LastPlace(trashDir, path) in t
  {
    var s := TrashNames(path);
    assert FirstFreeName.Candidate(s, FirstFreeName.Tries(s) - 1) in FirstFreeName.Candidates(s);
  }

  /** What is gone with the source was not hidden inside it. */
  lemma GoneIsNotInside(full: Tree, left: Tree, source: Path, p: Path)
    requires p in full && !LeadsInto(source, p) && HiddenStays(full, left, source) && NothingUnder(left, source)
    ensures !StrictlyInside(p, source)
  {
    if source <= p { assert p == source + p[|source|..]; }
    NothingHiddenIsLeft(full, left, source);
  }

  /** A name in an existing directory is resolved inside it. */
  function ResolveDestination(t: Tree, source: Path, dest: Path): Path {
    if IsDir(t, dest) then dest + [if source == [] then "" else source[|source| - 1]] else dest
  }

  /** A free place beside an entry can take its copy. */
  lemma SiblingCanBeMade(t: Tree, path: Path, sibling: Path)
    requires WellFormed(t) && path in t && path != [] && sibling != [] && sibling !in t
    requires sibling[..|sibling| - 1] == path[..|path| - 1]
    ensures Unrelated(path, sibling) && CanCopyEntry(t, path, sibling)
  {
    var dir := path[..|path| - 1];
    assert ParentIsDir(t, path);
    NothingBelowMissing(t, sibling);
    forall q | q <= sibling && q in t ensures IsDir(t, q) {
      assert q <= dir && q == dir[..|q|];
      if q != dir { PrefixExists(t, dir, |q|); }
    }
  }

  class FileOperations {
    var nodes: Tree
    const trashDir: Path
    ghost var faults: nat
    ghost var refusals: nat
    ghost var gioCalls: nat

    constructor (nodes: Tree, trashDir: Path)
      ensures this.nodes == nodes && this.trashDir == trashDir
    {
      this.nodes, this.trashDir := nodes, trashDir;
    }

    // ---- Primitives

    /** A permission, space or device error. */
    method Fault() returns (fails: bool)
      modifies this`faults
      ensures faults == old(faults) + (if fails then 1 else 0)
    {
      fails := *;
      if fails { faults := faults + 1; }
    }

    /** A rename across file systems, or one that is not permitted. */
    method Refusal() returns (refused: bool)
      modifies this`refusals
      ensures refusals == old(refusals) + (if refused then 1 else 0)
    {
      refused := *;
      if refused { refusals := refusals + 1; }
    }

    /** QFile::rename: never onto an existing entry, never into itself. */
    method Rename(src: Path, dst: Path) returns (ok: bool)
      requires WellFormed(nodes)
      modifies this`nodes, this`refusals
      ensures WellFormed(nodes)
      ensures !ok ==> nodes == old(nodes)
      ensures ok ==> src in old(nodes) && dst !in old(nodes) && !(src <= dst) && NothingUnder(nodes, src)
                     && Relocated(old(nodes), nodes, src, dst)
      ensures refusals >= old(refusals) && (ok ==> refusals == old(refusals))
      ensures refusals == old(refusals) ==> (ok <==> CanRename(old(nodes), src, dst))
    {
      var refused := Refusal();
      if refused || src == [] || src !in nodes || dst in nodes || src <= dst || !ParentIsDir(nodes, dst) {
        return false;
      }
      NothingBelowMissing(nodes, dst);
      MovedIsRelocated(nodes, src, dst);
      RelocationKeepsWellFormed(nodes, Moved(nodes, src, dst), src, dst);
      RelocationEmptiesSource(nodes, Moved(nodes, src, dst), src, dst);
      nodes := Moved(nodes, src, dst);
      ok := true;
    }

    /** QFile::copy: a file onto a path that does not exist yet. */
    method CopyFile(src: Path, dst: Path) returns (ok: bool)
      requires WellFormed(nodes)
      modifies this`nodes, this`faults
      ensures WellFormed(nodes)
      ensures !ok ==> nodes == old(nodes)
      ensures ok ==> src in old(nodes) && old(nodes)[src].File? && dst !in old(nodes)
                     && nodes == old(nodes)[dst := old(nodes)[src]]
      ensures faults >= old(faults) && (ok ==> faults == old(faults))
      ensures faults == old(faults) ==> (ok <==> CanCopyFile(old(nodes), src, dst))
    {
      var fails := Fault();
      if fails || src !in nodes || nodes[src].Dir? || dst in nodes || !ParentIsDir(nodes, dst) {
        return false;
      }
      AddingKeepsWellFormed(nodes, dst, nodes[src]);
      nodes := nodes[dst := nodes[src]];
      ok := true;
    }

    /** QDir::mkpath: creates the missing ancestors one by one; a failure may leave some of them behind. */
    method MkPath(path: Path) returns (ok: bool)
      requires WellFormed(nodes)
      modifies this`nodes, this`faults
      ensures WellFormed(nodes) && Extends(old(nodes), nodes)
      ensures forall p :: p in nodes && p !in old(nodes) ==> p <= path && nodes[p] == Dir
      ensures if ok then IsDir(nodes, path) else path in nodes ==> path in old(nodes)
      ensures faults >= old(faults) && (ok ==> faults == old(faults))
      ensures faults == old(faults) && PathOpen(old(nodes), path) ==> ok
    {
      var k := 0;
      while k < |path|
        invariant k <= |path|
        invariant WellFormed(nodes) && Extends(old(nodes), nodes)
        invariant forall p :: p in nodes && p !in old(nodes) ==> |p| <= k && p <= path && nodes[p] == Dir
        invariant IsDir(nodes, path[..k])
        invariant faults == old(faults)
      {
        var p := path[..k + 1];
        assert p[..|p| - 1] == path[..k];
        if p !in nodes {
          var fails := Fault();
          if fails { return false; }
          AddingKeepsWellFormed(nodes, p, Dir);
          nodes := nodes[p := Dir];
        } else if nodes[p].File? {
          return false;
        }
        k := k + 1;
      }
      assert path[..k] == path;
      ok := true;
    }

    /** QFile::remove. */
    method Remove(path: Path) returns (ok: bool)
      requires WellFormed(nodes)
      modifies this`nodes, this`faults
      ensures WellFormed(nodes)
      ensures !ok ==> nodes == old(nodes)
      ensures ok ==> path in old(nodes) && old(nodes)[path].File? && nodes == old(nodes) - {path}
      ensures faults >= old(faults) && (ok ==> faults == old(faults))
      ensures faults == old(faults) ==> (ok <==> path in old(nodes) && old(nodes)[path].File?)
    {
      var fails := Fault();
      if fails || path !in nodes || nodes[path].Dir? { return false; }
      forall q | q in nodes ensures !StrictlyInside(q, path) {
        if path <= q { NothingBelowFile(nodes, path, q); }
      }
      RemovingKeepsWellFormed(nodes, path);
      nodes := nodes - {path};
      ok := true;
    }

    /** QDir::rmdir: only an empty directory, and hidden entries count. */
    method RmDir(path: Path) returns (ok: bool)
      requires WellFormed(nodes)
      modifies this`nodes, this`faults
      ensures WellFormed(nodes)
      ensures !ok ==> nodes == old(nodes)
      ensures ok ==> IsDir(old(nodes), path) && nodes == old(nodes) - {path} && NothingUnder(nodes, path)
      ensures faults >= old(faults) && (ok ==> faults == old(faults))
      ensures faults == old(faults) ==>
                (ok <==> && path != [] && IsDir(old(nodes), path)
                         && forall p :: p in old(nodes) ==> !StrictlyInside(p, path))
    {
      var fails := Fault();
      if fails || path == [] || !IsDir(nodes, path) || (exists p :: p in nodes && StrictlyInside(p, path)) {
        return false;
      }
      RemovingKeepsWellFormed(nodes, path);
      nodes := nodes - {path};
      ok := true;
    }

    /** QDir::entryInfoList(AllEntries | NoDotAndDotDot): the children that are not hidden. */
    method EntryNames(dir: Path) returns (names: seq<string>)
      ensures forall n :: n in names <==> dir + [n] in nodes && !Hidden(n)
      ensures forall n :: n in names ==> !("." <= n)
      ensures forall n :: dir + [n] in nodes && !("." <= n) ==> n in names
      ensures forall i, j :: 0 <= i < j < |names| ==> names[i] != names[j]
    {
      forall n: string ensures Hidden(n) <==> "." <= n {}
      var todo := set p | p in nodes && dir <= p && |p| == |dir| + 1 && !Hidden(p[|dir|]) :: p[|dir|];
      forall n ensures n in todo <==> dir + [n] in nodes && !Hidden(n) {
        if dir + [n] in nodes && !Hidden(n) {
          var p := dir + [n];
          assert p[|dir|] == n;
        }
        if n in todo {
          var p :| p in nodes && dir <= p && |p| == |dir| + 1 && p[|dir|] == n;
          assert p == dir + [n];
        }
      }
      ghost var all := todo;
      names := [];
      while todo != {}
        invariant forall n :: n in all <==> n in todo || n in names
        invariant forall n :: n in names ==> n !in todo
        invariant forall i, j :: 0 <= i < j < |names| ==> names[i] != names[j]
        decreases todo
      {
        var n :| n in todo;
        todo := todo - {n};
        names := names + [n];
      }
    }

    // ---- Recursive copy and delete

    method PerformRecursiveCopy(src: Path, dst: Path, ghost bound: nat) returns (ok: bool)
      requires WellFormed(nodes)
      requires IsDir(nodes, src) ==> !LeadsInto(src, dst)
      requires DepthWithin(nodes, src, bound) && RouteWithin(src, dst, bound)
      modifies this`nodes, this`faults
      ensures WellFormed(nodes) && Extends(old(nodes), nodes)
      ensures OnlyCopiesAdded(old(nodes), nodes, src, dst)
      ensures AddedWithin(old(nodes), nodes, src, dst, bound)
      ensures ok ==> IsDir(old(nodes), src) && CopiedAll(old(nodes), nodes, src, dst)
      ensures faults >= old(faults) && (ok ==> faults == old(faults))
      ensures faults == old(faults) && Unrelated(src, dst) && CanCopyDir(old(nodes), src, dst) ==> ok
      decreases bound - |src|, 2
    {
      if !IsDir(nodes, src) { return false; }
      DepthHere(nodes, src, bound);
      if !IsDir(nodes, dst) {
        var made := MkPath(dst);
        CopyStarts(old(nodes), nodes, src, dst, bound);
        if !made { return false; }
      }
      var entries := EntryNames(src);
      ghost var smooth := Unrelated(src, dst) && CanCopyDir(old(nodes), src, dst);
      CopyLoopStarts(old(nodes), nodes, src, dst, entries, bound);
      ok := CopyEntries(src, dst, entries, old(nodes), bound, smooth);
    }

    /** The loop over the entries of a directory, `t` being the tree before its destination was made. */
    method CopyEntries(src: Path, dst: Path, entries: seq<string>, ghost t: Tree, ghost bound: nat, ghost smooth: bool)
      returns (ok: bool)
      requires CopyLoop(t, nodes, nodes, src, dst, entries, 0, bound, smooth)
      modifies this`nodes, this`faults
      ensures WellFormed(nodes) && Extends(t, nodes)
      ensures OnlyCopiesAdded(t, nodes, src, dst) && AddedWithin(t, nodes, src, dst, bound)
      ensures ok ==> CopiedAll(t, nodes, src, dst)
      ensures faults >= old(faults) && (ok ==> faults == old(faults))
      ensures faults == old(faults) && smooth ==> ok
      decreases bound - |src|, 1
    {
      hide *;
      ghost var listed := nodes;
      var i := 0;
      while i < |entries|
        invariant i <= |entries|
        invariant CopyLoop(t, listed, nodes, src, dst, entries, i, bound, smooth)
        invariant faults == old(faults)
      {
        ghost var before := nodes;
        CopyLoopEntry(t, listed, nodes, src, dst, entries, i, bound, smooth);
        var copied := CopyEntry(src, dst, entries[i], bound);
        CopyLoopStep(t, listed, before, nodes, src, dst, entries, i, bound, smooth);
        if !copied { return false; }
        i := i + 1;
      }
      CopyLoopEnds(t, listed, nodes, src, dst, entries, bound, smooth);
      ok := true;
    }

    /** The body of the loop above. */
    method CopyEntry(src: Path, dst: Path, name: string, ghost bound: nat) returns (ok: bool)
      requires WellFormed(nodes) && src + [name] in nodes
      requires IsDir(nodes, src + [name]) ==> !LeadsInto(src + [name], dst + [name])
      requires DepthWithin(nodes, src + [name], bound) && RouteWithin(src + [name], dst + [name], bound)
      modifies this`nodes, this`faults
      ensures WellFormed(nodes) && Extends(old(nodes), nodes)
      ensures OnlyCopiesAdded(old(nodes), nodes, src + [name], dst + [name])
      ensures AddedWithin(old(nodes), nodes, src + [name], dst + [name], bound)
      ensures ok ==> CopiedAll(old(nodes), nodes, src + [name], dst + [name])
      ensures faults >= old(faults) && (ok ==> faults == old(faults))
      ensures faults == old(faults) && Unrelated(src, dst) && CanCopyEntry(old(nodes), src + [name], dst + [name])
              ==> ok
      decreases bound - |src|, 0
    {
      DepthHere(nodes, src + [name], bound);
      if Unrelated(src, dst) { ChildrenUnrelated(src, dst, name); }
      hide WellFormed, CopiedAll, OnlyCopiesAdded, DepthWithin, RouteWithin, AddedWithin, LeadsInto, Extends,
        CanCopyDir, Unrelated;
      var srcPath, dstPath := src + [name], dst + [name];
      ghost var before := nodes;
      if IsDir(nodes, srcPath) {
        ok := PerformRecursiveCopy(srcPath, dstPath, bound);
      } else {
        ok := CopyFile(srcPath, dstPath);
        if ok { CopiedFile(before, srcPath, dstPath, bound); }
        else { NothingAdded(before, srcPath, dstPath, bound); }
      }
    }

    method PerformRecursiveDelete(path: Path) returns (ok: bool)
      requires WellFormed(nodes)
      modifies this`nodes, this`faults
      ensures WellFormed(nodes)
      ensures OnlyVisibleRemoved(old(nodes), nodes, path)
      ensures !IsDir(old(nodes), path) ==> ok && nodes == old(nodes)
      ensures IsDir(old(nodes), path) && ok ==> NothingUnder(nodes, path)
      ensures (exists r :: IsDir(old(nodes), path) && path + r in old(nodes) && !Visible(r)) ==> !ok
      ensures faults >= old(faults) && (ok ==> faults == old(faults))
      ensures faults == old(faults) ==>
                (ok <==> !IsDir(old(nodes), path) || (path != [] && AllVisible(old(nodes), path)))
      decreases (set p | p in nodes && path <= p), 0
    {
      if !IsDir(nodes, path) { return true; }
      var entries := EntryNames(path);
      ghost var t := nodes;
      DeleteLoopStarts(t, path, entries);
      hide *;
      var i := 0;
      while i < |entries|
        invariant i <= |entries| && faults == old(faults)
        invariant DeleteLoop(t, nodes, path, entries, i)
      {
        ghost var before := nodes;
        DeleteLoopEntry(t, nodes, path, entries, i);
        var deleted := DeleteEntry(path, entries[i]);
        DeleteLoopStep(t, before, nodes, path, entries, i);
        if !deleted { return false; }
        i := i + 1;
      }
      DeleteLoopEnds(t, nodes, path, entries);
      ok := RmDir(path);
    }

    /** The body of the loop above. */
    method DeleteEntry(path: Path, name: string) returns (ok: bool)
      requires WellFormed(nodes) && path + [name] in nodes
      modifies this`nodes, this`faults
      ensures WellFormed(nodes) && OnlyVisibleRemoved(old(nodes), nodes, path + [name])
      ensures ok ==> NothingUnder(nodes, path + [name])
      ensures faults >= old(faults) && (ok ==> faults == old(faults))
      ensures faults == old(faults) && AllVisible(old(nodes), path + [name]) ==> ok
      decreases (set p | p in nodes && path + [name] <= p), 1
    {
      var entry := path + [name];
      ghost var before := nodes;
      if IsDir(nodes, entry) {
        ok := PerformRecursiveDelete(entry);
      } else {
        ok := Remove(entry);
        RemovedFile(before, nodes, entry);
      }
    }

    // ---- Trash, move, delete, duplicate

    /** `gio trash`, if there is one: moves the entry to some fresh place in the trash, or does nothing. */
    method GioTrash(path: Path) returns (ok: bool, ghost target: Path)
      requires WellFormed(nodes)
      modifies this`nodes, this`refusals, this`gioCalls
      ensures gioCalls == old(gioCalls) + 1
      ensures WellFormed(nodes)
      ensures !ok ==> nodes == old(nodes)
      ensures ok ==> target != [] && target[..|target| - 1] == trashDir && path in old(nodes)
                     && target !in old(nodes) && Relocated(old(nodes), nodes, path, target) && NothingUnder(nodes, path)
      ensures refusals >= old(refusals)
    {
      var name: string := *;
      var to := trashDir + [name];
      assert to[..|to| - 1] == trashDir;
      target := to;
      gioCalls := gioCalls + 1;
      var works := *;
      if !works { return false, target; }
      ok := Rename(path, to);
    }

    method NamesIn(dir: Path) returns (names: set<string>)
      ensures names == NamesUsed(nodes, dir)
      ensures forall n :: n in names <==> dir + [n] in nodes
    {
      names := NamesUsed(nodes, dir);
      forall n ensures n in names <==> dir + [n] in nodes { NameIsUsed(nodes, dir, n); }
    }

    /** `copied` reports that the copy fallback ran. */
    method MoveToTrash(path: Path) returns (ok: bool, ghost target: Path, ghost copied: bool)
      requires WellFormed(nodes)
      requires path != [] && TrashOutside(nodes, trashDir, path)
      modifies this
      ensures WellFormed(nodes)
      ensures target != [] && target[..|target| - 1] == trashDir && gioCalls == old(gioCalls) + 1
      ensures KeptApart(old(nodes), nodes, path, TrashPlace(old(nodes), trashDir, path), target)
      ensures TrashSpares(old(nodes), trashDir, path) ==> Conserved(old(nodes), nodes, path, {target})
      ensures ok && copied && IsDir(old(nodes), path) ==>
                (Conserved(old(nodes), nodes, path, {target}) <==> TrashSpares(old(nodes), trashDir, path))
      ensures copied ==> target == TrashPlace(old(nodes), trashDir, path) && HiddenStays(old(nodes), nodes, path)
      ensures ok ==> path in old(nodes)
      ensures ok ==> (path in nodes <==> copied && old(nodes)[path].File?)
      ensures ok && old(nodes)[path].Dir? ==> NothingUnder(nodes, path)
      ensures ok && !(target <= path) ==> CopiedAll(old(nodes), nodes, path, target)
      ensures faults >= old(faults) && refusals >= old(refusals)
      ensures faults == old(faults) && CanTrash(old(nodes), trashDir, path) ==>
                && (ok <==> !copied || AllVisible(old(nodes), path))
                && CopiedAll(old(nodes), nodes, path, target)
                && (refusals == old(refusals) ==> !copied)
    {
      hide Relocated, Conserved, KeptApart, CopiedAll, NoneBuried, LeadsInto, NameLeft, HiddenStays, TrashPlace,
        CanRename, CanCopyEntry, Unrelated, AllVisible, TrashOutside, WellFormed, PathOpen,
        FirstFreeName.Chosen, FirstFreeName.SomeFree, FirstFreeName.IsFirstFree, NamesUsed;
      ghost var place := TrashPlace(nodes, trashDir, path);
      ok, target := GioTrash(path);
      copied := false;
      if ok {
        RelocationKeepsApart(old(nodes), nodes, path, place, target);
        RelocationConserves(old(nodes), nodes, path, target);
        RelocationCopies(old(nodes), nodes, path, target);
        return;
      }
      var open := MkPath(trashDir);
      var taken := NamesIn(trashDir);
      var name := FirstFreeName.FirstFree(TrashNames(path), taken);
      ghost var made := nodes;
      var to := trashDir + [name];
      target := to;
      assert to[..|to| - 1] == trashDir;
      MakingTrashMovesNothing(old(nodes), made, trashDir, path);
      PlaceIs(made, trashDir, path, name, taken);
      PlaceIsTried(old(nodes), trashDir, path);
      if open && CanTrash(old(nodes), trashDir, path) {
        FreePlaceCanBeReached(old(nodes), made, trashDir, path);
        MakingDirectoriesShows(old(nodes), made, trashDir, path);
      }
      ok, copied := RenameOrCopyAndDelete(path, to);
      TrashedAfterMaking(old(nodes), made, nodes, trashDir, path, to);
      if CopiedAll(made, nodes, path, to) { CopiedFromExtended(old(nodes), made, nodes, path, to); }
    }

    /** The end of moveToTrash: rename, or copy and then delete. */
    method RenameOrCopyAndDelete(path: Path, to: Path) returns (ok: bool, ghost copied: bool)
      requires WellFormed(nodes)
      requires FileAt(nodes, path) || !LeadsInto(path, to)
      modifies this`nodes, this`faults, this`refusals
      ensures WellFormed(nodes)
      ensures KeptApart(old(nodes), nodes, path, to, to)
      ensures NoneBuried(old(nodes), path, to) ==> Conserved(old(nodes), nodes, path, {to})
      ensures ok && copied && IsDir(old(nodes), path) ==>
                (Conserved(old(nodes), nodes, path, {to}) <==> NoneBuried(old(nodes), path, to))
      ensures copied ==> HiddenStays(old(nodes), nodes, path)
      ensures ok ==> path in old(nodes) && !StrictlyInside(to, path)
      ensures ok ==> (path in nodes <==> copied && old(nodes)[path].File?)
      ensures ok && old(nodes)[path].Dir? ==> NothingUnder(nodes, path)
      ensures ok && !(to <= path) ==> CopiedAll(old(nodes), nodes, path, to)
      ensures faults >= old(faults) && refusals >= old(refusals)
      ensures refusals == old(refusals) && CanRename(old(nodes), path, to) ==> ok && !copied
      ensures faults == old(faults) && Unrelated(path, to) && CanCopyEntry(old(nodes), path, to) ==>
                (ok <==> !copied || AllVisible(old(nodes), path)) && CopiedAll(old(nodes), nodes, path, to)
    {
      hide CopiedAll, Relocated, Conserved, OnlyCopiesAdded, OnlyVisibleRemoved, AddedWithin, Extends, CanRename,
        KeptApart, HiddenStays, NoneBuried, LeadsInto, CanCopyEntry, AllVisible;
      ok := Rename(path, to);
      copied := !ok;
      if ok {
        RelocationKeepsApart(old(nodes), nodes, path, to, to);
        RelocationConserves(old(nodes), nodes, path, to);
        RelocationCopies(old(nodes), nodes, path, to);
        return;
      }
      ok := CopyAny(path, to);
      ghost var full := nodes;
      ExtendingKeepsApart(old(nodes), nodes, path, to, to);
      ExtendingConserves(old(nodes), nodes, path, {to});
      if ok {
        ExtendsAt(old(nodes), full, path);
        if Unrelated(path, to) {
          CopyBesideShows(old(nodes), full, path, to);
          if !IsDir(full, path) { FileShows(old(nodes), path); }
        }
        ok := PerformRecursiveDelete(path);
        if IsDir(full, path) { CopyThenDelete(old(nodes), full, nodes, path, to); }
      }
    }

    /** A directory with everything visible in it, or a single file. */
    method CopyAny(src: Path, dst: Path) returns (ok: bool)
      requires WellFormed(nodes)
      requires FileAt(nodes, src) || !LeadsInto(src, dst)
      modifies this`nodes, this`faults
      ensures WellFormed(nodes) && Extends(old(nodes), nodes)
      ensures OnlyCopiesAdded(old(nodes), nodes, src, dst)
      ensures ok ==> src in old(nodes) && CopiedAll(old(nodes), nodes, src, dst) && !LeadsInto(src, dst)
      ensures ok && old(nodes)[src].File? ==> !StrictlyInside(dst, src)
      ensures faults >= old(faults) && (ok ==> faults == old(faults))
      ensures faults == old(faults) && Unrelated(src, dst) && CanCopyEntry(old(nodes), src, dst) ==> ok
    {
      hide CopiedAll, OnlyCopiesAdded, AddedWithin, Extends, CanCopyDir, CanCopyFile, Unrelated;
      ghost var before := nodes;
      if IsDir(nodes, src) {
        BoundCovers(nodes, src, dst);
        ok := PerformRecursiveCopy(src, dst, Deepest(nodes.Keys + {dst}));
      } else {
        ok := CopyFile(src, dst);
        if ok {
          CopiedFile(before, src, dst, |src|);
          if src <= dst { NothingBelowFile(nodes, src, dst); }
        } else {
          NothingAdded(before, src, dst, 0);
        }
      }
    }

    method PerformDelete(path: Path, permanent: bool) returns (ok: bool, ghost target: Path, ghost copied: bool)
      requires WellFormed(nodes)
      requires !permanent ==> path != [] && TrashOutside(nodes, trashDir, path)
      modifies this
      ensures WellFormed(nodes)
      ensures permanent ==> OnlyVisibleRemoved(old(nodes), nodes, path)
      ensures ok && (permanent || path !in old(nodes) || old(nodes)[path].Dir?) ==> NothingUnder(nodes, path)
      ensures !permanent ==>
                && KeptApart(old(nodes), nodes, path, TrashPlace(old(nodes), trashDir, path), target)
                && (TrashSpares(old(nodes), trashDir, path) ==> Conserved(old(nodes), nodes, path, {target}))
                && (ok && copied && IsDir(old(nodes), path) ==>
                      (Conserved(old(nodes), nodes, path, {target}) <==> TrashSpares(old(nodes), trashDir, path)))
                && (copied ==> target == TrashPlace(old(nodes), trashDir, path) && HiddenStays(old(nodes), nodes, path))
                && (ok && path in old(nodes) ==> (path in nodes <==> copied && old(nodes)[path].File?))
                && (ok && path in old(nodes) && !(target <= path) ==> CopiedAll(old(nodes), nodes, path, target))
                && (faults == old(faults) && CanTrash(old(nodes), trashDir, path) ==>
                      && (ok <==> !copied || AllVisible(old(nodes), path))
                      && (refusals == old(refusals) ==> !copied))
      ensures target != [] && target[..|target| - 1] == trashDir
      ensures faults >= old(faults) && refusals >= old(refusals)
      ensures permanent && faults == old(faults) ==>
                (ok <==> !IsDir(old(nodes), path) || (path != [] && AllVisible(old(nodes), path)))
    {
      hide KeptApart, Conserved, TrashPlace, TrashSpares, HiddenStays, TrashOutside, NameLeft, CopiedAll;
      target := trashDir + [""];
      assert target[..|target| - 1] == trashDir;
      copied := false;
      if path !in nodes {
        NothingBelowMissing(nodes, path);
        if !permanent { ExtendingKeepsApart(nodes, nodes, path, TrashPlace(nodes, trashDir, path), target); }
        ExtendingConserves(nodes, nodes, path, {target});
        return true, target, copied;
      }
      if !permanent {
        ok, target, copied := MoveToTrash(path);
      } else if IsDir(nodes, path) {
        ok := PerformRecursiveDelete(path);
      } else {
        ghost var before := nodes;
        ok := Remove(path);
        RemovedFile(before, nodes, path);
      }
    }

    method PerformMove(source: Path, dest: Path) returns (ok: bool, ghost target: Path, ghost copied: bool)
      requires WellFormed(nodes)
      requires FileAt(nodes, source) || !LeadsInto(source, dest)
      requires source != [] && TrashOutside(nodes, trashDir, source)
      modifies this
      ensures WellFormed(nodes)
      ensures target != [] && target[..|target| - 1] == trashDir
      ensures UnchangedElsewhere(old(nodes), nodes, source)
      ensures MoveSpares(old(nodes), trashDir, source, dest)
              ==> Conserved(old(nodes), nodes, source, {dest, target})
      ensures ok && copied && IsDir(old(nodes), source) ==>
                (Conserved(old(nodes), nodes, source, {dest, target}) <==>
                   forall r :: FileAt(old(nodes), source + r) ==> !(source <= dest + r) || !(source <= target + r))
      ensures ok && copied && IsDir(old(nodes), source) && !NameLeft(old(nodes), trashDir, source) ==>
                (Conserved(old(nodes), nodes, source, {dest, target}) <==>
                   MoveSpares(old(nodes), trashDir, source, dest))
      ensures ok ==> source in old(nodes)
      ensures ok && old(nodes)[source].Dir? ==> NothingUnder(nodes, source)
      ensures ok ==> (source in nodes <==> copied && old(nodes)[source].File?)
      ensures ok && Unrelated(source, dest) ==> CopiedAll(old(nodes), nodes, source, dest)
      ensures ok && !(target <= source) ==>
                Relocated(old(nodes), nodes, source, dest) || CopiedAll(old(nodes), nodes, source, target)
      ensures faults >= old(faults) && refusals >= old(refusals)
      ensures refusals == old(refusals) && CanRename(old(nodes), source, dest) ==>
                ok && Relocated(old(nodes), nodes, source, dest)
      ensures faults == old(faults) && Unrelated(source, dest) && CanCopyEntry(old(nodes), source, dest)
              && CanTrashBeside(old(nodes), trashDir, source, dest) ==>
                && (ok <==> !copied || AllVisible(old(nodes), source))
                && CopiedAll(old(nodes), nodes, source, dest)
                && (refusals == old(refusals) ==> ok && source !in nodes)
    {
      hide CopiedAll, Relocated, Conserved, OnlyCopiesAdded, OnlyVisibleRemoved, Extends, CanRename, Unrelated,
        WellFormed, KeptApart, HiddenStays, LeadsInto, TrashPlace, TrashSpares, MoveSpares, TrashOutside,
        CanCopyEntry, CanTrash, CanTrashBeside, AllVisible;
      target, copied := trashDir + [""], false;
      assert target[..|target| - 1] == trashDir;
      ok := Rename(source, dest);
      if ok {
        RelocationConserves(old(nodes), nodes, source, dest);
        RelocationCopies(old(nodes), nodes, source, dest);
        MoreTargetsConserve(old(nodes), nodes, source, {dest}, {dest, target});
        ConservationIsElsewhere(old(nodes), nodes, source, {dest});
        return;
      }
      ok := CopyAny(source, dest);
      ghost var full := nodes;
      ExtendingConserves(old(nodes), full, source, {dest, target});
      ConservationIsElsewhere(old(nodes), full, source, {dest, target});
      if ok {
        ExtendsAt(old(nodes), full, source);
        TrashStaysOutside(old(nodes), full, trashDir, source);
        if Unrelated(source, dest) && CanTrashBeside(old(nodes), trashDir, source, dest) {
          CanTrashAfterCopy(old(nodes), full, trashDir, source, dest);
          CopyBesideShows(old(nodes), full, source, dest);
        }
        ok, target, copied := PerformDelete(source, false);
        CopyIsNear(old(nodes), full, source, dest);
        if CopiedAll(full, nodes, source, target) { CopiedFromExtended(old(nodes), full, nodes, source, target); }
        MoveEnds(old(nodes), full, nodes, trashDir, source, dest, target);
        if ok && copied && IsDir(full, source) {
          MovedAllConservesExactly(old(nodes), full, nodes, source, dest, target);
          if !NameLeft(old(nodes), trashDir, source) {
            MoveWithFullTrash(old(nodes), full, nodes, trashDir, source, dest);
          }
        }
      }
    }

    method Move(source: Path, dest: Path) returns (ok: bool, ghost target: Path, ghost copied: bool)
      requires WellFormed(nodes)
      requires FileAt(nodes, source) || !LeadsInto(source, ResolveDestination(nodes, source, dest))
      requires source != [] && TrashOutside(nodes, trashDir, source)
      modifies this
      ensures WellFormed(nodes)
      ensures UnchangedElsewhere(old(nodes), nodes, source)
      ensures var d := ResolveDestination(old(nodes), source, dest);
              && (MoveSpares(old(nodes), trashDir, source, d) ==> Conserved(old(nodes), nodes, source, {d, target}))
              && (ok && copied && IsDir(old(nodes), source) ==>
                    (Conserved(old(nodes), nodes, source, {d, target}) <==>
                       forall r :: FileAt(old(nodes), source + r) ==> !(source <= d + r) || !(source <= target + r)))
      ensures ok ==> source in old(nodes) && (old(nodes)[source].Dir? ==> NothingUnder(nodes, source))
      ensures ok ==> (source in nodes <==> copied && old(nodes)[source].File?)
      ensures var d := if IsDir(old(nodes), dest) then dest + [source[|source| - 1]] else dest;
              && (ok && Unrelated(source, d) ==> CopiedAll(old(nodes), nodes, source, d))
              && (ok && !(target <= source) ==>
                    Relocated(old(nodes), nodes, source, d) || CopiedAll(old(nodes), nodes, source, target))
              && (faults == old(faults) && Unrelated(source, d) && CanCopyEntry(old(nodes), source, d)
                  && CanTrashBeside(old(nodes), trashDir, source, d) ==>
                    && (ok <==> !copied || AllVisible(old(nodes), source))
                    && (refusals == old(refusals) ==> ok && source !in nodes))
    {
      ok, target, copied := PerformMove(source, ResolveDestination(nodes, source, dest));
    }

    /** Copying never touches what exists, and on success everything visible has a second copy. */
    method Copy(source: Path, dest: Path) returns (ok: bool)
      requires WellFormed(nodes)
      requires FileAt(nodes, source) || !LeadsInto(source, ResolveDestination(nodes, source, dest))
      modifies this`nodes, this`faults
      ensures WellFormed(nodes) && Extends(old(nodes), nodes)
      ensures var d := ResolveDestination(old(nodes), source, dest);
              && OnlyCopiesAdded(old(nodes), nodes, source, d)
              && (ok ==> source in old(nodes) && CopiedAll(old(nodes), nodes, source, d))
      ensures source != [] ==>
                var d := if IsDir(old(nodes), dest) then dest + [source[|source| - 1]] else dest;
                && (ok ==> CopiedAll(old(nodes), nodes, source, d))
                && (faults == old(faults) && Unrelated(source, d) && CanCopyEntry(old(nodes), source, d) ==> ok)
    {
      if source !in nodes {
        NothingAdded(nodes, source, ResolveDestination(nodes, source, dest), 0);
        return false;
      }
      ok := CopyAny(source, ResolveDestination(nodes, source, dest));
    }

    /** Duplicate never touches what exists, and on success everything visible has a second copy beside it. */
    method Duplicate(path: Path) returns (ok: bool, newPath: Path)
      requires WellFormed(nodes) && path != []
      modifies this`nodes, this`faults
      ensures WellFormed(nodes) && Extends(old(nodes), nodes)
      ensures newPath != [] && newPath[..|newPath| - 1] == path[..|path| - 1]
      ensures var s := FirstFreeName.Duplicate(path[|path| - 1]);
              var used := NamesUsed(old(nodes), path[..|path| - 1]);
              FirstFreeName.SomeFree(s, FirstFreeName.Tries(s), used) ==>
                FirstFreeName.IsFirstFree(s, FirstFreeName.Tries(s), used, newPath[|newPath| - 1])
      ensures OnlyCopiesAdded(old(nodes), nodes, path, newPath)
      ensures ok ==> CopiedAll(old(nodes), nodes, path, newPath)
      ensures |NamesUsed(old(nodes), path[..|path| - 1])| < 999 ==>
                newPath !in old(nodes) && (faults == old(faults) && path in old(nodes) ==> ok)
    {
      var dirPath := path[..|path| - 1];
      var taken := NamesIn(dirPath);
      var name := FirstFreeName.FirstFree(FirstFreeName.Duplicate(path[|path| - 1]), taken);
      newPath := dirPath + [name];
      assert newPath[..|newPath| - 1] == dirPath;
      if |taken| < 999 {
        FirstFreeName.FewerTakenThanTried(FirstFreeName.Duplicate(path[|path| - 1]), 999, taken);
        assert newPath !in nodes;
        if path in nodes { SiblingCanBeMade(nodes, path, newPath); }
      }
      ok := CopyAny(path, newPath);
    }
  }
}

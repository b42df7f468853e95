/** The file manager's directory listing: loaded in the background, filtered, and kept sorted. */
module DirectoryView {
  import opened Wrappers

  datatype Kind = Directory | RegularFile | Symlink | OtherKind

  datatype Entry = Entry(
    fileName: string, fileSize: nat, kind: Kind, mimeType: string, lastModified: int, isHidden: bool)

  datatype Order = Ascending | Descending

  /** Case folding for comparison and lowering for search, as the text library does them. */
  datatype Text = Text(fold: string -> string, lower: string -> string)

  // ---- Comparison

  function CompareInt(a: int, b: int): int {
    if a < b then -1 else if a > b then 1 else 0
  }

  function CompareCodes(a: string, b: string): int {
    if a == [] then (if b == [] then 0 else -1)
    else if b == [] then 1
    else if a[0] != b[0] then CompareInt(a[0] as int, b[0] as int)
    else CompareCodes(a[1..], b[1..])
  }

  function CompareText(a: string, b: string, text: Text): int {
    CompareCodes(text.fold(a), text.fold(b))
  }

  /** The comparison of a sort column; an unknown column compares nothing. */
  function CompareColumn(a: Entry, b: Entry, column: int, text: Text): int {
    if column == 0 then CompareText(a.fileName, b.fileName, text)
    else if column == 1 then CompareInt(a.fileSize, b.fileSize)
    else if column == 2 then
      var c := CompareText(a.mimeType, b.mimeType, text);
      if c == 0 then CompareText(a.fileName, b.fileName, text) else c
    else if column == 3 then CompareInt(a.lastModified, b.lastModified)
    else 0
  }

  /** The comparator handed to the sort. */
  predicate Less(a: Entry, b: Entry, column: int, order: Order, text: Text) {
    if a.kind == Directory && b.kind != Directory then true
    else if a.kind != Directory && b.kind == Directory then false
    else
      var c := CompareColumn(a, b, column, text);
      if order == Ascending then c < 0 else c > 0
  }

  ghost predicate Sorted(es: seq<Entry>, column: int, order: Order, text: Text) {
    forall i, j :: 0 <= i < j < |es| ==> !Less(es[j], es[i], column, order, text)
  }

  ghost predicate DirectoriesFirst(es: seq<Entry>) {
    forall i, j :: 0 <= i < j < |es| && es[j].kind == Directory ==> es[i].kind == Directory
  }

  lemma {:induction false} CodesFlip(a: string, b: string)
    ensures CompareCodes(a, b) == -CompareCodes(b, a)
    ensures CompareCodes(a, b) == 0 <==> a == b
  {
    if a != [] && b != [] && a[0] == b[0] {
      CodesFlip(a[1..], b[1..]);
      assert a == [a[0]] + a[1..] && b == [b[0]] + b[1..];
    }
  }

  lemma {:induction false} CodesTransitive(a: string, b: string, c: string)
    requires CompareCodes(a, b) <= 0 && CompareCodes(b, c) <= 0
    ensures CompareCodes(a, c) <= 0
  {
    if a != [] && b != [] && c != [] && a[0] == b[0] == c[0] { CodesTransitive(a[1..], b[1..], c[1..]); }
  }

  lemma ColumnFlips(a: Entry, b: Entry, column: int, text: Text)
    ensures CompareColumn(a, b, column, text) == -CompareColumn(b, a, column, text)
  {
    CodesFlip(text.fold(a.fileName), text.fold(b.fileName));
    CodesFlip(text.fold(a.mimeType), text.fold(b.mimeType));
  }

  lemma ColumnTransitive(a: Entry, b: Entry, c: Entry, column: int, text: Text)
    requires CompareColumn(a, b, column, text) <= 0 && CompareColumn(b, c, column, text) <= 0
    ensures CompareColumn(a, c, column, text) <= 0
  {
    var (na, nb, nc) := (text.fold(a.fileName), text.fold(b.fileName), text.fold(c.fileName));
    var (ma, mb, mc) := (text.fold(a.mimeType), text.fold(b.mimeType), text.fold(c.mimeType));
    if column == 0 {
      CodesTransitive(na, nb, nc);
    } else if column == 2 {
      CodesFlip(ma, mb); CodesFlip(mb, mc); CodesFlip(ma, mc);
      CodesTransitive(ma, mb, mc);
      if ma == mc { CodesTransitive(mc, ma, mb); CodesFlip(mc, mb); CodesTransitive(na, nb, nc); }
    }
  }

  /** The comparator is a strict weak order for every column, known or not, and both orders. */
  lemma StrictWeakOrder(a: Entry, b: Entry, c: Entry, column: int, order: Order, text: Text)
    ensures !Less(a, a, column, order, text)
    ensures Less(a, b, column, order, text) ==> !Less(b, a, column, order, text)
    ensures Less(a, b, column, order, text) && Less(b, c, column, order, text) ==> Less(a, c, column, order, text)
    ensures !Less(b, a, column, order, text) && !Less(c, b, column, order, text) ==> !Less(c, a, column, order, text)
  {
    ColumnFlips(a, a, column, text);
    ColumnFlips(a, b, column, text);
    ColumnFlips(b, c, column, text);
    ColumnFlips(a, c, column, text);
    var ab, bc := CompareColumn(a, b, column, text), CompareColumn(b, c, column, text);
    var ac := CompareColumn(a, c, column, text);
    if ab <= 0 && bc <= 0 { ColumnTransitive(a, b, c, column, text); }
    if ab >= 0 && bc >= 0 { ColumnTransitive(c, b, a, column, text); }
    if ac <= 0 && bc >= 0 { ColumnTransitive(a, c, b, column, text); }
    if ac >= 0 && bc <= 0 { ColumnTransitive(b, c, a, column, text); }
    if ac <= 0 && ab >= 0 { ColumnTransitive(b, a, c, column, text); }
    if ac >= 0 && ab <= 0 { ColumnTransitive(c, a, b, column, text); }
  }

  // ---- What each column sorts by

  /** a stands before b in the order of character codes: they part at position k, or a ends there. */
  ghost predicate Precedes(a: string, b: string) {
    exists k: nat :: PartsAt(a, b, k)
  }

  predicate PartsAt(a: string, b: string, k: nat) {
    && k <= |a| && k < |b| && a[..k] == b[..k]
    && (k < |a| ==> a[k] < b[k])
  }

  lemma {:induction false} CodesPrecede(a: string, b: string)
    ensures CompareCodes(a, b) < 0 <==> Precedes(a, b)
  {
    if a == [] || b == [] || a[0] != b[0] {
      if CompareCodes(a, b) < 0 { assert PartsAt(a, b, 0); }
      forall k: nat | 0 < k <= |a| && k < |b| ensures a[..k] != b[..k] {
        assert a[..k][0] == a[0] && b[..k][0] == b[0];
      }
    } else {
      CodesPrecede(a[1..], b[1..]);
      if Precedes(a[1..], b[1..]) {
        var k: nat :| PartsAt(a[1..], b[1..], k);
        assert a[..k + 1] == [a[0]] + a[1..][..k] && b[..k + 1] == [b[0]] + b[1..][..k];
        assert PartsAt(a, b, k + 1);
      }
      if Precedes(a, b) {
        var k: nat :| PartsAt(a, b, k);
        assert a[1..][..k - 1] == a[..k][1..] && b[1..][..k - 1] == b[..k][1..];
        assert PartsAt(a[1..], b[1..], k - 1);
      }
    }
  }

  /** a may stand before b: by name, by size, by type and then name, or by date; other columns do not care. */
  ghost predicate MayPrecede(a: Entry, b: Entry, column: int, text: Text) {
    match column
    case 0 => !Precedes(text.fold(b.fileName), text.fold(a.fileName))
    case 1 => a.fileSize <= b.fileSize
    case 2 =>
      && !Precedes(text.fold(b.mimeType), text.fold(a.mimeType))
      && (text.fold(a.mimeType) == text.fold(b.mimeType) ==> !Precedes(text.fold(b.fileName), text.fold(a.fileName)))
    case 3 => a.lastModified <= b.lastModified
    case _ => true
  }

  /** Directories first, and within them and within the rest every entry may precede, or follow, those after it. */
  ghost predicate Arranged(es: seq<Entry>, column: int, order: Order, text: Text) {
    forall i, j :: 0 <= i < j < |es| ==>
      && (es[j].kind == Directory ==> es[i].kind == Directory)
      && ((es[i].kind == Directory <==> es[j].kind == Directory) ==>
            if order == Ascending then MayPrecede(es[i], es[j], column, text)
            else MayPrecede(es[j], es[i], column, text))
  }

  lemma ColumnMeans(a: Entry, b: Entry, column: int, text: Text)
    ensures CompareColumn(b, a, column, text) >= 0 <==> MayPrecede(a, b, column, text)
  {
    CodesPrecede(text.fold(b.fileName), text.fold(a.fileName));
    CodesPrecede(text.fold(b.mimeType), text.fold(a.mimeType));
    CodesFlip(text.fold(b.mimeType), text.fold(a.mimeType));
    hide Precedes, CompareCodes;
  }

  /** Sorted by the comparator is arranged by the columns' fields. */
  lemma SortedMeansArranged(es: seq<Entry>, column: int, order: Order, text: Text)
    ensures Sorted(es, column, order, text) <==> Arranged(es, column, order, text)
  {
    hide CompareColumn, MayPrecede;
    forall i, j | 0 <= i < j < |es|
      ensures !Less(es[j], es[i], column, order, text) <==>
                && (es[j].kind == Directory ==> es[i].kind == Directory)
                && ((es[i].kind == Directory <==> es[j].kind == Directory) ==>
                      if order == Ascending then MayPrecede(es[i], es[j], column, text)
                      else MayPrecede(es[j], es[i], column, text))
    {
      ColumnMeans(es[i], es[j], column, text);
      ColumnMeans(es[j], es[i], column, text);
      ColumnFlips(es[i], es[j], column, text);
    }
  }

  lemma SortedMeansDirectoriesFirst(es: seq<Entry>, column: int, order: Order, text: Text)
    requires Sorted(es, column, order, text)
    ensures DirectoriesFirst(es)
  {}

  // ---- Sorting

  function Insert(e: Entry, es: seq<Entry>, column: int, order: Order, text: Text): seq<Entry> {
    if es == [] || Less(e, es[0], column, order, text) then [e] + es
    else [es[0]] + Insert(e, es[1..], column, order, text)
  }

  function Sort(es: seq<Entry>, column: int, order: Order, text: Text): seq<Entry> {
    if es == [] then [] else Insert(es[0], Sort(es[1..], column, order, text), column, order, text)
  }

  lemma {:induction false} InsertKeepsEntries(e: Entry, es: seq<Entry>, column: int, order: Order, text: Text)
    ensures multiset(Insert(e, es, column, order, text)) == multiset{e} + multiset(es)
  {
    if es != [] && !Less(e, es[0], column, order, text) {
      InsertKeepsEntries(e, es[1..], column, order, text);
      assert es == [es[0]] + es[1..];
    }
  }

  lemma {:induction false} InsertSorts(e: Entry, es: seq<Entry>, column: int, order: Order, text: Text)
    requires Sorted(es, column, order, text)
    ensures Sorted(Insert(e, es, column, order, text), column, order, text)
  {
    if es == [] {
    } else if Less(e, es[0], column, order, text) {
      forall j | 0 <= j < |es| ensures !Less(es[j], e, column, order, text) {
        StrictWeakOrder(e, es[0], es[j], column, order, text);
        StrictWeakOrder(es[j], e, es[0], column, order, text);
      }
    } else {
      var rest := Insert(e, es[1..], column, order, text);
      InsertSorts(e, es[1..], column, order, text);
      InsertKeepsEntries(e, es[1..], column, order, text);
      forall x | x in rest ensures !Less(x, es[0], column, order, text) {
        assert x in multiset(rest);
        if x != e {
          assert x in es[1..];
          var k :| 0 <= k < |es[1..]| && es[1..][k] == x;
          assert es[k + 1] == x;
        }
      }
    }
  }

  lemma {:induction false} SortSorts(es: seq<Entry>, column: int, order: Order, text: Text)
    ensures Sorted(Sort(es, column, order, text), column, order, text)
    ensures multiset(Sort(es, column, order, text)) == multiset(es)
  {
    if es != [] {
      SortSorts(es[1..], column, order, text);
      InsertSorts(es[0], Sort(es[1..], column, order, text), column, order, text);
      InsertKeepsEntries(es[0], Sort(es[1..], column, order, text), column, order, text);
      assert es == [es[0]] + es[1..];
    }
  }

  // ---- Filtering

  predicate Contains(hay: string, needle: string) {
    needle <= hay || (hay != [] && Contains(hay[1..], needle))
  }

  predicate Keeps(e: Entry, showHidden: bool, nameFilter: string, text: Text) {
    (showHidden || !e.isHidden) && (nameFilter == "" || Contains(text.lower(e.fileName), text.lower(nameFilter)))
  }

  function Filtered(es: seq<Entry>, showHidden: bool, nameFilter: string, text: Text): seq<Entry> {
    if es == [] then []
    else (if Keeps(es[0], showHidden, nameFilter, text) then [es[0]] else [])
         + Filtered(es[1..], showHidden, nameFilter, text)
  }

  lemma {:induction false} ContainsMeans(hay: string, needle: string)
    ensures Contains(hay, needle) <==> exists k: nat :: k <= |hay| && needle <= hay[k..]
  {
    assert hay[0..] == hay;
    if hay == [] {
      assert forall k: nat :: k <= |hay| ==> hay[k..] == hay;
    } else {
      ContainsMeans(hay[1..], needle);
      if k: nat :| k <= |hay[1..]| && needle <= hay[1..][k..] { assert hay[1..][k..] == hay[k + 1..]; }
      if k: nat :| k <= |hay| && needle <= hay[k..] {
        if k > 0 { assert hay[1..][k - 1..] == hay[k..]; }
      }
    }
  }

  /** What the view shows of a listing: the name has the filter in it, in lower case, and hidden entries if wanted. */
  ghost predicate Wanted(e: Entry, showHidden: bool, nameFilter: string, text: Text) {
    && (e.isHidden ==> showHidden)
    && (nameFilter != "" ==>
          exists k: nat :: k <= |text.lower(e.fileName)| && text.lower(nameFilter) <= text.lower(e.fileName)[k..])
  }

  lemma FilterKeepsWanted(listing: seq<Entry>, es: seq<Entry>, showHidden: bool, nameFilter: string, text: Text)
    requires multiset(es) == multiset(Filtered(listing, showHidden, nameFilter, text))
    ensures forall e :: e in es <==> e in listing && Wanted(e, showHidden, nameFilter, text)
  {
    hide Contains, Filtered;
    forall e ensures e in es <==> e in listing && Wanted(e, showHidden, nameFilter, text) {
      FilteredCounts(listing, showHidden, nameFilter, text, e);
      ContainsMeans(text.lower(e.fileName), text.lower(nameFilter));
      assert e in es <==> multiset(es)[e] > 0;
      assert e in listing <==> multiset(listing)[e] > 0;
    }
  }

  /** The filter keeps exactly the matching entries, each as often as it was listed. */
  lemma {:induction false} FilteredCounts(es: seq<Entry>, showHidden: bool, nameFilter: string, text: Text, e: Entry)
    ensures multiset(Filtered(es, showHidden, nameFilter, text))[e]
            == if Keeps(e, showHidden, nameFilter, text) then multiset(es)[e] else 0
  {
    if es != [] {
      FilteredCounts(es[1..], showHidden, nameFilter, text, e);
      assert es == [es[0]] + es[1..];
    }
  }

  lemma {:induction false} FilteredAppends(es: seq<Entry>, e: Entry, showHidden: bool, nameFilter: string, text: Text)
    ensures Filtered(es + [e], showHidden, nameFilter, text)
            == Filtered(es, showHidden, nameFilter, text) + if Keeps(e, showHidden, nameFilter, text) then [e] else []
  {
    if es == [] {
      assert es + [e] == [e];
    } else {
      assert (es + [e])[1..] == es[1..] + [e];
      FilteredAppends(es[1..], e, showHidden, nameFilter, text);
    }
  }

  lemma {:induction false} FilteredByNothing(es: seq<Entry>, text: Text)
    ensures Filtered(es, true, "", text) == es
  {
    if es != [] {
      FilteredByNothing(es[1..], text);
    }
  }

  /** Dropping the hidden entries first and the unmatched ones second drops both at once. */
  lemma {:induction false} FilteredTwice(es: seq<Entry>, showHidden: bool, nameFilter: string, text: Text)
    ensures Filtered(Filtered(es, showHidden, "", text), true, nameFilter, text)
            == Filtered(es, showHidden, nameFilter, text)
  {
    if es != [] {
      var f := Filtered(es[1..], showHidden, "", text);
      FilteredTwice(es[1..], showHidden, nameFilter, text);
      if Keeps(es[0], showHidden, "", text) {
        FilteredPrepends(es[0], f, true, nameFilter, text);
      } else {
        assert Filtered(es, showHidden, "", text) == f;
      }
    }
  }

  lemma FilteredPrepends(e: Entry, es: seq<Entry>, showHidden: bool, nameFilter: string, text: Text)
    ensures Filtered([e] + es, showHidden, nameFilter, text)
            == (if Keeps(e, showHidden, nameFilter, text) then [e] else []) + Filtered(es, showHidden, nameFilter, text)
  {
    assert ([e] + es)[1..] == es;
  }

  // ---- The model

  /** A background scan, numbered in the order of starting; its result is there once the scan is over. */
  datatype Future = Future(scan: nat, path: string, result: Option<seq<Entry>>)

  datatype Listing = Listing(scan: nat, path: string, entries: seq<Entry>)

  datatype Event =
    | SetPath(path: string)
    | SetColumn(column: int)
    | SetOrder(order: Order)
    | SetFilter(filter: string)
    | SetHidden(show: bool)
    | Refresh
    | ScanEnds(scan: nat, entries: seq<Entry>)  // some scan, watched or abandoned, finishes with this listing
    | Finished                                  // the finished signal of the watched scan is delivered

  /** Everything but the shown entries. */
  datatype Model = Model(
    path: string, column: int, order: Order, filter: string, hidden: bool,
    watcher: Option<Future>, scans: nat, latest: Option<Listing>)

  /** A new scan is watched instead of the one before, whatever became of that. */
  function Refreshed(m: Model): Model {
    if m.path == "" then m
    else m.(scans := m.scans + 1, watcher := Some(Future(m.scans + 1, m.path, None)))
  }

  function After(m: Model, e: Event): Model {
    match e
    case SetPath(path) => if path == m.path then m else Refreshed(m.(path := path))
    case SetColumn(column) => m.(column := column)
    case SetOrder(order) => m.(order := order)
    case SetFilter(filter) => if filter == m.filter then m else Refreshed(m.(filter := filter))
    case SetHidden(show) => if show == m.hidden then m else Refreshed(m.(hidden := show))
    case Refresh => Refreshed(m)
    case ScanEnds(scan, es) =>
      if m.watcher.Some? && m.watcher.value.scan == scan && m.watcher.value.result.None?
      then m.(watcher := Some(m.watcher.value.(result := Some(es)))) else m
    case Finished =>
      if m.watcher.Some? && m.watcher.value.result.Some? then
        var w := m.watcher.value;
        m.(watcher := None, latest := Some(Listing(w.scan, w.path, w.result.value)))
      else m
  }

  function AfterAll(m: Model, events: seq<Event>): Model {
    if events == [] then m else After(AfterAll(m, events[..|events| - 1]), events[|events| - 1])
  }

  /** Events that neither start a scan nor let the watched one end. */
  predicate Idle(m: Model, e: Event) {
    match e
    case SetColumn(_) => true
    case SetOrder(_) => true
    case ScanEnds(scan, _) => m.watcher.None? || m.watcher.value.scan != scan
    case Finished => m.watcher.None? || m.watcher.value.result.None?
    case _ => false
  }

  ghost predicate AllIdle(m: Model, events: seq<Event>) {
    forall e | e in events :: Idle(m, e)
  }

  lemma {:induction false} IdleKeepsLoad(m: Model, events: seq<Event>)
    requires AllIdle(m, events)
    ensures var t := AfterAll(m, events);
      t.watcher == m.watcher && t.latest == m.latest && t.scans == m.scans && t.path == m.path
  {
    if events != [] {
      assert events[|events| - 1] in events;
      IdleKeepsLoad(m, events[..|events| - 1]);
    }
  }

  /**
   * A new path is scanned and, unless the user asks for something else first, what that scan finds is what is
   * delivered, however many abandoned scans end and finished signals arrive in between.
   */
  lemma NewPathIsShown(m: Model, path: string, meanwhile: seq<Event>, later: seq<Event>, es: seq<Entry>)
    requires path != "" && path != m.path
    requires AllIdle(After(m, SetPath(path)), meanwhile)
    requires forall e | e in later :: e.SetColumn? || e.SetOrder? || e.ScanEnds?
    ensures var t := AfterAll(m, [SetPath(path)] + meanwhile + [ScanEnds(m.scans + 1, es)] + later + [Finished]);
      t.path == path && t.watcher.None? && t.latest == Some(Listing(m.scans + 1, path, es))
  {
    var ended := ScanEnds(m.scans + 1, es);
    var m1 := After(m, SetPath(path));
    IdleKeepsLoad(m1, meanwhile);
    var m2 := AfterAll(m1, meanwhile);
    var m3 := After(m2, ended);
    EndedStays(m3, later);
    var m4 := AfterAll(m3, later);
    var a, b := [SetPath(path)] + meanwhile, [SetPath(path)] + meanwhile + [ended];
    assert [] + [SetPath(path)] == [SetPath(path)] && AfterAll(m, []) == m;
    hide After, AllIdle;
    AfterOne(m, [], SetPath(path));
    hide AfterAll;
    AfterBoth(m, [SetPath(path)], meanwhile);
    AfterOne(m, a, ended);
    AfterBoth(m, b, later);
    AfterOne(m, b + later, Finished);
    FinishedDelivers(m4);
  }

  lemma AfterOne(m: Model, events: seq<Event>, e: Event)
    ensures AfterAll(m, events + [e]) == After(AfterAll(m, events), e)
  {
    hide After;
    assert (events + [e])[..|events|] == events;
  }

  lemma FinishedDelivers(m: Model)
    requires m.watcher.Some? && m.watcher.value.result.Some?
    ensures var w := m.watcher.value;
      After(m, Finished) == m.(watcher := None, latest := Some(Listing(w.scan, w.path, w.result.value)))
  {}

  lemma {:induction false} EndedStays(m: Model, events: seq<Event>)
    requires m.watcher.Some? && m.watcher.value.result.Some?
    requires forall e | e in events :: e.SetColumn? || e.SetOrder? || e.ScanEnds?
    ensures AfterAll(m, events).watcher == m.watcher && AfterAll(m, events).path == m.path
  {
    if events != [] {
      assert events[|events| - 1] in events;
      EndedStays(m, events[..|events| - 1]);
    }
  }

  lemma {:induction false} AfterBoth(m: Model, a: seq<Event>, b: seq<Event>)
    ensures AfterAll(m, a + b) == AfterAll(AfterAll(m, a), b)
  {
    hide After;
    if b == [] {
      assert a + b == a;
    } else {
      var front := b[..|b| - 1];
      assert (a + b)[..|a + b| - 1] == a + front;
      AfterBoth(m, a, front);
    }
  }

  class FileModel {
    var currentPath: string
    var entries: seq<Entry>
    var sortColumn: int
    var sortOrder: Order
    var nameFilter: string
    var showHidden: bool
    var loading: bool
    var watcher: Option<Future>
    var scans: nat                     // scans started so far
    const text: Text
    ghost var latest: Option<Listing>  // the listing delivered last

    constructor (text: Text)
      ensures Valid() && this.text == text && currentPath == "" && entries == []
    {
      currentPath, entries, sortColumn, sortOrder, nameFilter := "", [], 0, Ascending, "";
      showHidden, loading, watcher, scans, latest := false, false, None, 0, None;
      this.text := text;
    }

    /**
     * Sorted always; once settled, the view is the filter of the listing of the current directory
     * that came from the scan started last.
     */
    ghost predicate Valid()
      reads this
    {
      && Sorted(entries, sortColumn, sortOrder, text)
      && (loading <==> watcher.Some?)
      && (loading ==> watcher.value.scan == scans)
      && (loading && currentPath != "" ==> watcher.value.path == currentPath)
      && (!loading && currentPath != "" ==>
            && latest.Some? && latest.value.path == currentPath && latest.value.scan == scans
            && multiset(entries) == multiset(Filtered(latest.value.entries, showHidden, nameFilter, text)))
    }

    ghost function Abs(): Model
      reads this
    {
      Model(currentPath, sortColumn, sortOrder, nameFilter, showHidden, watcher, scans, latest)
    }

    method SetCurrentPath(path: string)
      requires Valid()
      modifies this
      ensures Valid() && currentPath == path && Abs() == After(old(Abs()), SetPath(path))
      ensures path != old(currentPath) && path != "" ==> watcher == Some(Future(scans, path, None))
      ensures entries == old(entries)
    {
      if path == currentPath { return; }
      currentPath := path;
      DoRefresh();
    }

    method SetSortColumn(column: int)
      requires Valid()
      modifies this
      ensures Valid() && sortColumn == column && Abs() == After(old(Abs()), SetColumn(column))
      ensures Arranged(entries, sortColumn, sortOrder, text)
      ensures multiset(entries) == multiset(old(entries)) && watcher == old(watcher)
    {
      SortedMeansArranged(entries, sortColumn, sortOrder, text);
      if column == sortColumn { return; }
      sortColumn := column;
      ApplySort();
      SortedMeansArranged(entries, sortColumn, sortOrder, text);
    }

    method SetSortOrder(order: Order)
      requires Valid()
      modifies this
      ensures Valid() && sortOrder == order && Abs() == After(old(Abs()), SetOrder(order))
      ensures Arranged(entries, sortColumn, sortOrder, text)
      ensures multiset(entries) == multiset(old(entries)) && watcher == old(watcher)
    {
      SortedMeansArranged(entries, sortColumn, sortOrder, text);
      if order == sortOrder { return; }
      sortOrder := order;
      ApplySort();
      SortedMeansArranged(entries, sortColumn, sortOrder, text);
    }

    method SetNameFilter(filter: string)
      requires Valid()
      modifies this
      ensures Valid() && nameFilter == filter && entries == old(entries)
      ensures Abs() == After(old(Abs()), SetFilter(filter))
    {
      if filter == nameFilter { return; }
      nameFilter := filter;
      DoRefresh();
    }

    method SetShowHidden(show: bool)
      requires Valid()
      modifies this
      ensures Valid() && showHidden == show && entries == old(entries)
      ensures Abs() == After(old(Abs()), SetHidden(show))
    {
      if show == showHidden { return; }
      showHidden := show;
      DoRefresh();
    }

    method DoRefresh()
      modifies this
      ensures currentPath == "" ==> loading == old(loading) && watcher == old(watcher) && scans == old(scans)
      ensures currentPath != "" ==>
                loading && scans == old(scans) + 1 && watcher == Some(Future(scans, currentPath, None))
      ensures Abs() == After(old(Abs()), Refresh)
      ensures unchanged(`currentPath, `entries, `sortColumn, `sortOrder, `nameFilter, `showHidden, `latest)
    {
      if currentPath == "" { return; }
      StartDirectoryLoad(currentPath);
    }

    /** Watches a new scan; the one watched before, finished or not, is forgotten. */
    method StartDirectoryLoad(path: string)
      modifies this`loading, this`watcher, this`scans
      ensures loading && scans == old(scans) + 1 && watcher == Some(Future(scans, path, None))
    {
      loading := true;
      scans := scans + 1;
      watcher := Some(Future(scans, path, None));
    }

    method OnDirectoryLoaded()
      requires Valid() && watcher.Some? && watcher.value.result.Some?
      modifies this
      ensures Valid() && !loading && watcher.None? && Abs() == After(old(Abs()), Finished)
      ensures latest == Some(Listing(scans, old(watcher).value.path, old(watcher).value.result.value))
      ensures multiset(entries)
              == multiset(Filtered(old(watcher).value.result.value, showHidden, nameFilter, text))
      ensures Arranged(entries, sortColumn, sortOrder, text)
      ensures forall e :: e in entries <==>
                e in old(watcher).value.result.value && Wanted(e, showHidden, nameFilter, text)
      ensures unchanged(`currentPath, `sortColumn, `sortOrder, `nameFilter, `showHidden, `scans)
    {
      hide Filtered, Sorted, Arranged, Wanted;
      var listing := watcher.value.result.value;
      latest := Some(Listing(watcher.value.scan, watcher.value.path, listing));
      entries := ApplyFilters(listing);
      SortEntries();
      SortedMeansArranged(entries, sortColumn, sortOrder, text);
      FilterKeepsWanted(listing, entries, showHidden, nameFilter, text);
      loading := false;
      watcher := None;
    }

    /** First the hidden entries are erased, unless shown; then, given a filter, the names without it. */
    method ApplyFilters(listing: seq<Entry>) returns (result: seq<Entry>)
      ensures result == Filtered(listing, showHidden, nameFilter, text)
    {
      hide Filtered;
      result := listing;
      if !showHidden { result := RemoveUnkept(result, false, ""); }
      FilteredByNothing(listing, text);
      FilteredByNothing(result, text);
      FilteredTwice(listing, showHidden, nameFilter, text);
      if nameFilter != "" { result := RemoveUnkept(result, true, nameFilter); }
    }

    /** erase(remove_if(...)). */
    method RemoveUnkept(es: seq<Entry>, hidden: bool, filter: string) returns (kept: seq<Entry>)
      ensures kept == Filtered(es, hidden, filter, text)
    {
      kept := [];
      var i := 0;
      while i < |es|
        invariant i <= |es|
        invariant kept == Filtered(es[..i], hidden, filter, text)
      {
        FilteredAppends(es[..i], es[i], hidden, filter, text);
        assert es[..i + 1] == es[..i] + [es[i]];
        if Keeps(es[i], hidden, filter, text) { kept := kept + [es[i]]; }
        i := i + 1;
      }
      assert es[..i] == es;
    }

    method ApplySort()
      modifies this`entries
      ensures Sorted(entries, sortColumn, sortOrder, text) && multiset(entries) == multiset(old(entries))
    {
      if entries == [] { return; }
      SortEntries();
    }

    method SortEntries()
      modifies this`entries
      ensures Sorted(entries, sortColumn, sortOrder, text) && multiset(entries) == multiset(old(entries))
    {
      SortSorts(entries, sortColumn, sortOrder, text);
      entries := Sort(entries, sortColumn, sortOrder, text);
    }

    /** The result of an abandoned scan reaches nobody. */
    method ScanFinishes(scan: nat, es: seq<Entry>)
      requires Valid()
      modifies this`watcher
      ensures Valid() && (loading && old(watcher).value.scan != scan ==> watcher == old(watcher))
      ensures Abs() == After(old(Abs()), ScanEnds(scan, es))
    {
      if watcher.Some? && watcher.value.scan == scan && watcher.value.result.None? {
        watcher := Some(watcher.value.(result := Some(es)));
      }
    }

    /** Any interleaving of setters, finishing scans and deliveries keeps the view right. */
    method Run(events: seq<Event>)
      requires Valid()
      modifies this
      ensures Valid() && Abs() == AfterAll(old(Abs()), events)
      ensures Arranged(entries, sortColumn, sortOrder, text)
      ensures !loading && currentPath != "" ==>
                forall e :: e in entries <==> e in latest.value.entries && Wanted(e, showHidden, nameFilter, text)
    {
      var i := 0;
      while i < |events|
        invariant i <= |events| && Valid() && Abs() == AfterAll(old(Abs()), events[..i])
        decreases |events| - i
      {
        hide Filtered, Sorted;
        assert events[..i + 1][..i] == events[..i];
        match events[i] {
        case SetPath(path) => SetCurrentPath(path);
        case SetColumn(column) => SetSortColumn(column);
        case SetOrder(order) => SetSortOrder(order);
        case SetFilter(filter) => SetNameFilter(filter);
        case SetHidden(show) => SetShowHidden(show);
        case Refresh => DoRefresh();
        case ScanEnds(scan, es) => ScanFinishes(scan, es);
        case Finished =>
          if watcher.Some? && watcher.value.result.Some? { OnDirectoryLoaded(); }
        }
        i := i + 1;
      }
      assert events[..i] == events;
      SortedMeansArranged(entries, sortColumn, sortOrder, text);
      if !loading && currentPath != "" {
        FilterKeepsWanted(latest.value.entries, entries, showHidden, nameFilter, text);
      }
    }
  }
}

/** The taskbar is kept in step with the registry by signals and by a seed of one list query and four
    queries per listed window, over one ordered channel each way. */
module WindowSync {
  import opened Windows
  import opened Wrappers

  datatype Sys = Sys(reg: Registry, counter: nat, shell: Shell, toShell: seq<Message>, toComp: seq<Query>)

  datatype Event =
    | Register(title: string, appId: string)
    | Unregister(id: Id)
    | SetState(id: Id, minimized: bool, focused: bool)
    | SetMetadata(id: Id, title: string, appId: string)
    | Reply(ids: seq<Id>, fails: bool)  // the compositor answers the oldest query
    | Deliver                           // the shell handles the oldest message

  ghost predicate Enabled(s: Sys, e: Event) {
    match e
    case Reply(ids, fails) => s.toComp != [] && (s.toComp[0].ListIds? && !fails ==> IsKeyList(s.reg, ids))
    case Deliver => s.toShell != []
    case _ => true
  }

  function ReplyTo(reg: Registry, q: Query, ids: seq<Id>, fails: bool): Message {
    if q.ListIds? then (if fails then ListFailed else IdList(ids))
    else if fails then QueryFailed(q.id)
    else AnswerTo(reg, q)
  }

  ghost function Next(s: Sys, e: Event): Sys
    requires Enabled(s, e)
  {
    match e
    case Register(title, appId) =>
      var id := s.counter + 1;
      s.(counter := id, reg := s.reg[id := Record(title, appId, false, false)],
         toShell := s.toShell + [Registered(id, title, appId)])
    case Unregister(id) =>
      s.(reg := s.reg - {id}, toShell := s.toShell + [Unregistered(id)])
    case SetState(id, m, f) =>
      s.(reg := StateIn(s.reg, id, m, f), toShell := s.toShell + StateSignal(s.reg, id, m, f))
    case SetMetadata(id, title, appId) =>
      s.(reg := MetadataIn(s.reg, id, title, appId), toShell := s.toShell + [MetadataChanged(id, title, appId)])
    case Reply(ids, fails) =>
      s.(toComp := s.toComp[1..], toShell := s.toShell + [ReplyTo(s.reg, s.toComp[0], ids, fails)])
    case Deliver =>
      s.(toShell := s.toShell[1..], shell := Receive(s.shell, s.toShell[0]), toComp := s.toComp + Asks(s.toShell[0]))
  }

  /** An empty taskbar has subscribed and asked for the list; the registry is whatever it is. */
  ghost predicate Init(s: Sys) {
    && s.shell == Shell([], map[], None) && s.toShell == [] && s.toComp == [ListIds]
    && forall id :: id in s.reg ==> id <= s.counter
  }

  ghost predicate Run(s: Sys, es: seq<Event>, s': Sys)
    decreases |es|
  {
    if es == [] then s' == s else Enabled(s, es[0]) && Run(Next(s, es[0]), es[1..], s')
  }

  // ---- What is still owed to the shell about one window

  predicate ListsWindow(m: Message, x: Id) {
    m.IdList? && x in m.ids
  }

  function QueriesAbout(qs: seq<Query>, x: Id): seq<Query> {
    if qs == [] then []
    else (if !qs[0].ListIds? && qs[0].id == x then [qs[0]] else []) + QueriesAbout(qs[1..], x)
  }

  /** The queries about x that follow from the list and that the compositor has not answered yet. */
  ghost function Unanswered(s: Sys, x: Id): seq<Query> {
    (if Listed(s.toShell, x) then FourQueries(x) else []) + QueriesAbout(s.toComp, x)
  }

  ghost predicate Listed(ms: seq<Message>, x: Id) {
    exists m :: m in ms && ListsWindow(m, x)
  }

  /** The window is listed and its last answer has not been given. */
  ghost predicate Outstanding(s: Sys, x: Id) {
    Unanswered(s, x) != []
  }

  ghost predicate Subject(e: Event, x: Id) {
    match e
    case Unregister(id) => id == x
    case SetState(id, _, _) => id == x
    case SetMetadata(id, _, _) => id == x
    case _ => false
  }

  /** No listed window changes or leaves before its last answer, and no query fails. */
  ghost predicate Quiet(s: Sys, e: Event)
    requires Enabled(s, e)
  {
    && (forall x :: Subject(e, x) && Outstanding(s, x) ==> Next(s, e) == s)
    && (e.Reply? ==> !e.fails)
  }

  /** Every field that differs is one whose answer is still owed. */
  ghost predicate OnlyOwedDiffers(r: Record, r': Record, owed: seq<Query>, x: Id) {
    && (r'.title == r.title || Title(x) in owed)
    && (r'.appId == r.appId || AppId(x) in owed)
    && (r'.minimized == r.minimized || Minimized(x) in owed)
    && (r'.focused == r.focused || Focused(x) in owed)
  }

  /** No listed window leaves before its last answer or changes in a field already answered, and no query fails. */
  ghost predicate Harmless(s: Sys, e: Event)
    requires Enabled(s, e)
  {
    && (e.Reply? ==> !e.fails)
    && forall x :: Subject(e, x) && Outstanding(s, x) ==>
         && !e.Unregister?
         && (x in s.reg ==> OnlyOwedDiffers(s.reg[x], Next(s, e).reg[x], Unanswered(s, x), x))
  }

  ghost predicate HarmlessRun(s: Sys, es: seq<Event>, s': Sys)
    decreases |es|
  {
    if es == [] then s' == s
    else Enabled(s, es[0]) && Harmless(s, es[0]) && HarmlessRun(Next(s, es[0]), es[1..], s')
  }

  /** The event neither changes the window nor fails a query. */
  predicate LeavesAlone(e: Event, x: Id) {
    match e
    case Unregister(id) => id != x
    case SetState(id, _, _) => id != x
    case SetMetadata(id, _, _) => id != x
    case Reply(_, fails) => !fails
    case _ => true
  }

  ghost predicate QuietRun(s: Sys, es: seq<Event>, s': Sys)
    decreases |es|
  {
    if es == [] then s' == s
    else Enabled(s, es[0]) && Quiet(s, es[0]) && QuietRun(Next(s, es[0]), es[1..], s')
  }

  ghost predicate Drained(s: Sys) {
    s.toShell == [] && s.toComp == []
  }

  // ---- The shell as seen from one window

  datatype View = View(row: Option<Record>, pend: Option<Pending>)

  function ViewOf(s: Shell, x: Id): View {
    View(RowOf(s.rows, x), if x in s.pending then Some(s.pending[x]) else None)
  }

  predicate About(m: Message, x: Id) {
    match m
    case IdList(ids) => x in ids
    case ListFailed => false
    case _ => m.id == x
  }

  function Apply(v: View, x: Id, m: Message): View {
    if !About(m, x) then v
    else
      match m
      case Registered(_, title, appId) =>
        v.(row := Some(if v.row.Some? then v.row.value.(title := title, appId := appId)
                       else Record(title, appId, false, false)))
      case Unregistered(_) => v.(row := None)
      case StateChanged(_, minimized, focused) =>
        if v.row.None? then v else v.(row := Some(v.row.value.(minimized := minimized, focused := focused)))
      case MetadataChanged(_, title, appId) =>
        if v.row.None? then v else v.(row := Some(v.row.value.(title := title, appId := appId)))
      case IdList(_) => v.(pend := Some(Pending(4, DEFAULT)))
      case _ =>
        if v.pend.None? then v
        else
          var p := Pending(v.pend.value.remaining - 1, Gather(v.pend.value.rec, m));
          if p.remaining == 0 then View(Some(p.rec), None) else v.(pend := Some(p))
  }

  lemma RowOfUpdated(rows: seq<Row>, i: nat, rec: Record, x: Id)
    requires DistinctIds(rows) && i < |rows|
    ensures RowOf(rows[i := Row(rows[i].id, rec)], x) == if x == rows[i].id then Some(rec) else RowOf(rows, x)
  {
    var rows' := rows[i := Row(rows[i].id, rec)];
    var k := Find(rows, x);
    if k >= 0 { FindIsUnique(rows', x, k); }
    if x == rows[i].id { FindIsUnique(rows', x, i); }
  }

  lemma RowOfAppended(rows: seq<Row>, row: Row, x: Id)
    requires DistinctIds(rows) && Find(rows, row.id) < 0
    ensures RowOf(rows + [row], x) == if x == row.id then Some(row.rec) else RowOf(rows, x)
  {
    var rows' := rows + [row];
    var k := Find(rows, x);
    if k >= 0 { FindIsUnique(rows', x, k); }
    if x == row.id { FindIsUnique(rows', x, |rows|); }
  }

  lemma RowOfRemoved(rows: seq<Row>, i: nat, x: Id)
    requires DistinctIds(rows) && i < |rows|
    ensures RowOf(rows[..i] + rows[i + 1..], x) == if x == rows[i].id then None else RowOf(rows, x)
  {
    var rows' := rows[..i] + rows[i + 1..];
    var k := Find(rows, x);
    if k >= 0 && k != i { FindIsUnique(rows', x, if k < i then k else k - 1); }
    if x == rows[i].id { FindIsUnique(rows, x, i); }
    var j := Find(rows', x);
    if j >= 0 { FindIsUnique(rows, x, if j < i then j else j + 1); }
  }

  lemma MetadataView(s: Shell, x: Id, id: Id, title: string, appId: string)
    requires DistinctIds(s.rows)
    ensures DistinctIds(WithMetadata(s, id, title, appId).rows)
    ensures ViewOf(WithMetadata(s, id, title, appId), x) == Apply(ViewOf(s, x), x, MetadataChanged(id, title, appId))
  {
    var i := Find(s.rows, id);
    if i >= 0 { RowOfUpdated(s.rows, i, s.rows[i].rec.(title := title, appId := appId), x); }
  }

  lemma WindowView(s: Shell, x: Id, id: Id, title: string, appId: string)
    requires DistinctIds(s.rows)
    ensures DistinctIds(WithWindow(s, id, title, appId).rows)
    ensures ViewOf(WithWindow(s, id, title, appId), x) == Apply(ViewOf(s, x), x, Registered(id, title, appId))
  {
    if Find(s.rows, id) >= 0 { MetadataView(s, x, id, title, appId); }
    else { RowOfAppended(s.rows, Row(id, Record(title, appId, false, false)), x); }
  }

  lemma StateView(s: Shell, x: Id, id: Id, minimized: bool, focused: bool)
    requires DistinctIds(s.rows)
    ensures ViewOf(WithState(s, id, minimized, focused), x)
            == Apply(ViewOf(s, x), x, StateChanged(id, minimized, focused))
  {
    var i := Find(s.rows, id);
    if i >= 0 { RowOfUpdated(s.rows, i, s.rows[i].rec.(minimized := minimized, focused := focused), x); }
  }

  lemma SeedView(s: Shell, x: Id, id: Id, rec: Record)
    requires DistinctIds(s.rows)
    ensures var s' := WithState(WithWindow(s, id, rec.title, rec.appId), id, rec.minimized, rec.focused);
            ViewOf(s', x) == if x == id then ViewOf(s, x).(row := Some(rec)) else ViewOf(s, x)
  {
    WindowView(s, x, id, rec.title, rec.appId);
    StateView(WithWindow(s, id, rec.title, rec.appId), x, id, rec.minimized, rec.focused);
  }

  lemma AnswerView(s: Shell, x: Id, m: Message)
    requires DistinctIds(s.rows) && IsAnswer(m)
    ensures ViewOf(Receive(s, m), x) == Apply(ViewOf(s, x), x, m)
  {
    hide Gather, WithWindow, WithState, Find, RowOf, DistinctIds;
    if m.id in s.pending {
      var rec := Gather(s.pending[m.id].rec, m);
      if s.pending[m.id].remaining == 1 {
        SeedView(s.(pending := s.pending - {m.id}), x, m.id, rec);
      }
      assert Receive(s, m) == WithAnswer(s, m.id, rec);
    }
  }

  /** Handling a message changes each window's view as if the other windows were not there. */
  lemma ReceiveView(s: Shell, x: Id, m: Message)
    requires DistinctIds(s.rows)
    ensures ViewOf(Receive(s, m), x) == Apply(ViewOf(s, x), x, m)
  {
    match m
    case Registered(id, title, appId) => WindowView(s, x, id, title, appId);
    case Unregistered(id) => if Find(s.rows, id) >= 0 { RowOfRemoved(s.rows, Find(s.rows, id), x); }
    case StateChanged(id, minimized, focused) => StateView(s, x, id, minimized, focused);
    case MetadataChanged(id, title, appId) => MetadataView(s, x, id, title, appId);
    case IdList(ids) =>
    case ListFailed =>
    case _ => AnswerView(s, x, m);
  }

  predicate ShownFocused(rows: seq<Row>, x: Id) {
    RowOf(rows, x).Some? && RowOf(rows, x).value.focused
  }

  /** If the window gains the focus on the taskbar it is remembered, and it is remembered only then. */
  ghost predicate Remembers(s: Shell, s': Shell, x: Id) {
    && (ShownFocused(s'.rows, x) && !ShownFocused(s.rows, x) ==> s'.lastFocused == Some(x))
    && (s'.lastFocused == Some(x) ==> s.lastFocused == Some(x) || ShownFocused(s'.rows, x))
    && (s'.lastFocused.None? ==> s.lastFocused.None?)
  }

  lemma StateRemembers(s: Shell, x: Id, id: Id, minimized: bool, focused: bool)
    requires DistinctIds(s.rows)
    ensures Remembers(s, WithState(s, id, minimized, focused), x)
  {
    StateView(s, x, id, minimized, focused);
    hide DistinctIds;
  }

  lemma SeedRemembers(s: Shell, x: Id, id: Id, rec: Record)
    requires DistinctIds(s.rows)
    ensures Remembers(s, WithState(WithWindow(s, id, rec.title, rec.appId), id, rec.minimized, rec.focused), x)
  {
    var s1 := WithWindow(s, id, rec.title, rec.appId);
    WindowView(s, x, id, rec.title, rec.appId);
    assert s1.lastFocused == s.lastFocused;
    hide WithWindow, WithState, DistinctIds;
    assert ShownFocused(s1.rows, x) == ShownFocused(s.rows, x);
    StateRemembers(s1, x, id, rec.minimized, rec.focused);
  }

  /** Whichever window gains the focus on the taskbar is remembered, and no other. */
  lemma FocusIsRemembered(s: Shell, x: Id, m: Message)
    requires DistinctIds(s.rows)
    ensures Remembers(s, Receive(s, m), x)
  {
    hide WithState, DistinctIds, Find, RowOf, Gather;
    ReceiveView(s, x, m);
    if m.StateChanged? {
      StateRemembers(s, x, m.id, m.minimized, m.focused);
    } else if IsAnswer(m) && m.id in s.pending && s.pending[m.id].remaining == 1 {
      SeedRemembers(s.(pending := s.pending - {m.id}), x, m.id, Gather(s.pending[m.id].rec, m));
    }
  }

  function Fold(v: View, x: Id, ms: seq<Message>): View
    decreases |ms|
  {
    if ms == [] then v else Fold(Apply(v, x, ms[0]), x, ms[1..])
  }

  lemma {:induction false} FoldAppends(v: View, x: Id, a: seq<Message>, b: seq<Message>)
    ensures Fold(v, x, a + b) == Fold(Fold(v, x, a), x, b)
    decreases |a|
  {
    if a == [] {
      assert a + b == b;
    } else {
      assert (a + b)[1..] == a[1..] + b;
      FoldAppends(Apply(v, x, a[0]), x, a[1..], b);
    }
  }

  // ---- Where the seeding stands, in every run

  predicate IsSignal(m: Message) {
    m.Registered? || m.Unregistered? || m.StateChanged? || m.MetadataChanged?
  }

  /** The list has not been answered. */
  predicate Unlisted(s: Sys) {
    s.toComp == [ListIds]
  }

  ghost predicate Shape(s: Sys) {
    && DistinctIds(s.shell.rows)
    && (forall id :: id in s.reg ==> id <= s.counter)
    && (forall m, id: Id :: m in s.toShell && ListsWindow(m, id) ==> id <= s.counter)
    && (forall q :: q in s.toComp && !q.ListIds? ==> q.id <= s.counter)
    && (Unlisted(s) ==> s.shell.pending == map[] && forall m :: m in s.toShell ==> IsSignal(m))
    && (!Unlisted(s) ==> ListIds !in s.toComp)
    && (forall i :: 0 <= i < |s.toShell| && s.toShell[i].IdList? ==>
          && s.toComp == []
          && (forall j :: 0 <= j < |s.toShell| && s.toShell[j].IdList? ==> j == i)
          && (forall j, k :: 0 <= j < k < |s.toShell[i].ids| ==> s.toShell[i].ids[j] != s.toShell[i].ids[k]))
  }

  lemma InitShape(s: Sys)
    requires Init(s)
    ensures Shape(s)
  {}

  lemma {:induction false} AskAllIds(ids: seq<Id>, q: Query)
    requires q in AskAll(ids)
    ensures !q.ListIds? && q.id in ids
  {
    if q !in FourQueries(ids[0]) { AskAllIds(ids[1..], q); }
  }

  lemma DeliverKeepsShape(s: Sys)
    requires Shape(s) && s.toShell != []
    ensures Shape(Next(s, Deliver))
  {
    hide WithWindow, WithoutWindow, WithState, WithMetadata, WithAnswer, Gather;
    var s' := Next(s, Deliver);
    ReceiveKeepsIdsDistinct(s.shell, s.toShell[0]);
    forall q | q in Asks(s.toShell[0]) ensures !q.ListIds? && ListsWindow(s.toShell[0], q.id) {
      AskAllIds(s.toShell[0].ids, q);
    }
    if Unlisted(s) { assert IsSignal(s.toShell[0]); SignalKeepsPending(s.shell, s.toShell[0]); }
    forall i | 0 <= i < |s'.toShell| && s'.toShell[i].IdList? ensures s'.toComp == [] {
      assert s.toShell[i + 1].IdList?;
      assert !s.toShell[0].IdList?;
    }
  }

  lemma SignalKeepsPending(s: Shell, m: Message)
    requires IsSignal(m)
    ensures Receive(s, m).pending == s.pending && Asks(m) == []
  {
    hide WithMetadata, WithWindow, WithoutWindow, WithState;
  }

  lemma ReplyKeepsShape(s: Sys, e: Event)
    requires Shape(s) && e.Reply? && Enabled(s, e)
    ensures Shape(Next(s, e))
  {
    hide DistinctIds;
    assert s.toComp == [s.toComp[0]] + s.toComp[1..];
  }

  /** Row ids are pairwise distinct and the seeding keeps its order, racy or not. */
  lemma NextKeepsShape(s: Sys, e: Event)
    requires Shape(s) && Enabled(s, e)
    ensures Shape(Next(s, e))
  {
    hide DistinctIds, Receive, ReplyTo;
    if e.Deliver? { DeliverKeepsShape(s); } else if e.Reply? { ReplyKeepsShape(s, e); }
  }

  // ---- What every run without failed queries settles to

  function Answers(reg: Registry, qs: seq<Query>): seq<Message>
    requires ListIds !in qs
  {
    if qs == [] then [] else [AnswerTo(reg, qs[0])] + Answers(reg, qs[1..])
  }

  lemma AboutNoList(qs: seq<Query>, x: Id)
    ensures ListIds !in QueriesAbout(qs, x)
  {}

  /** What the compositor will still say about x if nothing changes any more. */
  ghost function Tail(s: Sys, x: Id): seq<Message> {
    if Unlisted(s) then (if x in s.reg then [IdList([x])] + Answers(s.reg, FourQueries(x)) else [])
    else (AboutNoList(s.toComp, x); Answers(s.reg, Unanswered(s, x)))
  }

  function Settled(row: Option<Record>): View {
    View(row, None)
  }

  /** What the shell will show of x, and wait for, once everything in flight and everything owed has arrived. */
  ghost function Fate(s: Sys, x: Id): View {
    Fold(Fold(ViewOf(s.shell, x), x, s.toShell), x, Tail(s, x))
  }

  /** That is exactly what the registry holds for x. */
  ghost predicate Converging(s: Sys, x: Id) {
    Fate(s, x) == Settled(Lookup(s.reg, x))
  }

  /** The last k of the four answers overwrite the last k fields. */
  function Merge(known: Record, reg: Record, k: nat): Record {
    Record(if k >= 4 then reg.title else known.title, if k >= 3 then reg.appId else known.appId,
           if k >= 2 then reg.minimized else known.minimized, if k >= 1 then reg.focused else known.focused)
  }

  lemma OneAnswer(v: View, x: Id, reg: Registry, k: nat)
    requires 1 <= k <= 4 && v.pend.Some? && v.pend.value.remaining == k
    ensures var known, v' := v.pend.value.rec, Apply(v, x, AnswerTo(reg, FourQueries(x)[4 - k]));
            if k == 1 then v' == Settled(Some(Merge(known, Value(reg, x), 1)))
            else
              && v'.pend.Some? && v'.pend.value.remaining == k - 1
              && Merge(v'.pend.value.rec, Value(reg, x), k - 1) == Merge(known, Value(reg, x), k)
  {}

  lemma {:induction false} AnswersMerge(v: View, x: Id, reg: Registry, k: nat)
    requires 1 <= k <= 4 && v.pend.Some? && v.pend.value.remaining == k
    ensures ListIds !in FourQueries(x)[4 - k..]
    ensures Fold(v, x, Answers(reg, FourQueries(x)[4 - k..]))
            == Settled(Some(Merge(v.pend.value.rec, Value(reg, x), k)))
    decreases k
  {
    hide Merge, Apply, AnswerTo, Value, FourQueries;
    var q := FourQueries(x)[4 - k];
    var rest := FourQueries(x)[4 - k + 1..];
    assert FourQueries(x)[4 - k..] == [q] + rest;
    AnswersStep(reg, q, rest);
    FoldStep(v, x, AnswerTo(reg, q), Answers(reg, rest));
    OneAnswer(v, x, reg, k);
    if k > 1 { AnswersMerge(Apply(v, x, AnswerTo(reg, q)), x, reg, k - 1); }
    else { assert Answers(reg, rest) == []; }
  }

  /**
   * A list reply naming x followed by its four answers leaves exactly the registry's record, whatever was shown; if
   * the window is gone by then, a blank row.
   */
  lemma SeedingSettles(v: View, x: Id, reg: Registry)
    ensures Fold(v, x, [IdList([x])] + Answers(reg, FourQueries(x)))
            == Settled(Some(if x in reg then reg[x] else Record("", "", false, false)))
  {
    FoldStep(v, x, IdList([x]), Answers(reg, FourQueries(x)));
    assert FourQueries(x)[0..] == FourQueries(x);
    AnswersMerge(Apply(v, x, IdList([x])), x, reg, 4);
  }

  /** Four failures leave a blank row as well. */
  lemma FailedSeedIsBlank(v: View, x: Id)
    ensures Fold(v, x, [IdList([x]), QueryFailed(x), QueryFailed(x), QueryFailed(x), QueryFailed(x)])
            == Settled(Some(Record("", "", false, false)))
  {
    var f := QueryFailed(x);
    assert [IdList([x]), f, f, f, f] == [IdList([x])] + [f] + [f] + [f] + [f];
    hide Apply;
    FoldOne(v, x, [IdList([x])] + [f] + [f] + [f], f);
    FoldOne(v, x, [IdList([x])] + [f] + [f], f);
    FoldOne(v, x, [IdList([x])] + [f], f);
    FoldOne(v, x, [IdList([x])], f);
    assert [] + [IdList([x])] == [IdList([x])];
    FoldOne(v, x, [], IdList([x]));
    assert Fold(v, x, []) == v;
    BlankSeed(v, x);
  }

  lemma BlankSeed(v: View, x: Id)
    ensures var f := QueryFailed(x);
      Apply(Apply(Apply(Apply(Apply(v, x, IdList([x])), x, f), x, f), x, f), x, f)
      == Settled(Some(Record("", "", false, false)))
  {}

  lemma FoldStep(v: View, x: Id, m: Message, ms: seq<Message>)
    ensures Fold(v, x, [m] + ms) == Fold(Apply(v, x, m), x, ms)
  {
    assert ([m] + ms)[1..] == ms;
  }

  lemma FoldOne(v: View, x: Id, ms: seq<Message>, m: Message)
    ensures Fold(v, x, ms + [m]) == Apply(Fold(v, x, ms), x, m)
  {
    FoldAppends(v, x, ms, [m]);
    assert [m][1..] == [];
    assert Fold(Fold(v, x, ms), x, [m]) == Fold(Apply(Fold(v, x, ms), x, m), x, []);
  }

  /** Signals do not start or advance a seed. */
  lemma {:induction false} SignalsLeavePending(v: View, x: Id, ms: seq<Message>)
    requires forall m :: m in ms ==> IsSignal(m)
    ensures Fold(v, x, ms).pend == v.pend
    decreases |ms|
  {
    if ms != [] {
      assert IsSignal(ms[0]);
      SignalsLeavePending(Apply(v, x, ms[0]), x, ms[1..]);
    }
  }

  lemma {:induction false} AnswersDependOnOne(reg: Registry, reg': Registry, qs: seq<Query>, x: Id)
    requires Lookup(reg, x) == Lookup(reg', x)
    requires forall q :: q in qs ==> !q.ListIds? && q.id == x
    ensures Answers(reg, qs) == Answers(reg', qs)
  {
    if qs != [] { AnswersDependOnOne(reg, reg', qs[1..], x); }
  }

  lemma UnansweredAreAbout(s: Sys, x: Id)
    ensures forall q :: q in Unanswered(s, x) ==> !q.ListIds? && q.id == x
  {
    QueriesAboutAreAbout(s.toComp, x);
  }

  lemma QueriesAboutAreAbout(qs: seq<Query>, x: Id)
    ensures forall q :: q in QueriesAbout(qs, x) ==> !q.ListIds? && q.id == x
  {}

  lemma {:induction false} QueriesAboutAppends(a: seq<Query>, b: seq<Query>, x: Id)
    ensures QueriesAbout(a + b, x) == QueriesAbout(a, x) + QueriesAbout(b, x)
  {
    if a == [] { assert a + b == b; }
    else { assert (a + b)[1..] == a[1..] + b; QueriesAboutAppends(a[1..], b, x); }
  }

  lemma {:induction false} AskAllAbout(ids: seq<Id>, x: Id)
    requires forall j, k :: 0 <= j < k < |ids| ==> ids[j] != ids[k]
    ensures QueriesAbout(AskAll(ids), x) == if x in ids then FourQueries(x) else []
  {
    if ids != [] {
      var four := FourQueries(ids[0]);
      assert QueriesAbout(four, x) == if x == ids[0] then four else [] by {
        assert four[1..] == [AppId(ids[0]), Minimized(ids[0]), Focused(ids[0])];
        assert four[1..][1..] == [Minimized(ids[0]), Focused(ids[0])];
        assert four[1..][1..][1..] == [Focused(ids[0])];
        assert QueriesAbout([Focused(ids[0])], x) == if x == ids[0] then [Focused(ids[0])] else [];
        assert QueriesAbout(four[1..][1..], x) == if x == ids[0] then four[1..][1..] else [];
        assert QueriesAbout(four[1..], x) == if x == ids[0] then four[1..] else [];
      }
      QueriesAboutAppends(four, AskAll(ids[1..]), x);
      AskAllAbout(ids[1..], x);
    }
  }

  // ---- Steps of the exchange itself

  lemma DeliverKeepsFate(s: Sys, x: Id)
    requires Shape(s) && s.toShell != []
    ensures Fate(Next(s, Deliver), x) == Fate(s, x)
  {
    var s', m := Next(s, Deliver), s.toShell[0];
    ReceiveView(s.shell, x, m);
    DeliverKeepsUnanswered(s, x);
    hide FourQueries, RowOf, Receive, Apply, AnswerTo;
    if Unlisted(s) { assert IsSignal(m); SignalKeepsPending(s.shell, m); assert s.toComp + [] == s.toComp; }
    else { DeliverStaysListed(s); }
  }

  lemma DeliverStaysListed(s: Sys)
    requires Shape(s) && s.toShell != [] && !Unlisted(s)
    ensures ListIds !in Next(s, Deliver).toComp
  {
    forall q | q in Asks(s.toShell[0]) ensures !q.ListIds? { AskAllIds(s.toShell[0].ids, q); }
  }

  lemma DeliverKeepsUnanswered(s: Sys, x: Id)
    requires Shape(s) && s.toShell != []
    ensures Unanswered(Next(s, Deliver), x) == Unanswered(s, x)
  {
    var s', m := Next(s, Deliver), s.toShell[0];
    QueriesAboutAppends(s.toComp, Asks(m), x);
    if m.IdList? {
      AskAllAbout(m.ids, x);
      DeliveredListIsGone(s, x);
    } else {
      assert s.toShell == [m] + s'.toShell;
      assert Asks(m) == [];
    }
  }

  lemma DeliveredListIsGone(s: Sys, x: Id)
    requires Shape(s) && s.toShell != [] && s.toShell[0].IdList?
    ensures s.toComp == [] && !Listed(s.toShell[1..], x) && (Listed(s.toShell, x) <==> x in s.toShell[0].ids)
  {
    var m := s.toShell[0];
    forall n | n in s.toShell[1..] ensures !n.IdList? {
      var i :| 1 <= i < |s.toShell| && s.toShell[i] == n;
    }
    if x in m.ids { assert ListsWindow(s.toShell[0], x); }
    assert forall n :: n in s.toShell ==> n == m || n in s.toShell[1..];
  }

  lemma ReplyKeepsFate(s: Sys, e: Event, x: Id)
    requires Shape(s) && e.Reply? && !e.fails && Enabled(s, e)
    ensures Fate(Next(s, e), x) == Fate(s, x)
  {
    var m := ReplyTo(s.reg, s.toComp[0], e.ids, false);
    FoldOne(ViewOf(s.shell, x), x, s.toShell, m);
    ReplyMovesTail(s, e, x, Fold(ViewOf(s.shell, x), x, s.toShell));
  }

  /** A reply moves from what is owed to what is in flight. */
  lemma ReplyMovesTail(s: Sys, e: Event, x: Id, v: View)
    requires Shape(s) && e.Reply? && !e.fails && Enabled(s, e)
    ensures Fold(v, x, Tail(s, x))
            == Fold(Apply(v, x, ReplyTo(s.reg, s.toComp[0], e.ids, false)), x, Tail(Next(s, e), x))
  {
    hide Fold, FourQueries, Receive;
    var q := s.toComp[0];
    if q.ListIds? {
      ListReplyUnanswered(s, e, x);
      if x in s.reg {
        FoldStep(v, x, IdList([x]), Answers(s.reg, FourQueries(x)));
      }
    } else {
      AnswerUnanswered(s, e, x);
      UnansweredAreAbout(s, x);
      UnansweredAreAbout(Next(s, e), x);
      if q.id == x {
        AnswersStep(s.reg, q, Unanswered(Next(s, e), x));
        FoldStep(v, x, AnswerTo(s.reg, q), Answers(s.reg, Unanswered(Next(s, e), x)));
      }
    }
  }

  lemma AnswersStep(reg: Registry, q: Query, qs: seq<Query>)
    requires !q.ListIds? && ListIds !in qs
    ensures ListIds !in [q] + qs
    ensures Answers(reg, [q] + qs) == [AnswerTo(reg, q)] + Answers(reg, qs)
  {
    assert ([q] + qs)[1..] == qs;
  }

  lemma ListReplyUnanswered(s: Sys, e: Event, x: Id)
    requires Shape(s) && e.Reply? && !e.fails && Enabled(s, e) && s.toComp[0].ListIds?
    ensures !Unlisted(Next(s, e))
    ensures Unanswered(Next(s, e), x) == if x in s.reg then FourQueries(x) else []
  {
    var s' := Next(s, e);
    assert Unlisted(s);
    assert s'.toComp == [];
    var m := IdList(e.ids);
    assert m in s'.toShell;
    assert forall n :: n in s.toShell ==> IsSignal(n);
    if x in s.reg { assert ListsWindow(m, x); }
  }

  lemma AnswerUnanswered(s: Sys, e: Event, x: Id)
    requires Shape(s) && e.Reply? && Enabled(s, e) && !s.toComp[0].ListIds?
    ensures !Unlisted(s) && !Unlisted(Next(s, e))
    ensures var q := s.toComp[0];
            if q.id == x then Unanswered(s, x) == [q] + Unanswered(Next(s, e), x)
            else Unanswered(s, x) == Unanswered(Next(s, e), x)
  {
    var s', q := Next(s, e), s.toComp[0];
    NextKeepsShape(s, e);
    assert s.toComp == [q] + s'.toComp;
    forall n | n in s.toShell ensures !n.IdList? {
      var i :| 0 <= i < |s.toShell| && s.toShell[i] == n;
    }
  }

  // ---- Steps of the compositor

  predicate IsChange(e: Event) {
    e.Register? || e.Unregister? || e.SetState? || e.SetMetadata?
  }

  /** The window a change is about. */
  function Changed(s: Sys, e: Event): Id
    requires IsChange(e)
  {
    if e.Register? then s.counter + 1 else e.id
  }

  /** The signals a change sends. */
  function Signals(s: Sys, e: Event): seq<Message>
    requires IsChange(e)
  {
    match e
    case Register(title, appId) => [Registered(s.counter + 1, title, appId)]
    case Unregister(id) => [Unregistered(id)]
    case SetState(id, m, f) => StateSignal(s.reg, id, m, f)
    case SetMetadata(id, title, appId) => [MetadataChanged(id, title, appId)]
  }

  lemma ChangeShape(s: Sys, e: Event, x: Id)
    requires Shape(s) && IsChange(e)
    ensures var s' := Next(s, e);
            && s'.toShell == s.toShell + Signals(s, e) && s'.toComp == s.toComp && s'.shell == s.shell
            && (x != Changed(s, e) ==> Lookup(s'.reg, x) == Lookup(s.reg, x))
    ensures Unanswered(Next(s, e), x) == Unanswered(s, x)
    ensures forall v :: x != Changed(s, e) ==> Fold(v, x, Signals(s, e)) == v
  {
    var s' := Next(s, e);
    forall m | ListsWindow(m, x) ensures m in s'.toShell <==> m in s.toShell {}
    if x != Changed(s, e) {
      forall v ensures Fold(v, x, Signals(s, e)) == v {
        if Signals(s, e) != [] { FoldStep(v, x, Signals(s, e)[0], []); }
      }
    }
  }

  /** A change's signal does to a settled view what the change does to the registry. */
  lemma SignalFollowsChange(s: Sys, e: Event)
    requires Shape(s) && IsChange(e)
    ensures var x := Changed(s, e);
            Fold(Settled(Lookup(s.reg, x)), x, Signals(s, e)) == Settled(Lookup(Next(s, e).reg, x))
  {
    var x := Changed(s, e);
    var v := Settled(Lookup(s.reg, x));
    if Signals(s, e) != [] { FoldStep(v, x, Signals(s, e)[0], []); }
  }

  lemma OtherChangeKeepsFate(s: Sys, e: Event, x: Id)
    requires Shape(s) && IsChange(e) && x != Changed(s, e)
    ensures Fate(Next(s, e), x) == Fate(s, x) && Lookup(Next(s, e).reg, x) == Lookup(s.reg, x)
  {
    var s' := Next(s, e);
    ChangeShape(s, e, x);
    FoldAppends(ViewOf(s.shell, x), x, s.toShell, Signals(s, e));
    UnansweredAreAbout(s, x);
    hide Fold, FourQueries, RowOf, Answers, Unanswered, Signals, Shape;
    assert x in s.reg <==> x in s'.reg;
    AnswersDependOnOne(s.reg, s'.reg, Unanswered(s, x), x);
    if x in s.reg { AnswersDependOnOne(s.reg, s'.reg, FourQueries(x), x); }
  }

  /** A change of a window about which nothing is owed keeps it converging. */
  lemma OwnChangeConverges(s: Sys, e: Event)
    requires Shape(s) && IsChange(e) && Converging(s, Changed(s, e)) && !Outstanding(s, Changed(s, e))
    ensures Converging(Next(s, e), Changed(s, e))
  {
    var x := Changed(s, e);
    var w := Fold(ViewOf(s.shell, x), x, s.toShell);
    ChangeShape(s, e, x);
    FoldAppends(ViewOf(s.shell, x), x, s.toShell, Signals(s, e));
    hide FourQueries, RowOf, Signals, Shape, Apply, Unanswered;
    if Unlisted(s) {
      UnlistedChangeConverges(s, e, w);
    } else {
      SignalFollowsChange(s, e);
    }
  }

  lemma ChangeKeepsConverging(s: Sys, e: Event, x: Id)
    requires Shape(s) && IsChange(e) && Converging(s, x)
    requires x == Changed(s, e) ==> !Outstanding(s, x)
    ensures Converging(Next(s, e), x)
  {
    hide Fate;
    if x == Changed(s, e) { OwnChangeConverges(s, e); } else { OtherChangeKeepsFate(s, e, x); }
  }

  /** Before the list is answered the seed will show whatever the registry holds by then. */
  lemma UnlistedChangeConverges(s: Sys, e: Event, w: View)
    requires Shape(s) && IsChange(e) && Unlisted(s)
    requires w == Fold(ViewOf(s.shell, Changed(s, e)), Changed(s, e), s.toShell)
    requires Fold(w, Changed(s, e), Tail(s, Changed(s, e))) == Settled(Lookup(s.reg, Changed(s, e)))
    ensures Fold(Fold(w, Changed(s, e), Signals(s, e)), Changed(s, e), Tail(Next(s, e), Changed(s, e)))
            == Settled(Lookup(Next(s, e).reg, Changed(s, e)))
  {
    var s', x := Next(s, e), Changed(s, e);
    if x in s'.reg {
      SeedingSettles(Fold(w, x, Signals(s, e)), x, s'.reg);
    } else if e.Unregister? {
      SignalsLeavePending(ViewOf(s.shell, x), x, s.toShell);
      FoldStep(w, x, Unregistered(x), []);
    } else {
      SignalFollowsChange(s, e);
    }
  }

  lemma OutstandingIsKnown(s: Sys, x: Id)
    requires Shape(s) && Outstanding(s, x)
    ensures x <= s.counter
  {
    QueriesAboutAreAmong(s.toComp, x);
    QueriesAboutAreAbout(s.toComp, x);
    if QueriesAbout(s.toComp, x) != [] {
      assert QueriesAbout(s.toComp, x)[0] in s.toComp;
    }
  }

  lemma {:induction false} QueriesAboutAreAmong(qs: seq<Query>, x: Id)
    ensures forall q :: q in QueriesAbout(qs, x) ==> q in qs
  {
    if qs != [] { QueriesAboutAreAmong(qs[1..], x); }
  }

  /** Row ids are pairwise distinct in every reachable state, racy or not. */
  lemma {:induction false} RowIdsDistinct(s: Sys, es: seq<Event>, s': Sys)
    requires Shape(s) && Run(s, es, s')
    ensures Shape(s') && DistinctIds(s'.shell.rows)
    decreases |es|
  {
    if es != [] {
      NextKeepsShape(s, es[0]);
      RowIdsDistinct(Next(s, es[0]), es[1..], s');
    }
  }

  // ---- Why the quiet window is needed

  /** The view is waiting for exactly these answers. */
  ghost predicate Awaits(v: View, owed: seq<Query>, x: Id) {
    if owed == [] then v.pend == None
    else
      && v.pend.Some? && v.pend.value.remaining == |owed| <= 4
      && owed == FourQueries(x)[4 - |owed|..]
  }

  /** The answers counted by the shell are exactly those still owed. */
  ghost predicate Owed(s: Sys, x: Id) {
    Awaits(Fold(ViewOf(s.shell, x), x, s.toShell), Unanswered(s, x), x)
  }

  lemma AnswerPays(v: View, x: Id, m: Message, owed: seq<Query>)
    requires owed != [] && Awaits(v, owed, x) && IsAnswer(m) && m.id == x
    ensures Awaits(Apply(v, x, m), owed[1..], x)
  {
    hide Gather, FourQueries;
    var rest := owed[1..];
    if rest != [] { assert rest == FourQueries(x)[4 - |rest|..]; }
  }

  lemma ListStartsAwaiting(v: View, x: Id, ids: seq<Id>)
    requires v.pend == None && x in ids
    ensures Awaits(Apply(v, x, IdList(ids)), FourQueries(x), x)
  {
    assert FourQueries(x)[0..] == FourQueries(x);
  }

  lemma InitOwed(s: Sys, x: Id)
    requires Init(s)
    ensures Owed(s, x) && !Outstanding(s, x)
  {
    assert QueriesAbout(s.toComp, x) == QueriesAbout(s.toComp[1..], x) == [];
  }

  lemma NextKeepsOwed(s: Sys, e: Event, x: Id)
    requires Shape(s) && Enabled(s, e) && Owed(s, x)
    ensures Owed(Next(s, e), x)
  {
    if e.Deliver? {
      ReceiveView(s.shell, x, s.toShell[0]);
      DeliverKeepsUnanswered(s, x);
    } else if e.Reply? {
      ReplyKeepsOwed(s, e, x);
    } else {
      var v := ViewOf(s.shell, x);
      ChangeShape(s, e, x);
      FoldAppends(v, x, s.toShell, Signals(s, e));
      SignalsLeavePending(Fold(v, x, s.toShell), x, Signals(s, e));
    }
  }

  lemma ReplyIsAnswer(reg: Registry, q: Query, ids: seq<Id>, fails: bool)
    requires !q.ListIds?
    ensures var m := ReplyTo(reg, q, ids, fails); IsAnswer(m) && m.id == q.id
  {}

  lemma ReplyKeepsOwed(s: Sys, e: Event, x: Id)
    requires Shape(s) && e.Reply? && Enabled(s, e) && Owed(s, x)
    ensures Owed(Next(s, e), x)
  {
    hide Fold, RowOf, Awaits, Apply;
    var q := s.toComp[0];
    FoldOne(ViewOf(s.shell, x), x, s.toShell, ReplyTo(s.reg, q, e.ids, e.fails));
    if q.ListIds? {
      ListReplyKeepsOwed(s, e, x);
    } else {
      AnswerUnanswered(s, e, x);
      hide Shape, Unanswered, ReplyTo;
      ReplyIsAnswer(s.reg, q, e.ids, e.fails);
      var v := Fold(ViewOf(s.shell, x), x, s.toShell);
      if q.id == x {
        AnswerPays(v, x, ReplyTo(s.reg, q, e.ids, e.fails), Unanswered(s, x));
      } else {
        OthersDoNotMatter(v, x, ReplyTo(s.reg, q, e.ids, e.fails));
      }
    }
  }

  lemma OthersDoNotMatter(v: View, x: Id, m: Message)
    requires !About(m, x)
    ensures Apply(v, x, m) == v
  {}

  lemma ListReplyKeepsOwed(s: Sys, e: Event, x: Id)
    requires Shape(s) && e.Reply? && Enabled(s, e) && s.toComp[0].ListIds?
    ensures Owed(Next(s, e), x)
  {
    var v := Fold(ViewOf(s.shell, x), x, s.toShell);
    FoldOne(ViewOf(s.shell, x), x, s.toShell, ReplyTo(s.reg, s.toComp[0], e.ids, e.fails));
    assert forall n :: n in s.toShell ==> IsSignal(n);
    SignalsLeavePending(ViewOf(s.shell, x), x, s.toShell);
    if e.fails {
      assert Unanswered(Next(s, e), x) == [];
    } else {
      ListReplyUnanswered(s, e, x);
      hide Shape, Fold, Unanswered, RowOf;
      if x in e.ids { ListStartsAwaiting(v, x, e.ids); }
    }
  }

  lemma {:induction false} RunKeepsOwed(s: Sys, es: seq<Event>, s': Sys, x: Id)
    requires Shape(s) && Owed(s, x) && Run(s, es, s')
    ensures Shape(s') && Owed(s', x)
    decreases |es|
  {
    if es != [] {
      NextKeepsShape(s, es[0]);
      NextKeepsOwed(s, es[0], x);
      RunKeepsOwed(Next(s, es[0]), es[1..], s', x);
    }
  }

  /** What the shell has gathered and counted for x once everything in flight has arrived. */
  ghost function PendingThen(s: Sys, x: Id): Option<Pending> {
    Fold(ViewOf(s.shell, x), x, s.toShell).pend
  }

  /** While answers are owed, they decide the fields they are about, and the answers already given the others. */
  lemma FateWhileOwed(s: Sys, x: Id)
    requires Shape(s) && Owed(s, x) && Outstanding(s, x)
    ensures var k, p := |Unanswered(s, x)|, PendingThen(s, x);
            && 1 <= k <= 4 && Unanswered(s, x) == FourQueries(x)[4 - k..] && p.Some?
            && Fate(s, x) == Settled(Some(Merge(p.value.rec, Value(s.reg, x), k)))
  {
    OutstandingIsListed(s, x);
    hide Fold, FourQueries, Unanswered, Shape, RowOf, Merge;
    AnswersMerge(Fold(ViewOf(s.shell, x), x, s.toShell), x, s.reg, |Unanswered(s, x)|);
  }

  lemma ChangeLeavesPending(s: Sys, e: Event, x: Id)
    requires Shape(s) && IsChange(e)
    ensures PendingThen(Next(s, e), x) == PendingThen(s, x)
  {
    ChangeShape(s, e, x);
    hide Fold, RowOf, Shape, Signals;
    FoldAppends(ViewOf(s.shell, x), x, s.toShell, Signals(s, e));
    SignalsAreSignals(s, e);
    SignalsLeavePending(Fold(ViewOf(s.shell, x), x, s.toShell), x, Signals(s, e));
  }

  lemma SignalsAreSignals(s: Sys, e: Event)
    requires IsChange(e)
    ensures forall m :: m in Signals(s, e) ==> IsSignal(m)
  {}

  /** A change that leaves the window listed is safe exactly when it does not touch what was already answered. */
  lemma ChangeWhileOutstanding(s: Sys, e: Event, x: Id)
    requires Shape(s) && Converging(s, x) && Owed(s, x) && Outstanding(s, x) && x in s.reg
    requires (e.SetState? || e.SetMetadata?) && e.id == x
    ensures Converging(Next(s, e), x) <==> OnlyOwedDiffers(s.reg[x], Next(s, e).reg[x], Unanswered(s, x), x)
  {
    hide Fate, Fold, FourQueries, RowOf, Unanswered, Owed, PendingThen, Merge, Shape;
    var s', k := Next(s, e), |Unanswered(s, x)|;
    FateWhileOwed(s, x);
    ChangeShape(s, e, x);
    NextKeepsShape(s, e);
    NextKeepsOwed(s, e, x);
    FateWhileOwed(s', x);
    ChangeLeavesPending(s, e, x);
    OwedFields(x, k);
    MergesAgree(PendingThen(s, x).value.rec, s.reg[x], s'.reg[x], k);
  }

  lemma MergesAgree(known: Record, r: Record, r': Record, k: nat)
    requires Merge(known, r, k) == r
    ensures Merge(known, r', k) == r' <==>
              && (r'.title == r.title || k >= 4) && (r'.appId == r.appId || k >= 3)
              && (r'.minimized == r.minimized || k >= 2) && (r'.focused == r.focused || k >= 1)
  {}

  lemma OutstandingIsListed(s: Sys, x: Id)
    requires Shape(s) && Outstanding(s, x)
    ensures !Unlisted(s)
  {
    if Unlisted(s) { UnlistedOwesNothing(s, x); }
  }

  lemma UnlistedOwesNothing(s: Sys, x: Id)
    requires Shape(s) && Unlisted(s)
    ensures Unanswered(s, x) == []
  {
    assert s.toComp[1..] == [];
    assert QueriesAbout(s.toComp, x) == QueriesAbout(s.toComp[1..], x) == [];
    assert forall n :: n in s.toShell ==> IsSignal(n);
  }

  lemma OwedFields(x: Id, k: nat)
    requires 1 <= k <= 4
    ensures var owed := FourQueries(x)[4 - k..];
            && (Title(x) in owed <==> k >= 4) && (AppId(x) in owed <==> k >= 3)
            && (Minimized(x) in owed <==> k >= 2) && Focused(x) in owed
  {
    var four, owed := FourQueries(x), FourQueries(x)[4 - k..];
    assert owed[k - 1] == four[3];
    assert k >= 2 ==> owed[k - 2] == four[2];
    assert k >= 3 ==> owed[k - 3] == four[1];
    assert k >= 4 ==> owed[k - 4] == four[0];
  }

  // ---- Convergence

  ghost predicate InStep(s: Sys, x: Id) {
    Converging(s, x) && Owed(s, x) && (Outstanding(s, x) ==> x in s.reg)
  }

  ghost predicate Invariant(s: Sys) {
    Shape(s) && forall x :: InStep(s, x)
  }

  lemma InitConverges(s: Sys)
    requires Init(s)
    ensures Invariant(s)
  {
    forall x ensures InStep(s, x) {
      InitOwed(s, x);
      if x in s.reg { SeedingSettles(ViewOf(s.shell, x), x, s.reg); }
    }
  }

  lemma ReplyKeepsOutstandingListed(s: Sys, e: Event, x: Id)
    requires Shape(s) && Enabled(s, e) && e.Reply? && !e.fails && (Outstanding(s, x) ==> x in s.reg)
    ensures Outstanding(Next(s, e), x) ==> x in Next(s, e).reg
  {
    if s.toComp[0].ListIds? { ListReplyUnanswered(s, e, x); } else { AnswerUnanswered(s, e, x); }
  }

  lemma ChangeKeepsInStep(s: Sys, e: Event, x: Id)
    requires Shape(s) && InStep(s, x) && IsChange(e) && Harmless(s, e)
    ensures InStep(Next(s, e), x)
  {
    hide Fate, Fold, FourQueries, Owed, RowOf, Receive, OnlyOwedDiffers;
    NextKeepsOwed(s, e, x);
    ChangeShape(s, e, x);
    if e.Register? && Outstanding(s, s.counter + 1) { OutstandingIsKnown(s, s.counter + 1); }
    hide Shape;
    if x == Changed(s, e) && Outstanding(s, x) {
      assert Subject(e, x);
      ChangeWhileOutstanding(s, e, x);
    } else {
      ChangeKeepsConverging(s, e, x);
    }
  }

  lemma HarmlessStepKeepsInvariant(s: Sys, e: Event)
    requires Invariant(s) && Enabled(s, e) && Harmless(s, e)
    ensures Invariant(Next(s, e))
  {
    hide Fate, Fold, FourQueries, RowOf, Receive, OnlyOwedDiffers, Owed, Unanswered, Shape;
    NextKeepsShape(s, e);
    forall x ensures InStep(Next(s, e), x) {
      assert InStep(s, x);
      NextKeepsOwed(s, e, x);
      if e.Deliver? {
        DeliverKeepsFate(s, x);
        DeliverKeepsUnanswered(s, x);
      } else if e.Reply? {
        ReplyKeepsFate(s, e, x);
        ReplyKeepsOutstandingListed(s, e, x);
      } else {
        ChangeKeepsInStep(s, e, x);
      }
    }
  }

  lemma {:induction false} HarmlessRunKeepsInvariant(s: Sys, es: seq<Event>, s': Sys)
    requires Invariant(s) && HarmlessRun(s, es, s')
    ensures Invariant(s')
    decreases |es|
  {
    hide Invariant, Harmless, Next, Enabled;
    if es != [] {
      HarmlessStepKeepsInvariant(s, es[0]);
      HarmlessRunKeepsInvariant(Next(s, es[0]), es[1..], s');
    }
  }

  lemma DrainedShowsFate(s: Sys, x: Id)
    requires Drained(s)
    ensures Fate(s, x) == ViewOf(s.shell, x)
  {}

  /**
   * After a run in which no listed window leaves before its last answer or changes in a field already answered,
   * once both channels are empty, the taskbar is the registry.
   */
  lemma HarmlessRacesConverge(s: Sys, es: seq<Event>, s': Sys)
    requires Init(s) && HarmlessRun(s, es, s') && Drained(s')
    ensures DistinctIds(s'.shell.rows) && s'.shell.pending == map[]
    ensures forall x :: RowOf(s'.shell.rows, x) == Lookup(s'.reg, x)
  {
    InitConverges(s);
    HarmlessRunKeepsInvariant(s, es, s');
    hide Fate, Fold, Owed;
    forall x ensures RowOf(s'.shell.rows, x) == Lookup(s'.reg, x) && x !in s'.shell.pending {
      assert InStep(s', x);
      DrainedShowsFate(s', x);
    }
  }

  lemma QuietIsHarmless(s: Sys, e: Event)
    requires Enabled(s, e) && Quiet(s, e)
    ensures Harmless(s, e)
  {
    hide Unanswered;
    assert e.Unregister? ==> |Next(s, e).toShell| > |s.toShell|;
    forall x | Subject(e, x) && Outstanding(s, x) ensures Next(s, e) == s {}
  }

  lemma {:induction false} QuietRunIsHarmless(s: Sys, es: seq<Event>, s': Sys)
    requires QuietRun(s, es, s')
    ensures HarmlessRun(s, es, s')
    decreases |es|
  {
    hide Quiet, Harmless, Next, Enabled;
    if es != [] {
      QuietIsHarmless(s, es[0]);
      QuietRunIsHarmless(Next(s, es[0]), es[1..], s');
    }
  }

  /** In particular when no listed window changes or leaves at all before its last answer. */
  lemma Convergence(s: Sys, es: seq<Event>, s': Sys)
    requires Init(s) && QuietRun(s, es, s') && Drained(s')
    ensures DistinctIds(s'.shell.rows) && s'.shell.pending == map[]
    ensures forall x :: RowOf(s'.shell.rows, x) == Lookup(s'.reg, x)
  {
    QuietRunIsHarmless(s, es, s');
    HarmlessRacesConverge(s, es, s');
  }
}

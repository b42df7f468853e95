/** The compositor's window registry, the shell's taskbar, and the messages between them. */
module Windows {
  import opened Wrappers

  type Id = nat

  datatype Record = Record(title: string, appId: string, minimized: bool, focused: bool)

  const DEFAULT: Record := Record("", "", false, false)

  type Registry = map<Id, Record>

  datatype Row = Row(id: Id, rec: Record)

  /** The answers gathered so far for one listed window. */
  datatype Pending = Pending(remaining: int, rec: Record)

  datatype Shell = Shell(rows: seq<Row>, pending: map<Id, Pending>, lastFocused: Option<Id>)

  datatype Query = ListIds | Title(id: Id) | AppId(id: Id) | Minimized(id: Id) | Focused(id: Id)

  /** Signals and replies, as they travel from the compositor to the shell. */
  datatype Message =
    | Registered(id: Id, title: string, appId: string)
    | Unregistered(id: Id)
    | StateChanged(id: Id, minimized: bool, focused: bool)
    | MetadataChanged(id: Id, title: string, appId: string)
    | IdList(ids: seq<Id>)
    | ListFailed
    | TitleIs(id: Id, title: string)
    | AppIdIs(id: Id, appId: string)
    | MinimizedIs(id: Id, minimized: bool)
    | FocusedIs(id: Id, focused: bool)
    | QueryFailed(id: Id)

  // ---- The compositor's side

  function Lookup(reg: Registry, id: Id): Option<Record> {
    if id in reg then Some(reg[id]) else None
  }

  function Value(reg: Registry, id: Id): Record {
    if id in reg then reg[id] else DEFAULT
  }

  /** The reply to a query about one window; a window that is gone answers with default values. */
  function AnswerTo(reg: Registry, q: Query): Message
    requires !q.ListIds?
  {
    match q
    case Title(id) => TitleIs(id, Value(reg, id).title)
    case AppId(id) => AppIdIs(id, Value(reg, id).appId)
    case Minimized(id) => MinimizedIs(id, Value(reg, id).minimized)
    case Focused(id) => FocusedIs(id, Value(reg, id).focused)
  }

  function FourQueries(id: Id): (qs: seq<Query>)
    ensures |qs| == 4 && ListIds !in qs
  {
    [Title(id), AppId(id), Minimized(id), Focused(id)]
  }

  // ---- The shell's side

  /** The first row of a window, or -1. */
  function Find(rows: seq<Row>, id: Id): (i: int)
    ensures -1 <= i < |rows|
    ensures i >= 0 ==> rows[i].id == id && forall j :: 0 <= j < i ==> rows[j].id != id
    ensures i < 0 ==> forall j :: 0 <= j < |rows| ==> rows[j].id != id
  {
    if rows == [] then -1
    else if rows[0].id == id then 0
    else
      var i := Find(rows[1..], id);
      if i < 0 then -1 else i + 1
  }

  ghost predicate DistinctIds(rows: seq<Row>) {
    forall i, j :: 0 <= i < j < |rows| ==> rows[i].id != rows[j].id
  }

  function RowOf(rows: seq<Row>, id: Id): Option<Record> {
    var i := Find(rows, id);
    if i < 0 then None else Some(rows[i].rec)
  }

  function WithMetadata(s: Shell, id: Id, title: string, appId: string): (r: Shell)
    ensures r.pending == s.pending
  {
    var i := Find(s.rows, id);
    if i < 0 then s else s.(rows := s.rows[i := Row(id, s.rows[i].rec.(title := title, appId := appId))])
  }

  function WithWindow(s: Shell, id: Id, title: string, appId: string): (r: Shell)
    ensures r.pending == s.pending
  {
    if Find(s.rows, id) >= 0 then WithMetadata(s, id, title, appId)
    else s.(rows := s.rows + [Row(id, Record(title, appId, false, false))])
  }

  function WithoutWindow(s: Shell, id: Id): (r: Shell)
    ensures r.pending == s.pending
  {
    var i := Find(s.rows, id);
    if i < 0 then s else s.(rows := s.rows[..i] + s.rows[i + 1..])
  }

  function WithState(s: Shell, id: Id, minimized: bool, focused: bool): (r: Shell)
    ensures r.pending == s.pending
  {
    var i := Find(s.rows, id);
    if i < 0 || (s.rows[i].rec.minimized == minimized && s.rows[i].rec.focused == focused) then s
    else s.(rows := s.rows[i := Row(id, s.rows[i].rec.(minimized := minimized, focused := focused))],
            lastFocused := if focused then Some(id) else s.lastFocused)
  }

  /** One of the four answers has arrived; the last one seeds the row. */
  function WithAnswer(s: Shell, id: Id, rec: Record): Shell
    requires id in s.pending
  {
    var p := Pending(s.pending[id].remaining - 1, rec);
    if p.remaining == 0 then
      WithState(WithWindow(s.(pending := s.pending - {id}), id, rec.title, rec.appId), id, rec.minimized, rec.focused)
    else s.(pending := s.pending[id := p])
  }

  /** What the answer adds to what is already known. */
  function Gather(rec: Record, m: Message): Record {
    match m
    case TitleIs(_, title) => rec.(title := title)
    case AppIdIs(_, appId) => rec.(appId := appId)
    case MinimizedIs(_, minimized) => rec.(minimized := minimized)
    case FocusedIs(_, focused) => rec.(focused := focused)
    case _ => rec
  }

  predicate IsAnswer(m: Message) {
    m.TitleIs? || m.AppIdIs? || m.MinimizedIs? || m.FocusedIs? || m.QueryFailed?
  }

  function Fresh(ids: seq<Id>): map<Id, Pending> {
    map id | id in ids :: Pending(4, DEFAULT)
  }

  function WithList(s: Shell, ids: seq<Id>): Shell {
    s.(pending := s.pending + Fresh(ids))
  }

  function Receive(s: Shell, m: Message): Shell {
    match m
    case Registered(id, title, appId) => WithWindow(s, id, title, appId)
    case Unregistered(id) => WithoutWindow(s, id)
    case StateChanged(id, minimized, focused) => WithState(s, id, minimized, focused)
    case MetadataChanged(id, title, appId) => WithMetadata(s, id, title, appId)
    case IdList(ids) => WithList(s, ids)
    case ListFailed => s
    case _ => if m.id in s.pending then WithAnswer(s, m.id, Gather(s.pending[m.id].rec, m)) else s
  }

  /** The queries a message makes the shell send. */
  function Asks(m: Message): seq<Query> {
    if m.IdList? then AskAll(m.ids) else []
  }

  function AskAll(ids: seq<Id>): seq<Query> {
    if ids == [] then [] else FourQueries(ids[0]) + AskAll(ids[1..])
  }

  lemma FindIsUnique(rows: seq<Row>, id: Id, i: nat)
    requires DistinctIds(rows) && i < |rows| && rows[i].id == id
    ensures Find(rows, id) == i
  {}

  lemma AddingKeepsIdsDistinct(s: Shell, id: Id, title: string, appId: string)
    requires DistinctIds(s.rows)
    ensures DistinctIds(WithWindow(s, id, title, appId).rows)
  {}

  lemma UpdatingKeepsIdsDistinct(s: Shell, id: Id, minimized: bool, focused: bool)
    requires DistinctIds(s.rows)
    ensures DistinctIds(WithState(s, id, minimized, focused).rows)
  {}

  /** Row ids stay pairwise distinct whatever arrives, in whatever order. */
  lemma ReceiveKeepsIdsDistinct(s: Shell, m: Message)
    requires DistinctIds(s.rows)
    ensures DistinctIds(Receive(s, m).rows)
  {
    if m.Registered? {
      AddingKeepsIdsDistinct(s, m.id, m.title, m.appId);
    } else if IsAnswer(m) && m.id in s.pending && s.pending[m.id].remaining == 1 {
      var rec, base := Gather(s.pending[m.id].rec, m), s.(pending := s.pending - {m.id});
      AddingKeepsIdsDistinct(base, m.id, rec.title, rec.appId);
      UpdatingKeepsIdsDistinct(WithWindow(base, m.id, rec.title, rec.appId), m.id, rec.minimized, rec.focused);
    }
  }

  lemma {:induction false} AskAllAppends(ids: seq<Id>, id: Id)
    ensures AskAll(ids + [id]) == AskAll(ids) + FourQueries(id)
  {
    if ids == [] {
      assert ids + [id] == [id];
    } else {
      AskAllAppends(ids[1..], id);
      assert (ids + [id])[1..] == ids[1..] + [id];
    }
  }

  lemma FreshAppends(ids: seq<Id>, id: Id)
    ensures Fresh(ids + [id]) == Fresh(ids)[id := Pending(4, DEFAULT)]
  {}

  // ---- The two objects

  /** WindowManagerDBus: the authoritative registry. Emitted signals are appended to the outgoing channel. */
  class WindowManagerDBus {
    var windows: Registry
    var emitted: seq<Message>

    constructor (windows: Registry)
      ensures this.windows == windows && emitted == []
    {
      this.windows, emitted := windows, [];
    }

    method RegisterWindow(id: Id, title: string, appId: string)
      modifies this
      ensures windows == old(windows)[id := Record(title, appId, false, false)]
      ensures emitted == old(emitted) + [Registered(id, title, appId)]
    {
      windows := windows[id := Record(title, appId, false, false)];
      emitted := emitted + [Registered(id, title, appId)];
    }

    method UnregisterWindow(id: Id)
      modifies this
      ensures windows == old(windows) - {id}
      ensures emitted == old(emitted) + [Unregistered(id)]
    {
      windows := windows - {id};
      emitted := emitted + [Unregistered(id)];
    }

    method UpdateWindowState(id: Id, minimized: bool, focused: bool)
      modifies this
      ensures windows == StateIn(old(windows), id, minimized, focused)
      ensures emitted == old(emitted) + StateSignal(old(windows), id, minimized, focused)
      ensures windows.Keys == old(windows).Keys && forall x :: x in windows && x != id ==> windows[x] == old(windows)[x]
      ensures id in windows ==>
                windows[id] == Record(old(windows)[id].title, old(windows)[id].appId, minimized, focused)
      ensures emitted == old(emitted) <==> id in windows && windows == old(windows)
      ensures emitted != old(emitted) ==> emitted == old(emitted) + [StateChanged(id, minimized, focused)]
    {
      if id in windows {
        var w := windows[id];
        if w.minimized == minimized && w.focused == focused { return; }
        windows := windows[id := w.(minimized := minimized, focused := focused)];
      }
      emitted := emitted + [StateChanged(id, minimized, focused)];
    }

    method UpdateWindowMetadata(id: Id, title: string, appId: string)
      modifies this
      ensures windows == MetadataIn(old(windows), id, title, appId)
      ensures emitted == old(emitted) + [MetadataChanged(id, title, appId)]
      ensures windows.Keys == old(windows).Keys && forall x :: x in windows && x != id ==> windows[x] == old(windows)[x]
      ensures id in windows ==>
                windows[id] == Record(title, appId, old(windows)[id].minimized, old(windows)[id].focused)
    {
      if id in windows {
        windows := windows[id := windows[id].(title := title, appId := appId)];
      }
      emitted := emitted + [MetadataChanged(id, title, appId)];
    }

    method ListWindowIds() returns (ids: seq<Id>)
      ensures IsKeyList(windows, ids)
    {
      var todo := windows.Keys;
      ids := [];
      while todo != {}
        invariant forall id :: id in windows <==> id in todo || id in ids
        invariant forall id :: id in ids ==> id !in todo
        invariant forall i, j :: 0 <= i < j < |ids| ==> ids[i] != ids[j]
        decreases todo
      {
        var id :| id in todo;
        todo := todo - {id};
        ids := ids + [id];
      }
    }
  }

  function StateIn(reg: Registry, id: Id, minimized: bool, focused: bool): Registry {
    if id in reg then reg[id := reg[id].(minimized := minimized, focused := focused)] else reg
  }

  function MetadataIn(reg: Registry, id: Id, title: string, appId: string): Registry {
    if id in reg then reg[id := reg[id].(title := title, appId := appId)] else reg
  }

  function StateSignal(reg: Registry, id: Id, minimized: bool, focused: bool): seq<Message> {
    if id in reg && reg[id].minimized == minimized && reg[id].focused == focused then []
    else [StateChanged(id, minimized, focused)]
  }

  ghost predicate IsKeyList(reg: Registry, ids: seq<Id>) {
    && (forall id :: id in ids <==> id in reg)
    && forall i, j :: 0 <= i < j < |ids| ==> ids[i] != ids[j]
  }

  /** TaskbarModel: the shell's replica. */
  class TaskbarModel {
    var windows: seq<Row>
    var pending: map<Id, Pending>
    var lastFocusedWindowId: Option<Id>

    constructor ()
      ensures State() == Shell([], map[], None)
    {
      windows, pending, lastFocusedWindowId := [], map[], None;
    }

    function State(): Shell
      reads this
    {
      Shell(windows, pending, lastFocusedWindowId)
    }

    method IndexOf(id: Id) returns (i: int)
      ensures i == Find(windows, id)
    {
      i := 0;
      while i < |windows|
        invariant 0 <= i <= |windows|
        invariant forall j :: 0 <= j < i ==> windows[j].id != id
      {
        if windows[i].id == id { return; }
        i := i + 1;
      }
      i := -1;
    }

    method OnWindowMetadataChanged(id: Id, title: string, appId: string)
      modifies this
      ensures State() == WithMetadata(old(State()), id, title, appId)
    {
      var i := IndexOf(id);
      if i < 0 { return; }
      var window := windows[i];
      if window.rec.title == title && window.rec.appId == appId {
        assert windows[i := Row(id, window.rec.(title := title, appId := appId))] == windows;
        return;
      }
      windows := windows[i := window.(rec := window.rec.(title := title, appId := appId))];
    }

    method OnWindowRegistered(id: Id, title: string, appId: string)
      modifies this
      ensures State() == WithWindow(old(State()), id, title, appId)
    {
      var existing := IndexOf(id);
      if existing >= 0 {
        OnWindowMetadataChanged(id, title, appId);
        return;
      }
      windows := windows + [Row(id, Record(title, appId, false, false))];
    }

    method OnWindowUnregistered(id: Id)
      modifies this
      ensures State() == WithoutWindow(old(State()), id)
    {
      var i := IndexOf(id);
      if i < 0 { return; }
      windows := windows[..i] + windows[i + 1..];
    }

    method OnWindowStateChanged(id: Id, minimized: bool, focused: bool)
      modifies this
      ensures State() == WithState(old(State()), id, minimized, focused)
      ensures pending == old(pending) && |windows| == |old(windows)|
      ensures forall j :: 0 <= j < |windows| && j != Find(old(windows), id) ==> windows[j] == old(windows)[j]
      ensures var j := Find(old(windows), id);
              j >= 0 ==>
                var r := old(windows)[j].rec;
                && windows[j] == Row(id, Record(r.title, r.appId, minimized, focused))
                && (windows != old(windows) && focused ==> lastFocusedWindowId == Some(id))
      ensures windows == old(windows) || !focused ==> lastFocusedWindowId == old(lastFocusedWindowId)
    {
      var i := IndexOf(id);
      if i < 0 { return; }
      var w := windows[i];
      if w.rec.minimized == minimized && w.rec.focused == focused { return; }
      windows := windows[i := w.(rec := w.rec.(minimized := minimized, focused := focused))];
      if focused { lastFocusedWindowId := Some(id); }
    }

    /** The reply to ListWindowIds: four queries for every listed window. */
    method OnListReply(ids: seq<Id>) returns (queries: seq<Query>)
      modifies this
      ensures State() == WithList(old(State()), ids)
      ensures queries == AskAll(ids)
    {
      queries := [];
      var i := 0;
      assert AskAll(ids[..0]) == [] && old(pending) + Fresh(ids[..0]) == old(pending);
      hide AskAll, Fresh, FourQueries;
      while i < |ids|
        invariant i <= |ids|
        invariant queries == AskAll(ids[..i])
        invariant windows == old(windows) && lastFocusedWindowId == old(lastFocusedWindowId)
        invariant pending == old(pending) + Fresh(ids[..i])
      {
        assert ids[..i + 1] == ids[..i] + [ids[i]];
        AskAllAppends(ids[..i], ids[i]);
        FreshAppends(ids[..i], ids[i]);
        pending := pending[ids[i] := Pending(4, DEFAULT)];
        queries := queries + FourQueries(ids[i]);
        i := i + 1;
      }
      assert ids[..i] == ids;
    }

    /** One of the four answers: the watcher that brings the count to zero seeds the row. */
    method OnAnswer(m: Message)
      requires IsAnswer(m) && m.id in pending
      modifies this
      ensures State() == Receive(old(State()), m)
    {
      var data := pending[m.id];
      if !m.QueryFailed? { data := data.(rec := Gather(data.rec, m)); }
      data := data.(remaining := data.remaining - 1);
      if data.remaining == 0 {
        pending := pending - {m.id};
        OnWindowRegistered(m.id, data.rec.title, data.rec.appId);
        OnWindowStateChanged(m.id, data.rec.minimized, data.rec.focused);
      } else {
        pending := pending[m.id := data];
      }
    }
  }
}

/** Which races between the seed and a window's changes leave a wrong row on the taskbar, and that they do happen. */
module WindowRaces {
  import opened Wrappers
  import opened Windows
  import opened WindowSync

  // ---- A window that is left alone

  lemma AloneStepKeepsFate(s: Sys, e: Event, x: Id)
    requires Shape(s) && Enabled(s, e) && LeavesAlone(e, x) && x <= s.counter
    ensures Fate(Next(s, e), x) == Fate(s, x) && Lookup(Next(s, e).reg, x) == Lookup(s.reg, x)
    ensures x <= Next(s, e).counter
  {
    hide Fate, Shape, Receive;
    if e.Deliver? {
      DeliverKeepsFate(s, x);
    } else if e.Reply? {
      ReplyKeepsFate(s, e, x);
    } else {
      OtherChangeKeepsFate(s, e, x);
    }
  }

  lemma {:induction false} AloneRunKeepsFate(s: Sys, es: seq<Event>, s': Sys, x: Id)
    requires Shape(s) && Run(s, es, s') && x <= s.counter && forall e :: e in es ==> LeavesAlone(e, x)
    ensures Fate(s', x) == Fate(s, x) && Lookup(s'.reg, x) == Lookup(s.reg, x)
    decreases |es|
  {
    hide Fate, Shape, Next, Enabled;
    if es != [] {
      assert LeavesAlone(es[0], x);
      AloneStepKeepsFate(s, es[0], x);
      NextKeepsShape(s, es[0]);
      AloneRunKeepsFate(Next(s, es[0]), es[1..], s', x);
    }
  }

  lemma DrainedAwaitsNothing(s: Sys, x: Id)
    requires Drained(s) && Owed(s, x)
    ensures ViewOf(s.shell, x).pend == None
  {}

  // ---- Metadata and flags change independently

  /** The two groups of fields that are set together. */
  datatype Group = Metadata | Flags

  /** The record with the other group blanked out. */
  function Only(r: Record, g: Group): Record {
    match g
    case Metadata => Record(r.title, r.appId, false, false)
    case Flags => Record("", "", r.minimized, r.focused)
  }

  predicate Sets(e: Event, x: Id, g: Group) {
    match g
    case Metadata => e.SetMetadata? && e.id == x
    case Flags => e.SetState? && e.id == x
  }

  /** The window stays, its group is not set, and no query fails. */
  predicate LeavesGroup(e: Event, x: Id, g: Group) {
    !Sets(e, x, g) && e != Unregister(x) && (e.Reply? ==> !e.fails)
  }

  function Shown(v: View, g: Group): Option<Record> {
    if v.row.None? then None else Some(Only(v.row.value, g))
  }

  lemma OtherGroupKeepsRecord(s: Sys, e: Event, x: Id, g: Group)
    requires x in s.reg && IsChange(e) && Subject(e, x) && LeavesGroup(e, x, g)
    ensures x in Next(s, e).reg && Only(Next(s, e).reg[x], g) == Only(s.reg[x], g)
  {}

  lemma OtherSignalsKeepShown(s: Sys, e: Event, x: Id, g: Group, v: View)
    requires IsChange(e) && Subject(e, x) && LeavesGroup(e, x, g)
    ensures Shown(Fold(v, x, Signals(s, e)), g) == Shown(v, g)
  {
    if Signals(s, e) != [] { FoldStep(v, x, Signals(s, e)[0], []); }
  }

  lemma MergeKeepsGroup(known: Record, r: Record, r': Record, k: nat, g: Group)
    requires Only(r, g) == Only(r', g)
    ensures Only(Merge(known, r, k), g) == Only(Merge(known, r', k), g)
  {}

  /** Before the list is answered and after the last answer. */
  lemma FateUnlisted(s: Sys, x: Id)
    requires Unlisted(s) && x in s.reg
    ensures Fate(s, x) == Settled(Some(s.reg[x]))
  {
    SeedingSettles(Fold(ViewOf(s.shell, x), x, s.toShell), x, s.reg);
  }

  lemma FateSettled(s: Sys, x: Id)
    requires !Unlisted(s) && !Outstanding(s, x)
    ensures Fate(s, x) == Fold(ViewOf(s.shell, x), x, s.toShell)
  {}

  /** Setting one group does not change what the taskbar will show of the other. */
  lemma OtherGroupKeepsShown(s: Sys, e: Event, x: Id, g: Group)
    requires Shape(s) && Owed(s, x) && x in s.reg && IsChange(e) && Subject(e, x) && LeavesGroup(e, x, g)
    ensures Shown(Fate(Next(s, e), x), g) == Shown(Fate(s, x), g)
  {
    hide Fate, Fold, Owed, Shape, Unanswered, Signals, RowOf, FourQueries, Receive;
    var s' := Next(s, e);
    ChangeShape(s, e, x);
    OtherGroupKeepsRecord(s, e, x, g);
    if Outstanding(s, x) {
      NextKeepsShape(s, e);
      NextKeepsOwed(s, e, x);
      FateWhileOwed(s, x);
      FateWhileOwed(s', x);
      ChangeLeavesPending(s, e, x);
      MergeKeepsGroup(PendingThen(s, x).value.rec, s.reg[x], s'.reg[x], |Unanswered(s, x)|, g);
    } else if Unlisted(s) {
      FateUnlisted(s, x);
      FateUnlisted(s', x);
    } else {
      FateSettled(s, x);
      FateSettled(s', x);
      FoldAppends(ViewOf(s.shell, x), x, s.toShell, Signals(s, e));
      OtherSignalsKeepShown(s, e, x, g, Fold(ViewOf(s.shell, x), x, s.toShell));
    }
  }

  lemma {:induction false} GroupRunKeepsShown(s: Sys, es: seq<Event>, s': Sys, x: Id, g: Group)
    requires Shape(s) && Owed(s, x) && x in s.reg && Run(s, es, s')
    requires forall e :: e in es ==> LeavesGroup(e, x, g)
    ensures Owed(s', x) && Shown(Fate(s', x), g) == Shown(Fate(s, x), g)
    ensures x in s'.reg && Only(s'.reg[x], g) == Only(s.reg[x], g)
    decreases |es|
  {
    if es != [] {
      var e, next := es[0], Next(s, es[0]);
      assert LeavesGroup(e, x, g) && x <= s.counter;
      hide Fate, Owed, Shape, Next, Enabled, LeavesGroup;
      NextKeepsShape(s, e);
      NextKeepsOwed(s, e, x);
      GroupStep(s, e, x, g);
      GroupRunKeepsShown(next, es[1..], s', x, g);
    }
  }

  lemma GroupStep(s: Sys, e: Event, x: Id, g: Group)
    requires Shape(s) && Owed(s, x) && x in s.reg && Enabled(s, e) && LeavesGroup(e, x, g)
    ensures Shown(Fate(Next(s, e), x), g) == Shown(Fate(s, x), g)
    ensures x in Next(s, e).reg && Only(Next(s, e).reg[x], g) == Only(s.reg[x], g)
  {
    assert x <= s.counter;
    hide Fate, Owed, Shape;
    if Subject(e, x) {
      OtherGroupKeepsShown(s, e, x, g);
      OtherGroupKeepsRecord(s, e, x, g);
    } else {
      AloneStepKeepsFate(s, e, x);
      StillRegistered(s, e, x);
    }
  }

  lemma StillRegistered(s: Sys, e: Event, x: Id)
    requires Enabled(s, e) && Lookup(Next(s, e).reg, x) == Lookup(s.reg, x) && x in s.reg
    ensures x in Next(s, e).reg && Next(s, e).reg[x] == s.reg[x]
  {}

  // ---- What decides a row

  /** What the answers already given say about x. */
  ghost function Gathered(s: Sys, x: Id): Record {
    var p := PendingThen(s, x);
    if p.Some? then p.value.rec else DEFAULT
  }

  lemma MergeIsRight(known: Record, r: Record, x: Id, k: nat)
    requires 1 <= k <= 4
    ensures Merge(known, r, k) == r <==> OnlyOwedDiffers(known, r, FourQueries(x)[4 - k..], x)
  {
    OwedFields(x, k);
    hide FourQueries;
  }

  lemma MergeOfGroup(known: Record, r: Record, k: nat, g: Group)
    ensures Only(Merge(known, r, k), g) == Only(r, g) <==> Merge(Only(known, g), Only(r, g), k) == Only(r, g)
  {}

  /**
   * While answers about x are owed, and if its group is not set any more: on the drained taskbar that group is right
   * exactly when the answers already given agree with the registry.
   */
  lemma SeedDecides(mid: Sys, x: Id, g: Group, after: seq<Event>, s': Sys)
    requires Shape(mid) && Owed(mid, x) && Outstanding(mid, x) && x in mid.reg
    requires Run(mid, after, s') && (forall f :: f in after ==> LeavesGroup(f, x, g)) && Drained(s')
    ensures x in s'.reg && Only(s'.reg[x], g) == Only(mid.reg[x], g) && RowOf(s'.shell.rows, x).Some?
    ensures Only(RowOf(s'.shell.rows, x).value, g) == Only(s'.reg[x], g) <==>
              OnlyOwedDiffers(Only(Gathered(mid, x), g), Only(mid.reg[x], g), Unanswered(mid, x), x)
  {
    hide Fate, Fold, Owed, Shape, Unanswered, OnlyOwedDiffers, Merge, Only, RowOf, FourQueries, Run, LeavesGroup;
    FateWhileOwed(mid, x);
    GroupRunKeepsShown(mid, after, s', x, g);
    DrainedShowsFate(s', x);
    var k := |Unanswered(mid, x)|;
    MergeOfGroup(Gathered(mid, x), mid.reg[x], k, g);
    MergeIsRight(Only(Gathered(mid, x), g), Only(mid.reg[x], g), x, k);
  }

  lemma OwedInEveryRun(s: Sys, es: seq<Event>, s': Sys, x: Id)
    requires Init(s) && Run(s, es, s')
    ensures Shape(s') && Owed(s', x)
  {
    hide Owed, Shape, Init;
    InitShape(s);
    InitOwed(s, x);
    RunKeepsOwed(s, es, s', x);
  }

  lemma ChangeLeavesOwed(s: Sys, e: Event, x: Id)
    requires Shape(s) && Owed(s, x) && IsChange(e)
    ensures Shape(Next(s, e)) && Owed(Next(s, e), x)
    ensures Unanswered(Next(s, e), x) == Unanswered(s, x) && Gathered(Next(s, e), x) == Gathered(s, x)
  {
    hide Owed, Shape, PendingThen, Unanswered;
    NextKeepsShape(s, e);
    NextKeepsOwed(s, e, x);
    ChangeShape(s, e, x);
    ChangeLeavesPending(s, e, x);
  }

  /**
   * After any run, the last setting of a group of x while answers are owed ends up right on the drained taskbar
   * exactly when the answers already given agree with it, whatever else happens to x but leaving.
   */
  lemma LastChangeDecides(s: Sys, before: seq<Event>, mid: Sys, e: Event, x: Id, g: Group, after: seq<Event>, s': Sys)
    requires Init(s) && Run(s, before, mid) && Outstanding(mid, x) && x in mid.reg && Sets(e, x, g)
    requires Run(Next(mid, e), after, s') && (forall f :: f in after ==> LeavesGroup(f, x, g)) && Drained(s')
    ensures x in s'.reg && RowOf(s'.shell.rows, x).Some? && x in Next(mid, e).reg
    ensures Only(RowOf(s'.shell.rows, x).value, g) == Only(s'.reg[x], g) <==>
              OnlyOwedDiffers(Only(Gathered(mid, x), g), Only(Next(mid, e).reg[x], g), Unanswered(mid, x), x)
  {
    hide Owed, Shape, Init, Run, Unanswered, Gathered, OnlyOwedDiffers, Only, RowOf, LeavesGroup;
    OwedInEveryRun(s, before, mid, x);
    ChangeLeavesOwed(mid, e, x);
    SeedDecides(Next(mid, e), x, g, after, s');
  }

  lemma GroupsMakeRecord(a: Record, b: Record)
    ensures a == b <==> Only(a, Metadata) == Only(b, Metadata) && Only(a, Flags) == Only(b, Flags)
  {}

  lemma GroupsDiffer(a: Record, b: Record, owed: seq<Query>, x: Id)
    ensures OnlyOwedDiffers(a, b, owed, x) <==>
              && OnlyOwedDiffers(Only(a, Metadata), Only(b, Metadata), owed, x)
              && OnlyOwedDiffers(Only(a, Flags), Only(b, Flags), owed, x)
  {}

  lemma AloneLeavesGroups(es: seq<Event>, x: Id)
    requires forall e :: e in es ==> LeavesAlone(e, x)
    ensures forall e, g :: e in es ==> LeavesGroup(e, x, g)
  {}

  /** If x does not change at all any more, its row is the registry's record exactly when all of it agrees. */
  lemma LastChangeDecidesRow(s: Sys, before: seq<Event>, mid: Sys, e: Event, x: Id, after: seq<Event>, s': Sys)
    requires Init(s) && Run(s, before, mid) && Outstanding(mid, x) && x in mid.reg
    requires (e.SetState? || e.SetMetadata?) && e.id == x
    requires Run(Next(mid, e), after, s') && (forall f :: f in after ==> LeavesAlone(f, x)) && Drained(s')
    ensures x in Next(mid, e).reg && x in s'.reg && s'.reg[x] == Next(mid, e).reg[x] && RowOf(s'.shell.rows, x).Some?
    ensures RowOf(s'.shell.rows, x) == Lookup(s'.reg, x) <==>
              OnlyOwedDiffers(Gathered(mid, x), Next(mid, e).reg[x], Unanswered(mid, x), x)
  {
    hide Owed, Shape, Init, Run, Unanswered, Gathered, OnlyOwedDiffers, Only, RowOf, LeavesGroup, LeavesAlone;
    OwedInEveryRun(s, before, mid, x);
    ChangeLeavesOwed(mid, e, x);
    AloneLeavesGroups(after, x);
    SeedDecides(Next(mid, e), x, Metadata, after, s');
    SeedDecides(Next(mid, e), x, Flags, after, s');
    GroupsMakeRecord(RowOf(s'.shell.rows, x).value, s'.reg[x]);
    GroupsMakeRecord(s'.reg[x], Next(mid, e).reg[x]);
    GroupsDiffer(Gathered(mid, x), Next(mid, e).reg[x], Unanswered(mid, x), x);
  }

  /** After a harmless run the answers agree with the registry, so the change itself decides: did it touch them? */
  lemma FirstHarmDecides(s: Sys, before: seq<Event>, mid: Sys, e: Event, x: Id, after: seq<Event>, s': Sys)
    requires Init(s) && HarmlessRun(s, before, mid) && Outstanding(mid, x)
    requires (e.SetState? || e.SetMetadata?) && e.id == x
    requires Run(Next(mid, e), after, s') && (forall f :: f in after ==> LeavesAlone(f, x)) && Drained(s')
    ensures x in mid.reg && x in Next(mid, e).reg
    ensures x in s'.reg && s'.reg[x] == Next(mid, e).reg[x] && RowOf(s'.shell.rows, x).Some?
    ensures RowOf(s'.shell.rows, x) == Lookup(s'.reg, x) <==>
              OnlyOwedDiffers(mid.reg[x], Next(mid, e).reg[x], Unanswered(mid, x), x)
  {
    hide Fate, Owed, Shape, Run, Unanswered, OnlyOwedDiffers, RowOf, LeavesAlone, Merge, FourQueries;
    HarmlessIsRun(s, before, mid);
    InitConverges(s);
    HarmlessRunKeepsInvariant(s, before, mid);
    assert InStep(mid, x);
    LastChangeDecidesRow(s, before, mid, e, x, after, s');
    FateWhileOwed(mid, x);
    var k := |Unanswered(mid, x)|;
    MergeIsRight(Gathered(mid, x), Next(mid, e).reg[x], x, k);
    MergeIsRight(mid.reg[x], Next(mid, e).reg[x], x, k);
    MergeOfAgreeing(Gathered(mid, x), mid.reg[x], Next(mid, e).reg[x], k);
  }

  lemma MergeOfAgreeing(known: Record, r: Record, r': Record, k: nat)
    requires Merge(known, r, k) == r
    ensures Merge(known, r', k) == r' <==> Merge(r, r', k) == r'
  {}

  lemma {:induction false} HarmlessIsRun(s: Sys, es: seq<Event>, s': Sys)
    requires HarmlessRun(s, es, s')
    ensures Run(s, es, s')
    decreases |es|
  {
    hide Harmless, Next, Enabled;
    if es != [] { HarmlessIsRun(Next(s, es[0]), es[1..], s'); }
  }

  // ---- A window that leaves too early

  /** The window is gone for good, but a row for it is shown or on its way. */
  ghost predicate Haunted(s: Sys, x: Id) {
    && x !in s.reg && x <= s.counter && Owed(s, x)
    && (Outstanding(s, x) || Fold(ViewOf(s.shell, x), x, s.toShell).row.Some?)
  }

  lemma AnswerKeepsHaunted(s: Sys, e: Event, x: Id)
    requires Shape(s) && e.Reply? && Enabled(s, e) && Haunted(s, x) && !s.toComp[0].ListIds?
    ensures Haunted(Next(s, e), x)
  {
    hide Fold, RowOf, FourQueries, Shape, Unanswered, Awaits;
    ReplyKeepsOwed(s, e, x);
    FoldOne(ViewOf(s.shell, x), x, s.toShell, ReplyTo(s.reg, s.toComp[0], e.ids, e.fails));
    AnswerUnanswered(s, e, x);
    LastAnswerShows(Fold(ViewOf(s.shell, x), x, s.toShell), x, ReplyTo(s.reg, s.toComp[0], e.ids, e.fails),
                    Unanswered(s, x));
  }

  /** An answer never hides a row, and the last one shows one. */
  lemma LastAnswerShows(v: View, x: Id, m: Message, owed: seq<Query>)
    requires IsAnswer(m) && Awaits(v, owed, x)
    ensures v.row.Some? ==> Apply(v, x, m).row.Some?
    ensures m.id == x && |owed| == 1 ==> Apply(v, x, m).row.Some?
  {
    hide Gather, FourQueries;
  }

  lemma ListReplyKeepsHaunted(s: Sys, e: Event, x: Id)
    requires Shape(s) && e.Reply? && Enabled(s, e) && Haunted(s, x) && s.toComp[0].ListIds?
    ensures Haunted(Next(s, e), x)
  {
    hide Fold, RowOf, FourQueries, Awaits;
    ReplyKeepsOwed(s, e, x);
    FoldOne(ViewOf(s.shell, x), x, s.toShell, ReplyTo(s.reg, s.toComp[0], e.ids, e.fails));
    UnlistedOwesNothing(s, x);
    hide Shape, Unanswered;
  }

  lemma NextKeepsHaunted(s: Sys, e: Event, x: Id)
    requires Shape(s) && Enabled(s, e) && e != Unregister(x) && Haunted(s, x)
    ensures Haunted(Next(s, e), x)
  {
    NextKeepsOwed(s, e, x);
    var v := ViewOf(s.shell, x);
    if e.Deliver? {
      ReceiveView(s.shell, x, s.toShell[0]);
      DeliverKeepsUnanswered(s, x);
    } else if e.Reply? {
      if s.toComp[0].ListIds? { ListReplyKeepsHaunted(s, e, x); } else { AnswerKeepsHaunted(s, e, x); }
    } else {
      ChangeShape(s, e, x);
      FoldAppends(v, x, s.toShell, Signals(s, e));
      if Signals(s, e) != [] { FoldStep(Fold(v, x, s.toShell), x, Signals(s, e)[0], []); }
    }
  }

  lemma {:induction false} RunKeepsHaunted(s: Sys, es: seq<Event>, s': Sys, x: Id)
    requires Shape(s) && Haunted(s, x) && Run(s, es, s') && Unregister(x) !in es
    ensures Haunted(s', x)
    decreases |es|
  {
    if es != [] {
      NextKeepsShape(s, es[0]);
      NextKeepsHaunted(s, es[0], x);
      RunKeepsHaunted(Next(s, es[0]), es[1..], s', x);
    }
  }

  /** A listed window that leaves before its last answer always ends as a ghost row, whatever else happens. */
  lemma LeavingEarlyLeavesGhost(s: Sys, before: seq<Event>, mid: Sys, x: Id, after: seq<Event>, s': Sys)
    requires Init(s) && Run(s, before, mid) && Outstanding(mid, x)
    requires Run(Next(mid, Unregister(x)), after, s') && Unregister(x) !in after && Drained(s')
    ensures x !in s'.reg && RowOf(s'.shell.rows, x).Some?
  {
    InitShape(s);
    InitOwed(s, x);
    RunKeepsOwed(s, before, mid, x);
    OutstandingIsKnown(mid, x);
    var left := Next(mid, Unregister(x));
    NextKeepsShape(mid, Unregister(x));
    NextKeepsOwed(mid, Unregister(x), x);
    ChangeShape(mid, Unregister(x), x);
    RunKeepsHaunted(left, after, s', x);
  }

  // ---- Such runs exist

  /** The exchange goes on and nothing fails. */
  predicate Settling(e: Event) {
    e.Deliver? || (e.Reply? && !e.fails)
  }

  /** Steps still to be made for a message: delivering it, and a reply and a delivery for each query it causes. */
  function MessageWork(ms: seq<Message>): nat {
    if ms == [] then 0 else 1 + 2 * |Asks(ms[0])| + MessageWork(ms[1..])
  }

  function Work(s: Sys): nat {
    MessageWork(s.toShell) + 2 * |s.toComp|
  }

  lemma {:induction false} MessageWorkAppends(ms: seq<Message>, m: Message)
    ensures MessageWork(ms + [m]) == MessageWork(ms) + 1 + 2 * |Asks(m)|
  {
    if ms == [] {
      assert ms + [m] == [m] && [m][1..] == [];
    } else {
      assert (ms + [m])[1..] == ms[1..] + [m];
      MessageWorkAppends(ms[1..], m);
    }
  }

  lemma {:induction false} ListOf(keys: set<Id>) returns (ids: seq<Id>)
    ensures (forall id :: id in ids <==> id in keys) && forall i, j :: 0 <= i < j < |ids| ==> ids[i] != ids[j]
  {
    if keys == {} {
      ids := [];
    } else {
      var id :| id in keys;
      var rest := ListOf(keys - {id});
      ids := rest + [id];
    }
  }

  /** A list of the registered windows can begin with any of them. */
  lemma ListFrom(reg: Registry, x: Id) returns (ids: seq<Id>)
    requires x in reg
    ensures IsKeyList(reg, ids) && ids != [] && ids[0] == x
  {
    var rest := ListOf(reg.Keys - {x});
    ids := [x] + rest;
  }

  lemma DeliverWorks(s: Sys)
    requires s.toShell != []
    ensures Work(Next(s, Deliver)) < Work(s)
  {
    hide Receive, Asks;
  }

  lemma AnswerWorks(s: Sys, e: Event)
    requires e.Reply? && Enabled(s, e) && !s.toComp[0].ListIds?
    ensures Work(Next(s, e)) < Work(s)
  {
    hide AnswerTo, MessageWork;
    var m := ReplyTo(s.reg, s.toComp[0], e.ids, e.fails);
    AnswerAsksNothing(s.reg, s.toComp[0], e.ids, e.fails);
    MessageWorkAppends(s.toShell, m);
  }

  lemma AnswerAsksNothing(reg: Registry, q: Query, ids: seq<Id>, fails: bool)
    requires !q.ListIds?
    ensures Asks(ReplyTo(reg, q, ids, fails)) == []
  {}

  /** From every state of a run both channels can be emptied by deliveries and replies alone. */
  lemma {:induction false} CanDrain(s: Sys) returns (es: seq<Event>, s': Sys)
    requires Shape(s)
    ensures Run(s, es, s') && Drained(s') && forall e :: e in es ==> Settling(e)
    decreases Unlisted(s), Work(s)
  {
    if Drained(s) {
      es, s' := [], s;
    } else {
      var e := SettlingStep(s);
      NextKeepsShape(s, e);
      StaysListed(s, e);
      var rest;
      rest, s' := CanDrain(Next(s, e));
      es := [e] + rest;
      assert es[1..] == rest;
    }
  }

  lemma SettlingStep(s: Sys) returns (e: Event)
    requires Shape(s) && !Drained(s)
    ensures Enabled(s, e) && Settling(e)
    ensures (Unlisted(s) && !Unlisted(Next(s, e))) || Work(Next(s, e)) < Work(s)
  {
    hide Work, Receive, DistinctIds;
    if s.toShell != [] {
      e := Deliver;
      DeliverWorks(s);
    } else if s.toComp[0].ListIds? {
      var ids := ListOf(s.reg.Keys);
      e := Reply(ids, false);
      assert Unlisted(s);
    } else {
      e := Reply([], false);
      AnswerWorks(s, e);
    }
  }

  lemma StaysListed(s: Sys, e: Event)
    requires Shape(s) && Enabled(s, e) && Settling(e)
    ensures !Unlisted(s) ==> !Unlisted(Next(s, e))
  {
    if !Unlisted(s) {
      if e.Deliver? { DeliverStaysListed(s); } else { assert ListIds !in s.toComp[1..]; }
    }
  }

  lemma {:induction false} RunAppends(s: Sys, a: seq<Event>, m: Sys, b: seq<Event>, t: Sys)
    requires Run(s, a, m) && Run(m, b, t)
    ensures Run(s, a + b, t)
    decreases |a|
  {
    hide Next, Enabled;
    if a == [] {
      assert a + b == b;
    } else {
      assert (a + b)[0] == a[0] && (a + b)[1..] == a[1..] + b;
      RunAppends(Next(s, a[0]), a[1..], m, b, t);
    }
  }

  lemma OneStep(s: Sys, e: Event)
    requires Enabled(s, e)
    ensures Run(s, [e], Next(s, e))
  {
    assert [e][1..] == [];
    assert Run(Next(s, e), [], Next(s, e));
  }

  lemma OneHarmlessStep(s: Sys, e: Event, es: seq<Event>, t: Sys)
    requires Enabled(s, e) && Settling(e) && HarmlessRun(Next(s, e), es, t)
    ensures HarmlessRun(s, [e] + es, t)
  {
    assert ([e] + es)[1..] == es;
  }

  /** Any window registered at the start can leave too early and stay on the taskbar for good. */
  lemma GhostRowHappens(s: Sys, x: Id) returns (es: seq<Event>, s': Sys)
    requires Init(s) && x in s.reg
    ensures Run(s, es, s') && Drained(s') && x !in s'.reg && RowOf(s'.shell.rows, x).Some?
  {
    hide Shape, Unanswered, Next, RowOf, Drained;
    InitShape(s);
    var mid, before := ListedFirst(s, x);
    var left := Next(mid, Unregister(x));
    NextKeepsShape(s, before[0]);
    NextKeepsShape(mid, Unregister(x));
    var after;
    after, s' := CanDrain(left);
    OneStep(mid, Unregister(x));
    RunAppends(mid, [Unregister(x)], left, after, s');
    RunAppends(s, before, mid, [Unregister(x)] + after, s');
    es := before + ([Unregister(x)] + after);
    LeavingEarlyLeavesGhost(s, before, mid, x, after, s');
  }

  /** The list is answered, with x in front. */
  lemma ListedFirst(s: Sys, x: Id) returns (mid: Sys, before: seq<Event>)
    requires Init(s) && x in s.reg
    ensures |before| == 1 && Enabled(s, before[0]) && mid == Next(s, before[0]) && Settling(before[0])
    ensures Run(s, before, mid) && Outstanding(mid, x) && Unanswered(mid, x) == FourQueries(x)
    ensures mid.reg == s.reg && mid.toComp == [] && |mid.toShell| == 1
    ensures mid.toShell[0].IdList? && mid.toShell[0].ids != [] && mid.toShell[0].ids[0] == x
  {
    var ids := ListFrom(s.reg, x);
    var e := Reply(ids, false);
    InitShape(s);
    ListReplyUnanswered(s, e, x);
    OneStep(s, e);
    before, mid := [e], Next(s, e);
  }

  /** From there, x's title is answered first. */
  lemma TitleAnsweredFirst(mid: Sys, x: Id) returns (es: seq<Event>, t: Sys)
    requires Shape(mid) && Unanswered(mid, x) == FourQueries(x)
    requires mid.toComp == [] && |mid.toShell| == 1 && mid.toShell[0].IdList?
    requires mid.toShell[0].ids != [] && mid.toShell[0].ids[0] == x
    ensures HarmlessRun(mid, es, t) && Shape(t) && t.reg == mid.reg && Unanswered(t, x) == FourQueries(x)[1..]
  {
    hide Shape, Unanswered, Receive;
    var u := Next(mid, Deliver);
    DeliverKeepsUnanswered(mid, x);
    NextKeepsShape(mid, Deliver);
    assert u.toComp[0] == Title(x) by { assert u.toComp == AskAll(mid.toShell[0].ids); }
    var e := Reply([], false);
    AnswerUnanswered(u, e, x);
    NextKeepsShape(u, e);
    t, es := Next(u, e), [Deliver] + ([e] + []);
    assert HarmlessRun(t, [], t);
    OneHarmlessStep(u, e, [], t);
    OneHarmlessStep(mid, Deliver, [e] + [], t);
    assert FourQueries(x) == [Title(x)] + Unanswered(t, x);
  }

  /** And any new title that arrives after the old one was answered can stay off the taskbar for good. */
  lemma StaleRowHappens(s: Sys, x: Id, title: string) returns (es: seq<Event>, s': Sys)
    requires Init(s) && x in s.reg && title != s.reg[x].title
    ensures Run(s, es, s') && Drained(s') && x in s'.reg && s'.reg[x].title == title
    ensures RowOf(s'.shell.rows, x).Some? && RowOf(s'.shell.rows, x) != Lookup(s'.reg, x)
  {
    hide Shape, Unanswered, Next, RowOf, Drained, Receive;
    InitShape(s);
    var listed, first := ListedFirst(s, x);
    NextKeepsShape(s, first[0]);
    var more, mid := TitleAnsweredFirst(listed, x);
    var before := first + more;
    assert first == [first[0]];
    OneHarmlessStep(s, first[0], more, mid);
    assert Outstanding(mid, x) && Title(x) !in Unanswered(mid, x);
    var e := SetMetadata(x, title, mid.reg[x].appId);
    var changed := Next(mid, e);
    NextKeepsShape(mid, e);
    var after;
    after, s' := CanDrain(changed);
    assert forall f :: f in after ==> LeavesAlone(f, x);
    FirstHarmDecides(s, before, mid, e, x, after, s');
    TitleIsSet(mid, e, x, title);
    HarmlessIsRun(s, before, mid);
    OneStep(mid, e);
    RunAppends(mid, [e], changed, after, s');
    RunAppends(s, before, mid, [e] + after, s');
    es := before + ([e] + after);
  }

  lemma TitleIsSet(s: Sys, e: Event, x: Id, title: string)
    requires e.SetMetadata? && e.id == x && e.title == title && x in s.reg
    ensures x in Next(s, e).reg && Next(s, e).reg[x].title == title
  {}
}

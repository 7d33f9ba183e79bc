// Every routine of the header generator keeps the items in order, as long as no item written in the
// end ("last" is the finished header) lies on a cycle of needs.

module HeaderOrders {
  import opened Options
  import opened Declarations
  import opened HeaderSpec
  import opened HeaderFrame
  import opened HeaderItems
  import opened HeaderOne
  import opened HeaderClosure
  import opened HeaderCloses
  import opened HeaderOrder
  import opened HeaderSteps

  ghost predicate Going(db: DB, hidden: set<nat>, st: State, items: set<Item>, last: seq<Event>) {
    && Simple(db) && Base(db, hidden, st)
    && Aimed(db, hidden, st, items) && Ordered(db, hidden, st.out) && Acyclic(db, hidden, last)
  }

  lemma GoingOn(
    db: DB, hidden: set<nat>, st: State, st1: State, items: set<Item>, now: set<Item>, next: set<Item>,
    last: seq<Event>)
    requires Going(db, hidden, st, items, last) && Closes(db, hidden, st, st1, now)
    requires Ordered(db, hidden, st1.out) && next <= items
    ensures Going(db, hidden, st1, next, last)
  {
    hide Simple, Ordered, Acyclic;
    AimedFewer(db, hidden, st, items, next);
    AimedSame(db, hidden, st, st1, next);
  }

  lemma GoingInto(
    db: DB, hidden: set<nat>, st: State, st1: State, g: Item, items: set<Item>, last: seq<Event>)
    requires Going(db, hidden, st, {g}, last) && StartsItem(db, hidden, st, st1, g) && Base(db, hidden, st1)
    requires items <= Needs(db, hidden, g)
    ensures Going(db, hidden, st1, items, last)
  {
    hide Simple, Ordered, Acyclic, Base;
    AimedStart(db, hidden, st, st1, g);
    AimedNeeds(db, hidden, st1, g, items);
  }

  lemma GoingFewer(db: DB, hidden: set<nat>, st: State, items: set<Item>, fewer: set<Item>, last: seq<Event>)
    requires Going(db, hidden, st, items, last) && fewer <= items
    ensures Going(db, hidden, st, fewer, last)
  {
    AimedFewer(db, hidden, st, items, fewer);
  }

  lemma Shorter(db: DB, st: State, r: State, last: seq<Event>)
    requires Frame(db, st, r) && Within(r.out, last)
    ensures Within(st.out, last)
  {
  }

  lemma GoingBase(db: DB, hidden: set<nat>, st: State, items: set<Item>, last: seq<Event>)
    requires Going(db, hidden, st, items, last)
    ensures Simple(db) && Base(db, hidden, st) && Ordered(db, hidden, st.out) && Acyclic(db, hidden, last)
  {
  }

  lemma GoingAimed(db: DB, hidden: set<nat>, st: State, items: set<Item>, last: seq<Event>)
    requires Going(db, hidden, st, items, last)
    ensures Aimed(db, hidden, st, items)
  {
  }

  lemma {:induction false} ScanRefsOrders(db: DB, hidden: set<nat>, st: State, refs: seq<Ref>, last: seq<Event>)
    requires ValidRefs(db, refs) && forall k | 0 <= k < |refs| :: refs[k].chain != []
    requires Going(db, hidden, st, RefTargets(db, hidden, refs), last) && Within(ScanRefs(db, st, refs).out, last)
    ensures Ordered(db, hidden, ScanRefs(db, st, refs).out)
    decreases Remaining(db, st), 5, |refs|
  {
    hide *;
    if refs == [] {
      GoingBase(db, hidden, st, RefTargets(db, hidden, refs), last);
      ScanRefsNone(db, st);
    } else {
      var items := RefTargets(db, hidden, refs);
      ScanRefsStep(db, st, refs);
      RefTargetsStep(db, hidden, refs);
      GoingBase(db, hidden, st, items, last);
      SimpleIs(db);
      var st1 := DeclareObject(db, st, refs[0].chain, refs[0].full);
      var now := ChainTargets(db, hidden, refs[0].chain, refs[0].full);
      var next := RefTargets(db, hidden, refs[1..]);
      DeclareObjectCloses(db, hidden, st, refs[0].chain, refs[0].full);
      ScanRefsFrame(db, st1, refs[1..]);
      Shorter(db, st1, ScanRefs(db, st1, refs[1..]), last);
      GoingFewer(db, hidden, st, items, now, last);
      DeclareObjectOrders(db, hidden, st, refs[0].chain, refs[0].full, last);
      GoingOn(db, hidden, st, st1, items, now, next, last);
      ScanRefsOrders(db, hidden, st1, refs[1..], last);
    }
  }

  lemma ScanRefsNone(db: DB, st: State)
    ensures ScanRefs(db, st, []) == st
  {
  }

  lemma RefTargetsStep(db: DB, hidden: set<nat>, refs: seq<Ref>)
    requires ValidRefs(db, refs) && refs != [] && ValidChain(db, refs[0].chain) && ValidRefs(db, refs[1..])
    ensures ChainTargets(db, hidden, refs[0].chain, refs[0].full) <= RefTargets(db, hidden, refs)
    ensures RefTargets(db, hidden, refs[1..]) <= RefTargets(db, hidden, refs)
  {
  }

  lemma {:induction false} ScanTextOrders(db: DB, hidden: set<nat>, st: State, toks: Text, last: seq<Event>)
    requires Going(db, hidden, st, TextTargets(db, hidden, toks), last) && Within(ScanText(db, st, toks).out, last)
    ensures Ordered(db, hidden, ScanText(db, st, toks).out)
    decreases Remaining(db, st), 6
  {
    hide Going;
    ScanRefsOrders(db, hidden, st, Refs(db, toks, None), last);
  }

  lemma CloseIfOpenOrders(db: DB, hidden: set<nat>, st: State, cond: Option<Text>)
    requires Ordered(db, hidden, st.out)
    ensures Ordered(db, hidden, CloseIfOpen(st).out)
    ensures cond.Some? ==> Ordered(db, hidden, CloseIfOpen(st).Emit(OpenIf(cond.value)).out)
  {
    OrderedEmit(db, hidden, st.out, CloseIf);
    if cond.Some? {
      OrderedEmit(db, hidden, CloseIfOpen(st).out, OpenIf(cond.value));
    }
  }

  lemma ReopenGrows(st: State, cond: Text, last: seq<Event>)
    requires Within(CloseIfOpen(st).Emit(OpenIf(cond)).out, last)
    ensures Within(st.out, last)
  {
    assert st.out <= CloseIfOpen(st).out <= CloseIfOpen(st).Emit(OpenIf(cond)).out;
  }

  lemma {:induction false} ChangeIfContextOrders(
    db: DB, hidden: set<nat>, st: State, cond: Option<Text>, last: seq<Event>)
    requires Going(db, hidden, st, CondTargets(db, hidden, cond), last)
             && Within(ChangeIfContext(db, st, cond).out, last)
    ensures Ordered(db, hidden, ChangeIfContext(db, st, cond).out)
    decreases Remaining(db, st), 7
  {
    if st.cond != cond {
      CloseIfOpenOrders(db, hidden, st, None);
      CloseIfOpenCloses(db, hidden, st);
      hide Within, Closes, Base, Simple, Ordered, Acyclic, Aimed, Frame, TextTargets;
      if cond.Some? {
        var st1 := CloseIfOpen(st);
        GoingOn(db, hidden, st, st1, CondTargets(db, hidden, cond), {}, CondTargets(db, hidden, cond), last);
        var st2 := ScanText(db, st1, cond.value);
        ReopenGrows(st2, cond.value, last);
        ScanTextOrders(db, hidden, st1, cond.value, last);
        CloseIfOpenOrders(db, hidden, st2, cond);
      }
    }
  }

  lemma {:induction false} WriteIncludeOrders(db: DB, hidden: set<nat>, st: State, inc: Include, last: seq<Event>)
    requires Occurs(db, inc) && inc.key in Keys(db) && inc.key !in st.seen
    requires Going(db, hidden, st, {InclItem(inc.key)}, last) && Within(WriteInclude(db, st, inc).out, last)
    ensures Ordered(db, hidden, WriteInclude(db, st, inc).out)
    decreases Remaining(db, st), 0
  {
    hide *;
    GoingBase(db, hidden, st, {InclItem(inc.key)}, last);
    SimpleIs(db);
    StartInclude(db, hidden, st, inc);
    WriteIncludeIs(db, st, inc);
    IncludeIsReal(db, hidden, st, inc);
    NeedsAreReal(db, hidden, InclItem(inc.key));
    var st1 := st.(seen := st.seen + {inc.key});
    var st2 := ChangeIfContext(db, st1, inc.cond);
    WriteOrders(db, hidden, st, st1, st2, inc.cond, InclItem(inc.key), Incl(inc), last);
    ChangeIfContextOrders(db, hidden, st1, inc.cond, last);
    ItemOrders(db, hidden, st, st1, st2, InclItem(inc.key), Incl(inc), last);
  }

  // What comes before an item is written.
  lemma WriteOrders(
    db: DB, hidden: set<nat>, st: State, st1: State, st2: State, cond: Option<Text>, g: Item, e: Event,
    last: seq<Event>)
    requires Going(db, hidden, st, {g}, last) && StartsItem(db, hidden, st, st1, g) && Base(db, hidden, st1)
    requires Needs(db, hidden, g) == CondTargets(db, hidden, cond)
    requires st2 == ChangeIfContext(db, st1, cond) && Within(st2.Emit(e).out, last)
    ensures Going(db, hidden, st1, CondTargets(db, hidden, cond), last)
    ensures Within(st2.out, last) && st2.Emit(e).out == st2.out + [e]
    ensures SameUnderWay(db, hidden, st1, st2) && AllStarted(st2, Needs(db, hidden, g))
    ensures Aimed(db, hidden, st, {g}) && Acyclic(db, hidden, last)
  {
    hide *;
    var items := CondTargets(db, hidden, cond);
    GoingBase(db, hidden, st, {g}, last);
    GoingAimed(db, hidden, st, {g}, last);
    SimpleIs(db);
    ChangeIfContextCloses(db, hidden, st1, cond);
    ClosesBase(db, hidden, st1, st2, items);
    GoingInto(db, hidden, st, st1, g, items, last);
    ClosesSame(db, hidden, st1, st2, items);
    EmitOut(st2, e);
    WithinShorter(st2.out, e, last);
  }

  lemma EmitOut(st: State, e: Event)
    ensures st.Emit(e).out == st.out + [e]
  {
  }

  lemma ClosesSame(db: DB, hidden: set<nat>, st: State, r: State, items: set<Item>)
    requires Closes(db, hidden, st, r, items)
    ensures SameUnderWay(db, hidden, st, r)
  {
  }

  lemma {:induction false} WriteForwardOrders(db: DB, hidden: set<nat>, st: State, p: nat, last: seq<Event>)
    requires p < |db| && p !in hidden && db[p].fwd.Some? && p !in st.forwarded
    requires Going(db, hidden, st, {FwdItem(p)}, last) && Within(WriteForward(db, st, p).out, last)
    ensures Ordered(db, hidden, WriteForward(db, st, p).out)
    decreases Remaining(db, st), 0
  {
    hide *;
    GoingBase(db, hidden, st, {FwdItem(p)}, last);
    SimpleIs(db);
    StartForward(db, hidden, st, p);
    WriteForwardIs(db, st, p);
    ForwardIsReal(db, hidden, st, p);
    NeedsAreReal(db, hidden, FwdItem(p));
    var st1 := st.(forwarded := st.forwarded + {p});
    var st2 := ChangeIfContext(db, st1, db[p].cond);
    WriteOrders(db, hidden, st, st1, st2, db[p].cond, FwdItem(p), Fwd(p), last);
    ChangeIfContextOrders(db, hidden, st1, db[p].cond, last);
    ItemOrders(db, hidden, st, st1, st2, FwdItem(p), Fwd(p), last);
  }

  lemma {:induction false} AddIncludesOrders(db: DB, hidden: set<nat>, st: State, incs: seq<Include>, last: seq<Event>)
    requires KnownIncludes(db, incs) && OccurAll(db, incs)
    requires Going(db, hidden, st, IncludeItems(incs), last) && Within(AddIncludes(db, st, incs).out, last)
    ensures Ordered(db, hidden, AddIncludes(db, st, incs).out)
    decreases Remaining(db, st), 1, |incs|
  {
    hide *;
    GoingBase(db, hidden, st, IncludeItems(incs), last);
    if incs == [] {
      AddIncludesNone(db, st);
    } else {
      SimpleIs(db);
      AddIncludesStep(db, st, incs);
      IncludeItemsStep(db, incs);
      var st1 := AddIncludes(db, st, incs[1..]);
      var items := IncludeItems(incs[1..]);
      AddIncludesCloses(db, hidden, st, incs[1..]);
      ClosesBase(db, hidden, st, st1, items);
      GoingFewer(db, hidden, st, IncludeItems(incs), items, last);
      if incs[0].key in st1.seen {
        AddIncludesOrders(db, hidden, st, incs[1..], last);
      } else {
        WriteIncludeFrame(db, st1, incs[0]);
        Shorter(db, st1, WriteInclude(db, st1, incs[0]), last);
        AddIncludesOrders(db, hidden, st, incs[1..], last);
        GoingOn(db, hidden, st, st1, IncludeItems(incs), items, {InclItem(incs[0].key)}, last);
        WriteIncludeOrders(db, hidden, st1, incs[0], last);
      }
    }
  }

  lemma AddIncludesNone(db: DB, st: State)
    ensures KnownIncludes(db, []) && AddIncludes(db, st, []) == st
  {
  }

  // ---------------------------------------------------------------------------------------------
  // Full declarations

  lemma {:induction false} FullOrders(
    db: DB, hidden: set<nat>, st: State, st1: State, st2: State, p: nat, last: seq<Event>)
    requires p < |db| && p !in hidden && p !in st.declared && db[p].text.Some?
    requires db[p].fwd.Some? ==> p in st.forwarded
    requires AllStarted(st, IncludeItems(db[p].includes))
    requires Going(db, hidden, st, {FullItem(p)}, last)
    requires StartsItem(db, hidden, st, st1, FullItem(p)) && Base(db, hidden, st1)
    requires Closes(db, hidden, st1, st2, TextTargets(db, hidden, db[p].text.value))
    requires Ordered(db, hidden, st2.out) && Within(WriteFull(db, st2, p).out, last)
    ensures Ordered(db, hidden, WriteFull(db, st2, p).out)
    decreases Remaining(db, st2), 8
  {
    hide *;
    FullIsReal(db, hidden, p);
    NeedsAreReal(db, hidden, FullItem(p));
    GoingBase(db, hidden, st, {FullItem(p)}, last);
    WriteFullIs(db, st2, p);
    WithinShorter(ChangeIfContext(db, st2, db[p].cond).out, Full(p), last);
    var texts := TextTargets(db, hidden, db[p].text.value);
    var conds := CondTargets(db, hidden, db[p].cond);
    var st3 := ChangeIfContext(db, st2, db[p].cond);
    ClosesBase(db, hidden, st1, st2, texts);
    ChangeIfContextCloses(db, hidden, st2, db[p].cond);
    ClosesTrans(db, hidden, st1, st2, st3, texts, conds);
    FullNeeds(db, hidden, st, st1, st3, p);
    GoingInto(db, hidden, st, st1, FullItem(p), texts + conds, last);
    GoingOn(db, hidden, st1, st2, texts + conds, texts, conds, last);
    ChangeIfContextOrders(db, hidden, st2, db[p].cond, last);
    ClosesSame(db, hidden, st1, st3, texts + conds);
    ClosesBase(db, hidden, st1, st3, texts + conds);
    GoingAimed(db, hidden, st, {FullItem(p)}, last);
    ItemOrders(db, hidden, st, st1, st3, FullItem(p), Full(p), last);
  }

  lemma TextsAreNeeded(db: DB, hidden: set<nat>, p: nat)
    requires p < |db| && db[p].text.Some?
    ensures TextTargets(db, hidden, db[p].text.value) <= Needs(db, hidden, FullItem(p))
    ensures IncludeItems(db[p].includes) <= Needs(db, hidden, FullItem(p))
  {
    hide TextTargets, CondTargets;
  }

  lemma {:induction false} MarkedOrders(
    db: DB, hidden: set<nat>, st: State, p: nat, full: bool, done: bool, bound: nat, last: seq<Event>)
    requires p < |db| && p !in hidden && Wanted(db, st, p, full)
    requires (db[p].fwd.Some? ==> p in st.forwarded) && (done ==> db[p].fwd.Some?)
    requires AllStarted(st, IncludeItems(db[p].includes)) && Remaining(db, st) <= bound
    requires Going(db, hidden, st, {FullItem(p)}, last)
    requires Within(MarkAndWrite(db, st, [p], full, done, bound).out, last)
    ensures Ordered(db, hidden, MarkAndWrite(db, st, [p], full, done, bound).out)
    decreases bound, 3, 0
  {
    hide *;
    GoingBase(db, hidden, st, {FullItem(p)}, last);
    MarkAndWriteOne(db, st, p, full, done, bound);
    var text := db[p].text.value;
    var st1 := Mark(db, st, [p], full);
    var r := MarkAndWrite(db, st, [p], full, done, bound);
    var st2 := ScanText(db, st1, text);
    StartFull(db, hidden, st, p, full, bound);
    var texts := TextTargets(db, hidden, text);
    ScanTextLess(db, st1, text);
    SimpleIs(db);
    PlainWhenDone(db, p, done);
    TextsAreNeeded(db, hidden, p);
    ScanTextCloses(db, hidden, st1, text);
    ClosesBase(db, hidden, st1, st2, texts);
    FlagSurvives(db, st1, st2, p);
    WriteMarkedOne(db, st1, p, done, bound);
    assert r.out == WriteFull(db, st2, p).out;
    WriteFullGrows(db, st2, p, last);
    GoingInto(db, hidden, st, st1, FullItem(p), texts, last);
    ScanTextOrders(db, hidden, st1, text, last);
    FullOrders(db, hidden, st, st1, st2, p, last);
  }

  lemma WriteFullGrows(db: DB, st: State, p: nat, last: seq<Event>)
    requires p < |db| && Simple(db) && Within(WriteFull(db, st, p).out, last)
    ensures Within(st.out, last)
  {
    ChangeIfContextFrame(db, st, db[p].cond);
  }

  lemma {:induction false} RestOrders(
    db: DB, hidden: set<nat>, st: State, p: nat, full: bool, done: bool, bound: nat, last: seq<Event>)
    requires p < |db| && p !in hidden && !Suitable(st, [p], full)
    requires (db[p].fwd.Some? ==> p in st.forwarded) && (done ==> db[p].fwd.Some?)
    requires Remaining(db, st) <= bound && ValidChain(db, [p]) && Remaining(db, AllIncludes(db, st, [p])) <= bound
    requires Going(db, hidden, st, FullTargets(db, p), last)
    requires Within(MarkAndWrite(db, AllIncludes(db, st, [p]), [p], full, done, bound).out, last)
    ensures Ordered(db, hidden, MarkAndWrite(db, AllIncludes(db, st, [p]), [p], full, done, bound).out)
    decreases bound, 3, 1
  {
    hide Within, Closes, Base, Ordered, Acyclic, Aimed, Frame, Remaining, Mark, Below, Needs, TextTargets, CondTargets;
    var incs := IncludeItems(db[p].includes);
    var st1 := AllIncludes(db, st, [p]);
    AllIncludesOne(db, st, p);
    AllIncludesCloses(db, hidden, st, p);
    ClosesBase(db, hidden, st, st1, incs);
    MarkAndWriteGrows(db, st1, p, full, done, bound, last);
    IncludesAimed(db, hidden, st, p, last);
    assert OccurAll(db, db[p].includes);
    AddIncludesOrders(db, hidden, st, db[p].includes, last);
    if Wanted(db, st1, p, full) {
      StillForwarded(db, st, st1, p);
      GoingOn(db, hidden, st, st1, FullTargets(db, p), incs, {FullItem(p)}, last);
      MarkedOrders(db, hidden, st1, p, full, done, bound, last);
    } else {
      UnwantedIsSkipped(db, st1, p, full, done, bound);
    }
  }

  lemma MarkAndWriteGrows(db: DB, st: State, p: nat, full: bool, done: bool, bound: nat, last: seq<Event>)
    requires p < |db| && Simple(db) && Remaining(db, st) <= bound
    requires Within(MarkAndWrite(db, st, [p], full, done, bound).out, last)
    ensures Within(st.out, last)
  {
    MarkedFrame(db, st, [p], full, done, bound);
  }

  lemma IncludesAimed(db: DB, hidden: set<nat>, st: State, p: nat, last: seq<Event>)
    requires p < |db| && Going(db, hidden, st, FullTargets(db, p), last)
    ensures Going(db, hidden, st, IncludeItems(db[p].includes), last)
  {
    if db[p].text.Some? {
      TextsAreNeeded(db, hidden, p);
      AimedNeeds(db, hidden, st, FullItem(p), IncludeItems(db[p].includes));
    }
  }

  lemma {:induction false} ForwardsOrders(db: DB, hidden: set<nat>, st: State, p: nat, last: seq<Event>)
    requires p < |db| && p !in hidden
    requires Going(db, hidden, st, Forms(db, p), last)
    requires Within(Forwards(db, st, [p], false).0.out, last)
    ensures Ordered(db, hidden, Forwards(db, st, [p], false).0.out)
    decreases Remaining(db, st), 3, 0
  {
    ForwardsOne(db, st, p);
    assert db[p].fwd.Some? ==> Forms(db, p) == {FwdItem(p)};
    if db[p].fwd.Some? && p !in st.forwarded {
      WriteForwardOrders(db, hidden, st, p, last);
    }
  }

  lemma {:induction false} DeclareOneOrders(
    db: DB, hidden: set<nat>, st: State, p: nat, full: bool, last: seq<Event>)
    requires p < |db| && p !in hidden
    requires Going(db, hidden, st, Targets(db, hidden, p, full), last)
    requires Within(DeclareObject(db, st, [p], full).out, last)
    ensures Ordered(db, hidden, DeclareObject(db, st, [p], full).out)
    decreases Remaining(db, st), 3, 5
  {
    hide *;
    OneChain(db, p);
    var items := Targets(db, hidden, p, full);
    var (st1, done) := Forwards(db, st, [p], false);
    GoingBase(db, hidden, st, items, last);
    DeclareObjectOne(db, st, p, full);
    ForwardsCloses(db, hidden, st, p);
    ForwardsDone(db, st, p);
    ClosesBase(db, hidden, st, st1, Forms(db, p));
    FormsAreTargets(db, hidden, p, full);
    GoingFewer(db, hidden, st, items, Forms(db, p), last);
    RestGrows(db, st, p, full, last);
    ForwardsOrders(db, hidden, st, p, last);
    if !Suitable(st1, [p], full) {
      FormStarted(db, st1, p);
      RestTargets(db, hidden, st1, p, full);
      GoingOn(db, hidden, st, st1, items, Forms(db, p), FullTargets(db, p), last);
      RestOrders(db, hidden, st1, p, full, done, Remaining(db, st), last);
    }
  }

  lemma {:induction false} DeclareObjectOrders(
    db: DB, hidden: set<nat>, st: State, chain: seq<nat>, full: bool, last: seq<Event>)
    requires ValidChain(db, chain) && chain != []
    requires Going(db, hidden, st, ChainTargets(db, hidden, chain, full), last)
    requires Within(DeclareObject(db, st, chain, full).out, last)
    ensures Ordered(db, hidden, DeclareObject(db, st, chain, full).out)
    decreases Remaining(db, st), 4
  {
    hide Ordered, Acyclic, Aimed, DeclareObject, Remaining;
    ShortChain(db, chain);
    var p := chain[0];
    assert chain == [p];
    if p in hidden {
      HiddenIsSuitable(db, hidden, st, p, full);
    } else {
      DeclareOneOrders(db, hidden, st, p, full, last);
    }
  }

  lemma RestGrows(db: DB, st: State, p: nat, full: bool, last: seq<Event>)
    requires p < |db| && Simple(db) && Within(DeclareObject(db, st, [p], full).out, last)
    ensures Within(Forwards(db, st, [p], false).0.out, last)
  {
    hide *;
    OneChain(db, p);
    SimpleIs(db);
    var (st1, done) := Forwards(db, st, [p], false);
    DeclareObjectOne(db, st, p, full);
    if !Suitable(st1, [p], full) {
      var st2 := AllIncludes(db, st1, [p]);
      MarkAndWriteGrows(db, st2, p, full, done, Remaining(db, st), last);
      AllIncludesFrame(db, st1, [p]);
      Shorter(db, st1, st2, last);
    }
  }
}

// Every routine of the header generator closes over the items it is asked for.

module HeaderCloses {
  import opened Options
  import opened Declarations
  import opened HeaderSpec
  import opened HeaderFrame
  import opened HeaderItems
  import opened HeaderOne
  import opened HeaderSteps
  import opened HeaderClosure

  lemma ClosesAlso(db: DB, hidden: set<nat>, st: State, r: State, items: set<Item>, more: set<Item>)
    requires Closes(db, hidden, st, r, items) && items <= more && AllStarted(r, more)
    ensures Closes(db, hidden, st, r, more)
  {
    forall x | Started(r, x) && !Started(st, x) && Real(db, hidden, x) ensures From(db, hidden, more, x) {
      FromMore(db, hidden, items, more, x);
    }
  }

  // A step that only opens or closes an #if.
  lemma QuietCloses(db: DB, hidden: set<nat>, st: State, e: Event, cond: Option<Text>)
    requires Base(db, hidden, st) && AllStarted(st, CondTargets(db, hidden, cond))
    requires (e.CloseIf? && st.cond.Some? && cond.None?) || (e.OpenIf? && st.cond.None? && cond == Some(e.cond))
    ensures Closes(db, hidden, st, st.Emit(e).(cond := cond), {})
  {
    var r := st.Emit(e).(cond := cond);
    EmitIf(db, st, e, cond);
    forall x ensures Count(r.out, x) == Count(st.out, x) && Started(st, x) == Started(r, x) {
      CountEmit(st.out, e, x);
    }
    BaseAfter(db, hidden, st, r);
  }

  lemma CloseIfOpenCloses(db: DB, hidden: set<nat>, st: State)
    requires Base(db, hidden, st)
    ensures Closes(db, hidden, st, CloseIfOpen(st), {})
  {
    if st.cond.Some? {
      QuietCloses(db, hidden, st, CloseIf, None);
    } else {
      ClosesSelf(db, hidden, st);
    }
  }

  lemma ReopenCloses(db: DB, hidden: set<nat>, st: State, cond: Option<Text>)
    requires cond.Some? && Base(db, hidden, st) && AllStarted(st, CondTargets(db, hidden, cond))
    ensures Closes(db, hidden, st, CloseIfOpen(st).Emit(OpenIf(cond.value)).(cond := cond), {})
  {
    var st1 := CloseIfOpen(st);
    CloseIfOpenCloses(db, hidden, st);
    StartedGrows(st, st1, CondTargets(db, hidden, cond));
    QuietCloses(db, hidden, st1, OpenIf(cond.value), cond);
    ClosesTrans(db, hidden, st, st1, st1.Emit(OpenIf(cond.value)).(cond := cond), {}, {});
  }

  // ---------------------------------------------------------------------------------------------
  // The routines

  lemma NoTargets(db: DB, hidden: set<nat>)
    ensures ValidRefs(db, []) && RefTargets(db, hidden, []) == {}
    ensures CondTargets(db, hidden, None) == {}
  {
  }

  lemma RefTargetsFirst(db: DB, hidden: set<nat>, refs: seq<Ref>)
    requires ValidRefs(db, refs) && refs != [] && ValidChain(db, refs[0].chain) && ValidRefs(db, refs[1..])
    ensures RefTargets(db, hidden, refs) ==
            ChainTargets(db, hidden, refs[0].chain, refs[0].full) + RefTargets(db, hidden, refs[1..])
  {
  }

  lemma SomeTargets(db: DB, hidden: set<nat>, cond: Option<Text>)
    requires cond.Some?
    ensures CondTargets(db, hidden, cond) == TextTargets(db, hidden, cond.value)
  {
  }

  // An #if that stays open needs nothing new.
  lemma StayCloses(db: DB, hidden: set<nat>, st: State)
    requires Base(db, hidden, st)
    ensures Closes(db, hidden, st, st, CondTargets(db, hidden, st.cond))
  {
    ClosesSelf(db, hidden, st);
    ClosesAlso(db, hidden, st, st, {}, CondTargets(db, hidden, st.cond));
  }

  lemma {:induction false} ScanRefsCloses(db: DB, hidden: set<nat>, st: State, refs: seq<Ref>)
    requires Simple(db) && Base(db, hidden, st) && ValidRefs(db, refs)
    requires forall k | 0 <= k < |refs| :: refs[k].chain != []
    ensures Closes(db, hidden, st, ScanRefs(db, st, refs), RefTargets(db, hidden, refs))
    decreases Remaining(db, st), 5, |refs|
  {
    hide *;
    if refs == [] {
      ClosesSelf(db, hidden, st);
      EmptyChain(db, st, true);
      NoTargets(db, hidden);
    } else {
      ScanRefsStep(db, st, refs);
      RefTargetsFirst(db, hidden, refs);
      var st1 := DeclareObject(db, st, refs[0].chain, refs[0].full);
      var now := ChainTargets(db, hidden, refs[0].chain, refs[0].full);
      DeclareObjectCloses(db, hidden, st, refs[0].chain, refs[0].full);
      ClosesBase(db, hidden, st, st1, now);
      ScanRefsCloses(db, hidden, st1, refs[1..]);
      ClosesTrans(db, hidden, st, st1, ScanRefs(db, st1, refs[1..]), now, RefTargets(db, hidden, refs[1..]));
    }
  }

  lemma ClosesBase(db: DB, hidden: set<nat>, st: State, r: State, items: set<Item>)
    requires Closes(db, hidden, st, r, items)
    ensures Base(db, hidden, r) && Frame(db, st, r) && AllStarted(r, items)
  {
  }

  lemma {:induction false} ScanTextCloses(db: DB, hidden: set<nat>, st: State, toks: Text)
    requires Simple(db) && Base(db, hidden, st)
    ensures Closes(db, hidden, st, ScanText(db, st, toks), TextTargets(db, hidden, toks))
    decreases Remaining(db, st), 6
  {
    ScanRefsCloses(db, hidden, st, Refs(db, toks, None));
  }

  lemma {:induction false} ChangeIfContextCloses(db: DB, hidden: set<nat>, st: State, cond: Option<Text>)
    requires Simple(db) && Base(db, hidden, st)
    ensures Closes(db, hidden, st, ChangeIfContext(db, st, cond), CondTargets(db, hidden, cond))
    decreases Remaining(db, st), 7
  {
    hide *;
    ChangeIfContextIs(db, st, cond);
    var st1 := CloseIfOpen(st);
    if st.cond == cond {
      StayCloses(db, hidden, st);
    } else {
      CloseIfOpenCloses(db, hidden, st);
      CloseKeeps(db, st);
      ClosesBase(db, hidden, st, st1, {});
      if cond.Some? {
        var st2 := ScanText(db, st1, cond.value);
        var items := TextTargets(db, hidden, cond.value);
        SomeTargets(db, hidden, cond);
        ScanTextCloses(db, hidden, st1, cond.value);
        ClosesBase(db, hidden, st1, st2, items);
        ClosesTrans(db, hidden, st, st1, st2, {}, items);
        ReopenCloses(db, hidden, st2, cond);
        ClosesTrans(db, hidden, st, st2, CloseIfOpen(st2).Emit(OpenIf(cond.value)).(cond := cond), {} + items, {});
        assert {} + items + {} == items;
      } else {
        NoTargets(db, hidden);
      }
    }
  }

  ghost predicate OccurAll(db: DB, incs: seq<Include>) {
    forall k | 0 <= k < |incs| :: Occurs(db, incs[k])
  }

  lemma StartInclude(db: DB, hidden: set<nat>, st: State, inc: Include)
    requires Simple(db) && Base(db, hidden, st) && Occurs(db, inc) && inc.key in Keys(db) && inc.key !in st.seen
    ensures var st1 := st.(seen := st.seen + {inc.key});
            StartsItem(db, hidden, st, st1, InclItem(inc.key)) && Base(db, hidden, st1)
            && Remaining(db, st1) < Remaining(db, st)
    ensures Needs(db, hidden, InclItem(inc.key)) == CondTargets(db, hidden, inc.cond)
  {
    hide CondTargets, Occurs, Remaining, Simple;
    var st1 := st.(seen := st.seen + {inc.key});
    RemainingDrops(db, st, st1);
    StartBase(db, hidden, st, st1);
    IncludeNeeds(db, hidden, inc);
  }

  lemma IncludeNeeds(db: DB, hidden: set<nat>, inc: Include)
    requires Simple(db) && Occurs(db, inc) && inc.key in Keys(db)
    ensures Needs(db, hidden, InclItem(inc.key)) == CondTargets(db, hidden, inc.cond)
  {
    hide CondTargets, Occurs, KeysAgree;
    assert IncludeFor(db, inc.key) == inc;
  }

  lemma IncludeIsReal(db: DB, hidden: set<nat>, st: State, inc: Include)
    requires inc.key in Keys(db) && inc.key !in st.seen
    ensures Real(db, hidden, InclItem(inc.key)) && !Started(st, InclItem(inc.key))
    ensures ItemOf(Incl(inc)) == Some(InclItem(inc.key))
  {
  }

  lemma ForwardIsReal(db: DB, hidden: set<nat>, st: State, p: nat)
    requires p < |db| && p !in hidden && db[p].fwd.Some? && p !in st.forwarded
    ensures Real(db, hidden, FwdItem(p)) && !Started(st, FwdItem(p)) && ItemOf(Fwd(p)) == Some(FwdItem(p))
  {
  }

  lemma FullIsReal(db: DB, hidden: set<nat>, p: nat)
    requires p < |db| && p !in hidden && db[p].text.Some?
    ensures Real(db, hidden, FullItem(p)) && ItemOf(Full(p)) == Some(FullItem(p))
    ensures forall st: State :: Started(st, FullItem(p)) <==> p in st.declared
  {
  }

  lemma {:induction false} WriteIncludeCloses(db: DB, hidden: set<nat>, st: State, inc: Include)
    requires Simple(db) && Base(db, hidden, st) && Occurs(db, inc) && inc.key in Keys(db) && inc.key !in st.seen
    ensures Closes(db, hidden, st, WriteInclude(db, st, inc), {InclItem(inc.key)})
    decreases Remaining(db, st), 0
  {
    hide *;
    SimpleIs(db);
    StartInclude(db, hidden, st, inc);
    WriteIncludeFrame(db, st, inc);
    WriteIncludeIs(db, st, inc);
    IncludeIsReal(db, hidden, st, inc);
    var st1 := st.(seen := st.seen + {inc.key});
    var st2 := ChangeIfContext(db, st1, inc.cond);
    var items := CondTargets(db, hidden, inc.cond);
    ChangeIfContextCloses(db, hidden, st1, inc.cond);
    ClosesBase(db, hidden, st1, st2, items);
    EmitSameBits(st2, Incl(inc));
    ItemCloses(db, hidden, st, st1, st2, WriteInclude(db, st, inc), InclItem(inc.key), Incl(inc), items);
  }

  lemma StartBase(db: DB, hidden: set<nat>, st: State, st1: State)
    requires Base(db, hidden, st) && Grown(st, st1) && st1.out == st.out && st1.cond == st.cond
    requires st1.declared <= st1.forwarded
    requires forall p | p in st1.forwarded && p !in st1.declared && p !in st.forwarded :: p < |db| && db[p].fwd.Some?
    requires forall p | p in st1.declared && p !in st.declared :: p < |db| && db[p].text.Some?
    ensures Base(db, hidden, st1)
  {
    forall x | Done(st1, x) ensures Started(st1, x) {
      assert Done(st, x) && Started(st, x);
    }
    StartedGrows(st, st1, CondTargets(db, hidden, st.cond));
  }

  lemma NoIncludeItems()
    ensures IncludeItems([]) == {}
  {
  }

  lemma IncludeItemsStep(db: DB, incs: seq<Include>)
    requires incs != [] && OccurAll(db, incs)
    ensures IncludeItems(incs) == {InclItem(incs[0].key)} + IncludeItems(incs[1..])
    ensures OccurAll(db, incs[1..]) && Occurs(db, incs[0])
  {
  }

  lemma SeenIsStarted(st: State, items: set<Item>, key: string)
    requires key in st.seen && AllStarted(st, items)
    ensures AllStarted(st, {InclItem(key)} + items)
  {
  }

  lemma {:induction false} AddIncludesCloses(db: DB, hidden: set<nat>, st: State, incs: seq<Include>)
    requires Simple(db) && Base(db, hidden, st) && KnownIncludes(db, incs) && OccurAll(db, incs)
    ensures Closes(db, hidden, st, AddIncludes(db, st, incs), IncludeItems(incs))
    decreases Remaining(db, st), 1, |incs|
  {
    hide *;
    if incs == [] {
      ClosesSelf(db, hidden, st);
      EmptyChain(db, st, true);
      NoIncludeItems();
    } else {
      HeaderOne.AddIncludesStep(db, st, incs);
      IncludeItemsStep(db, incs);
      var st1 := AddIncludes(db, st, incs[1..]);
      var items := IncludeItems(incs[1..]);
      AddIncludesCloses(db, hidden, st, incs[1..]);
      ClosesBase(db, hidden, st, st1, items);
      if incs[0].key in st1.seen {
        SeenIsStarted(st1, items, incs[0].key);
        ClosesAlso(db, hidden, st, st1, items, IncludeItems(incs));
      } else {
        WriteIncludeCloses(db, hidden, st1, incs[0]);
        ClosesTrans(db, hidden, st, st1, WriteInclude(db, st1, incs[0]), items, {InclItem(incs[0].key)});
        assert items + {InclItem(incs[0].key)} == IncludeItems(incs);
      }
    }
  }

  lemma StartForward(db: DB, hidden: set<nat>, st: State, p: nat)
    requires Base(db, hidden, st) && p < |db| && p !in hidden && db[p].fwd.Some? && p !in st.forwarded
    ensures var st1 := st.(forwarded := st.forwarded + {p});
            StartsItem(db, hidden, st, st1, FwdItem(p)) && Base(db, hidden, st1)
            && Remaining(db, st1) < Remaining(db, st)
    ensures Needs(db, hidden, FwdItem(p)) == CondTargets(db, hidden, db[p].cond)
  {
    var st1 := st.(forwarded := st.forwarded + {p});
    RemainingDrops(db, st, st1);
    StartBase(db, hidden, st, st1);
  }

  lemma {:induction false} WriteForwardCloses(db: DB, hidden: set<nat>, st: State, p: nat)
    requires Simple(db) && Base(db, hidden, st)
    requires p < |db| && p !in hidden && db[p].fwd.Some? && p !in st.forwarded
    ensures Closes(db, hidden, st, WriteForward(db, st, p), {FwdItem(p)})
    decreases Remaining(db, st), 0
  {
    hide *;
    SimpleIs(db);
    StartForward(db, hidden, st, p);
    WriteForwardFrame(db, st, p);
    WriteForwardIs(db, st, p);
    ForwardIsReal(db, hidden, st, p);
    var st1 := st.(forwarded := st.forwarded + {p});
    var st2 := ChangeIfContext(db, st1, db[p].cond);
    var items := CondTargets(db, hidden, db[p].cond);
    ChangeIfContextCloses(db, hidden, st1, db[p].cond);
    ClosesBase(db, hidden, st1, st2, items);
    EmitSameBits(st2, Fwd(p));
    ItemCloses(db, hidden, st, st1, st2, WriteForward(db, st, p), FwdItem(p), Fwd(p), items);
  }

  // The forward form, if p has one.
  function Forms(db: DB, p: nat): set<Item>
    requires p < |db|
  {
    if db[p].fwd.Some? then {FwdItem(p)} else {}
  }

  lemma FormsAreTargets(db: DB, hidden: set<nat>, p: nat, full: bool)
    requires p < |db| && p !in hidden
    ensures Forms(db, p) <= Targets(db, hidden, p, full)
  {
  }

  lemma FormStarted(db: DB, st: State, p: nat)
    requires p < |db| && AllStarted(st, Forms(db, p))
    ensures db[p].fwd.Some? ==> p in st.forwarded
  {
    assert db[p].fwd.Some? ==> FwdItem(p) in Forms(db, p);
  }

  lemma {:induction false} ForwardsCloses(db: DB, hidden: set<nat>, st: State, p: nat)
    requires Simple(db) && Base(db, hidden, st) && p < |db| && p !in hidden
    ensures Closes(db, hidden, st, Forwards(db, st, [p], false).0, Forms(db, p))
    decreases Remaining(db, st), 3, 0
  {
    ForwardsOne(db, st, p);
    if db[p].fwd.None? || p in st.forwarded {
      ClosesSelf(db, hidden, st);
      ClosesAlso(db, hidden, st, st, {}, Forms(db, p));
    } else {
      WriteForwardCloses(db, hidden, st, p);
    }
  }

  // ---------------------------------------------------------------------------------------------
  // Full declarations

  lemma StartFullBase(db: DB, hidden: set<nat>, st: State, p: nat, full: bool)
    requires Base(db, hidden, st) && p < |db| && p !in hidden && Wanted(db, st, p, full)
    requires db[p].fwd.Some? ==> p in st.forwarded
    ensures var st1 := st.(forwarded := st.forwarded + {p}, declared := st.declared + {p}, flagged := st.flagged + {p});
            StartsItem(db, hidden, st, st1, FullItem(p)) && Base(db, hidden, st1)
  {
    hide CondTargets;
    var st1 := st.(forwarded := st.forwarded + {p}, declared := st.declared + {p}, flagged := st.flagged + {p});
    StartBase(db, hidden, st, st1);
  }

  lemma BelowFlagged(db: DB, st: State, p: nat, bound: nat)
    requires p < |db| && ValidChain(db, [p]) && Below(db, st, [p], bound) && p in st.flagged
    ensures Remaining(db, st) < bound
  {
    assert [p][0] in st.flagged;
  }

  lemma StartFull(db: DB, hidden: set<nat>, st: State, p: nat, full: bool, bound: nat)
    requires Base(db, hidden, st) && p < |db| && p !in hidden && Wanted(db, st, p, full)
    requires db[p].fwd.Some? ==> p in st.forwarded
    requires Remaining(db, st) <= bound
    ensures var st1 := Mark(db, st, [p], full);
            && StartsItem(db, hidden, st, st1, FullItem(p)) && Base(db, hidden, st1)
            && Remaining(db, st1) < bound && Below(db, st1, [p], bound)
            && p in st1.flagged && p in st1.declared && p in st1.forwarded
  {
    hide *;
    OneChain(db, p);
    MarkOne(db, st, p, full);
    MarkDrops(db, st, [p], full, bound);
    StartFullBase(db, hidden, st, p, full);
    BelowFlagged(db, Mark(db, st, [p], full), p, bound);
  }

  lemma UndeclaredOwnsFlags(db: DB, st: State, r: State, p: nat)
    requires FrameBut(db, st, r, {}, Members([p])) && p !in st.declared
    ensures Frame(db, st, r)
  {
  }

  lemma FlagSurvives(db: DB, st: State, r: State, p: nat)
    requires OnePerName(db) && Frame(db, st, r) && p in st.flagged && p in st.declared && p in st.forwarded
    ensures p in r.flagged
  {
  }

  // With one declaration per name, what is marked is written by the same call.
  lemma {:induction false} MarkedWrites(
    db: DB, hidden: set<nat>, st: State, p: nat, full: bool, done: bool, bound: nat)
    requires Simple(db) && Base(db, hidden, st) && p < |db| && p !in hidden && Wanted(db, st, p, full)
    requires (db[p].fwd.Some? ==> p in st.forwarded) && (done ==> db[p].fwd.Some?)
    requires AllStarted(st, IncludeItems(db[p].includes)) && Remaining(db, st) <= bound
    ensures Closes(db, hidden, st, MarkAndWrite(db, st, [p], full, done, bound), {FullItem(p)})
    decreases bound, 3, 0
  {
    hide *;
    SimpleIs(db);
    OneChain(db, p);
    MarkAndWriteOne(db, st, p, full, done, bound);
    var text := db[p].text.value;
    var texts := TextTargets(db, hidden, text);
    var st1 := Mark(db, st, [p], full);
    var r := MarkAndWrite(db, st, [p], full, done, bound);
    StartFull(db, hidden, st, p, full, bound);
    MarkedFrame(db, st, [p], full, done, bound);
    UndeclaredOwnsFlags(db, st, r, p);
    PlainWhenDone(db, p, done);
    var st2 := ScanText(db, st1, text);
    ScanTextCloses(db, hidden, st1, text);
    ScanTextLess(db, st1, text);
    ClosesBase(db, hidden, st1, st2, texts);
    FlagSurvives(db, st1, st2, p);
    WriteMarkedOne(db, st1, p, done, bound);
    FullCloses(db, hidden, st, st1, st2, r, p);
  }

  lemma PlainWhenDone(db: DB, p: nat, done: bool)
    requires WellFormed(db) && p < |db| && db[p].text.Some? && (done ==> db[p].fwd.Some?)
    ensures done ==> db[p].kind.Plain?
  {
  }

  lemma WrittenSameBits(db: DB, st: State, r: State, p: nat)
    requires p < |db|
    requires var w := WriteFull(db, st, p); r == w || r == w.(flagged := w.flagged - {p})
    ensures var st1 := ChangeIfContext(db, st, db[p].cond); SameBits(st1, r) && r.out == st1.out + [Full(p)]
  {
    hide ChangeIfContext;
  }

  lemma {:induction false} FullCloses(
    db: DB, hidden: set<nat>, st: State, st1: State, st2: State, r: State, p: nat)
    requires Simple(db) && Base(db, hidden, st) && p < |db| && p !in hidden && p !in st.declared && db[p].text.Some?
    requires db[p].fwd.Some? ==> p in st.forwarded
    requires AllStarted(st, IncludeItems(db[p].includes))
    requires StartsItem(db, hidden, st, st1, FullItem(p))
    requires Closes(db, hidden, st1, st2, TextTargets(db, hidden, db[p].text.value))
    requires var w := WriteFull(db, st2, p); r == w || r == w.(flagged := w.flagged - {p})
    requires Frame(db, st, r)
    ensures Closes(db, hidden, st, r, {FullItem(p)})
    decreases Remaining(db, st2), 8
  {
    hide *;
    FullIsReal(db, hidden, p);
    WriteFullIs(db, st2, p);
    var texts := TextTargets(db, hidden, db[p].text.value);
    var conds := CondTargets(db, hidden, db[p].cond);
    var st3 := ChangeIfContext(db, st2, db[p].cond);
    ClosesBase(db, hidden, st1, st2, texts);
    ChangeIfContextCloses(db, hidden, st2, db[p].cond);
    ClosesTrans(db, hidden, st1, st2, st3, texts, conds);
    FullNeeds(db, hidden, st, st1, st3, p);
    WrittenSameBits(db, st2, r, p);
    ItemCloses(db, hidden, st, st1, st3, r, FullItem(p), Full(p), texts + conds);
  }

  lemma FullNeeds(db: DB, hidden: set<nat>, st: State, st1: State, st3: State, p: nat)
    requires p < |db| && db[p].text.Some? && StartsItem(db, hidden, st, st1, FullItem(p))
    requires db[p].fwd.Some? ==> p in st.forwarded
    requires AllStarted(st, IncludeItems(db[p].includes))
    requires var needs := TextTargets(db, hidden, db[p].text.value) + CondTargets(db, hidden, db[p].cond);
             Closes(db, hidden, st1, st3, needs)
    ensures AllStarted(st3, Needs(db, hidden, FullItem(p)))
    ensures TextTargets(db, hidden, db[p].text.value) + CondTargets(db, hidden, db[p].cond)
            <= Needs(db, hidden, FullItem(p))
  {
    hide TextTargets, CondTargets, Base, Linked, Caused, SameUnderWay;
  }

  lemma UnwantedIsSkipped(db: DB, st: State, p: nat, full: bool, done: bool, bound: nat)
    requires p < |db| && !Wanted(db, st, p, full) && Remaining(db, st) <= bound
    ensures MarkAndWrite(db, st, [p], full, done, bound) == st.(flagged := st.flagged - {p})
  {
    hide Mark, WriteMarked, Remaining, Below, ScanText, Wanted;
    MarkOne(db, st, p, full);
    MarkDrops(db, st, [p], full, bound);
    WriteMarkedNone(db, Mark(db, st, [p], full), p, done, bound);
  }

  // Items that another one needs are accounted for by that one.
  lemma ClosesShrink(db: DB, hidden: set<nat>, st: State, r: State, items: set<Item>, g: Item)
    requires Closes(db, hidden, st, r, items + {g}) && items <= Needs(db, hidden, g)
    ensures Closes(db, hidden, st, r, {g})
  {
    forall x | Started(r, x) && !Started(st, x) && Real(db, hidden, x) ensures From(db, hidden, {g}, x) {
      var t :| t in items + {g} && (t == x || Reaches(db, hidden, t, x));
      if t == g {
        assert t in {g};
      } else {
        assert From(db, hidden, items, x);
        FromNeeds(db, hidden, items, g, x);
      }
    }
  }

  lemma ClosesReflag(db: DB, hidden: set<nat>, st: State, r: State, flagged: set<nat>, items: set<Item>)
    requires Closes(db, hidden, st, r, items) && Frame(db, st, r.(flagged := flagged))
    ensures Closes(db, hidden, st, r.(flagged := flagged), items)
  {
    var q := r.(flagged := flagged);
    assert forall x :: Started(q, x) == Started(r, x) && Count(q.out, x) == Count(r.out, x);
  }

  ghost function FullTargets(db: DB, p: nat): set<Item>
    requires p < |db|
  {
    if db[p].text.Some? then {FullItem(p)} else IncludeItems(db[p].includes)
  }

  // From the #includes on (2613-2691), for a declaration that is not suitably declared yet.
  lemma {:induction false} RestCloses(
    db: DB, hidden: set<nat>, st: State, p: nat, full: bool, done: bool, bound: nat)
    requires Simple(db) && Base(db, hidden, st) && p < |db| && p !in hidden && !Suitable(st, [p], full)
    requires (db[p].fwd.Some? ==> p in st.forwarded) && (done ==> db[p].fwd.Some?)
    requires Remaining(db, st) <= bound && ValidChain(db, [p]) && Remaining(db, AllIncludes(db, st, [p])) <= bound
    ensures var st1 := AllIncludes(db, st, [p]);
            Closes(db, hidden, st, MarkAndWrite(db, st1, [p], full, done, bound), FullTargets(db, p))
    decreases bound, 3, 1
  {
    hide Closes, Base, Remaining, Mark, FrameBut, Below;
    var incs := IncludeItems(db[p].includes);
    var st1 := AllIncludes(db, st, [p]);
    AllIncludesOne(db, st, p);
    AllIncludesCloses(db, hidden, st, p);
    ClosesBase(db, hidden, st, st1, incs);
    var r := MarkAndWrite(db, st1, [p], full, done, bound);
    MarkedFrame(db, st1, [p], full, done, bound);
    OwnFlags(db, st, st1, r, [p], full);
    if Wanted(db, st1, p, full) {
      StillForwarded(db, st, st1, p);
      MarkedWrites(db, hidden, st1, p, full, done, bound);
      ClosesTrans(db, hidden, st, st1, r, incs, {FullItem(p)});
      ClosesShrink(db, hidden, st, r, incs, FullItem(p));
    } else {
      UnwantedIsSkipped(db, st1, p, full, done, bound);
      ClosesReflag(db, hidden, st, st1, st1.flagged - {p}, incs);
      if db[p].text.Some? {
        UnwantedIsDeclared(db, st, st1, p, full);
        ClosesAlso(db, hidden, st, r, incs, incs + {FullItem(p)});
        ClosesShrink(db, hidden, st, r, incs, FullItem(p));
      }
    }
  }

  lemma UnwantedIsDeclared(db: DB, st: State, st1: State, p: nat, full: bool)
    requires p < |db| && !Suitable(st, [p], full) && (db[p].fwd.Some? ==> p in st.forwarded)
    requires db[p].text.Some? && !Wanted(db, st1, p, full)
    ensures p in st1.declared
  {
    assert [p][0] == p;
  }

  lemma StillForwarded(db: DB, st: State, r: State, p: nat)
    requires p < |db| && Frame(db, st, r) && (db[p].fwd.Some? ==> p in st.forwarded)
    ensures db[p].fwd.Some? ==> p in r.forwarded
  {
  }

  lemma {:induction false} AllIncludesCloses(db: DB, hidden: set<nat>, st: State, p: nat)
    requires Simple(db) && Base(db, hidden, st) && p < |db|
    ensures Closes(db, hidden, st, AllIncludes(db, st, [p]), IncludeItems(db[p].includes))
    decreases Remaining(db, st), 2
  {
    hide Closes, Base, Simple;
    AllIncludesOne(db, st, p);
    assert OccurAll(db, db[p].includes);
    AddIncludesCloses(db, hidden, st, db[p].includes);
  }

  lemma HiddenIsSuitable(db: DB, hidden: set<nat>, st: State, p: nat, full: bool)
    requires Base(db, hidden, st) && p < |db| && p in hidden
    ensures DeclareObject(db, st, [p], full) == st
  {
    ForwardsOne(db, st, p);
    assert Suitable(st, [p], full);
  }

  // The early return is justified.
  lemma SuitableIsEnough(db: DB, hidden: set<nat>, st: State, p: nat, full: bool)
    requires Base(db, hidden, st) && p < |db| && p !in hidden && Suitable(st, [p], full)
    ensures AllStarted(st, Targets(db, hidden, p, full))
  {
    assert [p][0] == p;
  }

  lemma RestTargets(db: DB, hidden: set<nat>, st: State, p: nat, full: bool)
    requires p < |db| && p !in hidden && !Suitable(st, [p], full) && (db[p].fwd.Some? ==> p in st.forwarded)
    ensures Targets(db, hidden, p, full) == Forms(db, p) + FullTargets(db, p)
  {
    assert [p][0] == p;
  }

  lemma ForwardsDone(db: DB, st: State, p: nat)
    requires p < |db|
    ensures Forwards(db, st, [p], false).1 ==> db[p].fwd.Some?
  {
    ForwardsOne(db, st, p);
  }

  lemma {:induction false} DeclareOneCloses(db: DB, hidden: set<nat>, st: State, p: nat, full: bool)
    requires Simple(db) && Base(db, hidden, st) && p < |db| && p !in hidden
    ensures Closes(db, hidden, st, DeclareObject(db, st, [p], full), Targets(db, hidden, p, full))
    decreases Remaining(db, st), 3, 5
  {
    hide *;
    OneChain(db, p);
    var (st1, done) := Forwards(db, st, [p], false);
    DeclareObjectOne(db, st, p, full);
    ForwardsCloses(db, hidden, st, p);
    ForwardsDone(db, st, p);
    ClosesBase(db, hidden, st, st1, Forms(db, p));
    if Suitable(st1, [p], full) {
      SuitableIsEnough(db, hidden, st1, p, full);
      FormsAreTargets(db, hidden, p, full);
      ClosesAlso(db, hidden, st, st1, Forms(db, p), Targets(db, hidden, p, full));
    } else {
      FormStarted(db, st1, p);
      RestTargets(db, hidden, st1, p, full);
      RestCloses(db, hidden, st1, p, full, done, Remaining(db, st));
      ClosesTrans(db, hidden, st, st1, DeclareObject(db, st, [p], full), Forms(db, p), FullTargets(db, p));
    }
  }

  lemma {:induction false} DeclareObjectCloses(db: DB, hidden: set<nat>, st: State, chain: seq<nat>, full: bool)
    requires Simple(db) && Base(db, hidden, st) && ValidChain(db, chain) && chain != []
    ensures Closes(db, hidden, st, DeclareObject(db, st, chain, full), ChainTargets(db, hidden, chain, full))
    decreases Remaining(db, st), 4
  {
    hide Closes, DeclareObject, Remaining;
    ShortChain(db, chain);
    var p := chain[0];
    assert chain == [p];
    if p in hidden {
      HiddenIsSuitable(db, hidden, st, p, full);
      ClosesSelf(db, hidden, st);
    } else {
      DeclareOneCloses(db, hidden, st, p, full);
    }
  }
}

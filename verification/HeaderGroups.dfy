// Several declarations of one name, none with a forward form, such as a function under #if and #else
// (tools/cnoh.c:2617-2691): which of their texts a header has.

module HeaderGroups {
  import opened Options
  import opened Declarations
  import opened HeaderSpec
  import opened HeaderFrame
  import opened HeaderSteps
  import opened HeaderRun

  // All declarations of one name; each has a text and none has a forward form.
  ghost predicate Group(db: DB, g: seq<nat>) {
    && g != [] && ValidChain(db, g) && g == Chain(db, db[g[0]].name)
    && forall k | 0 <= k < |g| :: db[g[k]].fwd.None? && db[g[k]].text.Some?
  }

  ghost predicate HasEnum(db: DB, g: seq<nat>, i: nat)
    requires ValidChain(db, g)
  {
    exists j | 0 <= j < i && j < |g| :: db[g[j]].kind.Enumeration?
  }

  // Written by the first output loop: all but typedefs, and of enumerations the first one.
  ghost predicate Defined(db: DB, g: seq<nat>, k: nat)
    requires ValidChain(db, g) && k < |g|
  {
    db[g[k]].kind.Plain? || (db[g[k]].kind.Enumeration? && !HasEnum(db, g, k))
  }

  // And by the second one: the first typedef, if there is no enumeration.
  ghost predicate Written(db: DB, g: seq<nat>, k: nat)
    requires ValidChain(db, g) && k < |g|
  {
    || Defined(db, g, k)
    || (db[g[k]].kind.Typedef? && !HasEnum(db, g, |g|) && forall j | 0 <= j < k :: !db[g[j]].kind.Typedef?)
  }

  // ---------------------------------------------------------------------------------------------
  // What every routine does to the group: nothing, or all that is to be done

  ghost predicate AllMarked(st: State, g: seq<nat>) {
    forall k | 0 <= k < |g| :: g[k] in st.declared && g[k] in st.forwarded
  }

  ghost predicate NoneMarked(st: State, g: seq<nat>) {
    forall k | 0 <= k < |g| :: g[k] !in st.declared && g[k] !in st.forwarded
  }

  ghost predicate SameCounts(st: State, r: State, g: seq<nat>) {
    forall k | 0 <= k < |g| :: Count(r.out, FullItem(g[k])) == Count(st.out, FullItem(g[k]))
  }

  ghost predicate SameFlags(st: State, r: State, g: seq<nat>) {
    forall k | 0 <= k < |g| :: g[k] in r.flagged <==> g[k] in st.flagged
  }

  ghost predicate WrittenNow(db: DB, st: State, r: State, g: seq<nat>)
    requires ValidChain(db, g)
  {
    forall k | 0 <= k < |g| ::
      Count(r.out, FullItem(g[k])) == Count(st.out, FullItem(g[k])) + if Written(db, g, k) then 1 else 0
  }

  // What a reference asks for has been dealt with: forward forms, and full declarations if it asks for them.
  ghost predicate RefMet(db: DB, r: State, ref: Ref) {
    forall p | p in ref.chain && p < |db| ::
      && (db[p].fwd.Some? ==> p in r.forwarded)
      && (ref.full && db[p].text.Some? ==> p in r.declared)
  }

  ghost predicate TextMet(db: DB, r: State, toks: Text) {
    forall j | 0 <= j < |Refs(db, toks, None)| :: RefMet(db, r, Refs(db, toks, None)[j])
  }

  ghost predicate IncludesMet(r: State, incs: seq<Include>) {
    forall j | 0 <= j < |incs| :: incs[j].key in r.seen
  }

  // What the texts of all members name, and their #includes.
  ghost predicate Met(db: DB, g: seq<nat>, r: State)
    requires ValidChain(db, g)
  {
    forall k | 0 <= k < |g| && db[g[k]].text.Some? ::
      TextMet(db, r, db[g[k]].text.value) && IncludesMet(r, db[g[k]].includes)
  }

  lemma MetGrows(db: DB, g: seq<nat>, st: State, r: State)
    requires ValidChain(db, g) && Met(db, g, st) && Grown(st, r)
    ensures Met(db, g, r)
  {
    hide Refs;
  }

  ghost predicate Keeps(db: DB, g: seq<nat>, st: State, r: State)
    requires ValidChain(db, g)
  {
    && (AllMarked(st, g) ==> AllMarked(r, g) && SameCounts(st, r, g) && SameFlags(st, r, g) && Grown(st, r))
    && (NoneMarked(st, g) ==>
          || (NoneMarked(r, g) && SameCounts(st, r, g))
          || (AllMarked(r, g) && WrittenNow(db, st, r, g) && Met(db, g, r)))
  }

  lemma KeepsSelf(db: DB, g: seq<nat>, st: State)
    requires ValidChain(db, g)
    ensures Keeps(db, g, st, st)
  {
  }

  lemma KeepsTrans(db: DB, g: seq<nat>, a: State, b: State, c: State)
    requires ValidChain(db, g) && Keeps(db, g, a, b) && Keeps(db, g, b, c)
    ensures Keeps(db, g, a, c)
  {
    hide Written, Count, Met;
    if AllMarked(b, g) && Met(db, g, b) {
      MetGrows(db, g, b, c);
    }
  }

  // The bits of the group stay as they are, and none of its texts is written.
  ghost predicate Untouched(g: seq<nat>, st: State, r: State) {
    && SameCounts(st, r, g) && SameFlags(st, r, g) && Grown(st, r)
    && forall k | 0 <= k < |g| ::
         (g[k] in r.declared <==> g[k] in st.declared) && (g[k] in r.forwarded <==> g[k] in st.forwarded)
  }

  lemma UntouchedKeeps(db: DB, g: seq<nat>, st: State, r: State)
    requires ValidChain(db, g) && Untouched(g, st, r)
    ensures Keeps(db, g, st, r)
  {
    hide Count, Written, Met;
  }

  // Anything but a text of the group is written.
  lemma EmitUntouched(g: seq<nat>, st: State, e: Event)
    requires e.Full? ==> e.q !in g
    ensures Untouched(g, st, st.Emit(e))
  {
    forall k | 0 <= k < |g| ensures Count(st.Emit(e).out, FullItem(g[k])) == Count(st.out, FullItem(g[k])) {
      CountEmit(st.out, e, FullItem(g[k]));
    }
  }

  lemma EmitKeeps(db: DB, g: seq<nat>, st: State, r: State, e: Event)
    requires ValidChain(db, g) && Keeps(db, g, st, r) && (e.Full? ==> e.q !in g)
    ensures Keeps(db, g, st, r.Emit(e))
  {
    EmitUntouched(g, r, e);
    UntouchedKeeps(db, g, r, r.Emit(e));
    KeepsTrans(db, g, st, r, r.Emit(e));
  }

  lemma ContextKeeps(db: DB, g: seq<nat>, st: State, cond: Option<Text>)
    requires ValidChain(db, g)
    ensures Keeps(db, g, st, st.(cond := cond))
  {
    UntouchedKeeps(db, g, st, st.(cond := cond));
  }

  lemma CloseIfOpenKeeps(db: DB, g: seq<nat>, st: State)
    requires ValidChain(db, g)
    ensures Keeps(db, g, st, CloseIfOpen(st))
  {
    hide Keeps;
    KeepsSelf(db, g, st);
    if st.cond.Some? {
      EmitKeeps(db, g, st, st, CloseIf);
      ContextKeeps(db, g, st.Emit(CloseIf), None);
      KeepsTrans(db, g, st, st.Emit(CloseIf), CloseIfOpen(st));
    }
  }

  // Another group than this one, or this one.
  ghost predicate Whole(g: seq<nat>, chain: seq<nat>) {
    chain == g || forall p | p in chain :: p !in g
  }

  ghost predicate WholeRefs(g: seq<nat>, refs: seq<Ref>) {
    forall k | 0 <= k < |refs| :: Whole(g, refs[k].chain)
  }

  lemma NamesAreWhole(db: DB, g: seq<nat>, name: string)
    requires Group(db, g)
    ensures Whole(g, Chain(db, name))
  {
  }

  // A text refers to whole groups only.
  lemma {:induction false} RefsAreWhole(db: DB, g: seq<nat>, toks: Text, ahead: Option<Tok>)
    requires Group(db, g)
    ensures WholeRefs(g, Refs(db, toks, ahead))
    decreases Size(toks), if ahead.Some? then 1 else 0
  {
    hide Chain, Group, Whole;
    if toks != [] {
      var (tok, rest) := if ahead.Some? then (ahead, toks) else NextTok(toks);
      RoundSize(toks, ahead);
      if tok.Some? && tok.value.Id? {
        NamesAreWhole(db, g, tok.value.name);
        if Chain(db, tok.value.name) == [] {
          RefsAreWhole(db, g, rest, None);
        } else {
          var (next, beyond) := NextTok(rest);
          RefsAreWhole(db, g, beyond, if !IsStar(next) && next.Some? && next.value.Id? then next else None);
        }
      } else if tok.Some? && tok.value.Directive? {
        if ahead.None? {
          RefsAreWhole(db, g, tok.value.body + rest, None);
        }
      } else {
        RefsAreWhole(db, g, rest, None);
      }
    }
  }

  // ---------------------------------------------------------------------------------------------
  // The routines

  lemma {:induction false} ScanRefsKeeps(db: DB, g: seq<nat>, st: State, refs: seq<Ref>)
    requires WellFormed(db) && Group(db, g) && ValidRefs(db, refs) && WholeRefs(g, refs)
    ensures Keeps(db, g, st, ScanRefs(db, st, refs))
    decreases Remaining(db, st), 5, |refs|
  {
    hide Keeps, Remaining, DeclareObject, Group, Whole;
    GroupIs(db, g);
    if refs == [] {
      KeepsSelf(db, g, st);
    } else {
      var st1 := DeclareObject(db, st, refs[0].chain, refs[0].full);
      DeclareObjectKeeps(db, g, st, refs[0].chain, refs[0].full);
      ScanRefsKeeps(db, g, st1, refs[1..]);
      KeepsTrans(db, g, st, st1, ScanRefs(db, st1, refs[1..]));
    }
  }

  lemma GroupIs(db: DB, g: seq<nat>)
    requires Group(db, g)
    ensures g != [] && ValidChain(db, g)
    ensures forall k | 0 <= k < |g| :: db[g[k]].fwd.None? && db[g[k]].text.Some?
  {
  }

  lemma {:induction false} ScanTextKeeps(db: DB, g: seq<nat>, st: State, toks: Text)
    requires WellFormed(db) && Group(db, g)
    ensures Keeps(db, g, st, ScanText(db, st, toks))
    decreases Remaining(db, st), 6
  {
    RefsAreWhole(db, g, toks, None);
    ScanRefsKeeps(db, g, st, Refs(db, toks, None));
  }

  lemma {:induction false} ChangeIfContextKeeps(db: DB, g: seq<nat>, st: State, cond: Option<Text>)
    requires WellFormed(db) && Group(db, g)
    ensures Keeps(db, g, st, ChangeIfContext(db, st, cond))
    decreases Remaining(db, st), 7
  {
    hide Keeps, Remaining, ScanText, Group;
    GroupIs(db, g);
    if st.cond == cond {
      KeepsSelf(db, g, st);
    } else {
      CloseIfOpenKeeps(db, g, st);
      CloseKeeps(db, st);
      if cond.Some? {
        var st1 := CloseIfOpen(st);
        var st2 := ScanText(db, st1, cond.value);
        ScanTextKeeps(db, g, st1, cond.value);
        KeepsTrans(db, g, st, st1, st2);
        ReopenKeeps(db, g, st2, cond);
        KeepsTrans(db, g, st, st2, CloseIfOpen(st2).Emit(OpenIf(cond.value)).(cond := cond));
      }
    }
  }

  lemma ReopenKeeps(db: DB, g: seq<nat>, st: State, cond: Option<Text>)
    requires ValidChain(db, g) && cond.Some?
    ensures Keeps(db, g, st, CloseIfOpen(st).Emit(OpenIf(cond.value)).(cond := cond))
  {
    hide Keeps;
    var st1 := CloseIfOpen(st).Emit(OpenIf(cond.value));
    CloseIfOpenKeeps(db, g, st);
    EmitKeeps(db, g, st, CloseIfOpen(st), OpenIf(cond.value));
    ContextKeeps(db, g, st1, cond);
    KeepsTrans(db, g, st, st1, st1.(cond := cond));
  }

  lemma {:induction false} AddIncludesKeeps(db: DB, g: seq<nat>, st: State, incs: seq<Include>)
    requires WellFormed(db) && Group(db, g) && KnownIncludes(db, incs)
    ensures Keeps(db, g, st, AddIncludes(db, st, incs))
    decreases Remaining(db, st), 1, |incs|
  {
    hide Keeps, Remaining, ChangeIfContext, Group;
    GroupIs(db, g);
    if incs == [] {
      KeepsSelf(db, g, st);
    } else {
      var st1 := AddIncludes(db, st, incs[1..]);
      AddIncludesKeeps(db, g, st, incs[1..]);
      if incs[0].key !in st1.seen {
        var st2 := st1.(seen := st1.seen + {incs[0].key});
        SetSeenDrops(db, st1, incs[0].key);
        UntouchedKeeps(db, g, st1, st2);
        ChangeIfContextKeeps(db, g, st2, incs[0].cond);
        var st3 := ChangeIfContext(db, st2, incs[0].cond);
        KeepsTrans(db, g, st, st1, st2);
        KeepsTrans(db, g, st, st2, st3);
        EmitKeeps(db, g, st, st3, Incl(incs[0]));
      }
    }
  }

  lemma {:induction false} ForwardsKeeps(db: DB, g: seq<nat>, st: State, chain: seq<nat>, done: bool)
    requires WellFormed(db) && Group(db, g) && ValidChain(db, chain)
    ensures Keeps(db, g, st, Forwards(db, st, chain, done).0)
    decreases Remaining(db, st), 3, |chain|
  {
    hide Keeps, Remaining, ChangeIfContext, Group;
    GroupIs(db, g);
    if chain == [] {
      KeepsSelf(db, g, st);
    } else {
      var p := chain[0];
      if db[p].fwd.None? || p in st.forwarded {
        ForwardsKeeps(db, g, st, chain[1..], done);
      } else {
        var st1 := st.(forwarded := st.forwarded + {p});
        var skip := db[p].fwd.value.isTypedef && done;
        var st2 := if skip then st1 else ChangeIfContext(db, st1, db[p].cond);
        var st3 := if skip then st1 else WriteForward(db, st, p);
        SetForwardedDrops(db, st, p);
        UntouchedKeeps(db, g, st, st1);
        if !skip {
          WriteForwardIs(db, st, p);
          ChangeIfContextKeeps(db, g, st1, db[p].cond);
          KeepsTrans(db, g, st, st1, st2);
          EmitKeeps(db, g, st, st2, Fwd(p));
        }
        ForwardsKeeps(db, g, st3, chain[1..], done || db[p].fwd.value.isTypedef);
        KeepsTrans(db, g, st, st3, Forwards(db, st3, chain[1..], done || db[p].fwd.value.isTypedef).0);
      }
    }
  }

  lemma {:induction false} AllIncludesKeeps(db: DB, g: seq<nat>, st: State, chain: seq<nat>)
    requires WellFormed(db) && Group(db, g) && ValidChain(db, chain)
    ensures Keeps(db, g, st, AllIncludes(db, st, chain))
    decreases Remaining(db, st), 2, |chain|
  {
    hide Keeps, Remaining, AddIncludes, Group;
    GroupIs(db, g);
    if chain == [] {
      KeepsSelf(db, g, st);
    } else {
      var st1 := AddIncludes(db, st, db[chain[0]].includes);
      AddIncludesKeeps(db, g, st, db[chain[0]].includes);
      AllIncludesKeeps(db, g, st1, chain[1..]);
      KeepsTrans(db, g, st, st1, AllIncludes(db, st1, chain[1..]));
    }
  }

  lemma {:induction false} ScanFlaggedKeeps(db: DB, g: seq<nat>, st: State, chain: seq<nat>, bound: nat)
    requires WellFormed(db) && Group(db, g) && ValidChain(db, chain) && Below(db, st, chain, bound)
    ensures Keeps(db, g, st, ScanFlagged(db, st, chain, bound))
    decreases bound, 3, |chain|
  {
    hide Keeps, Remaining, Below, ScanFlagged, ScanText, Group;
    GroupIs(db, g);
    if chain == [] {
      BelowIs(db, st, chain, bound);
      LoopEnds(db, st, false, bound);
      KeepsSelf(db, g, st);
    } else {
      assert chain[0..] == chain;
      ScanFlaggedStep(db, st, chain, bound, 0);
      if chain[0] in st.flagged {
        var st1 := ScanText(db, st, db[chain[0]].text.value);
        ScanTextKeeps(db, g, st, db[chain[0]].text.value);
        ScanFlaggedKeeps(db, g, st1, chain[1..], bound);
        KeepsTrans(db, g, st, st1, ScanFlagged(db, st1, chain[1..], bound));
      } else {
        ScanFlaggedKeeps(db, g, st, chain[1..], bound);
      }
    }
  }

  // ---------------------------------------------------------------------------------------------
  // Writing another group

  ghost predicate Apart(g: seq<nat>, chain: seq<nat>) {
    forall p | p in chain :: p !in g
  }

  lemma ApartRest(g: seq<nat>, chain: seq<nat>)
    requires Apart(g, chain) && chain != []
    ensures chain[0] !in g && Apart(g, chain[1..])
  {
    assert chain[0] in chain;
  }

  lemma UnflagKeeps(db: DB, g: seq<nat>, st: State, p: nat)
    requires ValidChain(db, g) && p !in g
    ensures Keeps(db, g, st, st.(flagged := st.flagged - {p}))
  {
    UntouchedKeeps(db, g, st, st.(flagged := st.flagged - {p}));
  }

  lemma {:induction false} DefinitionsKeeps(
    db: DB, g: seq<nat>, st: State, rest: seq<nat>, done: bool, bound: nat)
    requires WellFormed(db) && Group(db, g) && ValidChain(db, rest) && Below(db, st, rest, bound) && Apart(g, rest)
    ensures Keeps(db, g, st, Definitions(db, st, rest, done, bound).0)
    decreases bound, 3, |rest|
  {
    hide Keeps, Definitions, Below, ChangeIfContext, Remaining, Group, Apart;
    GroupIs(db, g);
    if rest == [] {
      BelowIs(db, st, rest, bound);
      LoopEnds(db, st, done, bound);
      KeepsSelf(db, g, st);
    } else {
      var p := rest[0];
      assert rest[0..] == rest;
      ApartRest(g, rest);
      DefinitionsStep(db, st, rest, done, bound, 0);
      if Skipped(db, st, p, done) {
        DefinitionsKeeps(db, g, st, rest[1..], done, bound);
      } else {
        ChangeIfContextKeeps(db, g, st, db[p].cond);
        var w := ChangeIfContext(db, st, db[p].cond).Emit(Full(p));
        var st1 := w.(flagged := w.flagged - {p});
        EmitKeeps(db, g, st, ChangeIfContext(db, st, db[p].cond), Full(p));
        UnflagKeeps(db, g, w, p);
        KeepsTrans(db, g, st, w, st1);
        DefinitionsKeeps(db, g, st1, rest[1..], done || db[p].kind.Enumeration?, bound);
        KeepsTrans(db, g, st, st1, Definitions(db, st1, rest[1..], done || db[p].kind.Enumeration?, bound).0);
      }
    }
  }

  lemma {:induction false} FirstTypedefKeeps(
    db: DB, g: seq<nat>, st: State, rest: seq<nat>, done: bool, bound: nat)
    requires WellFormed(db) && Group(db, g) && ValidChain(db, rest) && Below(db, st, rest, bound) && Apart(g, rest)
    ensures Keeps(db, g, st, FirstTypedef(db, st, rest, done, bound))
    decreases bound, 3, |rest|
  {
    hide Keeps, FirstTypedef, Below, ChangeIfContext, Remaining, Group, Apart;
    GroupIs(db, g);
    if rest == [] || done {
      BelowIs(db, st, rest, bound);
      TypedefEnds(db, st, rest, done, bound);
      KeepsSelf(db, g, st);
    } else {
      var p := rest[0];
      assert rest[0..] == rest;
      ApartRest(g, rest);
      FirstTypedefStep(db, st, rest, bound, 0);
      if p in st.flagged {
        ChangeIfContextKeeps(db, g, st, db[p].cond);
        EmitKeeps(db, g, st, ChangeIfContext(db, st, db[p].cond), Full(p));
      } else {
        FirstTypedefKeeps(db, g, st, rest[1..], done, bound);
      }
    }
  }

  lemma MarkKeeps(db: DB, g: seq<nat>, st: State, chain: seq<nat>, full: bool)
    requires ValidChain(db, g) && ValidChain(db, chain) && Apart(g, chain)
    ensures Keeps(db, g, st, Mark(db, st, chain, full))
  {
    hide Remaining, Keeps;
    MarkIs(db, st, chain, full);
    assert forall p | p in AllWanted(db, st, chain, full) :: p in chain;
    forall k | 0 <= k < |g| ensures g[k] !in chain {
      assert g[k] in g;
    }
    UntouchedKeeps(db, g, st, Mark(db, st, chain, full));
  }

  lemma {:induction false} OtherKeeps(
    db: DB, g: seq<nat>, st: State, chain: seq<nat>, full: bool, done: bool, bound: nat)
    requires WellFormed(db) && Group(db, g) && ValidChain(db, chain) && Remaining(db, st) <= bound && Apart(g, chain)
    ensures Keeps(db, g, st, MarkAndWrite(db, st, chain, full, done, bound))
    decreases bound, 3, |chain| + 2
  {
    hide Keeps, Definitions, Below, ScanFlagged, FirstTypedef, Remaining, Group, Apart, Mark;
    GroupIs(db, g);
    MarkDrops(db, st, chain, full, bound);
    MarkKeeps(db, g, st, chain, full);
    var st1 := Mark(db, st, chain, full);
    WriteMarkedParts(db, st1, chain, done, bound);
    var st2 := ScanFlagged(db, st1, chain, bound);
    var (st3, done2) := Definitions(db, st2, chain, done, bound);
    ScanFlaggedKeeps(db, g, st1, chain, bound);
    DefinitionsKeeps(db, g, st2, chain, done, bound);
    FirstTypedefKeeps(db, g, st3, chain, done2, bound);
    KeepsTrans(db, g, st, st1, st2);
    KeepsTrans(db, g, st, st2, st3);
    KeepsTrans(db, g, st, st3, FirstTypedef(db, st3, chain, done2, bound));
  }

  // ---------------------------------------------------------------------------------------------
  // Writing this group

  // The first output loop has dealt with the first i members; "base" is the state before it.
  ghost predicate Under(db: DB, g: seq<nat>, base: State, st: State, i: nat)
    requires ValidChain(db, g)
  {
    && AllMarked(st, g)
    && forall k | 0 <= k < |g| ::
         && (g[k] in st.flagged <==> k >= i || !Defined(db, g, k))
         && Count(st.out, FullItem(g[k]))
            == Count(base.out, FullItem(g[k])) + if k < i && Defined(db, g, k) then 1 else 0
  }

  lemma UnderStays(db: DB, g: seq<nat>, base: State, st: State, r: State, i: nat)
    requires ValidChain(db, g) && Under(db, g, base, st, i) && Keeps(db, g, st, r)
    ensures Under(db, g, base, r, i) && Grown(st, r)
  {
    hide Defined, Count, Written, Met;
  }

  lemma UnderNext(db: DB, g: seq<nat>, base: State, st: State, i: nat)
    requires ValidChain(db, g) && i < |g| && Under(db, g, base, st, i)
    ensures !Defined(db, g, i) ==> Under(db, g, base, st, i + 1)
    ensures Defined(db, g, i) ==>
              var w := st.Emit(Full(g[i])); Under(db, g, base, w.(flagged := w.flagged - {g[i]}), i + 1)
  {
    hide Defined, Count;
    forall k | 0 <= k < |g| ensures
      Count(st.Emit(Full(g[i])).out, FullItem(g[k])) == Count(st.out, FullItem(g[k])) + if k == i then 1 else 0
    {
      CountEmit(st.out, Full(g[i]), FullItem(g[k]));
    }
  }

  lemma EnumNext(db: DB, g: seq<nat>, i: nat)
    requires ValidChain(db, g) && i < |g|
    ensures HasEnum(db, g, i + 1) <==> HasEnum(db, g, i) || db[g[i]].kind.Enumeration?
  {
  }

  lemma {:induction false} OwnDefinitions(
    db: DB, g: seq<nat>, base: State, st: State, i: nat, done: bool, bound: nat)
    requires WellFormed(db) && Group(db, g) && i <= |g| && Under(db, g, base, st, i) && (done <==> HasEnum(db, g, i))
    requires ValidChain(db, g[i..]) && Below(db, st, g[i..], bound)
    ensures var r := Definitions(db, st, g[i..], done, bound);
            Under(db, g, base, r.0, |g|) && (r.1 <==> HasEnum(db, g, |g|)) && Grown(st, r.0)
    decreases bound, 3, |g| - i
  {
    hide Keeps, Definitions, Below, ChangeIfContext, Remaining, Group, Under, HasEnum;
    GroupIs(db, g);
    if i == |g| {
      assert g[i..] == [];
      BelowIs(db, st, g[i..], bound);
      LoopEnds(db, st, done, bound);
    } else {
      var p := g[i];
      DefinitionsStep(db, st, g, done, bound, i);
      EnumNext(db, g, i);
      FlaggedFrom(db, g, base, st, i);
      if Skipped(db, st, p, done) {
        UnderNext(db, g, base, st, i);
        OwnDefinitions(db, g, base, st, i + 1, done, bound);
      } else {
        var st1 := ChangeIfContext(db, st, db[p].cond);
        ChangeIfContextKeeps(db, g, st, db[p].cond);
        UnderStays(db, g, base, st, st1, i);
        UnderNext(db, g, base, st1, i);
        var w := st1.Emit(Full(p));
        OwnDefinitions(db, g, base, w.(flagged := w.flagged - {p}), i + 1, done || db[p].kind.Enumeration?, bound);
      }
    }
  }

  lemma FlaggedFrom(db: DB, g: seq<nat>, base: State, st: State, i: nat)
    requires ValidChain(db, g) && i < |g| && Under(db, g, base, st, i)
    ensures g[i] in st.flagged
  {
  }

  // What is to be written has been.
  ghost predicate Complete(db: DB, g: seq<nat>, base: State, r: State)
    requires ValidChain(db, g)
  {
    AllMarked(r, g) && WrittenNow(db, base, r, g)
  }

  lemma UnderIsComplete(db: DB, g: seq<nat>, base: State, st: State)
    requires ValidChain(db, g) && Under(db, g, base, st, |g|)
    requires HasEnum(db, g, |g|) || forall k | 0 <= k < |g| :: g[k] !in st.flagged
    ensures Complete(db, g, base, st)
  {
    hide Count, HasEnum;
  }

  // Without an enumeration what is flagged behind the first loop are the typedefs.
  lemma {:induction false} OwnTypedef(db: DB, g: seq<nat>, base: State, st: State, i: nat, bound: nat)
    requires WellFormed(db) && Group(db, g) && i <= |g| && Under(db, g, base, st, |g|) && !HasEnum(db, g, |g|)
    requires ValidChain(db, g[i..]) && Below(db, st, g[i..], bound)
    requires forall k | 0 <= k < i :: g[k] !in st.flagged
    ensures var r := FirstTypedef(db, st, g[i..], false, bound);
            Complete(db, g, base, r) && Grown(st, r)
    decreases bound, 3, |g| - i
  {
    hide Keeps, FirstTypedef, Below, ChangeIfContext, Remaining, Group, Under, HasEnum, Complete;
    GroupIs(db, g);
    if i == |g| {
      assert g[i..] == [];
      BelowIs(db, st, g[i..], bound);
      LoopEnds(db, st, false, bound);
      UnderIsComplete(db, g, base, st);
    } else {
      FirstTypedefStep(db, st, g, bound, i);
      if g[i] in st.flagged {
        var st1 := ChangeIfContext(db, st, db[g[i]].cond);
        ChangeIfContextKeeps(db, g, st, db[g[i]].cond);
        UnderStays(db, g, base, st, st1, |g|);
        SameFlagged(db, g, st, st1, base);
        TypedefCompletes(db, g, base, st1, i);
      } else {
        OwnTypedef(db, g, base, st, i + 1, bound);
      }
    }
  }

  lemma SameFlagged(db: DB, g: seq<nat>, st: State, r: State, base: State)
    requires ValidChain(db, g) && Under(db, g, base, st, |g|) && Under(db, g, base, r, |g|)
    ensures forall k | 0 <= k < |g| :: g[k] in st.flagged <==> g[k] in r.flagged
  {
    hide Defined;
  }

  lemma TypedefCompletes(db: DB, g: seq<nat>, base: State, st: State, i: nat)
    requires ValidChain(db, g) && i < |g| && Under(db, g, base, st, |g|) && !HasEnum(db, g, |g|)
    requires g[i] in st.flagged && forall k | 0 <= k < i :: g[k] !in st.flagged
    ensures Complete(db, g, base, st.Emit(Full(g[i])))
  {
    hide Count;
    forall k | 0 <= k < |g| ensures
      Count(st.Emit(Full(g[i])).out, FullItem(g[k])) == Count(st.out, FullItem(g[k])) + if k == i then 1 else 0
    {
      CountEmit(st.out, Full(g[i]), FullItem(g[k]));
    }
  }

  // Marking a group of which nothing is declared flags all of it.
  lemma MarkStarts(db: DB, g: seq<nat>, st: State, full: bool)
    requires Group(db, g) && NoneMarked(st, g)
    ensures Under(db, g, st, Mark(db, st, g, full), 0)
  {
    hide Remaining, Count, Defined, Mark, Group;
    GroupIs(db, g);
    MarkIs(db, st, g, full);
    forall k | 0 <= k < |g| ensures g[k] in AllWanted(db, st, g, full) {
      assert Wanted(db, st, g[k], full);
    }
  }

  // ---------------------------------------------------------------------------------------------
  // What the members need

  ghost predicate AllIncludesMet(db: DB, chain: seq<nat>, r: State)
    requires ValidChain(db, chain)
  {
    forall k | 0 <= k < |chain| :: IncludesMet(r, db[chain[k]].includes)
  }

  lemma FrameGrows(db: DB, st: State, r: State)
    requires Frame(db, st, r)
    ensures Grown(st, r)
  {
  }

  lemma {:induction false} AddIncludesMeets(db: DB, st: State, incs: seq<Include>)
    requires WellFormed(db) && KnownIncludes(db, incs)
    ensures IncludesMet(AddIncludes(db, st, incs), incs)
    decreases |incs|
  {
    hide Frame, Remaining, WriteInclude;
    if incs != [] {
      var st1 := AddIncludes(db, st, incs[1..]);
      AddIncludesMeets(db, st, incs[1..]);
      if incs[0].key !in st1.seen {
        var st2 := st1.(seen := st1.seen + {incs[0].key});
        WriteIncludeIs(db, st1, incs[0]);
        ChangeIfContextFrame(db, st2, incs[0].cond);
        FrameGrows(db, st2, ChangeIfContext(db, st2, incs[0].cond));
      }
      assert forall j | 0 < j < |incs| :: incs[j] == incs[1..][j - 1];
    }
  }

  lemma {:induction false} IncludesAreMet(db: DB, st: State, chain: seq<nat>)
    requires WellFormed(db) && ValidChain(db, chain)
    ensures AllIncludesMet(db, chain, AllIncludes(db, st, chain))
    decreases |chain|
  {
    hide Frame, Remaining, AddIncludes;
    if chain != [] {
      var st1 := AddIncludes(db, st, db[chain[0]].includes);
      AddIncludesMeets(db, st, db[chain[0]].includes);
      IncludesAreMet(db, st1, chain[1..]);
      AllIncludesFrame(db, st1, chain[1..]);
      FrameGrows(db, st1, AllIncludes(db, st1, chain[1..]));
      assert forall k | 0 < k < |chain| :: chain[k] == chain[1..][k - 1];
    }
  }

  lemma {:induction false} ForwardsMeets(db: DB, st: State, chain: seq<nat>, done: bool)
    requires WellFormed(db) && ValidChain(db, chain)
    ensures var r := Forwards(db, st, chain, done).0;
            forall k | 0 <= k < |chain| && db[chain[k]].fwd.Some? :: chain[k] in r.forwarded
    decreases |chain|
  {
    hide Forwards, Frame, Remaining, ChangeIfContext, WriteForward;
    if chain != [] {
      assert chain[0..] == chain;
      ForwardsStep(db, st, chain, done, 0);
      var p := chain[0];
      var st1 := st.(forwarded := st.forwarded + {p});
      var skip := db[p].fwd.None? || p in st.forwarded;
      var typedef := !skip && db[p].fwd.value.isTypedef;
      var st2 := if skip then st else if typedef && done then st1
                 else ChangeIfContext(db, st1, db[p].cond).Emit(Fwd(p));
      ChangeIfContextFrame(db, st1, db[p].cond);
      FrameGrows(db, st1, ChangeIfContext(db, st1, db[p].cond));
      ForwardsMeets(db, st2, chain[1..], done || typedef);
      ForwardsFrame(db, st2, chain[1..], done || typedef);
      FrameGrows(db, st2, Forwards(db, st2, chain[1..], done || typedef).0);
      assert forall k | 0 < k < |chain| :: chain[k] == chain[1..][k - 1];
    }
  }

  lemma {:induction false} DeclareObjectMeets(db: DB, st: State, chain: seq<nat>, full: bool)
    requires WellFormed(db) && ValidChain(db, chain)
    ensures RefMet(db, DeclareObject(db, st, chain, full), Ref(chain, full))
  {
    hide Forwards, AllIncludes, MarkAndWrite, Remaining, Frame, FrameBut;
    var r := DeclareObject(db, st, chain, full);
    var (st1, done) := Forwards(db, st, chain, false);
    ForwardsMeets(db, st, chain, false);
    DeclareObjectFrame(db, st, chain, full);
    if !Suitable(st1, chain, full) {
      var st2 := AllIncludes(db, st1, chain);
      AllIncludesFrame(db, st1, chain);
      FrameGrows(db, st1, st2);
      MarkedFrame(db, st2, chain, full, done, Remaining(db, st));
      FrameButGrows(db, st2, r, {}, Members(chain));
    }
    SettledIs(db, r, chain, full);
  }

  lemma FrameButGrows(db: DB, st: State, r: State, open: set<nat>, own: set<nat>)
    requires FrameBut(db, st, r, open, own)
    ensures Grown(st, r)
  {
  }

  lemma SettledIs(db: DB, r: State, chain: seq<nat>, full: bool)
    requires ValidChain(db, chain) && (full ==> HeaderFrame.Settled(db, r, chain, true))
    ensures full ==> forall p | p in chain && p < |db| && db[p].text.Some? :: p in r.declared
  {
  }

  lemma {:induction false} ScanRefsMeets(db: DB, st: State, refs: seq<Ref>)
    requires WellFormed(db) && ValidRefs(db, refs)
    ensures forall j | 0 <= j < |refs| :: RefMet(db, ScanRefs(db, st, refs), refs[j])
    decreases |refs|
  {
    hide Frame, Remaining, DeclareObject;
    if refs != [] {
      var st1 := DeclareObject(db, st, refs[0].chain, refs[0].full);
      DeclareObjectMeets(db, st, refs[0].chain, refs[0].full);
      ScanRefsMeets(db, st1, refs[1..]);
      ScanRefsFrame(db, st1, refs[1..]);
      FrameGrows(db, st1, ScanRefs(db, st1, refs[1..]));
      assert forall j | 0 < j < |refs| :: refs[j] == refs[1..][j - 1];
    }
  }

  // Scanning meets what the texts of the flagged members ask for.
  lemma {:induction false} ScanFlaggedMeets(db: DB, g: seq<nat>, st: State, i: nat, bound: nat)
    requires WellFormed(db) && Group(db, g) && i <= |g| && AllMarked(st, g)
    requires ValidChain(db, g[i..]) && Below(db, st, g[i..], bound)
    requires forall k | 0 <= k < |g| :: g[k] in st.flagged
    ensures ValidChain(db, g)
    ensures var r := ScanFlagged(db, st, g[i..], bound);
            Grown(st, r) && forall k | i <= k < |g| && db[g[k]].text.Some? :: TextMet(db, r, db[g[k]].text.value)
    decreases bound, 3, |g| - i
  {
    hide Keeps, Remaining, Below, ScanFlagged, ScanText, Group, TextMet;
    GroupIs(db, g);
    if i == |g| {
      assert g[i..] == [];
      BelowIs(db, st, g[i..], bound);
      LoopEnds(db, st, false, bound);
    } else {
      ScanFlaggedStep(db, st, g, bound, i);
      var toks := db[g[i]].text.value;
      var st1 := ScanText(db, st, toks);
      ScanTextKeeps(db, g, st, toks);
      KeepsAll(db, g, st, st1);
      ScanFlaggedMeets(db, g, st1, i + 1, bound);
      ScanTextIs(db, st, toks);
      ScanRefsMeets(db, st, Refs(db, toks, None));
      TextMetGrows(db, st1, ScanFlagged(db, st1, g[i + 1..], bound), toks);
    }
  }

  lemma KeepsAll(db: DB, g: seq<nat>, st: State, r: State)
    requires ValidChain(db, g) && Keeps(db, g, st, r) && AllMarked(st, g)
    ensures AllMarked(r, g) && SameFlags(st, r, g) && Grown(st, r)
  {
  }

  lemma TextMetGrows(db: DB, st: State, r: State, toks: Text)
    requires Grown(st, r)
    requires forall j | 0 <= j < |Refs(db, toks, None)| :: RefMet(db, st, Refs(db, toks, None)[j])
    ensures TextMet(db, r, toks)
  {
    hide Refs;
  }

  lemma ScannedIsMet(db: DB, g: seq<nat>, st: State, st1: State, full: bool, bound: nat)
    requires WellFormed(db) && Group(db, g) && NoneMarked(st, g) && ValidChain(db, g)
    requires st1 == Mark(db, st, g, full) && Under(db, g, st, st1, 0)
    requires Below(db, st1, g, bound) && AllIncludesMet(db, g, st)
    ensures Met(db, g, ScanFlagged(db, st1, g, bound))
    decreases bound, 3, |g| + 1
  {
    hide Remaining, Below, ScanFlagged, Group, TextMet, Mark, Defined, Count;
    assert g[0..] == g;
    MarkIs(db, st, g, full);
    ScanFlaggedMeets(db, g, st1, 0, bound);
  }

  lemma {:induction false} OwnIsWritten(db: DB, g: seq<nat>, st: State, full: bool, bound: nat)
    requires WellFormed(db) && Group(db, g) && NoneMarked(st, g) && Remaining(db, st) <= bound
    requires AllIncludesMet(db, g, st)
    ensures ValidChain(db, g)
    ensures var r := MarkAndWrite(db, st, g, full, false, bound); Complete(db, g, st, r) && Met(db, g, r)
    decreases bound, 3, |g| + 2
  {
    hide Keeps, Definitions, Below, ScanFlagged, FirstTypedef, Remaining, Group, Mark, Under, HasEnum, Complete,
         NoneMarked, Met, Grown;
    GroupIs(db, g);
    MarkDrops(db, st, g, full, bound);
    MarkStarts(db, g, st, full);
    var st1 := Mark(db, st, g, full);
    WriteMarkedParts(db, st1, g, false, bound);
    var st2 := ScanFlagged(db, st1, g, bound);
    var (st3, done) := Definitions(db, st2, g, false, bound);
    ScanFlaggedKeeps(db, g, st1, g, bound);
    UnderStays(db, g, st, st1, st2, 0);
    NoEnumYet(db, g);
    assert g[0..] == g;
    OwnDefinitions(db, g, st, st2, 0, false, bound);
    if done {
      TypedefEnds(db, st3, g, done, bound);
      UnderIsComplete(db, g, st, st3);
      GrownSelf(st3);
    } else {
      OwnTypedef(db, g, st, st3, 0, bound);
    }
    var r := FirstTypedef(db, st3, g, done, bound);
    ScannedIsMet(db, g, st, st1, full, bound);
    MetGrows(db, g, st2, st3);
    MetGrows(db, g, st3, r);
  }

  lemma GrownSelf(st: State)
    ensures Grown(st, st)
  {
  }

  lemma NoEnumYet(db: DB, g: seq<nat>)
    requires ValidChain(db, g)
    ensures !HasEnum(db, g, 0)
  {
  }

  // A group that was declared meanwhile is marked no more.
  lemma MarkedAgain(db: DB, g: seq<nat>, st: State, full: bool)
    requires Group(db, g) && AllMarked(st, g)
    ensures var r := Mark(db, st, g, full);
            NoneFlagged(r, g) && AllMarked(r, g) && SameCounts(st, r, g) && Grown(st, r)
  {
    hide Remaining, Count;
    MarkIs(db, st, g, full);
    assert AllWanted(db, st, g, full) == {};
  }

  lemma {:induction false} NoneFlaggedEnds(db: DB, g: seq<nat>, st: State, done: bool, bound: nat)
    requires ValidChain(db, g) && Below(db, st, g, bound) && NoneFlagged(st, g)
    ensures FirstTypedef(db, st, g, done, bound) == st
    decreases |g|
  {
    hide Remaining, ChangeIfContext;
    if g != [] && !done {
      NoneFlaggedEnds(db, g[1..], st, done, bound);
    }
  }

  lemma {:induction false} OwnIsLeft(db: DB, g: seq<nat>, st: State, full: bool, bound: nat)
    requires WellFormed(db) && Group(db, g) && AllMarked(st, g) && Remaining(db, st) <= bound
    ensures ValidChain(db, g)
    ensures var r := MarkAndWrite(db, st, g, full, false, bound);
            AllMarked(r, g) && SameCounts(st, r, g) && Grown(st, r)
  {
    hide Definitions, Below, ScanFlagged, FirstTypedef, Remaining, Group, Mark, AllMarked, NoneFlagged, SameCounts;
    GroupIs(db, g);
    MarkDrops(db, st, g, full, bound);
    MarkedAgain(db, g, st, full);
    var st1 := Mark(db, st, g, full);
    WriteMarkedParts(db, st1, g, false, bound);
    NoneFlaggedEnds(db, g, st1, Definitions(db, st1, g, false, bound).1, bound);
  }

  lemma {:induction false} NoForwards(db: DB, st: State, chain: seq<nat>)
    requires ValidChain(db, chain) && forall k | 0 <= k < |chain| :: db[chain[k]].fwd.None?
    ensures Forwards(db, st, chain, false) == (st, false)
    decreases |chain|
  {
    hide Remaining, ChangeIfContext;
    if chain != [] {
      NoForwards(db, st, chain[1..]);
    }
  }

  lemma {:induction false} OwnKeeps(db: DB, g: seq<nat>, st: State, full: bool)
    requires WellFormed(db) && Group(db, g)
    ensures ValidChain(db, g) && Keeps(db, g, st, DeclareObject(db, st, g, full))
    decreases Remaining(db, st), 3, |g| + 3
  {
    hide Forwards, AllIncludes, MarkAndWrite, Remaining, Group, Count, Written, Met;
    GroupIs(db, g);
    NoForwards(db, st, g);
    assert AllMarked(st, g) ==> Suitable(st, g, full);
    assert NoneMarked(st, g) ==> g[0] !in st.forwarded && !Suitable(st, g, full);
    if NoneMarked(st, g) {
      var st1 := AllIncludes(db, st, g);
      AllIncludesKeeps(db, g, st, g);
      IncludesAreMet(db, st, g);
      if NoneMarked(st1, g) {
        OwnIsWritten(db, g, st1, full, Remaining(db, st));
      } else {
        OwnIsLeft(db, g, st1, full, Remaining(db, st));
        MetGrows(db, g, st1, DeclareObject(db, st, g, full));
      }
    }
  }

  // Declaring any group does nothing to this one, or declares all of it.
  lemma {:induction false} DeclareObjectKeeps(db: DB, g: seq<nat>, st: State, chain: seq<nat>, full: bool)
    requires WellFormed(db) && Group(db, g) && ValidChain(db, chain) && Whole(g, chain)
    ensures ValidChain(db, g) && Keeps(db, g, st, DeclareObject(db, st, chain, full))
    decreases Remaining(db, st), 4
  {
    hide Forwards, AllIncludes, MarkAndWrite, Remaining, Group, Keeps;
    GroupIs(db, g);
    if chain == g {
      OwnKeeps(db, g, st, full);
    } else {
      var (st1, done) := Forwards(db, st, chain, false);
      ForwardsKeeps(db, g, st, chain, false);
      if !Suitable(st1, chain, full) {
        var st2 := AllIncludes(db, st1, chain);
        AllIncludesKeeps(db, g, st1, chain);
        OtherKeeps(db, g, st2, chain, full, done, Remaining(db, st));
        KeepsTrans(db, g, st, st1, st2);
        KeepsTrans(db, g, st, st2, MarkAndWrite(db, st2, chain, full, done, Remaining(db, st)));
      }
    }
  }

  // ---------------------------------------------------------------------------------------------
  // A whole header

  // The group has not been declared yet, or all that is to be written of it is.
  ghost predicate AllOrNothing(db: DB, g: seq<nat>, st: State)
    requires ValidChain(db, g)
  {
    || (NoneMarked(st, g) && forall k | 0 <= k < |g| :: Count(st.out, FullItem(g[k])) == 0)
    || (AllMarked(st, g) && Met(db, g, st)
        && forall k | 0 <= k < |g| :: Count(st.out, FullItem(g[k])) == if Written(db, g, k) then 1 else 0)
  }

  lemma AllOrNothingStays(db: DB, g: seq<nat>, st: State, r: State)
    requires ValidChain(db, g) && AllOrNothing(db, g, st) && Keeps(db, g, st, r)
    ensures AllOrNothing(db, g, r) && (AllMarked(st, g) ==> AllMarked(r, g))
  {
    hide Written, Count, Met;
    if AllMarked(st, g) && Met(db, g, st) {
      MetGrows(db, g, st, r);
    }
  }

  lemma {:induction false} DeclareNamesKeeps(db: DB, g: seq<nat>, st: State, names: seq<string>)
    requires WellFormed(db) && Group(db, g)
    ensures ValidChain(db, g) && Keeps(db, g, st, DeclareNames(db, st, names))
    decreases |names|
  {
    hide Keeps, DeclareObject, Group;
    GroupIs(db, g);
    if names == [] {
      KeepsSelf(db, g, st);
    } else {
      var chain := Chain(db, names[0]);
      NamesAreWhole(db, g, names[0]);
      var st1 := if chain == [] then st else DeclareObject(db, st, chain, true);
      if chain == [] {
        KeepsSelf(db, g, st);
      } else {
        DeclareObjectKeeps(db, g, st, chain, true);
      }
      DeclareNamesKeeps(db, g, st1, names[1..]);
      KeepsTrans(db, g, st, st1, DeclareNames(db, st1, names[1..]));
    }
  }

  lemma OutsideIsApart(db: DB, g: seq<nat>, p: nat)
    requires Group(db, g) && p < |db| && p !in g
    ensures Whole(g, ChainFrom(db, p))
  {
  }

  lemma NotForwardOnly(db: DB, g: seq<nat>, st: State, p: nat)
    requires ValidChain(db, g) && AllOrNothing(db, g, st) && ForwardOnly(st, p)
    ensures p !in g
  {
  }

  lemma {:induction false} CompleteOneKeeps(db: DB, g: seq<nat>, st: State, p: nat)
    requires WellFormed(db) && Group(db, g) && p < |db| && ValidChain(db, g) && AllOrNothing(db, g, st)
    ensures AllOrNothing(db, g, CompleteOne(db, st, p))
    ensures AllMarked(st, g) ==> AllMarked(CompleteOne(db, st, p), g)
  {
    hide Keeps, DeclareObject, Group, AllOrNothing, AllMarked, Whole;
    if ForwardOnly(st, p) {
      NotForwardOnly(db, g, st, p);
      OutsideIsApart(db, g, p);
      DeclareObjectKeeps(db, g, st, ChainFrom(db, p), true);
      AllOrNothingStays(db, g, st, CompleteOne(db, st, p));
    }
  }

  lemma {:induction false} CompletePassKeeps(db: DB, g: seq<nat>, st: State, p: nat)
    requires WellFormed(db) && Group(db, g) && p <= |db| && ValidChain(db, g) && AllOrNothing(db, g, st)
    ensures AllOrNothing(db, g, CompletePass(db, st, p).st)
    ensures AllMarked(st, g) ==> AllMarked(CompletePass(db, st, p).st, g)
    decreases |db| - p
  {
    hide CompleteOne, Group, AllOrNothing, AllMarked, ForwardOnly;
    if p < |db| {
      var st1 := CompleteOne(db, st, p);
      CompleteOneKeeps(db, g, st, p);
      if !ForwardOnly(st1, p) {
        CompletePassKeeps(db, g, st1, p + 1);
      }
    }
  }

  lemma {:induction false} CompleteAllKeeps(db: DB, g: seq<nat>, st: State)
    requires Tidy(db, st) && WellFormed(db) && Group(db, g) && ValidChain(db, g) && AllOrNothing(db, g, st)
    ensures AllOrNothing(db, g, CompleteAll(db, st).st)
    ensures AllMarked(st, g) ==> AllMarked(CompleteAll(db, st).st, g)
    decreases Remaining(db, st)
  {
    hide Frame, Tidy, Remaining, Group, AllOrNothing, AllMarked, CompletePass;
    CompletePassFrame(db, st, 0);
    CompletePassProgress(db, st, 0);
    CompletePassKeeps(db, g, st, 0);
    var r := CompletePass(db, st, 0);
    if r.Finished? && Progressing(db, st, 0) {
      CompleteAllKeeps(db, g, r.st);
    }
  }

  // A name of the file declares its group.
  lemma {:induction false} NamedIsMarked(db: DB, g: seq<nat>, st: State, names: seq<string>, j: nat)
    requires WellFormed(db) && Group(db, g) && ValidChain(db, g) && AllOrNothing(db, g, st)
    requires j < |names| && g != [] && g[0] < |db| && names[j] == db[g[0]].name
    ensures AllMarked(DeclareNames(db, st, names), g)
    decreases |names|
  {
    hide Keeps, DeclareObject, AllOrNothing, AllMarked, Group, Chain, Whole;
    var chain := Chain(db, names[0]);
    var st1 := if chain == [] then st else DeclareObject(db, st, chain, true);
    if j == 0 {
      ItsName(db, g);
      FirstIsMarked(db, g, st);
      DeclareNamesKeeps(db, g, st1, names[1..]);
      AllOrNothingStays(db, g, st1, DeclareNames(db, st1, names[1..]));
    } else {
      NamesAreWhole(db, g, names[0]);
      if chain != [] {
        DeclareObjectKeeps(db, g, st, chain, true);
        AllOrNothingStays(db, g, st, st1);
      }
      NamedIsMarked(db, g, st1, names[1..], j - 1);
    }
  }

  lemma ItsName(db: DB, g: seq<nat>)
    requires Group(db, g)
    ensures g != [] && g[0] < |db| && Chain(db, db[g[0]].name) == g && Whole(g, g)
  {
  }

  lemma {:induction false} FirstIsMarked(db: DB, g: seq<nat>, st: State)
    requires WellFormed(db) && Group(db, g) && ValidChain(db, g) && AllOrNothing(db, g, st)
    ensures AllMarked(DeclareObject(db, st, g, true), g) && AllOrNothing(db, g, DeclareObject(db, st, g, true))
  {
    hide Keeps, DeclareObject, AllOrNothing, AllMarked, Frame, Group, Chain, Whole;
    ItsName(db, g);
    DeclareObjectKeeps(db, g, st, g, true);
    AllOrNothingStays(db, g, st, DeclareObject(db, st, g, true));
    DeclareObjectFrame(db, st, g, true);
    SettledIsMarked(db, g, DeclareObject(db, st, g, true));
  }

  lemma SettledIsMarked(db: DB, g: seq<nat>, st: State)
    requires Group(db, g) && ValidChain(db, g) && HeaderFrame.Settled(db, st, g, true) && AllOrNothing(db, g, st)
    ensures AllMarked(st, g)
  {
    hide Count, Written;
    assert g[0] in st.declared;
  }

  // Of a group whose declarations all are visible, all with a text and none with a forward form, a header
  // has nothing, or this, once each: what is neither a typedef nor an enumeration, the first enumeration,
  // and, if there is none, the first typedef. It has that if the file names the group; and then it has dealt
  // with what all texts of the group name and with all their #includes.
  lemma {:induction false} GroupIsWritten(
    db: DB, file: Option<string>, flagged: set<nat>, names: seq<string>, g: seq<nat>)
    requires WellFormed(db) && Group(db, g) && forall k | 0 <= k < |g| :: g[k] !in Hidden(db, file)
    ensures ValidChain(db, g)
    ensures var out := MakeHeader(db, file, flagged, names).st.out;
            && ((forall k | 0 <= k < |g| :: Count(out, FullItem(g[k])) == 0)
                || (forall k | 0 <= k < |g| :: Count(out, FullItem(g[k])) == if Written(db, g, k) then 1 else 0))
            && (db[g[0]].name in names ==>
                  forall k | 0 <= k < |g| :: Count(out, FullItem(g[k])) == if Written(db, g, k) then 1 else 0)
            && ((exists k | 0 <= k < |g| :: Count(out, FullItem(g[k])) > 0)
                ==> Met(db, g, MakeHeader(db, file, flagged, names).st))
  {
    hide Written, Group, DeclareNames, CompleteAll, Tidy, Hidden, Keeps, Met;
    GroupIs(db, g);
    var st0 := Reset(db, file, flagged);
    assert AllOrNothing(db, g, st0);
    var st1 := DeclareNames(db, st0, names);
    DeclareNamesKeeps(db, g, st0, names);
    AllOrNothingStays(db, g, st0, st1);
    DeclareNamesIsTidy(db, file, flagged, names);
    CompleteAllKeeps(db, g, st1);
    if db[g[0]].name in names {
      var j :| 0 <= j < |names| && names[j] == db[g[0]].name;
      NamedIsMarked(db, g, st0, names, j);
    }
    var r := CompleteAll(db, st1);
    var last := MakeHeader(db, file, flagged, names).st;
    ChangeIfContextKeeps(db, g, r.st, None);
    if r.Finished? {
      AllOrNothingStays(db, g, r.st, last);
    }
    MarkedIsNotNone(last, g);
  }

  lemma MarkedIsNotNone(st: State, g: seq<nat>)
    requires g != []
    ensures !(AllMarked(st, g) && NoneMarked(st, g))
  {
    if AllMarked(st, g) {
      assert g[0] in st.declared;
    }
  }
}

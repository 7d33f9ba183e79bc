// One round of each loop of the specification.

module HeaderSteps {
  import opened Options
  import opened Declarations
  import opened HeaderSpec

  lemma ForwardsStep(db: DB, st: State, chain: seq<nat>, done: bool, i: nat)
    requires ValidChain(db, chain) && i < |chain|
    ensures ValidChain(db, chain[i..]) && ValidChain(db, chain[i + 1..]) && chain[i] < |db|
    ensures var p := chain[i];
            var st1 := st.(forwarded := st.forwarded + {p});
            Forwards(db, st, chain[i..], done) ==
            if db[p].fwd.None? || p in st.forwarded then Forwards(db, st, chain[i + 1..], done)
            else if db[p].fwd.value.isTypedef && done then Forwards(db, st1, chain[i + 1..], done)
            else Forwards(db, ChangeIfContext(db, st1, db[p].cond).Emit(Fwd(p)), chain[i + 1..],
                          done || db[p].fwd.value.isTypedef)
  {
    hide ChangeIfContext;
    assert chain[i..][0] == chain[i] && chain[i..][1..] == chain[i + 1..];
  }

  lemma SetForwardedDrops(db: DB, st: State, p: nat)
    requires p < |db| && p !in st.forwarded
    ensures Remaining(db, st.(forwarded := st.forwarded + {p})) < Remaining(db, st)
  {
    RemainingDrops(db, st, st.(forwarded := st.forwarded + {p}));
  }

  lemma SetSeenDrops(db: DB, st: State, key: string)
    requires key in Keys(db) && key !in st.seen
    ensures Remaining(db, st.(seen := st.seen + {key})) < Remaining(db, st)
  {
    RemainingDrops(db, st, st.(seen := st.seen + {key}));
  }

  lemma AllIncludesStep(db: DB, st: State, chain: seq<nat>, i: nat)
    requires ValidChain(db, chain) && i < |chain|
    ensures ValidChain(db, chain[i..]) && ValidChain(db, chain[i + 1..]) && chain[i] < |db|
    ensures KnownIncludes(db, db[chain[i]].includes)
    ensures AllIncludes(db, st, chain[i..])
            == AllIncludes(db, AddIncludes(db, st, db[chain[i]].includes), chain[i + 1..])
  {
    assert chain[i..][0] == chain[i] && chain[i..][1..] == chain[i + 1..];
    hide AddIncludes;
  }

  function Kept(flagged: set<nat>, chain: seq<nat>): set<nat> {
    set q | q in flagged && q !in chain
  }

  lemma KeptStep(flagged: set<nat>, chain: seq<nat>, i: nat)
    requires i < |chain|
    ensures Kept(flagged, chain[..i + 1]) == Kept(flagged, chain[..i]) - {chain[i]}
  {
    assert chain[..i + 1] == chain[..i] + [chain[i]];
  }

  lemma MarkIs(db: DB, st: State, chain: seq<nat>, full: bool)
    requires ValidChain(db, chain)
    ensures var wanted := AllWanted(db, st, chain, full);
            Mark(db, st, chain, full) == st.(
              forwarded := st.forwarded + wanted, declared := st.declared + wanted,
              flagged := Kept(st.flagged, chain) + wanted)
  {
  }

  lemma PrefixChain(db: DB, chain: seq<nat>, i: nat)
    requires ValidChain(db, chain) && i < |chain|
    ensures ValidChain(db, chain[..i]) && ValidChain(db, chain[..i + 1]) && chain[i] < |db|
  {
  }

  lemma MarkStep(db: DB, st: State, chain: seq<nat>, full: bool, i: nat)
    requires ValidChain(db, chain) && i < |chain|
    ensures ValidChain(db, chain[..i]) && ValidChain(db, chain[..i + 1]) && chain[i] < |db|
    ensures var m := Mark(db, st, chain[..i], full);
            var p := chain[i];
            Wanted(db, m, p, full) == Wanted(db, st, p, full) &&
            Mark(db, st, chain[..i + 1], full) ==
            if Wanted(db, m, p, full) then
              m.(forwarded := m.forwarded + {p}, declared := m.declared + {p}, flagged := m.flagged + {p})
            else m.(flagged := m.flagged - {p})
  {
    hide Mark, Kept, AllWanted, ValidChain, Wanted, Remaining;
    PrefixChain(db, chain, i);
    MarkIs(db, st, chain[..i], full);
    MarkIs(db, st, chain[..i + 1], full);
    WantedStep(db, st, chain, full, i);
    KeptStep(st.flagged, chain, i);
    StillWanted(db, st, Mark(db, st, chain[..i], full), chain[i], full, AllWanted(db, st, chain[..i], full));
    Marked(st, Kept(st.flagged, chain[..i]), AllWanted(db, st, chain[..i], full), chain[i]);
  }

  lemma StillWanted(db: DB, st: State, m: State, p: nat, full: bool, wanted: set<nat>)
    requires p < |db| && m.declared == st.declared + wanted && p !in wanted
    ensures Wanted(db, m, p, full) == Wanted(db, st, p, full)
  {
  }

  // One more member of the group, marked or not.
  lemma Marked(st: State, kept: set<nat>, wanted: set<nat>, p: nat)
    ensures var m := st.(forwarded := st.forwarded + wanted, declared := st.declared + wanted,
                         flagged := kept + wanted);
            var more := wanted + {p};
            && st.(forwarded := st.forwarded + more, declared := st.declared + more, flagged := kept - {p} + more)
               == m.(forwarded := m.forwarded + {p}, declared := m.declared + {p}, flagged := m.flagged + {p})
            && (p !in wanted ==> m.(flagged := kept - {p} + (wanted + {})) == m.(flagged := m.flagged - {p}))
            && wanted + {} == wanted
  {
    UnitedOnce(st.forwarded, wanted, p);
    UnitedOnce(st.declared, wanted, p);
    UnitedOnce(kept, wanted, p);
  }

  lemma UnitedOnce(s: set<nat>, wanted: set<nat>, p: nat)
    ensures s + (wanted + {p}) == s + wanted + {p}
    ensures s - {p} + (wanted + {p}) == s + wanted + {p}
    ensures p !in wanted ==> s - {p} + wanted == s + wanted - {p}
  {
  }

  lemma WantedStep(db: DB, st: State, chain: seq<nat>, full: bool, i: nat)
    requires ValidChain(db, chain) && i < |chain| && ValidChain(db, chain[..i]) && ValidChain(db, chain[..i + 1])
    ensures chain[i] < |db| && chain[i] !in AllWanted(db, st, chain[..i], full)
    ensures AllWanted(db, st, chain[..i + 1], full) ==
            AllWanted(db, st, chain[..i], full) + if Wanted(db, st, chain[i], full) then {chain[i]} else {}
  {
    forall q ensures q in AllWanted(db, st, chain[..i + 1], full) <==>
                     q in AllWanted(db, st, chain[..i], full) || (q == chain[i] && Wanted(db, st, chain[i], full))
    {
      if q in AllWanted(db, st, chain[..i], full) {
        var k: nat :| k < i && chain[..i][k] == q && Wanted(db, st, q, full);
        assert chain[..i + 1][k] == q;
      }
      assert chain[..i + 1][i] == chain[i];
    }
  }

  lemma ScanFlaggedStep(db: DB, st: State, chain: seq<nat>, bound: nat, i: nat)
    requires ValidChain(db, chain) && i < |chain| && ValidChain(db, chain[i..]) && Below(db, st, chain[i..], bound)
    ensures ValidChain(db, chain[i + 1..]) && chain[i] < |db|
    ensures chain[i] in st.flagged ==> db[chain[i]].text.Some? && Remaining(db, st) < bound
    ensures var st1 := if chain[i] in st.flagged then ScanText(db, st, db[chain[i]].text.value) else st;
            Below(db, st1, chain[i + 1..], bound) &&
            ScanFlagged(db, st, chain[i..], bound) == ScanFlagged(db, st1, chain[i + 1..], bound)
  {
    hide ScanText;
    assert chain[i..][0] == chain[i] && chain[i..][1..] == chain[i + 1..];
  }

  predicate Skipped(db: DB, st: State, p: nat, done: bool)
    requires p < |db|
  {
    p !in st.flagged || db[p].kind.Typedef? || (db[p].kind.Enumeration? && done)
  }

  lemma DefinitionsStep(db: DB, st: State, chain: seq<nat>, done: bool, bound: nat, i: nat)
    requires ValidChain(db, chain) && i < |chain| && ValidChain(db, chain[i..]) && Below(db, st, chain[i..], bound)
    ensures ValidChain(db, chain[i + 1..]) && chain[i] < |db|
    ensures chain[i] in st.flagged ==> Remaining(db, st) < bound
    ensures var p := chain[i];
            var w := ChangeIfContext(db, st, db[p].cond).Emit(Full(p));
            var st1 := if Skipped(db, st, p, done) then st else w.(flagged := w.flagged - {p});
            var done1 := if Skipped(db, st, p, done) then done else done || db[p].kind.Enumeration?;
            Below(db, st1, chain[i + 1..], bound) &&
            Definitions(db, st, chain[i..], done, bound) == Definitions(db, st1, chain[i + 1..], done1, bound)
  {
    hide ChangeIfContext;
    assert chain[i..][0] == chain[i] && chain[i..][1..] == chain[i + 1..];
  }

  lemma FirstTypedefStep(db: DB, st: State, chain: seq<nat>, bound: nat, i: nat)
    requires ValidChain(db, chain) && i < |chain| && ValidChain(db, chain[i..]) && Below(db, st, chain[i..], bound)
    ensures ValidChain(db, chain[i + 1..]) && chain[i] < |db|
    ensures chain[i] in st.flagged ==> Remaining(db, st) < bound
    ensures chain[i] in st.flagged ==>
      FirstTypedef(db, st, chain[i..], false, bound) == ChangeIfContext(db, st, db[chain[i]].cond).Emit(Full(chain[i]))
    ensures chain[i] !in st.flagged ==>
      Below(db, st, chain[i + 1..], bound) &&
      FirstTypedef(db, st, chain[i..], false, bound) == FirstTypedef(db, st, chain[i + 1..], false, bound)
  {
    hide ChangeIfContext;
    assert chain[i..][0] == chain[i] && chain[i..][1..] == chain[i + 1..];
  }

  // The end of each loop.
  lemma LoopEnds(db: DB, st: State, done: bool, bound: nat)
    requires Remaining(db, st) <= bound
    ensures ValidChain(db, []) && Below(db, st, [], bound)
    ensures Forwards(db, st, [], done) == (st, done)
    ensures AllIncludes(db, st, []) == st
    ensures ScanFlagged(db, st, [], bound) == st
    ensures Definitions(db, st, [], done, bound) == (st, done)
    ensures FirstTypedef(db, st, [], done, bound) == st
  {
  }

  lemma EmptyChain(db: DB, st: State, full: bool)
    ensures ValidChain(db, []) && ValidRefs(db, [])
    ensures Mark(db, st, [], full) == st && ScanRefs(db, st, []) == st && AddIncludes(db, st, []) == st
  {
    MarkIs(db, st, [], full);
  }

  lemma ScanRefsFirst(db: DB, st: State, ref: Ref, refs: seq<Ref>)
    requires ValidChain(db, ref.chain) && ValidRefs(db, refs)
    ensures ValidRefs(db, [ref] + refs)
    ensures ScanRefs(db, st, [ref] + refs) == ScanRefs(db, HeaderSpec.DeclareObject(db, st, ref.chain, ref.full), refs)
    ensures Remaining(db, HeaderSpec.DeclareObject(db, st, ref.chain, ref.full)) <= Remaining(db, st)
  {
    hide HeaderSpec.DeclareObject;
    assert ([ref] + refs)[1..] == refs;
  }

  lemma NoRefs(db: DB, st: State, ahead: Option<Tok>)
    ensures ScanRefs(db, st, Refs(db, [], ahead)) == st
  {
  }

  lemma ScanTextIs(db: DB, st: State, toks: Text)
    ensures ScanText(db, st, toks) == ScanRefs(db, st, Refs(db, toks, None))
  {
  }

  // The parts of DeclareObject, one after the other.
  lemma DeclareObjectParts(db: DB, st: State, chain: seq<nat>, full: bool)
    requires ValidChain(db, chain)
    ensures var (st1, done) := Forwards(db, st, chain, false);
            && Remaining(db, st1) <= Remaining(db, st)
            && if Suitable(st1, chain, full) then HeaderSpec.DeclareObject(db, st, chain, full) == st1
               else
                 var bound := Remaining(db, st);
                 var st2 := Mark(db, AllIncludes(db, st1, chain), chain, full);
                 && Below(db, st2, chain, bound)
                 && var st3 := ScanFlagged(db, st2, chain, bound);
                    && Below(db, st3, chain, bound)
                    && var (st4, done2) := Definitions(db, st3, chain, done, bound);
                       && Below(db, st4, chain, bound)
                       && HeaderSpec.DeclareObject(db, st, chain, full) == FirstTypedef(db, st4, chain, done2, bound)
  {
    var (st1, done) := Forwards(db, st, chain, false);
    if !Suitable(st1, chain, full) {
      MarkDrops(db, AllIncludes(db, st1, chain), chain, full, Remaining(db, st));
      WriteMarkedParts(db, Mark(db, AllIncludes(db, st1, chain), chain, full), chain, done, Remaining(db, st));
    }
  }

  lemma WriteMarkedParts(db: DB, st: State, chain: seq<nat>, done: bool, bound: nat)
    requires ValidChain(db, chain) && Below(db, st, chain, bound)
    ensures var st1 := ScanFlagged(db, st, chain, bound);
            && Below(db, st1, chain, bound)
            && var (st2, done2) := Definitions(db, st1, chain, done, bound);
               && Below(db, st2, chain, bound)
               && WriteMarked(db, st, chain, done, bound) == FirstTypedef(db, st2, chain, done2, bound)
  {
  }

  lemma ChangeLess(db: DB, st: State, cond: Option<Text>, e: Event)
    ensures Remaining(db, HeaderSpec.ChangeIfContext(db, st, cond).Emit(e)) <= Remaining(db, st)
  {
  }

  lemma IncludesLess(db: DB, st: State, incs: seq<Include>)
    requires KnownIncludes(db, incs)
    ensures Remaining(db, HeaderSpec.AddIncludes(db, st, incs)) <= Remaining(db, st)
  {
  }

  lemma BelowIs(db: DB, st: State, chain: seq<nat>, bound: nat)
    requires ValidChain(db, chain) && Below(db, st, chain, bound)
    ensures Remaining(db, st) <= bound
  {
  }

  lemma CloseKeeps(db: DB, st: State)
    ensures Remaining(db, CloseIfOpen(st)) == Remaining(db, st)
  {
  }

  lemma ChangeIfContextIs(db: DB, st: State, cond: Option<Text>)
    ensures cond == st.cond ==> HeaderSpec.ChangeIfContext(db, st, cond) == st
    ensures cond != st.cond && cond.None? ==> HeaderSpec.ChangeIfContext(db, st, cond) == CloseIfOpen(st)
    ensures cond != st.cond && cond.Some? ==>
      var st1 := ScanText(db, CloseIfOpen(st), cond.value);
      HeaderSpec.ChangeIfContext(db, st, cond) == CloseIfOpen(st1).Emit(OpenIf(cond.value)).(cond := cond)
  {
  }

  lemma WriteIncludeIs(db: DB, st: State, inc: Include)
    requires inc.key in Keys(db) && inc.key !in st.seen
    ensures var st1 := st.(seen := st.seen + {inc.key});
            WriteInclude(db, st, inc) == HeaderSpec.ChangeIfContext(db, st1, inc.cond).Emit(Incl(inc))
  {
  }

  lemma WriteForwardIs(db: DB, st: State, p: nat)
    requires p < |db| && p !in st.forwarded
    ensures var st1 := st.(forwarded := st.forwarded + {p});
            WriteForward(db, st, p) == HeaderSpec.ChangeIfContext(db, st1, db[p].cond).Emit(Fwd(p))
  {
  }

  lemma ChangeIfContextParts(db: DB, st: State, want: Option<Text>)
    ensures want == st.cond ==> HeaderSpec.ChangeIfContext(db, st, want) == st
    ensures want != st.cond && want.None? ==>
      HeaderSpec.ChangeIfContext(db, st, want) == st.Emit(CloseIf).(cond := None)
    ensures want != st.cond && want.Some? ==>
      var st1 := if st.cond.Some? then st.Emit(CloseIf).(cond := None) else st;
      var st2 := ScanText(db, st1, want.value);
      var st3 := if st2.cond.Some? then st2.Emit(CloseIf) else st2;
      Remaining(db, st1) == Remaining(db, st) &&
      HeaderSpec.ChangeIfContext(db, st, want) == st3.Emit(OpenIf(want.value)).(cond := want)
  {
  }
}

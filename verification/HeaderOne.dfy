// DeclareObject on a group of one.

module HeaderOne {
  import opened Declarations
  import opened HeaderSpec

  lemma OneChain(db: DB, p: nat)
    requires p < |db|
    ensures ValidChain(db, [p])
  {
  }

  lemma ForwardsOne(db: DB, st: State, p: nat)
    requires p < |db|
    ensures Forwards(db, st, [p], false) ==
            if db[p].fwd.None? || p in st.forwarded then (st, false)
            else (WriteForward(db, st, p), db[p].fwd.value.isTypedef)
  {
    assert [p][1..] == [];
  }

  lemma AllIncludesOne(db: DB, st: State, p: nat)
    requires p < |db|
    ensures AllIncludes(db, st, [p]) == AddIncludes(db, st, db[p].includes)
  {
    assert [p][1..] == [];
  }

  lemma MarkOne(db: DB, st: State, p: nat, full: bool)
    requires p < |db|
    ensures Mark(db, st, [p], full) ==
            if Wanted(db, st, p, full) then
              st.(forwarded := st.forwarded + {p}, declared := st.declared + {p}, flagged := st.flagged + {p})
            else st.(flagged := st.flagged - {p})
  {
    hide Remaining;
    var wanted := if Wanted(db, st, p, full) then {p} else {};
    forall q ensures q in AllWanted(db, st, [p], full) <==> q in wanted {
      assert [p][0] == p;
    }
    assert AllWanted(db, st, [p], full) == wanted;
    var kept := set q | q in st.flagged && q !in [p];
    assert kept == st.flagged - {p};
    assert kept + {p} == st.flagged + {p};
  }

  lemma ScanFlaggedOne(db: DB, st: State, p: nat, bound: nat)
    requires p < |db| && Below(db, st, [p], bound) && p in st.flagged
    ensures db[p].text.Some?
    ensures ScanFlagged(db, st, [p], bound) == ScanText(db, st, db[p].text.value)
  {
    assert [p][0] == p && [p][1..] == [];
  }

  // The flag is still set after the texts are scanned: the declaration gets written.
  lemma DefinitionsOne(db: DB, st: State, p: nat, done: bool, bound: nat)
    requires p < |db| && Below(db, st, [p], bound) && p in st.flagged && (done ==> db[p].kind.Plain?)
    ensures var w := WriteFull(db, st, p);
            Definitions(db, st, [p], done, bound) ==
            if db[p].kind.Typedef? then (st, done)
            else (w.(flagged := w.flagged - {p}), done || db[p].kind.Enumeration?)
  {
    assert [p][0] == p && [p][1..] == [];
  }

  lemma FirstTypedefOne(db: DB, st: State, p: nat, done: bool, bound: nat)
    requires p < |db| && Below(db, st, [p], bound)
    ensures FirstTypedef(db, st, [p], done, bound) == if done || p !in st.flagged then st else WriteFull(db, st, p)
  {
    hide WriteFull;
    assert [p][0] == p && [p][1..] == [];
  }

  // Writing a marked group of one writes its declaration, after what its text refers to.
  lemma WriteMarkedOne(db: DB, st: State, p: nat, done: bool, bound: nat)
    requires p < |db| && Below(db, st, [p], bound) && p in st.flagged && (done ==> db[p].kind.Plain?)
    requires db[p].text.Some? && p in ScanText(db, st, db[p].text.value).flagged
    ensures var w := WriteFull(db, ScanText(db, st, db[p].text.value), p);
            WriteMarked(db, st, [p], done, bound) == w ||
            WriteMarked(db, st, [p], done, bound) == w.(flagged := w.flagged - {p})
  {
    hide ScanText, WriteFull, ScanFlagged, Definitions, FirstTypedef, Remaining;
    var st1 := ScanText(db, st, db[p].text.value);
    ScanFlaggedOne(db, st, p, bound);
    assert Below(db, st1, [p], bound);
    DefinitionsOne(db, st1, p, done, bound);
    var (st2, done2) := Definitions(db, st1, [p], done, bound);
    FirstTypedefOne(db, st2, p, done2, bound);
  }

  lemma WriteMarkedNone(db: DB, st: State, p: nat, done: bool, bound: nat)
    requires p < |db| && Below(db, st, [p], bound) && p !in st.flagged
    ensures WriteMarked(db, st, [p], done, bound) == st
  {
    assert NoneFlagged(st, [p]);
    var (st2, done2) := Definitions(db, st, [p], done, bound);
    assert FirstTypedef(db, st2, [p], done2, bound) == st;
    assert [p][0] == p && [p][1..] == [];
  }

  lemma DeclareObjectOne(db: DB, st: State, p: nat, full: bool)
    requires p < |db|
    ensures var (st1, done) := Forwards(db, st, [p], false);
            Remaining(db, st1) <= Remaining(db, st) && Remaining(db, AllIncludes(db, st1, [p])) <= Remaining(db, st) &&
            DeclareObject(db, st, [p], full) ==
            if Suitable(st1, [p], full) then st1
            else MarkAndWrite(db, AllIncludes(db, st1, [p]), [p], full, done, Remaining(db, st))
  {
  }

  lemma MarkAndWriteOne(db: DB, st: State, p: nat, full: bool, done: bool, bound: nat)
    requires p < |db| && Remaining(db, st) <= bound && Wanted(db, st, p, full)
    ensures p !in st.declared && db[p].text.Some? && ValidChain(db, [p])
    ensures Below(db, Mark(db, st, [p], full), [p], bound)
    ensures MarkAndWrite(db, st, [p], full, done, bound) == WriteMarked(db, Mark(db, st, [p], full), [p], done, bound)
  {
    MarkDrops(db, st, [p], full, bound);
  }

  lemma ScanTextLess(db: DB, st: State, toks: Text)
    ensures Remaining(db, ScanText(db, st, toks)) <= Remaining(db, st)
  {
  }

  lemma WriteFullIs(db: DB, st: State, p: nat)
    requires p < |db|
    ensures WriteFull(db, st, p).out == ChangeIfContext(db, st, db[p].cond).out + [Full(p)]
    ensures ChangeIfContext(db, st, db[p].cond).cond == db[p].cond
  {
  }

  lemma ScanRefsStep(db: DB, st: State, refs: seq<Ref>)
    requires ValidRefs(db, refs) && refs != []
    ensures ValidChain(db, refs[0].chain) && ValidRefs(db, refs[1..])
    ensures var st1 := DeclareObject(db, st, refs[0].chain, refs[0].full);
            ScanRefs(db, st, refs) == ScanRefs(db, st1, refs[1..]) && Remaining(db, st1) <= Remaining(db, st)
  {
  }

  lemma AddIncludesStep(db: DB, st: State, incs: seq<Include>)
    requires KnownIncludes(db, incs) && incs != []
    ensures KnownIncludes(db, incs[1..]) && incs[0].key in Keys(db)
    ensures var st1 := AddIncludes(db, st, incs[1..]);
            Remaining(db, st1) <= Remaining(db, st) &&
            AddIncludes(db, st, incs) == if incs[0].key in st1.seen then st1 else WriteInclude(db, st1, incs[0])
  {
  }
}

// A whole run of the header generator, MakeHeader of tools/cnoh.c, and what holds of every
// generated header whatever the declaration database.

module HeaderRun {
  import opened Options
  import opened Declarations
  import opened HeaderSpec
  import opened HeaderFrame

  // What is LOCAL to another file than the one the header is made for (None: for no file at all).
  function Hidden(db: DB, file: Option<string>): (hidden: set<nat>)
    ensures forall p: nat :: p in hidden <==> p < |db| && db[p].local && Some(db[p].file) != file
  {
    set p | p in Ids(db) && db[p].local && Some(db[p].file) != file
  }

  // ResetDeclFlags (2476-2485) and a new generator state; DP_Flag stays as an earlier header left it.
  function Reset(db: DB, file: Option<string>, flagged: set<nat>): State {
    State(Hidden(db, file), Hidden(db, file), flagged, {}, None, [])
  }

  // 2810-2815: the identifiers of the source file.
  ghost function DeclareNames(db: DB, st: State, names: seq<string>): State
    decreases |names|
  {
    if names == [] then st
    else
      var chain := Chain(db, names[0]);
      var st1 := if chain == [] then st else DeclareObject(db, st, chain, true);
      DeclareNames(db, st1, names[1..])
  }

  lemma {:induction false} DeclareNamesFrame(db: DB, st: State, names: seq<string>)
    requires WellFormed(db)
    ensures Frame(db, st, DeclareNames(db, st, names))
    decreases |names|
  {
    if names != [] {
      var chain := Chain(db, names[0]);
      var st1 := if chain == [] then st else DeclareObject(db, st, chain, true);
      if chain != [] {
        DeclareObjectFrame(db, st, chain, true);
      }
      DeclareNamesFrame(db, st1, names[1..]);
      FrameTrans(db, st, st1, DeclareNames(db, st1, names[1..]));
    }
  }

  // ---------------------------------------------------------------------------------------------
  // CompleteForwardDeclarations (2765-2781)

  // What the loop leaves behind: Aborted when the assertion of line 2777 fails, with the state then.
  datatype Outcome = Finished(st: State) | Aborted(st: State)

  ghost predicate ForwardOnlyHasForm(db: DB, st: State) {
    forall p | p in st.forwarded && p !in st.declared :: p < |db| && db[p].fwd.Some?
  }

  ghost predicate Tidy(db: DB, st: State) {
    WellFormed(db) && ForwardOnlyHasForm(db, st)
  }

  predicate ForwardOnly(st: State, p: nat) {
    p in st.forwarded && p !in st.declared
  }

  ghost function CompleteOne(db: DB, st: State, p: nat): State
    requires p < |db|
  {
    if ForwardOnly(st, p) then DeclareObject(db, st, ChainFrom(db, p), true) else st
  }

  lemma CompleteOneIs(db: DB, st: State, p: nat)
    requires p < |db|
    ensures ForwardOnly(st, p) <==> p in st.forwarded && p !in st.declared
    ensures CompleteOne(db, st, p) == if ForwardOnly(st, p) then DeclareObject(db, st, ChainFrom(db, p), true) else st
  {
  }

  // One declaration: the assertion holds afterwards if and only if the declaration has a full text.
  lemma {:induction false} CompletedIsDeclared(db: DB, st: State, p: nat)
    requires Tidy(db, st) && p < |db|
    ensures var r := CompleteOne(db, st, p);
            && Frame(db, st, r) && Tidy(db, r) && Remaining(db, r) <= Remaining(db, st)
            && (ForwardOnly(st, p) ==> (p in r.declared <==> db[p].text.Some?))
            && (ForwardOnly(r, p) ==> db[p].fwd.Some? && db[p].text.None?)
            && (ForwardOnly(st, p) && !ForwardOnly(r, p) ==> p in r.declared && Remaining(db, r) < Remaining(db, st))
            && (!ForwardOnly(st, p) ==> r == st)
  {
    if ForwardOnly(st, p) {
      var chain := ChainFrom(db, p);
      DeclareObjectFrame(db, st, chain, true);
      assert chain[0] == p;
      if p in DeclareObject(db, st, chain, true).declared {
        RemainingDrops(db, st, DeclareObject(db, st, chain, true));
      }
    }
  }

  // One pass over the list of all declarations, from p on.
  ghost function CompletePass(db: DB, st: State, p: nat): Outcome
    requires p <= |db|
    decreases |db| - p
  {
    if p == |db| then Finished(st)
    else
      var st1 := CompleteOne(db, st, p);
      if ForwardOnly(st1, p) then Aborted(st1) else CompletePass(db, st1, p + 1)
  }

  // The "progress" flag of the pass.
  ghost predicate Progressing(db: DB, st: State, p: nat)
    requires p <= |db|
    decreases |db| - p
  {
    p < |db| && (ForwardOnly(st, p) || Progressing(db, CompleteOne(db, st, p), p + 1))
  }

  // Some declaration that is left forward-only has no full text.
  ghost predicate LeftWithoutText(db: DB, st: State) {
    exists p: nat :: p < |db| && ForwardOnly(st, p) && db[p].fwd.Some? && db[p].text.None?
  }

  lemma {:induction false} CompletePassFrame(db: DB, st: State, p: nat)
    requires Tidy(db, st) && p <= |db|
    ensures var r := CompletePass(db, st, p);
            && Frame(db, st, r.st) && Tidy(db, r.st)
            && (r.Aborted? ==> LeftWithoutText(db, r.st))
    decreases |db| - p
  {
    hide CompleteOne, Frame, Tidy, Remaining;
    if p < |db| {
      var st1 := CompleteOne(db, st, p);
      CompletedIsDeclared(db, st, p);
      if !ForwardOnly(st1, p) {
        CompletePassFrame(db, st1, p + 1);
        FrameTrans(db, st, st1, CompletePass(db, st1, p + 1).st);
      }
    } else {
      FrameSelf(db, st);
    }
  }

  lemma {:induction false} CompletePassProgress(db: DB, st: State, p: nat)
    requires Tidy(db, st) && p <= |db|
    ensures var r := CompletePass(db, st, p);
            && Remaining(db, r.st) <= Remaining(db, st)
            && (r.Finished? && Progressing(db, st, p) ==> Remaining(db, r.st) < Remaining(db, st))
            && (!Progressing(db, st, p) ==> r == Finished(st) && forall q | p <= q < |db| :: !ForwardOnly(st, q))
    decreases |db| - p
  {
    hide CompleteOne, Frame, Tidy, Remaining, ForwardOnly;
    if p < |db| {
      CompletedIsDeclared(db, st, p);
      if !ForwardOnly(CompleteOne(db, st, p), p) {
        CompletePassProgress(db, CompleteOne(db, st, p), p + 1);
      }
    }
  }

  ghost function CompleteAll(db: DB, st: State): (r: Outcome)
    requires Tidy(db, st)
    ensures r.Finished? ==> forall q | 0 <= q < |db| :: !ForwardOnly(r.st, q)
    decreases Remaining(db, st)
  {
    CompletePassProgress(db, st, 0);
    CompletePassFrame(db, st, 0);
    var r := CompletePass(db, st, 0);
    if r.Finished? && Progressing(db, st, 0) then CompleteAll(db, r.st) else r
  }

  lemma {:induction false} CompleteAllFrame(db: DB, st: State)
    requires Tidy(db, st)
    ensures Frame(db, st, CompleteAll(db, st).st)
    ensures CompleteAll(db, st).Aborted? ==> LeftWithoutText(db, CompleteAll(db, st).st)
    decreases Remaining(db, st)
  {
    hide Frame, Tidy, Remaining, LeftWithoutText, ForwardOnly;
    CompletePassFrame(db, st, 0);
    CompletePassProgress(db, st, 0);
    var r := CompletePass(db, st, 0);
    if r.Finished? && Progressing(db, st, 0) {
      CompleteAllFrame(db, r.st);
      FrameTrans(db, st, r.st, CompleteAll(db, r.st).st);
    }
  }

  // The assertion of line 2777 holds throughout the loop if and only if no declaration that gets
  // forward declared, or was before and is not declared yet, lacks a full text.
  lemma {:induction false} AssertionHolds(db: DB, st: State)
    requires Tidy(db, st)
    ensures CompleteAll(db, st).Finished? <==>
            forall p | p in CompleteAll(db, st).st.forwarded && p !in st.declared :: p < |db| && db[p].text.Some?
  {
    hide Tidy, Remaining, Frame;
    CompleteAllFrame(db, st);
    var r := CompleteAll(db, st);
    FrameIsJustified(db, st, r.st);
    if r.Finished? {
      forall p | p in r.st.forwarded && p !in st.declared ensures p < |db| && db[p].text.Some? {
        ForwardedIsKnown(db, st, r.st, p);
        assert !ForwardOnly(r.st, p);
      }
    } else {
      var p: nat :| p < |db| && ForwardOnly(r.st, p) && db[p].fwd.Some? && db[p].text.None?;
      assert p in r.st.forwarded && p !in st.declared;
    }
  }

  // Were the assertion compiled out, the loop would never end: no call declares what has no text.
  lemma {:induction false} TextlessStaysForward(db: DB, st: State, p: nat, q: nat)
    requires Tidy(db, st) && p < |db| && q < |db| && ForwardOnly(st, p) && db[p].text.None?
    ensures ForwardOnly(CompleteOne(db, st, q), p) && Progressing(db, CompleteOne(db, st, q), 0)
  {
    CompletedIsDeclared(db, st, q);
    hide CompleteOne;
    StillProgressing(db, CompleteOne(db, st, q), p, 0);
  }

  lemma {:induction false} StillProgressing(db: DB, st: State, p: nat, q: nat)
    requires q <= p < |db| && ForwardOnly(st, p)
    ensures Progressing(db, st, q)
    decreases p - q
  {
    if q < p && !ForwardOnly(st, q) {
      StillProgressing(db, st, p, q + 1);
    }
  }

  lemma FrameIsJustified(db: DB, st: State, r: State)
    requires Frame(db, st, r)
    ensures Justified(db, st, r) && Grown(st, r)
  {
  }

  lemma ForwardedIsKnown(db: DB, st: State, r: State, p: nat)
    requires Tidy(db, st) && Justified(db, st, r) && Grown(st, r) && p in r.forwarded && p !in st.declared
    ensures p < |db| && (p in r.declared ==> db[p].text.Some?)
  {
  }

  // ---------------------------------------------------------------------------------------------
  // MakeHeader

  lemma DeclareNamesIsTidy(db: DB, file: Option<string>, flagged: set<nat>, names: seq<string>)
    requires WellFormed(db)
    ensures Tidy(db, DeclareNames(db, Reset(db, file, flagged), names))
  {
    DeclareNamesFrame(db, Reset(db, file, flagged), names);
  }

  // The state after line 2817, for a source file with these identifiers, or the one in which line 2777
  // fails.
  ghost function MakeHeader(db: DB, file: Option<string>, flagged: set<nat>, names: seq<string>): Outcome
    requires WellFormed(db)
  {
    DeclareNamesIsTidy(db, file, flagged, names);
    match CompleteAll(db, DeclareNames(db, Reset(db, file, flagged), names))
    case Finished(st) => Finished(ChangeIfContext(db, st, None))
    case Aborted(st) => Aborted(st)
  }

  lemma MakeHeaderFrame(db: DB, file: Option<string>, flagged: set<nat>, names: seq<string>)
    requires WellFormed(db)
    ensures Frame(db, Reset(db, file, flagged), MakeHeader(db, file, flagged, names).st)
  {
    var st0 := Reset(db, file, flagged);
    var st1 := DeclareNames(db, st0, names);
    DeclareNamesFrame(db, st0, names);
    DeclareNamesIsTidy(db, file, flagged, names);
    CompleteAllFrame(db, st1);
    hide Frame;
    var r := CompleteAll(db, st1);
    FrameTrans(db, st0, st1, r.st);
    if r.Finished? {
      ChangeIfContextFrame(db, r.st, None);
      FrameTrans(db, st0, r.st, MakeHeader(db, file, flagged, names).st);
    }
  }

  // Every item is written at most once, and nothing LOCAL to another file is written, also when line
  // 2777 fails in the end.
  lemma WrittenAtMostOnce(db: DB, file: Option<string>, flagged: set<nat>, names: seq<string>, x: Item)
    requires WellFormed(db)
    ensures var out := MakeHeader(db, file, flagged, names).st.out;
            && Count(out, x) <= 1
            && (x.FullItem? && x.p in Hidden(db, file) ==> Count(out, x) == 0)
            && (x.FwdItem? && x.p in Hidden(db, file) ==> Count(out, x) == 0)
  {
    MakeHeaderFrame(db, file, flagged, names);
    assert Count(Reset(db, file, flagged).out, x) == 0;
  }

  // Line 2777 fails if and only if the header forward declares something that has no full text.
  lemma {:induction false} HeaderFinishes(db: DB, file: Option<string>, flagged: set<nat>, names: seq<string>)
    requires WellFormed(db)
    ensures var r := MakeHeader(db, file, flagged, names);
            r.Finished? <==>
            forall p | p in r.st.forwarded && p !in Hidden(db, file) :: p < |db| && db[p].text.Some?
  {
    var st0 := Reset(db, file, flagged);
    var st1 := DeclareNames(db, st0, names);
    var r := MakeHeader(db, file, flagged, names);
    DeclareNamesFrame(db, st0, names);
    DeclareNamesIsTidy(db, file, flagged, names);
    MakeHeaderFrame(db, file, flagged, names);
    hide Tidy, Remaining, Frame, WellFormed;
    FrameIsJustified(db, st0, st1);
    FrameIsJustified(db, st0, r.st);
    AssertionHolds(db, st1);
  }

  // Whatever a visible declaration has a forward form for, it has a full text for.
  ghost predicate Completable(db: DB, file: Option<string>) {
    forall p | 0 <= p < |db| && p !in Hidden(db, file) && db[p].fwd.Some? :: db[p].text.Some?
  }

  // No declaration of a finished header is left with a forward declaration only.
  lemma {:induction false} NothingForwardOnly(
    db: DB, file: Option<string>, flagged: set<nat>, names: seq<string>, p: nat)
    requires WellFormed(db) && p < |db|
    ensures var r := MakeHeader(db, file, flagged, names);
            r.Finished? ==> !ForwardOnly(r.st, p)
  {
    hide Tidy, WellFormed, Remaining;
    DeclareNamesIsTidy(db, file, flagged, names);
    var r := CompleteAll(db, DeclareNames(db, Reset(db, file, flagged), names));
    assert r.Finished? ==> !ForwardOnly(r.st, p);
  }

  // So it never fails where all that is visible with a forward form has a full text, as is the case
  // without the -local option (1500, 1547).
  lemma {:induction false} CompletableFinishes(db: DB, file: Option<string>, flagged: set<nat>, names: seq<string>)
    requires WellFormed(db) && Completable(db, file)
    ensures MakeHeader(db, file, flagged, names).Finished?
  {
    DeclareNamesFrame(db, Reset(db, file, flagged), names);
    DeclareNamesIsTidy(db, file, flagged, names);
    CompleteAllFrame(db, DeclareNames(db, Reset(db, file, flagged), names));
  }
}

// The main results about a generated header: #if blocks, closure, and dependency order.

module HeaderTheorems {
  import opened Options
  import opened Declarations
  import opened HeaderSpec
  import opened HeaderFrame
  import opened HeaderItems
  import opened HeaderOne
  import opened HeaderClosure
  import opened HeaderCloses
  import opened HeaderOrder
  import opened HeaderOrders
  import opened HeaderRun

  // ---------------------------------------------------------------------------------------------
  // #if blocks, for every database

  // The nearest #if or #endif before position j, if any.
  function LastIf(out: seq<Event>, j: nat): Option<Event>
    requires j <= |out|
  {
    if j == 0 then None
    else if ItemOf(out[j - 1]).None? then Some(out[j - 1])
    else LastIf(out, j - 1)
  }

  // The nearest one from position j on, if any.
  function NextIf(out: seq<Event>, j: nat): Option<Event>
    requires j <= |out|
    decreases |out| - j
  {
    if j == |out| then None
    else if ItemOf(out[j]).None? then Some(out[j])
    else NextIf(out, j + 1)
  }

  function CondOf(db: DB, e: Event): Option<Text> {
    match e
    case Incl(inc) => inc.cond
    case Fwd(p) => if p < |db| then db[p].cond else None
    case Full(p) => if p < |db| then db[p].cond else None
    case OpenIf(cond) => Some(cond)
    case CloseIf => None
  }

  // Position j is inside "#if cond ... #endif", or outside of all #ifs.
  ghost predicate Inside(out: seq<Event>, j: nat, cond: Option<Text>)
    requires j <= |out|
  {
    if cond.Some? then LastIf(out, j) == Some(OpenIf(cond.value)) && NextIf(out, j) == Some(CloseIf)
    else LastIf(out, j) in {None, Some(CloseIf)} && (NextIf(out, j).None? || NextIf(out, j).value.OpenIf?)
  }

  // Each #if is closed before the next one opens, and each item is inside the #if of its condition.
  ghost predicate WellNested(db: DB, out: seq<Event>) {
    forall j | 0 <= j < |out| ::
      match out[j]
      case OpenIf(_) => LastIf(out, j) in {None, Some(CloseIf)} && NextIf(out, j + 1) == Some(CloseIf)
      case CloseIf => LastIf(out, j).Some? && LastIf(out, j).value.OpenIf?
      case _ => Inside(out, j, CondOf(db, out[j]))
  }

  lemma {:induction false} LastIfOfPrefix(out: seq<Event>, j: nat)
    requires j <= |out|
    ensures LastIf(out[..j], j) == LastIf(out, j)
    decreases j
  {
    if j > 0 {
      LastIfOfPrefix(out, j - 1);
      LastIfOfPrefix(out[..j], j - 1);
      assert out[..j][..j - 1] == out[..j - 1];
    }
  }

  // The scope of a prefix is what the nearest #if or #endif says.
  lemma {:induction false} ScopeIsLastIf(db: DB, out: seq<Event>, j: nat)
    requires j <= |out| && Scope(db, out).Some?
    ensures Scope(db, out[..j]).Some?
    ensures match Scope(db, out[..j]).value
            case None => LastIf(out, j) in {None, Some(CloseIf)}
            case Some(cond) => LastIf(out, j) == Some(OpenIf(cond))
    decreases |out|, j
  {
    if j < |out| {
      ScopeIsLastIf(db, out[..|out| - 1], j);
      assert out[..|out| - 1][..j] == out[..j];
      LastIfOfPrefix(out, j);
      LastIfOfPrefix(out[..|out| - 1], j);
    } else if j > 0 {
      assert out[..j] == out;
      ScopeIsLastIf(db, out[..j - 1], j - 1);
      assert out[..j - 1][..j - 1] == out[..j - 1];
      LastIfOfPrefix(out, j - 1);
    } else {
      assert out[..j] == [];
    }
  }

  // What follows a position fits its scope, if the text ends outside of all #ifs.
  lemma {:induction false} ScopeIsNextIf(db: DB, out: seq<Event>, j: nat)
    requires j <= |out| && Scope(db, out) == Some(None)
    ensures Scope(db, out[..j]).Some?
    ensures match Scope(db, out[..j]).value
            case None => NextIf(out, j).None? || NextIf(out, j).value.OpenIf?
            case Some(_) => NextIf(out, j) == Some(CloseIf)
    decreases |out| - j
  {
    ScopeIsLastIf(db, out, j);
    if j < |out| {
      ScopeIsNextIf(db, out, j + 1);
      assert out[..j + 1] == out[..j] + [out[j]];
      ScopeEmit(db, out[..j], out[j]);
    } else {
      assert out[..j] == out;
    }
  }

  lemma ScopedIsWellNested(db: DB, out: seq<Event>)
    requires Scope(db, out) == Some(None)
    ensures WellNested(db, out)
  {
    hide Scope, LastIf, NextIf;
    forall j | 0 <= j < |out|
      ensures match out[j]
              case OpenIf(_) => LastIf(out, j) in {None, Some(CloseIf)} && NextIf(out, j + 1) == Some(CloseIf)
              case CloseIf => LastIf(out, j).Some? && LastIf(out, j).value.OpenIf?
              case _ => Inside(out, j, CondOf(db, out[j]))
    {
      ScopeIsLastIf(db, out, j);
      ScopeIsNextIf(db, out, j);
      ScopeIsNextIf(db, out, j + 1);
      assert out[..j + 1] == out[..j] + [out[j]];
      ScopeEmit(db, out[..j], out[j]);
    }
  }

  // If line 2777 fails, at most the last block is still open.
  lemma {:induction false} HeaderIsWellNested(db: DB, file: Option<string>, flagged: set<nat>, names: seq<string>)
    requires WellFormed(db)
    ensures var r := MakeHeader(db, file, flagged, names);
            WellNested(db, CloseIfOpen(r.st).out) && (r.Finished? ==> WellNested(db, r.st.out))
  {
    MakeHeaderFrame(db, file, flagged, names);
    assert InScope(db, Reset(db, file, flagged));
    var st := MakeHeader(db, file, flagged, names).st;
    ScopeEmit(db, st.out, CloseIf);
    ScopedIsWellNested(db, CloseIfOpen(st).out);
  }

  // ---------------------------------------------------------------------------------------------
  // Closure, with one declaration per name

  // Nothing is under way, and all that a written item needs is started.
  ghost predicate Quiet(db: DB, hidden: set<nat>, st: State) {
    && Base(db, hidden, st)
    && (forall x :: !UnderWay(db, hidden, st, x))
    && (forall x | Done(st, x) :: Real(db, hidden, x) && AllStarted(st, Needs(db, hidden, x)))
  }

  lemma QuietAfter(db: DB, hidden: set<nat>, st: State, r: State, items: set<Item>)
    requires Quiet(db, hidden, st) && Closes(db, hidden, st, r, items)
    ensures Quiet(db, hidden, r)
  {
    forall x | Done(r, x) ensures Real(db, hidden, x) && AllStarted(r, Needs(db, hidden, x)) {
      if Done(st, x) {
        StartedGrows(st, r, Needs(db, hidden, x));
      }
    }
  }

  // A set of items that contains what its members need.
  ghost predicate NeedsClosed(db: DB, hidden: set<nat>, s: iset<Item>) {
    forall x, y | x in s && y in Needs(db, hidden, x) :: y in s
  }

  // And whatever it has the forward form of, it has all that a full request for that comes down to.
  ghost predicate Closed(db: DB, hidden: set<nat>, s: iset<Item>) {
    && NeedsClosed(db, hidden, s)
    && (forall p: nat | FwdItem(p) in s && p < |db| :: Contains(s, Targets(db, hidden, p, true)))
  }

  ghost predicate Contains(s: iset<Item>, items: set<Item>) {
    forall x | x in items :: x in s
  }

  ghost predicate StartedIn(db: DB, hidden: set<nat>, st: State, s: iset<Item>) {
    forall x | Started(st, x) && Real(db, hidden, x) :: x in s
  }

  lemma {:induction false} NeedsInStaysIn(db: DB, hidden: set<nat>, s: iset<Item>, a: Item, b: Item, n: nat)
    requires Closed(db, hidden, s) && a in s && NeedsIn(db, hidden, a, b, n)
    ensures b in s
    decreases n
  {
    hide Needs;
    if n > 0 {
      var c :| Step(db, hidden, a, c) && NeedsIn(db, hidden, c, b, n - 1);
      NeedsInStaysIn(db, hidden, s, c, b, n - 1);
    }
  }

  lemma StartedStaysIn(db: DB, hidden: set<nat>, st: State, r: State, items: set<Item>, s: iset<Item>)
    requires Closed(db, hidden, s) && Contains(s, items) && StartedIn(db, hidden, st, s)
    requires Closes(db, hidden, st, r, items)
    ensures StartedIn(db, hidden, r, s)
  {
    forall x | Started(r, x) && Real(db, hidden, x) ensures x in s {
      if !Started(st, x) {
        assert From(db, hidden, items, x);
        var t :| t in items && (t == x || Reaches(db, hidden, t, x));
        if t != x {
          var n: nat :| NeedsIn(db, hidden, t, x, n);
          NeedsInStaysIn(db, hidden, s, t, x, n);
        }
      }
    }
  }

  // What the identifiers of a source file ask for.
  ghost function NameTargets(db: DB, hidden: set<nat>, names: seq<string>): set<Item> {
    if names == [] then {}
    else ChainTargets(db, hidden, Chain(db, names[0]), true) + NameTargets(db, hidden, names[1..])
  }

  lemma {:induction false} DeclareNamesCloses(db: DB, hidden: set<nat>, st: State, names: seq<string>)
    requires Simple(db) && Base(db, hidden, st)
    ensures Closes(db, hidden, st, DeclareNames(db, st, names), NameTargets(db, hidden, names))
    decreases |names|
  {
    hide Closes, Simple, Base, ChainTargets, DeclareObject;
    if names == [] {
      ClosesSelf(db, hidden, st);
    } else {
      var chain := Chain(db, names[0]);
      var st1 := if chain == [] then st else DeclareObject(db, st, chain, true);
      var now := ChainTargets(db, hidden, chain, true);
      NameCloses(db, hidden, st, chain);
      ClosesBase(db, hidden, st, st1, now);
      DeclareNamesCloses(db, hidden, st1, names[1..]);
      ClosesTrans(db, hidden, st, st1, DeclareNames(db, st1, names[1..]), now, NameTargets(db, hidden, names[1..]));
    }
  }

  lemma NameCloses(db: DB, hidden: set<nat>, st: State, chain: seq<nat>)
    requires Simple(db) && Base(db, hidden, st) && ValidChain(db, chain)
    ensures var st1 := if chain == [] then st else DeclareObject(db, st, chain, true);
            Closes(db, hidden, st, st1, ChainTargets(db, hidden, chain, true))
  {
    hide Closes, DeclareObject;
    if chain == [] {
      ClosesSelf(db, hidden, st);
    } else {
      DeclareObjectCloses(db, hidden, st, chain, true);
    }
  }

  ghost function CompletionTargets(db: DB, hidden: set<nat>, st: State, p: nat): set<Item>
    requires p < |db|
  {
    if ForwardOnly(st, p) then Targets(db, hidden, p, true) else {}
  }

  lemma CompleteOneCloses(db: DB, hidden: set<nat>, st: State, p: nat)
    requires Simple(db) && Base(db, hidden, st) && p < |db|
    ensures Closes(db, hidden, st, CompleteOne(db, st, p), CompletionTargets(db, hidden, st, p))
  {
    hide Closes, DeclareObject;
    if ForwardOnly(st, p) {
      ChainFromOfOne(db, p);
      DeclareObjectCloses(db, hidden, st, [p], true);
    } else {
      ClosesSelf(db, hidden, st);
    }
  }

  // Only the full declarations of forward forms already there are added.
  lemma CompletionContained(db: DB, hidden: set<nat>, st: State, p: nat, s: iset<Item>)
    requires Base(db, hidden, st) && p < |db|
    requires Closed(db, hidden, s) && StartedIn(db, hidden, st, s)
    ensures Contains(s, CompletionTargets(db, hidden, st, p))
  {
    if ForwardOnly(st, p) && p !in hidden {
      assert Started(st, FwdItem(p)) && Real(db, hidden, FwdItem(p));
    }
  }

  // The steps of a run that closes over items which any closed set around it contains.
  ghost predicate Run(db: DB, hidden: set<nat>, st: State, s: iset<Item>) {
    Simple(db) && Quiet(db, hidden, st) && Closed(db, hidden, s) && StartedIn(db, hidden, st, s)
  }

  lemma RunStep(db: DB, hidden: set<nat>, st: State, r: State, items: set<Item>, s: iset<Item>)
    requires Run(db, hidden, st, s) && Closes(db, hidden, st, r, items) && Contains(s, items)
    ensures Run(db, hidden, r, s)
  {
    hide Quiet, Closes, Simple, Closed, StartedIn, Contains;
    QuietAfter(db, hidden, st, r, items);
    StartedStaysIn(db, hidden, st, r, items, s);
  }

  lemma RunIs(db: DB, hidden: set<nat>, st: State, s: iset<Item>)
    requires Run(db, hidden, st, s)
    ensures Simple(db) && Base(db, hidden, st) && Tidy(db, st)
    ensures Closed(db, hidden, s) && StartedIn(db, hidden, st, s) && Quiet(db, hidden, st)
  {
  }

  lemma {:induction false} CompletePassRun(db: DB, hidden: set<nat>, st: State, p: nat, s: iset<Item>)
    requires Run(db, hidden, st, s) && p <= |db|
    ensures Run(db, hidden, CompletePass(db, st, p).st, s)
    decreases |db| - p
  {
    hide Run, Simple, Base, Closes, Contains, CompleteOne, Closed, StartedIn, Quiet, Tidy, ForwardOnly;
    if p < |db| {
      var st1 := CompleteOne(db, st, p);
      RunIs(db, hidden, st, s);
      CompleteOneCloses(db, hidden, st, p);
      CompletionContained(db, hidden, st, p, s);
      RunStep(db, hidden, st, st1, CompletionTargets(db, hidden, st, p), s);
      if !ForwardOnly(st1, p) {
        CompletePassRun(db, hidden, st1, p + 1, s);
      }
    }
  }

  lemma {:induction false} CompleteAllRun(db: DB, hidden: set<nat>, st: State, s: iset<Item>)
    requires Run(db, hidden, st, s) && Tidy(db, st)
    ensures Run(db, hidden, CompleteAll(db, st).st, s)
    decreases Remaining(db, st)
  {
    hide Run, Tidy, Remaining;
    CompletePassRun(db, hidden, st, 0, s);
    CompletePassProgress(db, st, 0);
    CompletePassFrame(db, st, 0);
    var r := CompletePass(db, st, 0);
    if r.Finished? && Progressing(db, st, 0) {
      CompleteAllRun(db, hidden, r.st, s);
    }
  }

  lemma ResetRun(db: DB, file: Option<string>, flagged: set<nat>, s: iset<Item>)
    requires Simple(db) && Closed(db, Hidden(db, file), s)
    ensures Run(db, Hidden(db, file), Reset(db, file, flagged), s)
  {
  }

  lemma MakeHeaderRun(db: DB, file: Option<string>, flagged: set<nat>, names: seq<string>, s: iset<Item>)
    requires Simple(db) && Closed(db, Hidden(db, file), s)
    requires Contains(s, NameTargets(db, Hidden(db, file), names))
    ensures Run(db, Hidden(db, file), MakeHeader(db, file, flagged, names).st, s)
    ensures AllStarted(MakeHeader(db, file, flagged, names).st, NameTargets(db, Hidden(db, file), names))
  {
    hide Run, Simple, Base, Closes, Contains, Closed, Tidy, DeclareNames, NameTargets, Frame, CompleteAll,
         ChangeIfContext, Reset;
    var hidden := Hidden(db, file);
    var items := NameTargets(db, hidden, names);
    var st0 := Reset(db, file, flagged);
    var st1 := DeclareNames(db, st0, names);
    SimpleIs(db);
    ResetRun(db, file, flagged, s);
    RunIs(db, hidden, st0, s);
    DeclareNamesCloses(db, hidden, st0, names);
    RunStep(db, hidden, st0, st1, items, s);
    ClosesBase(db, hidden, st0, st1, items);
    DeclareNamesIsTidy(db, file, flagged, names);
    CompleteAllRun(db, hidden, st1, s);
    CompleteAllFrame(db, st1);
    var r := CompleteAll(db, st1);
    FrameStarted(db, st1, r.st, items);
    if r.Finished? {
      CloseRun(db, hidden, r.st, s);
      FrameStarted(db, r.st, ChangeIfContext(db, r.st, None), items);
    }
  }

  lemma CloseRun(db: DB, hidden: set<nat>, st: State, s: iset<Item>)
    requires Run(db, hidden, st, s)
    ensures Run(db, hidden, ChangeIfContext(db, st, None), s) && Frame(db, st, ChangeIfContext(db, st, None))
  {
    hide Run, Simple, Base, Closes, Contains, Closed, Tidy, Frame, ChangeIfContext;
    RunIs(db, hidden, st, s);
    ChangeIfContextCloses(db, hidden, st, None);
    NoCondTargets(db, hidden, s);
    RunStep(db, hidden, st, ChangeIfContext(db, st, None), CondTargets(db, hidden, None), s);
    ClosesBase(db, hidden, st, ChangeIfContext(db, st, None), CondTargets(db, hidden, None));
  }

  lemma NoCondTargets(db: DB, hidden: set<nat>, s: iset<Item>)
    ensures Contains(s, CondTargets(db, hidden, None))
  {
  }

  lemma FrameStarted(db: DB, st: State, r: State, items: set<Item>)
    requires Frame(db, st, r) && AllStarted(st, items)
    ensures AllStarted(r, items)
  {
  }

  // The items a header contains.
  ghost function Contents(out: seq<Event>): iset<Item> {
    iset x | Count(out, x) > 0
  }

  lemma {:induction false} NameTargetsAreReal(db: DB, hidden: set<nat>, names: seq<string>, x: Item)
    requires x in NameTargets(db, hidden, names)
    ensures Real(db, hidden, x)
  {
    var chain := Chain(db, names[0]);
    if x in ChainTargets(db, hidden, chain, true) {
      if x.InclItem? {
        IncludeItemsAreReal(db, hidden, chain[0], x);
      }
    } else {
      NameTargetsAreReal(db, hidden, names[1..], x);
    }
  }

  ghost function AllReal(db: DB, hidden: set<nat>): iset<Item> {
    iset x | Real(db, hidden, x)
  }

  lemma RealIsClosed(db: DB, hidden: set<nat>, names: seq<string>)
    ensures Closed(db, hidden, AllReal(db, hidden)) && Contains(AllReal(db, hidden), NameTargets(db, hidden, names))
  {
    hide Needs, NameTargets;
    forall x, y | Real(db, hidden, x) && y in Needs(db, hidden, x) ensures Real(db, hidden, y) {
      NeedsAreReal(db, hidden, x);
    }
    forall x | x in NameTargets(db, hidden, names) ensures Real(db, hidden, x) {
      NameTargetsAreReal(db, hidden, names, x);
    }
  }

  // Once nothing is under way, whatever real item is started is written.
  lemma QuietIsWritten(db: DB, hidden: set<nat>, st: State, x: Item)
    requires Quiet(db, hidden, st) && Real(db, hidden, x) && Started(st, x)
    ensures Count(st.out, x) > 0
  {
    assert !UnderWay(db, hidden, st, x);
  }

  lemma QuietNeeds(db: DB, hidden: set<nat>, st: State, x: Item, y: Item)
    requires Quiet(db, hidden, st) && Count(st.out, x) > 0 && y in Needs(db, hidden, x)
    ensures Count(st.out, y) > 0
  {
    assert Done(st, x);
    NeedsAreReal(db, hidden, x);
    QuietIsWritten(db, hidden, st, y);
  }

  // A header contains every item its source file's identifiers lead to: what they ask for, what any
  // of that needs, and, unless line 2777 fails, the full declaration of whatever is forward declared.
  lemma {:induction false} HeaderIsClosed(db: DB, file: Option<string>, flagged: set<nat>, names: seq<string>)
    requires Simple(db)
    ensures var r := MakeHeader(db, file, flagged, names);
            var s := Contents(r.st.out);
            && NeedsClosed(db, Hidden(db, file), s) && Contains(s, NameTargets(db, Hidden(db, file), names))
            && (r.Finished? ==> Closed(db, Hidden(db, file), s))
  {
    hide Quiet, Needs, NameTargets, Run, MakeHeader, Real, AllReal, Closed, Targets;
    var hidden := Hidden(db, file);
    var st := MakeHeader(db, file, flagged, names).st;
    var all := AllReal(db, hidden);
    RealIsClosed(db, hidden, names);
    MakeHeaderRun(db, file, flagged, names, all);
    RunIs(db, hidden, st, all);
    forall x, y | Count(st.out, x) > 0 && y in Needs(db, hidden, x) ensures Count(st.out, y) > 0 {
      QuietNeeds(db, hidden, st, x, y);
    }
    forall x | x in NameTargets(db, hidden, names) ensures Count(st.out, x) > 0 {
      NameTargetsAreReal(db, hidden, names, x);
      QuietIsWritten(db, hidden, st, x);
    }
    if MakeHeader(db, file, flagged, names).Finished? {
      FinishedIsClosed(db, file, flagged, names, all);
    }
  }

  lemma {:induction false} FinishedIsClosed(
    db: DB, file: Option<string>, flagged: set<nat>, names: seq<string>, s: iset<Item>)
    requires Simple(db) && MakeHeader(db, file, flagged, names).Finished?
    requires Run(db, Hidden(db, file), MakeHeader(db, file, flagged, names).st, s)
    requires NeedsClosed(db, Hidden(db, file), Contents(MakeHeader(db, file, flagged, names).st.out))
    ensures Closed(db, Hidden(db, file), Contents(MakeHeader(db, file, flagged, names).st.out))
  {
    hide Quiet, Needs, Run, MakeHeader, NeedsClosed;
    var hidden := Hidden(db, file);
    var st := MakeHeader(db, file, flagged, names).st;
    RunIs(db, hidden, st, s);
    forall p: nat | Count(st.out, FwdItem(p)) > 0 && p < |db|
      ensures Contains(Contents(st.out), Targets(db, hidden, p, true)) {
      QuietForward(db, hidden, st, p);
      NothingForwardOnly(db, file, flagged, names, p);
      QuietFull(db, file, flagged, names, p);
      QuietIsWritten(db, hidden, st, FullItem(p));
    }
  }

  lemma QuietForward(db: DB, hidden: set<nat>, st: State, p: nat)
    requires Quiet(db, hidden, st) && Count(st.out, FwdItem(p)) > 0 && p < |db|
    ensures p in st.forwarded && Real(db, hidden, FwdItem(p))
  {
    assert Done(st, FwdItem(p));
  }

  // A visible declaration that counts as declared has a full text.
  lemma {:induction false} QuietFull(
    db: DB, file: Option<string>, flagged: set<nat>, names: seq<string>, p: nat)
    requires WellFormed(db) && p < |db| && p !in Hidden(db, file)
    ensures p in MakeHeader(db, file, flagged, names).st.declared ==>
            db[p].text.Some? && Real(db, Hidden(db, file), FullItem(p))
            && Started(MakeHeader(db, file, flagged, names).st, FullItem(p))
  {
    MakeHeaderFrame(db, file, flagged, names);
  }

  // And it contains nothing else: it is the least such set of items.
  lemma {:induction false} HeaderIsLeast(
    db: DB, file: Option<string>, flagged: set<nat>, names: seq<string>, s: iset<Item>)
    requires Simple(db)
    requires Closed(db, Hidden(db, file), s) && Contains(s, NameTargets(db, Hidden(db, file), names))
    ensures forall x | x in Contents(MakeHeader(db, file, flagged, names).st.out) :: x in s
  {
    hide Run, Closed, Contains, MakeHeader;
    var st := MakeHeader(db, file, flagged, names).st;
    MakeHeaderRun(db, file, flagged, names, s);
    RunIs(db, Hidden(db, file), st, s);
    forall x | Count(st.out, x) > 0 ensures x in s {
      assert Done(st, x) && Started(st, x);
    }
  }

  // A declaration is marked as declared exactly when its full text is in the header, once.
  lemma {:induction false} DeclaredIsWrittenOnce(
    db: DB, file: Option<string>, flagged: set<nat>, names: seq<string>, p: nat)
    requires Simple(db) && p < |db| && p !in Hidden(db, file)
    ensures var st := MakeHeader(db, file, flagged, names).st;
            p in st.declared <==> Count(st.out, FullItem(p)) == 1
  {
    hide Run, MakeHeader, AllReal, Needs;
    var st := MakeHeader(db, file, flagged, names).st;
    var all := AllReal(db, Hidden(db, file));
    RealIsClosed(db, Hidden(db, file), names);
    MakeHeaderRun(db, file, flagged, names, all);
    RunIs(db, Hidden(db, file), st, all);
    WrittenAtMostOnce(db, file, flagged, names, FullItem(p));
    assert Done(st, FullItem(p)) ==> Started(st, FullItem(p));
    assert !UnderWay(db, Hidden(db, file), st, FullItem(p));
  }

  // ---------------------------------------------------------------------------------------------
  // The assertion of line 2777, with one declaration per name

  // Every object that the set has the forward form of has a full text.
  ghost predicate AllTexts(db: DB, s: iset<Item>) {
    forall p: nat | FwdItem(p) in s && p < |db| :: db[p].text.Some?
  }

  // The assertion holds if and only if what the identifiers of the file lead to has no forward form of
  // an object without a full text.
  lemma {:induction false} FinishesWithinTexts(db: DB, file: Option<string>, flagged: set<nat>, names: seq<string>)
    requires Simple(db)
    ensures MakeHeader(db, file, flagged, names).Finished? <==>
            exists s: iset<Item> ::
              && Closed(db, Hidden(db, file), s)
              && Contains(s, NameTargets(db, Hidden(db, file), names)) && AllTexts(db, s)
  {
    hide Closed, Contains, MakeHeader, NameTargets, AllTexts, NeedsClosed;
    if MakeHeader(db, file, flagged, names).Finished? {
      HeaderIsClosed(db, file, flagged, names);
      FinishedHasTexts(db, file, flagged, names);
    }
    forall s: iset<Item> | Closed(db, Hidden(db, file), s)
                           && Contains(s, NameTargets(db, Hidden(db, file), names)) && AllTexts(db, s)
      ensures MakeHeader(db, file, flagged, names).Finished?
    {
      TextsFinish(db, file, flagged, names, s);
    }
  }

  lemma {:induction false} FinishedHasTexts(db: DB, file: Option<string>, flagged: set<nat>, names: seq<string>)
    requires WellFormed(db) && MakeHeader(db, file, flagged, names).Finished?
    ensures AllTexts(db, Contents(MakeHeader(db, file, flagged, names).st.out))
  {
    hide MakeHeader, Remaining;
    var st := MakeHeader(db, file, flagged, names).st;
    MakeHeaderFrame(db, file, flagged, names);
    forall p: nat | Count(st.out, FwdItem(p)) > 0 && p < |db| ensures db[p].text.Some? {
      assert Count(Reset(db, file, flagged).out, FwdItem(p)) == 0;
      WrittenAtMostOnce(db, file, flagged, names, FwdItem(p));
      NothingForwardOnly(db, file, flagged, names, p);
    }
  }

  lemma {:induction false} TextsFinish(
    db: DB, file: Option<string>, flagged: set<nat>, names: seq<string>, s: iset<Item>)
    requires Simple(db) && AllTexts(db, s)
    requires Closed(db, Hidden(db, file), s) && Contains(s, NameTargets(db, Hidden(db, file), names))
    ensures MakeHeader(db, file, flagged, names).Finished?
  {
    hide Run, Closed, Contains, MakeHeader, Needs, NameTargets, Quiet;
    var st := MakeHeader(db, file, flagged, names).st;
    SimpleIs(db);
    MakeHeaderRun(db, file, flagged, names, s);
    RunIs(db, Hidden(db, file), st, s);
    HeaderFinishes(db, file, flagged, names);
    MakeHeaderFrame(db, file, flagged, names);
    forall p | p in st.forwarded && p !in Hidden(db, file) ensures p < |db| && db[p].text.Some? {
      if p !in st.declared {
        assert Started(st, FwdItem(p)) && Real(db, Hidden(db, file), FwdItem(p));
      }
    }
  }

  // A type outside of all interfaces, recorded with the -local option, has a forward form only and is
  // LOCAL (1538-1551). Its own file's header fails line 2777; those of other files do not.
  lemma {:induction false} LocalTypeFails()
    ensures var db := [Decl("s", "a.c", None, Some(ForwardForm(true)), None, [], true, Plain)];
            && Simple(db)
            && MakeHeader(db, Some("a.c"), {}, ["s"]).Aborted?
            && forall names :: MakeHeader(db, Some("b.c"), {}, names).Finished?
  {
    var db := [Decl("s", "a.c", None, Some(ForwardForm(true)), None, [], true, Plain)];
    hide MakeHeader, Needs;
    var hidden := Hidden(db, Some("a.c"));
    ChainOfOne(db, "s");
    assert FwdItem(0) in NameTargets(db, hidden, ["s"]);
    FinishesWithinTexts(db, Some("a.c"), {}, ["s"]);
    forall names ensures MakeHeader(db, Some("b.c"), {}, names).Finished? {
      CompletableFinishes(db, Some("b.c"), {}, names);
    }
  }

  // ---------------------------------------------------------------------------------------------
  // Order, with one declaration per name

  lemma QuietIsAimed(db: DB, hidden: set<nat>, st: State, items: set<Item>)
    requires Quiet(db, hidden, st)
    ensures Aimed(db, hidden, st, items)
  {
  }

  lemma {:induction false} DeclareNamesOrders(db: DB, hidden: set<nat>, st: State, names: seq<string>, last: seq<Event>)
    requires Simple(db) && Quiet(db, hidden, st) && Ordered(db, hidden, st.out) && Acyclic(db, hidden, last)
    requires Within(DeclareNames(db, st, names).out, last)
    ensures Ordered(db, hidden, DeclareNames(db, st, names).out)
    decreases |names|
  {
    hide Simple, Quiet, Ordered, Acyclic, Within, Frame, Closes, DeclareObject, ChainTargets;
    if names != [] {
      var chain := Chain(db, names[0]);
      var st1 := if chain == [] then st else DeclareObject(db, st, chain, true);
      SimpleIs(db);
      DeclareNamesFrame(db, st1, names[1..]);
      Shorter(db, st1, DeclareNames(db, st1, names[1..]), last);
      NameOrders(db, hidden, st, chain, last);
      DeclareNamesOrders(db, hidden, st1, names[1..], last);
    }
  }

  lemma NameOrders(db: DB, hidden: set<nat>, st: State, chain: seq<nat>, last: seq<Event>)
    requires Simple(db) && Quiet(db, hidden, st) && Ordered(db, hidden, st.out) && Acyclic(db, hidden, last)
    requires ValidChain(db, chain)
    requires Within((if chain == [] then st else DeclareObject(db, st, chain, true)).out, last)
    ensures var r := if chain == [] then st else DeclareObject(db, st, chain, true);
            Ordered(db, hidden, r.out) && Quiet(db, hidden, r)
  {
    if chain != [] {
      hide Simple, Ordered, Acyclic, Within, Closes, DeclareObject, ChainTargets;
      QuietIsAimed(db, hidden, st, ChainTargets(db, hidden, chain, true));
      DeclareObjectOrders(db, hidden, st, chain, true, last);
      DeclareObjectCloses(db, hidden, st, chain, true);
      QuietAfter(db, hidden, st, DeclareObject(db, st, chain, true), ChainTargets(db, hidden, chain, true));
    }
  }

  lemma CompleteOneOrders(db: DB, hidden: set<nat>, st: State, p: nat, last: seq<Event>)
    requires Simple(db) && Quiet(db, hidden, st) && Ordered(db, hidden, st.out) && Acyclic(db, hidden, last)
    requires p < |db| && Within(CompleteOne(db, st, p).out, last)
    ensures Ordered(db, hidden, CompleteOne(db, st, p).out) && Quiet(db, hidden, CompleteOne(db, st, p))
  {
    hide Quiet, Ordered, Acyclic, Within, DeclareObject;
    if ForwardOnly(st, p) {
      ChainFromOfOne(db, p);
      OneChain(db, p);
      NameOrders(db, hidden, st, [p], last);
    }
  }

  lemma {:induction false} CompletePassOrders(db: DB, hidden: set<nat>, st: State, p: nat, last: seq<Event>)
    requires Simple(db) && Quiet(db, hidden, st) && Ordered(db, hidden, st.out) && Acyclic(db, hidden, last)
    requires Tidy(db, st) && p <= |db| && Within(CompletePass(db, st, p).st.out, last)
    ensures Ordered(db, hidden, CompletePass(db, st, p).st.out) && Quiet(db, hidden, CompletePass(db, st, p).st)
    decreases |db| - p
  {
    hide Simple, Quiet, Ordered, Acyclic, Within, Frame, CompleteOne, Tidy, ForwardOnly, Remaining;
    if p < |db| {
      var st1 := CompleteOne(db, st, p);
      CompletedIsDeclared(db, st, p);
      if ForwardOnly(st1, p) {
        CompleteOneOrders(db, hidden, st, p, last);
      } else {
        CompletePassFrame(db, st1, p + 1);
        Shorter(db, st1, CompletePass(db, st1, p + 1).st, last);
        CompleteOneOrders(db, hidden, st, p, last);
        CompletePassOrders(db, hidden, st1, p + 1, last);
      }
    }
  }

  lemma {:induction false} CompleteAllOrders(db: DB, hidden: set<nat>, st: State, last: seq<Event>)
    requires Simple(db) && Quiet(db, hidden, st) && Ordered(db, hidden, st.out) && Acyclic(db, hidden, last)
    requires Tidy(db, st) && Within(CompleteAll(db, st).st.out, last)
    ensures Ordered(db, hidden, CompleteAll(db, st).st.out)
    decreases Remaining(db, st)
  {
    hide Simple, Quiet, Ordered, Acyclic, Within, Frame, Tidy, Remaining, CompletePass;
    var r := CompletePass(db, st, 0);
    CompletePassProgress(db, st, 0);
    CompletePassFrame(db, st, 0);
    if r.Finished? && Progressing(db, st, 0) {
      CompleteAllFrame(db, r.st);
      Shorter(db, r.st, CompleteAll(db, r.st).st, last);
      CompletePassOrders(db, hidden, st, 0, last);
      CompleteAllOrders(db, hidden, r.st, last);
    } else {
      CompletePassOrders(db, hidden, st, 0, last);
    }
  }

  lemma AcyclicIsOrdered(db: DB, file: Option<string>, flagged: set<nat>, names: seq<string>)
    requires Simple(db)
    requires Acyclic(db, Hidden(db, file), MakeHeader(db, file, flagged, names).st.out)
    ensures Ordered(db, Hidden(db, file), MakeHeader(db, file, flagged, names).st.out)
  {
    hide Ordered, Acyclic, Simple, Within, Quiet, Frame, Tidy, Closes, Base, CompleteAll, DeclareNames,
         NameTargets, Reset, ChangeIfContext;
    var hidden := Hidden(db, file);
    var st0 := Reset(db, file, flagged);
    var st1 := DeclareNames(db, st0, names);
    SimpleIs(db);
    var last := MakeHeader(db, file, flagged, names).st.out;
    DeclareNamesIsTidy(db, file, flagged, names);
    var st2 := CompleteAll(db, st1).st;
    CompleteAllFrame(db, st1);
    LastIsWithin(db, st2);
    WithinSelf(last);
    Shorter(db, st1, st2, last);
    ResetQuiet(db, hidden, file, flagged);
    QuietBase(db, hidden, st0);
    DeclareNamesCloses(db, hidden, st0, names);
    QuietAfter(db, hidden, st0, st1, NameTargets(db, hidden, names));
    DeclareNamesOrders(db, hidden, st0, names, last);
    CompleteAllOrders(db, hidden, st1, last);
    CloseIfOpenOrders(db, hidden, st2, None);
  }

  lemma WithinSelf(out: seq<Event>)
    ensures Within(out, out)
  {
  }

  lemma QuietBase(db: DB, hidden: set<nat>, st: State)
    requires Quiet(db, hidden, st)
    ensures Base(db, hidden, st)
  {
  }

  lemma LastIsWithin(db: DB, st: State)
    ensures ChangeIfContext(db, st, None) == CloseIfOpen(st)
    ensures Within(st.out, CloseIfOpen(st).out)
  {
  }

  lemma ResetQuiet(db: DB, hidden: set<nat>, file: Option<string>, flagged: set<nat>)
    requires hidden == Hidden(db, file)
    ensures Quiet(db, hidden, Reset(db, file, flagged)) && Reset(db, file, flagged).out == []
    ensures Ordered(db, hidden, [])
  {
  }

  // The length of the shortest prefix that contains an item.
  function First(out: seq<Event>, x: Item): (k: nat)
    requires Count(out, x) > 0
    ensures 0 < k <= |out| && ItemOf(out[k - 1]) == Some(x) && Count(out[..k], x) > 0
  {
    var n := |out| - 1;
    if Count(out[..n], x) > 0 then
      assert out[..n][..First(out[..n], x)] == out[..First(out[..n], x)];
      First(out[..n], x)
    else
      assert out[..n + 1] == out;
      n + 1
  }

  lemma {:induction false} FirstIsLeast(out: seq<Event>, x: Item, j: nat)
    requires j <= |out| && Count(out[..j], x) > 0
    ensures Count(out, x) > 0 && First(out, x) <= j
    decreases |out|
  {
    CountGrows(out[..j], out, x);
    if j < |out| {
      assert out[..|out| - 1][..j] == out[..j];
      FirstIsLeast(out[..|out| - 1], x, j);
    }
  }

  lemma {:induction false} NeededComesFirst(db: DB, hidden: set<nat>, out: seq<Event>, a: Item, b: Item, n: nat)
    requires Ordered(db, hidden, out) && Count(out, a) > 0 && NeedsIn(db, hidden, a, b, n)
    ensures Count(out, b) > 0 && First(out, b) < First(out, a)
    decreases n
  {
    hide Needs, Ordered;
    var c :| Step(db, hidden, a, c) && (if n == 0 then c == b else NeedsIn(db, hidden, c, b, n - 1));
    var k := First(out, a) - 1;
    OrderedAt(db, hidden, out, k);
    assert Provided(db, hidden, out[..k], out[k]);
    FirstIsLeast(out, c, k);
    if n > 0 {
      NeededComesFirst(db, hidden, out, c, b, n - 1);
    }
  }

  lemma OrderedIsAcyclic(db: DB, hidden: set<nat>, out: seq<Event>)
    requires Ordered(db, hidden, out)
    ensures Acyclic(db, hidden, out)
  {
    forall x | Count(out, x) > 0 ensures !Reaches(db, hidden, x, x) {
      if Reaches(db, hidden, x, x) {
        var n: nat :| NeedsIn(db, hidden, x, x, n);
        NeededComesFirst(db, hidden, out, x, x, n);
      }
    }
  }

  // A header has every item after all it needs if and only if no written item needs itself through
  // others.
  lemma {:induction false} DependencyOrder(db: DB, file: Option<string>, flagged: set<nat>, names: seq<string>)
    requires Simple(db)
    ensures var out := MakeHeader(db, file, flagged, names).st.out;
            Ordered(db, Hidden(db, file), out) <==> Acyclic(db, Hidden(db, file), out)
  {
    hide Ordered, Acyclic, MakeHeader;
    if Acyclic(db, Hidden(db, file), MakeHeader(db, file, flagged, names).st.out) {
      AcyclicIsOrdered(db, file, flagged, names);
    }
    if Ordered(db, Hidden(db, file), MakeHeader(db, file, flagged, names).st.out) {
      OrderedIsAcyclic(db, Hidden(db, file), MakeHeader(db, file, flagged, names).st.out);
    }
  }

  // No item of the set needs itself through others.
  ghost predicate CycleFree(db: DB, hidden: set<nat>, s: iset<Item>) {
    forall x | x in s :: !Reaches(db, hidden, x, x)
  }

  // What the file's identifiers lead to is free of cycles.
  ghost predicate LeadsToNoCycle(db: DB, file: Option<string>, names: seq<string>) {
    exists s: iset<Item> ::
      && Closed(db, Hidden(db, file), s)
      && Contains(s, NameTargets(db, Hidden(db, file), names)) && CycleFree(db, Hidden(db, file), s)
  }

  // The condition before the header is made: it is ordered if some closed set around what the file's
  // identifiers ask for has no item on a cycle. For a finished header that is also necessary.
  lemma {:induction false} OrderBeforehand(db: DB, file: Option<string>, flagged: set<nat>, names: seq<string>)
    requires Simple(db)
    ensures var r := MakeHeader(db, file, flagged, names);
            && (LeadsToNoCycle(db, file, names) ==> Ordered(db, Hidden(db, file), r.st.out))
            && (r.Finished? ==> (Ordered(db, Hidden(db, file), r.st.out) <==> LeadsToNoCycle(db, file, names)))
  {
    hide Ordered, Acyclic, MakeHeader, Closed, Contains, CycleFree, NameTargets, Contents;
    var hidden, out := Hidden(db, file), MakeHeader(db, file, flagged, names).st.out;
    DependencyOrder(db, file, flagged, names);
    AcyclicContents(db, hidden, out);
    if LeadsToNoCycle(db, file, names) {
      var s: iset<Item> :| Closed(db, hidden, s) && Contains(s, NameTargets(db, hidden, names))
                           && CycleFree(db, hidden, s);
      HeaderIsLeast(db, file, flagged, names, s);
      FewerAreCycleFree(db, hidden, Contents(out), s);
    }
    if MakeHeader(db, file, flagged, names).Finished? {
      HeaderIsClosed(db, file, flagged, names);
    }
  }

  lemma AcyclicContents(db: DB, hidden: set<nat>, out: seq<Event>)
    ensures Acyclic(db, hidden, out) <==> CycleFree(db, hidden, Contents(out))
  {
  }

  lemma FewerAreCycleFree(db: DB, hidden: set<nat>, s: iset<Item>, bigger: iset<Item>)
    requires CycleFree(db, hidden, bigger) && s <= bigger
    ensures CycleFree(db, hidden, s)
  {
  }
}

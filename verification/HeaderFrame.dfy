// What every routine of the header generator keeps, for all databases: the state only grows, each
// item is written at most once and only when its flag is newly set, and every item lies inside the
// #if block of its own condition.

module HeaderFrame {
  import opened Options
  import opened Declarations
  import opened HeaderSpec
  import opened HeaderSteps

  // What a header can contain: the full text of a declaration, its forward form, an #include.
  datatype Item = FullItem(p: nat) | FwdItem(p: nat) | InclItem(key: string)

  function ItemOf(e: Event): Option<Item> {
    match e
    case Incl(inc) => Some(InclItem(inc.key))
    case Fwd(p) => Some(FwdItem(p))
    case Full(p) => Some(FullItem(p))
    case _ => None
  }

  // How often an item is written.
  function Count(out: seq<Event>, x: Item): nat {
    if out == [] then 0
    else Count(out[..|out| - 1], x) + if ItemOf(out[|out| - 1]) == Some(x) then 1 else 0
  }

  lemma CountEmit(out: seq<Event>, e: Event, x: Item)
    ensures Count(out + [e], x) == Count(out, x) + if ItemOf(e) == Some(x) then 1 else 0
  {
    assert (out + [e])[..|out|] == out;
  }

  // The flag that says an item has been dealt with.
  predicate Started(st: State, x: Item) {
    match x
    case FullItem(p) => p in st.declared
    case FwdItem(p) => p in st.forwarded
    case InclItem(key) => key in st.seen
  }

  // ---------------------------------------------------------------------------------------------
  // #if blocks

  // Which #if a text is inside of after its last event; None once a block nests, an #endif has no
  // #if, or an item stands outside the block of its own condition.
  function Scope(db: DB, out: seq<Event>): Option<Option<Text>> {
    if out == [] then Some(None)
    else ScopeStep(db, Scope(db, out[..|out| - 1]), out[|out| - 1])
  }

  function ScopeStep(db: DB, scope: Option<Option<Text>>, e: Event): Option<Option<Text>> {
    if scope.None? then None
    else
      match e
      case OpenIf(cond) => if scope == Some(None) then Some(Some(cond)) else None
      case CloseIf => if scope == Some(None) then None else Some(None)
      case Incl(inc) => if scope.value == inc.cond then scope else None
      case Fwd(p) => if p < |db| && scope.value == db[p].cond then scope else None
      case Full(p) => if p < |db| && scope.value == db[p].cond then scope else None
  }

  lemma ScopeEmit(db: DB, out: seq<Event>, e: Event)
    ensures Scope(db, out + [e]) == ScopeStep(db, Scope(db, out), e)
  {
    assert (out + [e])[..|out|] == out;
  }

  ghost predicate InScope(db: DB, st: State) {
    Scope(db, st.out) == Some(st.cond)
  }

  // ---------------------------------------------------------------------------------------------
  // The relation between the states before and after a routine

  // A declaration with a forward form is no typedef, and no enumeration with a full text
  // (1553-1589, 1994-1997).
  ghost predicate WellFormed(db: DB) {
    forall p | 0 <= p < |db| && db[p].fwd.Some? ::
      !db[p].kind.Typedef? && !(db[p].kind.Enumeration? && db[p].text.Some?)
  }

  ghost predicate Grown(st: State, r: State) {
    && st.forwarded <= r.forwarded
    && st.declared <= r.declared
    && st.seen <= r.seen
    && st.out <= r.out
  }

  ghost predicate Justified(db: DB, st: State, r: State) {
    && (forall p | p in r.forwarded && p !in r.declared && p !in st.forwarded :: p < |db| && db[p].fwd.Some?)
    && (forall p | p in r.declared && p !in st.declared :: p < |db| && db[p].text.Some? && p in r.forwarded)
  }

  // Each item is written at most once, and only if its flag was set meanwhile.
  ghost predicate Fresh(st: State, r: State) {
    forall x :: Count(r.out, x) <= Count(st.out, x) + if Started(r, x) && !Started(st, x) then 1 else 0
  }

  // DP_Flag never gets set on what is declared already, and a newly declared object other than
  // those in "open" carries it on only if it has no forward form.
  ghost predicate FlagsTame(db: DB, st: State, r: State, open: set<nat>) {
    forall p | p in r.flagged ::
      && (p in st.flagged || p in r.declared)
      && (p in st.declared ==> p in st.flagged)
      && (p !in st.declared && p in r.declared && p !in open ==> p < |db| && db[p].fwd.None?)
  }

  // With one declaration per name no nested call touches the flag of what is being declared.
  ghost predicate FlagsKept(db: DB, st: State, r: State, own: set<nat>) {
    OnePerName(db) ==>
      forall p | p in st.flagged && p in st.declared && p in st.forwarded && p !in own :: p in r.flagged
  }

  ghost predicate FrameBut(db: DB, st: State, r: State, open: set<nat>, own: set<nat>) {
    && Grown(st, r)
    && Justified(db, st, r)
    && Fresh(st, r)
    && FlagsTame(db, st, r, open)
    && FlagsKept(db, st, r, own)
    && (InScope(db, st) ==> InScope(db, r))
  }

  ghost predicate Frame(db: DB, st: State, r: State) {
    FrameBut(db, st, r, {}, {})
  }

  lemma FrameSelf(db: DB, st: State)
    ensures Frame(db, st, st)
  {
  }

  lemma FreshTrans(a: State, b: State, c: State)
    requires Grown(a, b) && Grown(b, c) && Fresh(a, b) && Fresh(b, c)
    ensures Fresh(a, c)
  {
    forall x ensures Count(c.out, x) <= Count(a.out, x) + if Started(c, x) && !Started(a, x) then 1 else 0 {
      assert Count(b.out, x) <= Count(a.out, x) + if Started(b, x) && !Started(a, x) then 1 else 0;
    }
  }

  lemma FrameTrans(db: DB, a: State, b: State, c: State)
    requires Frame(db, a, b) && Frame(db, b, c)
    ensures Frame(db, a, c)
  {
    FrameButTrans(db, a, b, c, {}, {});
  }

  lemma FrameButTrans(db: DB, a: State, b: State, c: State, open: set<nat>, own: set<nat>)
    requires FrameBut(db, a, b, open, own) && Frame(db, b, c)
    ensures FrameBut(db, a, c, open, own)
  {
    FreshTrans(a, b, c);
  }

  lemma EmitIf(db: DB, st: State, e: Event, cond: Option<Text>)
    requires (e.CloseIf? && st.cond.Some? && cond.None?) || (e.OpenIf? && st.cond.None? && cond == Some(e.cond))
    ensures Frame(db, st, st.Emit(e).(cond := cond))
  {
    forall x ensures Count(st.Emit(e).out, x) == Count(st.out, x) {
      CountEmit(st.out, e, x);
    }
    ScopeEmit(db, st.out, e);
  }

  // An item is written last, after its flag was set and the #if context changed.
  lemma EmitInclude(db: DB, st: State, st2: State, inc: Include)
    requires inc.key !in st.seen && st2.cond == inc.cond
    requires Frame(db, st.(seen := st.seen + {inc.key}), st2)
    ensures Frame(db, st, st2.Emit(Incl(inc)))
  {
    var st1 := st.(seen := st.seen + {inc.key});
    var r := st2.Emit(Incl(inc));
    forall x ensures Count(r.out, x) <= Count(st.out, x) + if Started(r, x) && !Started(st, x) then 1 else 0 {
      CountEmit(st2.out, Incl(inc), x);
      assert Count(st2.out, x) <= Count(st1.out, x) + if Started(st2, x) && !Started(st1, x) then 1 else 0;
    }
    ScopeEmit(db, st2.out, Incl(inc));
  }

  lemma EmitForward(db: DB, st: State, st2: State, p: nat)
    requires p < |db| && db[p].fwd.Some? && p !in st.forwarded && st2.cond == db[p].cond
    requires Frame(db, st.(forwarded := st.forwarded + {p}), st2)
    ensures Frame(db, st, st2.Emit(Fwd(p)))
  {
    var st1 := st.(forwarded := st.forwarded + {p});
    var r := st2.Emit(Fwd(p));
    forall x ensures Count(r.out, x) <= Count(st.out, x) + if Started(r, x) && !Started(st, x) then 1 else 0 {
      CountEmit(st2.out, Fwd(p), x);
      assert Count(st2.out, x) <= Count(st1.out, x) + if Started(st2, x) && !Started(st1, x) then 1 else 0;
    }
    ScopeEmit(db, st2.out, Fwd(p));
  }

  // ---------------------------------------------------------------------------------------------
  // Every routine respects the frame

  lemma {:induction false} ScanRefsFrame(db: DB, st: State, refs: seq<Ref>)
    requires WellFormed(db) && ValidRefs(db, refs)
    ensures Frame(db, st, ScanRefs(db, st, refs))
    decreases Remaining(db, st), 5, |refs|
  {
    hide Frame, Remaining, DeclareObject;
    if refs == [] {
      FrameSelf(db, st);
    } else {
      var st1 := DeclareObject(db, st, refs[0].chain, refs[0].full);
      DeclareObjectFrame(db, st, refs[0].chain, refs[0].full);
      ScanRefsFrame(db, st1, refs[1..]);
      FrameTrans(db, st, st1, ScanRefs(db, st1, refs[1..]));
    }
  }

  lemma CloseIfOpenFrame(db: DB, st: State)
    ensures Frame(db, st, CloseIfOpen(st))
  {
    if st.cond.Some? {
      EmitIf(db, st, CloseIf, None);
    }
  }

  lemma {:induction false} ScanTextFrame(db: DB, st: State, toks: Text)
    requires WellFormed(db)
    ensures Frame(db, st, ScanText(db, st, toks))
    decreases Remaining(db, st), 6
  {
    ScanRefsFrame(db, st, Refs(db, toks, None));
  }

  lemma {:induction false} ChangeIfContextFrame(db: DB, st: State, cond: Option<Text>)
    requires WellFormed(db)
    ensures Frame(db, st, ChangeIfContext(db, st, cond))
    decreases Remaining(db, st), 7
  {
    hide Frame, Remaining, ScanText;
    if st.cond == cond {
      FrameSelf(db, st);
    } else {
      CloseIfOpenFrame(db, st);
      CloseKeeps(db, st);
      if cond.Some? {
        var st1 := CloseIfOpen(st);
        var st2 := ScanText(db, st1, cond.value);
        ScanTextFrame(db, st1, cond.value);
        FrameTrans(db, st, st1, st2);
        ReopenFrame(db, st2, cond);
        FrameTrans(db, st, st2, CloseIfOpen(st2).Emit(OpenIf(cond.value)).(cond := cond));
      }
    }
  }

  lemma ReopenFrame(db: DB, st: State, cond: Option<Text>)
    requires cond.Some?
    ensures Frame(db, st, CloseIfOpen(st).Emit(OpenIf(cond.value)).(cond := cond))
  {
    CloseIfOpenFrame(db, st);
    EmitIf(db, CloseIfOpen(st), OpenIf(cond.value), cond);
    FrameTrans(db, st, CloseIfOpen(st), CloseIfOpen(st).Emit(OpenIf(cond.value)).(cond := cond));
  }

  lemma {:induction false} AddIncludesFrame(db: DB, st: State, incs: seq<Include>)
    requires WellFormed(db) && KnownIncludes(db, incs)
    ensures Frame(db, st, AddIncludes(db, st, incs))
    decreases Remaining(db, st), 1, |incs|
  {
    hide Frame, Remaining, WriteInclude;
    if incs == [] {
      FrameSelf(db, st);
    } else {
      var st1 := AddIncludes(db, st, incs[1..]);
      AddIncludesFrame(db, st, incs[1..]);
      if incs[0].key !in st1.seen {
        WriteIncludeFrame(db, st1, incs[0]);
        FrameTrans(db, st, st1, WriteInclude(db, st1, incs[0]));
      }
    }
  }

  lemma {:induction false} WriteIncludeFrame(db: DB, st: State, inc: Include)
    requires WellFormed(db) && inc.key in Keys(db) && inc.key !in st.seen
    ensures Frame(db, st, WriteInclude(db, st, inc))
    decreases Remaining(db, st), 0
  {
    var st1 := st.(seen := st.seen + {inc.key});
    RemainingDrops(db, st, st1);
    ChangeIfContextFrame(db, st1, inc.cond);
    EmitInclude(db, st, ChangeIfContext(db, st1, inc.cond), inc);
  }

  lemma {:induction false} WriteForwardFrame(db: DB, st: State, p: nat)
    requires WellFormed(db) && p < |db| && db[p].fwd.Some? && p !in st.forwarded
    ensures Frame(db, st, WriteForward(db, st, p))
    decreases Remaining(db, st), 0
  {
    var st1 := st.(forwarded := st.forwarded + {p});
    RemainingDrops(db, st, st1);
    ChangeIfContextFrame(db, st1, db[p].cond);
    EmitForward(db, st, ChangeIfContext(db, st1, db[p].cond), p);
  }

  lemma SkipForwardFrame(db: DB, st: State, p: nat)
    requires p < |db| && db[p].fwd.Some? && p !in st.forwarded
    ensures var st1 := st.(forwarded := st.forwarded + {p});
            Frame(db, st, st1) && Remaining(db, st1) < Remaining(db, st)
  {
    RemainingDrops(db, st, st.(forwarded := st.forwarded + {p}));
  }

  lemma {:induction false} ForwardsFrame(db: DB, st: State, chain: seq<nat>, done: bool)
    requires WellFormed(db) && ValidChain(db, chain)
    ensures Frame(db, st, Forwards(db, st, chain, done).0)
    decreases Remaining(db, st), 3, |chain|
  {
    hide Frame, Remaining, WriteForward;
    if chain == [] {
      FrameSelf(db, st);
    } else {
      var p := chain[0];
      if db[p].fwd.None? || p in st.forwarded {
        ForwardsFrame(db, st, chain[1..], done);
      } else {
        var skip := db[p].fwd.value.isTypedef && done;
        var st1 := if skip then st.(forwarded := st.forwarded + {p}) else WriteForward(db, st, p);
        if skip {
          SkipForwardFrame(db, st, p);
        } else {
          WriteForwardFrame(db, st, p);
        }
        var done1 := done || db[p].fwd.value.isTypedef;
        ForwardsFrame(db, st1, chain[1..], done1);
        FrameTrans(db, st, st1, Forwards(db, st1, chain[1..], done1).0);
      }
    }
  }

  lemma {:induction false} AllIncludesFrame(db: DB, st: State, chain: seq<nat>)
    requires WellFormed(db) && ValidChain(db, chain)
    ensures Frame(db, st, AllIncludes(db, st, chain))
    decreases Remaining(db, st), 2, |chain|
  {
    hide Frame, Remaining, AddIncludes;
    if chain == [] {
      FrameSelf(db, st);
    } else {
      var st1 := AddIncludes(db, st, db[chain[0]].includes);
      AddIncludesFrame(db, st, db[chain[0]].includes);
      AllIncludesFrame(db, st1, chain[1..]);
      FrameTrans(db, st, st1, AllIncludes(db, st1, chain[1..]));
    }
  }

  lemma {:induction false} ScanFlaggedFrame(db: DB, st: State, chain: seq<nat>, bound: nat)
    requires WellFormed(db) && ValidChain(db, chain) && Below(db, st, chain, bound)
    ensures Frame(db, st, ScanFlagged(db, st, chain, bound))
    decreases bound, 3, |chain|
  {
    hide Frame, Remaining, Below, ScanFlagged, ScanText;
    if chain == [] {
      BelowIs(db, st, chain, bound);
      LoopEnds(db, st, false, bound);
      FrameSelf(db, st);
    } else {
      assert chain[0..] == chain;
      ScanFlaggedStep(db, st, chain, bound, 0);
      if chain[0] in st.flagged {
        var st1 := ScanText(db, st, db[chain[0]].text.value);
        ScanTextFrame(db, st, db[chain[0]].text.value);
        ScanFlaggedFrame(db, st1, chain[1..], bound);
        FrameTrans(db, st, st1, ScanFlagged(db, st1, chain[1..], bound));
      } else {
        ScanFlaggedFrame(db, st, chain[1..], bound);
      }
    }
  }

  // ---------------------------------------------------------------------------------------------
  // Writing a marked group.  "base" is the state before the group was marked.

  // A flagged member was declared since "base" and is not written yet.
  ghost predicate Ready(db: DB, base: State, st: State, chain: seq<nat>, full: bool)
    requires ValidChain(db, chain)
  {
    && (forall k | 0 <= k < |chain| && chain[k] in st.flagged ::
          && chain[k] in st.declared && chain[k] !in base.declared
          && Count(st.out, FullItem(chain[k])) <= Count(base.out, FullItem(chain[k])))
    && Settled(db, st, chain, full)
  }

  // A group asked for has its full declarations under way; one asked for only by "*", unless it has
  // a forward form.
  ghost predicate Settled(db: DB, st: State, chain: seq<nat>, full: bool)
    requires ValidChain(db, chain)
  {
    forall k | 0 <= k < |chain| ::
      chain[k] in st.declared || (db[chain[k]].fwd.Some? && !full) || db[chain[k]].text.None?
  }

  lemma ReadyAfter(db: DB, base: State, st: State, r: State, chain: seq<nat>, full: bool)
    requires ValidChain(db, chain) && Ready(db, base, st, chain, full) && Frame(db, st, r)
    ensures Ready(db, base, r, chain, full)
  {
    forall k | 0 <= k < |chain| && chain[k] in r.flagged
      ensures chain[k] in r.declared && chain[k] !in base.declared
      ensures Count(r.out, FullItem(chain[k])) <= Count(base.out, FullItem(chain[k]))
    {
      assert chain[k] in st.flagged;
      assert Count(r.out, FullItem(chain[k])) <= Count(st.out, FullItem(chain[k]));
    }
  }

  ghost function Members(chain: seq<nat>): set<nat> {
    set p | p in chain
  }

  lemma MarkKeepsFrame(db: DB, st: State, chain: seq<nat>, full: bool)
    requires ValidChain(db, chain)
    ensures FrameBut(db, st, Mark(db, st, chain, full), Members(chain), Members(chain))
  {
    hide Remaining;
  }

  lemma MarkIsReady(db: DB, st: State, chain: seq<nat>, full: bool)
    requires ValidChain(db, chain)
    ensures Ready(db, st, Mark(db, st, chain, full), chain, full)
  {
    hide Remaining;
  }

  lemma MarkFrame(db: DB, st: State, chain: seq<nat>, full: bool)
    requires ValidChain(db, chain)
    ensures FrameBut(db, st, Mark(db, st, chain, full), Members(chain), Members(chain))
    ensures Ready(db, st, Mark(db, st, chain, full), chain, full)
  {
    MarkKeepsFrame(db, st, chain, full);
    MarkIsReady(db, st, chain, full);
  }

  lemma EmitFullFresh(base: State, st: State, p: nat)
    requires Fresh(base, st) && Count(st.out, FullItem(p)) <= Count(base.out, FullItem(p))
    requires p in st.declared && p !in base.declared
    ensures Fresh(base, st.Emit(Full(p)))
  {
    var r := st.Emit(Full(p));
    forall x ensures Count(r.out, x) <= Count(base.out, x) + if Started(r, x) && !Started(base, x) then 1 else 0 {
      CountEmit(st.out, Full(p), x);
    }
  }

  lemma EmitFullFrame(db: DB, base: State, st: State, p: nat, open: set<nat>, own: set<nat>)
    requires p < |db| && FrameBut(db, base, st, open, own)
    requires p in st.declared && p !in base.declared && Count(st.out, FullItem(p)) <= Count(base.out, FullItem(p))
    requires st.cond == db[p].cond
    ensures FrameBut(db, base, st.Emit(Full(p)), open, own)
  {
    EmitFullFresh(base, st, p);
    ScopeEmit(db, st.out, Full(p));
  }

  // Clearing DP_Flag on a member closes it.
  lemma UnflagFrame(db: DB, base: State, st: State, p: nat, open: set<nat>, own: set<nat>)
    requires FrameBut(db, base, st, open + {p}, own) && p in own
    ensures FrameBut(db, base, st.(flagged := st.flagged - {p}), open, own)
  {
    assert forall x :: Started(st.(flagged := st.flagged - {p}), x) == Started(st, x);
  }

  // The invariant of the two output loops; "open" are the members the first loop has not reached.
  ghost predicate Writing(db: DB, base: State, st: State, open: set<nat>, chain: seq<nat>, full: bool) {
    && ValidChain(db, chain)
    && FrameBut(db, base, st, open, Members(chain))
    && Ready(db, base, st, chain, full)
  }

  lemma ReadyMember(db: DB, base: State, st: State, p: nat, chain: seq<nat>, full: bool)
    requires ValidChain(db, chain) && Ready(db, base, st, chain, full) && p in chain && p in st.flagged
    ensures p in st.declared && p !in base.declared && Count(st.out, FullItem(p)) <= Count(base.out, FullItem(p))
  {
  }

  // What is declared already does not get written.
  lemma StillDeclared(db: DB, st: State, r: State, p: nat)
    requires Frame(db, st, r) && p in st.declared
    ensures p in r.declared && Count(r.out, FullItem(p)) <= Count(st.out, FullItem(p))
  {
    assert Started(st, FullItem(p));
  }

  lemma ContextIs(db: DB, st: State, cond: Option<Text>)
    ensures ChangeIfContext(db, st, cond).cond == cond
  {
  }

  lemma WriteFullFrame(db: DB, base: State, st: State, p: nat, open: set<nat>, chain: seq<nat>, full: bool)
    requires p < |db| && p in chain && p in st.flagged && Writing(db, base, st, open, chain, full)
    requires Frame(db, st, ChangeIfContext(db, st, db[p].cond))
    ensures FrameBut(db, base, WriteFull(db, st, p), open, Members(chain))
  {
    hide Frame, FrameBut, Ready, ChangeIfContext;
    ReadyMember(db, base, st, p, chain, full);
    var st1 := ChangeIfContext(db, st, db[p].cond);
    FrameButTrans(db, base, st, st1, open, Members(chain));
    StillDeclared(db, st, st1, p);
    ContextIs(db, st, db[p].cond);
    EmitFullFrame(db, base, st1, p, open, Members(chain));
  }

  lemma EmitReady(db: DB, base: State, st: State, p: nat, chain: seq<nat>, full: bool)
    requires ValidChain(db, chain) && Ready(db, base, st, chain, full)
    ensures Ready(db, base, st.Emit(Full(p)).(flagged := st.flagged - {p}), chain, full)
  {
    forall k | 0 <= k < |chain| && chain[k] != p
      ensures Count(st.Emit(Full(p)).out, FullItem(chain[k])) == Count(st.out, FullItem(chain[k])) {
      CountEmit(st.out, Full(p), FullItem(chain[k]));
    }
  }

  lemma WriteFullReady(db: DB, base: State, st: State, p: nat, chain: seq<nat>, full: bool)
    requires ValidChain(db, chain) && p < |db|
    requires Frame(db, st, ChangeIfContext(db, st, db[p].cond)) && Ready(db, base, st, chain, full)
    ensures Ready(db, base, WriteFull(db, st, p).(flagged := WriteFull(db, st, p).flagged - {p}), chain, full)
  {
    hide FrameBut, Frame;
    var st1 := ChangeIfContext(db, st, db[p].cond);
    var r := WriteFull(db, st, p);
    ReadyAfter(db, base, st, st1, chain, full);
    EmitReady(db, base, st1, p, chain, full);
  }

  lemma WriteMember(db: DB, base: State, st: State, p: nat, open: set<nat>, chain: seq<nat>, full: bool)
    requires p < |db| && p in chain && p in st.flagged && Writing(db, base, st, open + {p}, chain, full)
    requires Frame(db, st, ChangeIfContext(db, st, db[p].cond))
    ensures Writing(db, base, WriteFull(db, st, p).(flagged := WriteFull(db, st, p).flagged - {p}), open, chain, full)
  {
    WriteFullFrame(db, base, st, p, open + {p}, chain, full);
    UnflagFrame(db, base, WriteFull(db, st, p), p, open, Members(chain));
    WriteFullReady(db, base, st, p, chain, full);
  }

  lemma CloseMember(db: DB, base: State, st: State, p: nat, open: set<nat>, chain: seq<nat>, full: bool)
    requires WellFormed(db) && p < |db| && Writing(db, base, st, open + {p}, chain, full)
    requires p !in st.flagged || db[p].kind.Typedef? || (db[p].kind.Enumeration? && db[p].text.Some?)
    ensures Writing(db, base, st, open, chain, full)
  {
  }

  lemma NoMembers()
    ensures Members([]) == {}
  {
  }

  lemma FirstMember(rest: seq<nat>, chain: seq<nat>)
    requires rest != [] && Members(rest) <= Members(chain)
    ensures rest[0] in chain && Members(rest) == Members(rest[1..]) + {rest[0]}
    ensures Members(rest[1..]) <= Members(chain)
  {
    assert rest[0] in Members(rest);
  }

  lemma BelowText(db: DB, st: State, chain: seq<nat>, bound: nat)
    requires ValidChain(db, chain) && Below(db, st, chain, bound) && chain != []
    ensures chain[0] in st.flagged ==> db[chain[0]].text.Some?
  {
  }

  lemma {:induction false} DefinitionsFrame(
    db: DB, base: State, st: State, rest: seq<nat>, done: bool, bound: nat, chain: seq<nat>, full: bool)
    requires WellFormed(db) && ValidChain(db, rest) && Below(db, st, rest, bound)
    requires Members(rest) <= Members(chain) && Writing(db, base, st, Members(rest), chain, full)
    ensures Writing(db, base, Definitions(db, st, rest, done, bound).0, {}, chain, full)
    decreases bound, 3, |rest|
  {
    hide Writing, Frame, Definitions, Below, ChangeIfContext, Remaining, Members;
    if rest == [] {
      NoMembers();
      BelowIs(db, st, rest, bound);
      LoopEnds(db, st, done, bound);
    } else {
      var p := rest[0];
      assert rest[0..] == rest;
      DefinitionsStep(db, st, rest, done, bound, 0);
      FirstMember(rest, chain);
      if Skipped(db, st, p, done) {
        BelowText(db, st, rest, bound);
        CloseMember(db, base, st, p, Members(rest[1..]), chain, full);
        DefinitionsFrame(db, base, st, rest[1..], done, bound, chain, full);
      } else {
        ChangeIfContextFrame(db, st, db[p].cond);
        var st1 := WriteFull(db, st, p);
        WriteMember(db, base, st, p, Members(rest[1..]), chain, full);
        DefinitionsFrame(db, base, st1.(flagged := st1.flagged - {p}), rest[1..],
                         done || db[p].kind.Enumeration?, bound, chain, full);
      }
    }
  }

  lemma WritingIs(db: DB, base: State, st: State, open: set<nat>, chain: seq<nat>, full: bool)
    requires Writing(db, base, st, open, chain, full)
    ensures ValidChain(db, chain) && FrameBut(db, base, st, open, Members(chain)) && Settled(db, st, chain, full)
  {
  }

  lemma SettledAfter(db: DB, st: State, r: State, e: Event, chain: seq<nat>, full: bool)
    requires ValidChain(db, chain) && Settled(db, st, chain, full) && Frame(db, st, r)
    ensures Settled(db, r.Emit(e), chain, full)
  {
  }

  lemma TypedefEnds(db: DB, st: State, chain: seq<nat>, done: bool, bound: nat)
    requires ValidChain(db, chain) && Below(db, st, chain, bound) && (chain == [] || done)
    ensures FirstTypedef(db, st, chain, done, bound) == st
  {
  }

  lemma {:induction false} FirstTypedefFrame(
    db: DB, base: State, st: State, rest: seq<nat>, done: bool, bound: nat, chain: seq<nat>, full: bool)
    requires WellFormed(db) && ValidChain(db, rest) && Below(db, st, rest, bound)
    requires Members(rest) <= Members(chain) && Writing(db, base, st, {}, chain, full)
    ensures FrameBut(db, base, FirstTypedef(db, st, rest, done, bound), {}, Members(chain))
    ensures Settled(db, FirstTypedef(db, st, rest, done, bound), chain, full)
    decreases bound, 3, |rest|
  {
    hide Frame, FirstTypedef, Below, ChangeIfContext, Remaining, Members, Writing, FrameBut, Settled;
    if rest == [] || done {
      BelowIs(db, st, rest, bound);
      TypedefEnds(db, st, rest, done, bound);
      WritingIs(db, base, st, {}, chain, full);
    } else {
      var p := rest[0];
      assert rest[0..] == rest;
      FirstTypedefStep(db, st, rest, bound, 0);
      FirstMember(rest, chain);
      if p in st.flagged {
        ChangeIfContextFrame(db, st, db[p].cond);
        WriteFullFrame(db, base, st, p, {}, chain, full);
        WritingIs(db, base, st, {}, chain, full);
        SettledAfter(db, st, ChangeIfContext(db, st, db[p].cond), Full(p), chain, full);
      } else {
        FirstTypedefFrame(db, base, st, rest[1..], done, bound, chain, full);
      }
    }
  }

  lemma WritingAfter(db: DB, base: State, st: State, r: State, open: set<nat>, chain: seq<nat>, full: bool)
    requires Writing(db, base, st, open, chain, full) && Frame(db, st, r)
    ensures Writing(db, base, r, open, chain, full)
  {
    FrameButTrans(db, base, st, r, open, Members(chain));
    ReadyAfter(db, base, st, r, chain, full);
  }

  lemma {:induction false} WriteMarkedFrame(
    db: DB, base: State, st: State, chain: seq<nat>, full: bool, done: bool, bound: nat)
    requires WellFormed(db) && ValidChain(db, chain) && Below(db, st, chain, bound)
    requires Writing(db, base, st, Members(chain), chain, full)
    ensures FrameBut(db, base, WriteMarked(db, st, chain, done, bound), {}, Members(chain))
    ensures Settled(db, WriteMarked(db, st, chain, done, bound), chain, full)
    decreases bound, 3, |chain| + 1
  {
    hide Frame, FrameBut, Below, Writing, ScanFlagged, Definitions, FirstTypedef, Remaining, Settled;
    WriteMarkedParts(db, st, chain, done, bound);
    var st1 := ScanFlagged(db, st, chain, bound);
    ScanFlaggedFrame(db, st, chain, bound);
    WritingAfter(db, base, st, st1, Members(chain), chain, full);
    DefinitionsFrame(db, base, st1, chain, done, bound, chain, full);
    var (st2, done2) := Definitions(db, st1, chain, done, bound);
    FirstTypedefFrame(db, base, st2, chain, done2, bound, chain, full);
  }

  // A group that is not suitably declared yet owns its flags under one declaration per name.
  lemma OwnFlags(db: DB, st1: State, st2: State, r: State, chain: seq<nat>, full: bool)
    requires Frame(db, st1, st2) && FrameBut(db, st2, r, {}, Members(chain))
    requires ValidChain(db, chain) && !Suitable(st1, chain, full)
    ensures Frame(db, st1, r)
  {
    FreshTrans(st1, st2, r);
    if OnePerName(db) {
      ShortChain(db, chain);
    }
  }

  lemma {:induction false} DeclareObjectFrame(db: DB, st: State, chain: seq<nat>, full: bool)
    requires WellFormed(db) && ValidChain(db, chain)
    ensures Frame(db, st, DeclareObject(db, st, chain, full))
    ensures full ==> Settled(db, DeclareObject(db, st, chain, full), chain, full)
    decreases Remaining(db, st), 4
  {
    ForwardsFrame(db, st, chain, false);
    var (st1, done) := Forwards(db, st, chain, false);
    if !Suitable(st1, chain, full) {
      var bound := Remaining(db, st);
      AllIncludesFrame(db, st1, chain);
      MarkedFrame(db, AllIncludes(db, st1, chain), chain, full, done, bound);
      OwnFlags(db, st1, AllIncludes(db, st1, chain),
               MarkAndWrite(db, AllIncludes(db, st1, chain), chain, full, done, bound), chain, full);
      FrameTrans(db, st, st1, DeclareObject(db, st, chain, full));
    }
  }

  lemma {:induction false} MarkedFrame(db: DB, st: State, chain: seq<nat>, full: bool, done: bool, bound: nat)
    requires WellFormed(db) && ValidChain(db, chain) && Remaining(db, st) <= bound
    ensures FrameBut(db, st, MarkAndWrite(db, st, chain, full, done, bound), {}, Members(chain))
    ensures Settled(db, MarkAndWrite(db, st, chain, full, done, bound), chain, full)
    decreases bound, 3, |chain| + 2
  {
    MarkDrops(db, st, chain, full, bound);
    MarkFrame(db, st, chain, full);
    WriteMarkedFrame(db, st, Mark(db, st, chain, full), chain, full, done, bound);
  }
}

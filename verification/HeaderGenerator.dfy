// The generator of tools/cnoh.c in its own form: Decl objects whose flag bits are set and cleared in
// place, and a generator object that collects output.  Every method is proved to do what the
// function of the same purpose in HeaderSpec and HeaderRun says.

module HeaderGenerator {
  import opened Options
  import opened Declarations
  import opened HeaderSpec
  import opened HeaderSteps
  import opened HeaderRun
  import HeaderFrame

  // The bits of a Decl's flags word that change while headers are generated.
  class Bits {
    var forwarded: bool
    var declared: bool
    var flagged: bool

    constructor ()
      ensures !forwarded && !declared && !flagged
    {
      forwarded, declared, flagged := false, false, false;
    }
  }

  class Generator {
    const db: DB
    const bits: seq<Bits>
    var seen: set<string>
    var cond: Option<Text>
    var out: seq<Event>

    ghost predicate Valid() {
      |bits| == |db| && forall i, j | 0 <= i < j < |bits| :: bits[i] != bits[j]
    }

    // The state the object stands for.
    ghost function Now(): State
      requires Valid()
      reads this, bits
    {
      State(
        (set i: nat | i < |bits| && bits[i].forwarded),
        (set i: nat | i < |bits| && bits[i].declared),
        (set i: nat | i < |bits| && bits[i].flagged),
        seen, cond, out)
    }

    constructor (db: DB, bits: seq<Bits>)
      requires |bits| == |db| && forall i, j | 0 <= i < j < |bits| :: bits[i] != bits[j]
      ensures this.db == db && this.bits == bits && Valid()
    {
      this.db, this.bits := db, bits;
      seen, cond, out := {}, None, [];
    }

    method Append(e: Event)
      requires Valid()
      modifies this`out
      ensures Now() == old(Now()).Emit(e)
    {
      out := out + [e];
    }

    method SetCond(c: Option<Text>)
      requires Valid()
      modifies this`cond
      ensures Now() == old(Now()).(cond := c)
    {
      cond := c;
    }

    // IdentTableInsert on the table of includes
    method InsertKey(key: string) returns (inserted: bool)
      requires Valid()
      modifies this`seen
      ensures inserted <==> key !in old(Now()).seen
      ensures Now() == old(Now()).(seen := old(Now()).seen + {key})
    {
      inserted := key !in seen;
      seen := seen + {key};
    }

    method SetForwarded(p: nat)
      requires Valid() && p < |db|
      modifies bits[p]
      ensures Now() == old(Now()).(forwarded := old(Now()).forwarded + {p})
    {
      bits[p].forwarded := true;
      assert forall i | 0 <= i < |bits| && i != p :: bits[i].forwarded == old(bits[i].forwarded);
    }

    // 2632
    method MarkWanted(p: nat)
      requires Valid() && p < |db|
      modifies bits[p]
      ensures Now() == old(Now()).(
        forwarded := old(Now()).forwarded + {p}, declared := old(Now()).declared + {p},
        flagged := old(Now()).flagged + {p})
    {
      bits[p].forwarded, bits[p].declared, bits[p].flagged := true, true, true;
      assert forall i | 0 <= i < |bits| && i != p :: unchanged(bits[i]);
    }

    method ClearFlag(p: nat)
      requires Valid() && p < |db|
      modifies bits[p]
      ensures Now() == old(Now()).(flagged := old(Now()).flagged - {p})
    {
      bits[p].flagged := false;
      assert forall i | 0 <= i < |bits| && i != p :: bits[i].flagged == old(bits[i].flagged);
    }

    function Cond(): (c: Option<Text>)
      requires Valid()
      reads this, bits
      ensures c == Now().cond
    {
      cond
    }

    // DeclHasProperty
    function IsForwarded(p: nat): (r: bool)
      requires Valid() && p < |db|
      reads this, bits
      ensures r <==> p in Now().forwarded
    {
      bits[p].forwarded
    }

    function IsDeclared(p: nat): (r: bool)
      requires Valid() && p < |db|
      reads this, bits
      ensures r <==> p in Now().declared
    {
      bits[p].declared
    }

    function IsFlagged(p: nat): (r: bool)
      requires Valid() && p < |db|
      reads this, bits
      ensures r <==> p in Now().flagged
    {
      bits[p].flagged
    }

    // -------------------------------------------------------------------------------------------
    // The four routines

    // 2704-2759
    method ScanText(toks: Text)
      requires Valid()
      modifies this, bits
      ensures Now() == HeaderSpec.ScanText(db, old(Now()), toks)
      decreases Remaining(db, Now()), 6
    {
      hide HeaderSpec.DeclareObject, HeaderSpec.ScanRefs, Now, Remaining, Refs;
      ghost var st0 := Now();
      ghost var all := Refs(db, toks, None);
      var rest, ahead: Option<Tok> := toks, None;
      while rest != []
        invariant Remaining(db, Now()) <= Remaining(db, st0)
        invariant ahead.Some? ==> ahead.value.Id?
        invariant ScanRefs(db, Now(), Refs(db, rest, ahead)) == ScanRefs(db, st0, all)
        decreases Size(rest), if ahead.Some? then 1 else 0
      {
        RefsStep(db, rest, ahead);
        var tok := ahead;
        var after := rest;
        if ahead.Some? {
          ahead := None;
        } else {
          var next := NextTok(rest);
          tok, after := next.0, next.1;
        }
        if tok.Some? && tok.value.Id? {
          var chain := Chain(db, tok.value.name);
          if chain == [] {
            rest := after;
          } else {
            var next := NextTok(after);
            var full := !IsStar(next.0);
            ScanRefsFirst(db, Now(), Ref(chain, full),
                          Refs(db, next.1, if full && next.0.Some? && next.0.value.Id? then next.0 else None));
            rest := next.1;
            if full && next.0.Some? && next.0.value.Id? {
              ahead := next.0;
            }
            DeclareObject(chain, full);
          }
        } else if tok.Some? && tok.value.Directive? {
          rest := tok.value.body + after;
        } else {
          rest := after;
        }
      }
      NoRefs(db, Now(), ahead);
      ScanTextIs(db, st0, toks);
    }

    // 2499-2522
    method ChangeIfContext(want: Option<Text>)
      requires Valid()
      modifies this, bits
      ensures Now() == HeaderSpec.ChangeIfContext(db, old(Now()), want)
      decreases Remaining(db, Now()), 7
    {
      hide HeaderSpec.ScanText, HeaderSpec.ChangeIfContext, Now, Remaining;
      ChangeIfContextParts(db, Now(), want);
      if want.None? {
        if Cond().None? {
          return;
        }
        Append(CloseIf);
        SetCond(None);
      } else {
        if Cond().Some? {
          if want == Cond() {
            return;
          }
          Append(CloseIf);
          SetCond(None);
        }
        ScanText(want.value);
        if Cond().Some? {
          Append(CloseIf);
        }
        Append(OpenIf(want.value));
        SetCond(want);
      }
    }

    // 2530-2545
    method AddIncludes(incs: seq<Include>)
      requires Valid() && KnownIncludes(db, incs)
      modifies this, bits
      ensures Now() == HeaderSpec.AddIncludes(db, old(Now()), incs)
      decreases Remaining(db, Now()), 1, |incs|
    {
      hide HeaderSpec.ChangeIfContext, Remaining, Now;
      if incs != [] {
        AddIncludes(incs[1..]);
        ghost var st1 := Now();
        var inserted := InsertKey(incs[0].key);
        if inserted {
          SetSeenDrops(db, st1, incs[0].key);
          ChangeIfContext(incs[0].cond);
          Append(Incl(incs[0]));
        }
      }
    }

    // 2581-2593
    method IssueForwards(chain: seq<nat>) returns (done: bool)
      requires Valid() && ValidChain(db, chain)
      modifies this, bits
      ensures (Now(), done) == Forwards(db, old(Now()), chain, false)
      decreases Remaining(db, Now()), 3
    {
      hide HeaderSpec.ChangeIfContext, Remaining, Now, Forwards;
      ghost var st0 := Now();
      done := false;
      assert chain[0..] == chain;
      for i := 0 to |chain|
        invariant ValidChain(db, chain[i..]) && Remaining(db, Now()) <= Remaining(db, st0)
        invariant Forwards(db, Now(), chain[i..], done) == Forwards(db, st0, chain, false)
      {
        var p := chain[i];
        ForwardsStep(db, Now(), chain, done, i);
        if db[p].fwd.Some? {
          if !IsForwarded(p) {
            SetForwardedDrops(db, Now(), p);
            SetForwarded(p);
            if db[p].fwd.value.isTypedef {
              if done {
                continue;
              }
              done := true;
            }
            ChangeLess(db, Now(), db[p].cond, Fwd(p));
            ChangeIfContext(db[p].cond);
            Append(Fwd(p));
          }
        }
      }
      assert chain[|chain|..] == [];
      LoopEnds(db, Now(), done, Remaining(db, Now()));
    }

    // 2602-2608
    method IsSuitable(chain: seq<nat>, full: bool) returns (suitable: bool)
      requires Valid() && ValidChain(db, chain)
      ensures suitable == Suitable(Now(), chain, full)
    {
      for i := 0 to |chain|
        invariant forall k | 0 <= k < i :: chain[k] in Now().forwarded && (full ==> chain[k] in Now().declared)
      {
        if !IsForwarded(chain[i]) || (full && !IsDeclared(chain[i])) {
          return false;
        }
      }
      return true;
    }

    // 2613-2615
    method IncludeAll(chain: seq<nat>)
      requires Valid() && ValidChain(db, chain)
      modifies this, bits
      ensures Now() == AllIncludes(db, old(Now()), chain)
      decreases Remaining(db, Now()), 2
    {
      hide HeaderSpec.AddIncludes, Remaining, Now, AllIncludes;
      ghost var st0 := Now();
      assert chain[0..] == chain;
      for i := 0 to |chain|
        invariant ValidChain(db, chain[i..]) && Remaining(db, Now()) <= Remaining(db, st0)
        invariant AllIncludes(db, Now(), chain[i..]) == AllIncludes(db, st0, chain)
      {
        HeaderSteps.AllIncludesStep(db, Now(), chain, i);
        IncludesLess(db, Now(), db[chain[i]].includes);
        AddIncludes(db[chain[i]].includes);
      }
      assert chain[|chain|..] == [];
      LoopEnds(db, Now(), false, Remaining(db, Now()));
    }

    // 2627-2636
    method MarkAll(chain: seq<nat>, full: bool)
      requires Valid() && ValidChain(db, chain)
      modifies bits
      ensures Now() == Mark(db, old(Now()), chain, full)
    {
      hide Mark, Now, Remaining;
      ghost var st0 := Now();
      EmptyChain(db, st0, full);
      assert chain[..0] == [];
      for i := 0 to |chain|
        invariant ValidChain(db, chain[..i]) && Now() == Mark(db, st0, chain[..i], full)
      {
        var p := chain[i];
        MarkStep(db, st0, chain, full, i);
        if !IsDeclared(p) && (db[p].fwd.None? || full) && db[p].text.Some? {
          MarkWanted(p);
        } else {
          ClearFlag(p);
        }
      }
      assert chain[..|chain|] == chain;
    }

    // 2642-2651
    method ScanMarked(chain: seq<nat>, ghost bound: nat)
      requires Valid() && ValidChain(db, chain) && Below(db, Now(), chain, bound)
      modifies this, bits
      ensures Now() == ScanFlagged(db, old(Now()), chain, bound)
      decreases bound, 3
    {
      hide HeaderSpec.ScanText, Remaining, Now, ScanFlagged, Below;
      ghost var st0 := Now();
      assert chain[0..] == chain;
      for i := 0 to |chain|
        invariant ValidChain(db, chain[i..]) && Below(db, Now(), chain[i..], bound)
        invariant ScanFlagged(db, Now(), chain[i..], bound) == ScanFlagged(db, st0, chain, bound)
      {
        ScanFlaggedStep(db, Now(), chain, bound, i);
        if IsFlagged(chain[i]) {
          ScanText(db[chain[i]].text.value);
        }
      }
      assert chain[|chain|..] == [];
      BelowIs(db, Now(), [], bound);
      LoopEnds(db, Now(), false, bound);
    }

    // 2658-2682
    method WriteDefinitions(chain: seq<nat>, started: bool, ghost bound: nat) returns (done: bool)
      requires Valid() && ValidChain(db, chain) && Below(db, Now(), chain, bound)
      modifies this, bits
      ensures (Now(), done) == Definitions(db, old(Now()), chain, started, bound)
      decreases bound, 3
    {
      hide HeaderSpec.ChangeIfContext, Remaining, Now, Definitions, Below;
      ghost var st0 := Now();
      done := started;
      assert chain[0..] == chain;
      for i := 0 to |chain|
        invariant ValidChain(db, chain[i..]) && Below(db, Now(), chain[i..], bound)
        invariant Definitions(db, Now(), chain[i..], done, bound) == Definitions(db, st0, chain, started, bound)
      {
        var p := chain[i];
        DefinitionsStep(db, Now(), chain, done, bound, i);
        if IsFlagged(p) && !db[p].kind.Typedef? {
          if db[p].kind.Enumeration? {
            if done {
              continue;
            }
            done := true;
          }
          ChangeIfContext(db[p].cond);
          Append(Full(p));
          ClearFlag(p);
        }
      }
      assert chain[|chain|..] == [];
      BelowIs(db, Now(), [], bound);
      LoopEnds(db, Now(), done, bound);
    }

    // 2683-2691
    method WriteTypedef(chain: seq<nat>, started: bool, ghost bound: nat)
      requires Valid() && ValidChain(db, chain) && Below(db, Now(), chain, bound)
      modifies this, bits
      ensures Now() == FirstTypedef(db, old(Now()), chain, started, bound)
      decreases bound, 3
    {
      hide HeaderSpec.ChangeIfContext, Remaining, Now, Below;
      ghost var st0 := Now();
      assert chain[0..] == chain;
      var i := 0;
      while i < |chain| && !started
        invariant i <= |chain| && ValidChain(db, chain[i..]) && Now() == st0 && Below(db, st0, chain[i..], bound)
        invariant !started ==>
          FirstTypedef(db, st0, chain[i..], false, bound) == FirstTypedef(db, st0, chain, false, bound)
      {
        FirstTypedefStep(db, st0, chain, bound, i);
        if IsFlagged(chain[i]) {
          ChangeIfContext(db[chain[i]].cond);
          Append(Full(chain[i]));
          return;
        }
        i := i + 1;
      }
      assert i == |chain| ==> chain[i..] == [];
    }

    // 2564-2692
    method DeclareObject(chain: seq<nat>, full: bool)
      requires Valid() && ValidChain(db, chain)
      modifies this, bits
      ensures Now() == HeaderSpec.DeclareObject(db, old(Now()), chain, full)
      decreases Remaining(db, Now()), 4
    {
      hide Forwards, AllIncludes, Mark, ScanFlagged, Definitions, FirstTypedef, Below, Now, Remaining, Suitable;
      ghost var bound := Remaining(db, Now());
      DeclareObjectParts(db, Now(), chain, full);
      var done := IssueForwards(chain);
      var suitable := IsSuitable(chain, full);
      if suitable {
        return;
      }
      IncludeAll(chain);
      MarkAll(chain, full);
      ScanMarked(chain, bound);
      done := WriteDefinitions(chain, done, bound);
      WriteTypedef(chain, done, bound);
    }

    // -------------------------------------------------------------------------------------------
    // A whole header

    // 2476-2485
    method ResetDeclFlags(file: Option<string>)
      requires Valid()
      modifies bits
      ensures Now() == old(Now()).(forwarded := Hidden(db, file), declared := Hidden(db, file))
    {
      for i := 0 to |bits|
        invariant forall k | 0 <= k < i ::
          bits[k].forwarded == bits[k].declared == (db[k].local && Some(db[k].file) != file)
        invariant forall k | 0 <= k < |bits| :: bits[k].flagged == old(bits[k].flagged)
      {
        bits[i].forwarded, bits[i].declared := false, false;
        if db[i].local && Some(db[i].file) != file {
          bits[i].forwarded, bits[i].declared := true, true;
        }
      }
    }

    // 2770-2779: one pass over all declarations; aborted if the assertion of line 2777 fails.
    method CompletePassOnce() returns (progress: bool, aborted: bool)
      requires Valid() && Tidy(db, Now())
      modifies this, bits
      ensures var r := CompletePass(db, old(Now()), 0);
              Now() == r.st && (aborted <==> r.Aborted?)
      ensures !aborted ==> (progress <==> Progressing(db, old(Now()), 0))
    {
      hide HeaderSpec.DeclareObject, Now, Remaining, Tidy, CompleteOne, HeaderFrame.Frame, ForwardOnly;
      ghost var st0 := Now();
      progress, aborted := false, false;
      for p := 0 to |db|
        invariant Tidy(db, Now())
        invariant CompletePass(db, Now(), p) == CompletePass(db, st0, 0)
        invariant progress || Progressing(db, Now(), p) <==> Progressing(db, st0, 0)
      {
        CompletedIsDeclared(db, Now(), p);
        CompleteOneIs(db, Now(), p);
        CompleteOneIs(db, CompleteOne(db, Now(), p), p);
        ForwardedStays(db, Now(), p);
        if IsForwarded(p) && !IsDeclared(p) {
          DeclareObject(ChainFrom(db, p), true);
          progress := true;
          if !IsDeclared(p) {
            return progress, true;
          }
        }
      }
    }

    // 2765-2781
    method CompleteForwardDeclarations() returns (aborted: bool)
      requires Valid() && Tidy(db, Now())
      modifies this, bits
      ensures var r := CompleteAll(db, old(Now())); Now() == r.st && (aborted <==> r.Aborted?)
    {
      hide Now, Remaining, Tidy, CompletePass, Progressing;
      ghost var st0 := Now();
      var progress := true;
      while progress
        invariant Tidy(db, Now())
        invariant if progress then CompleteAll(db, Now()) == CompleteAll(db, st0)
                  else Finished(Now()) == CompleteAll(db, st0)
        decreases Remaining(db, Now()), if progress then 1 else 0
      {
        CompletePassProgress(db, Now(), 0);
        CompletePassFrame(db, Now(), 0);
        progress, aborted := CompletePassOnce();
        if aborted {
          return;
        }
      }
      aborted := false;
    }

    // 2799-2818: everything MakeHeader does apart from reading and writing files
    method MakeHeader(file: Option<string>, names: seq<string>) returns (aborted: bool)
      requires Valid() && HeaderFrame.WellFormed(db)
      modifies this, bits
      ensures var r := HeaderRun.MakeHeader(db, file, old(Now()).flagged, names);
              Now() == r.st && (aborted <==> r.Aborted?)
    {
      hide HeaderSpec.DeclareObject, Tidy, CompleteAll, HeaderSpec.ChangeIfContext;
      seen, cond, out := {}, None, [];
      ResetDeclFlags(file);
      ghost var st0 := Now();
      assert st0 == Reset(db, file, old(Now()).flagged);
      assert names[0..] == names;
      for i := 0 to |names|
        invariant DeclareNames(db, Now(), names[i..]) == DeclareNames(db, st0, names)
      {
        assert names[i..][0] == names[i] && names[i..][1..] == names[i + 1..];
        var chain := Chain(db, names[i]);
        if chain != [] {
          DeclareObject(chain, true);
        }
      }
      assert names[|names|..] == [];
      DeclareNamesIsTidy(db, file, old(Now()).flagged, names);
      aborted := CompleteForwardDeclarations();
      if !aborted {
        ChangeIfContext(None);
      }
    }
  }

  lemma ForwardedStays(db: DB, st: State, p: nat)
    requires p < |db| && HeaderFrame.Frame(db, st, CompleteOne(db, st, p))
    ensures ForwardOnly(st, p) && p !in CompleteOne(db, st, p).declared ==> ForwardOnly(CompleteOne(db, st, p), p)
  {
    hide CompleteOne;
  }
}

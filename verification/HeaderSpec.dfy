// What the header generator of tools/cnoh.c does, as functions from one generator state to the
// next.  The four routines call each other; each function below mirrors one routine or one loop.

module HeaderSpec {
  import opened Options
  import opened Declarations

  // Pieces of the generated header.
  datatype Event =
    | OpenIf(cond: Text)
    | CloseIf
    | Incl(inc: Include)
    | Fwd(p: nat)
    | Full(q: nat)

  // forwarded, declared and flagged hold the declarations with DP_Forward, DP_Declared and DP_Flag;
  // seen holds the include keys already written; cond is the #if the output is inside of.
  datatype State = State(
    forwarded: set<nat>,
    declared: set<nat>,
    flagged: set<nat>,
    seen: set<string>,
    cond: Option<Text>,
    out: seq<Event>)
  {
    function Emit(e: Event): State {
      this.(out := out + [e])
    }
  }

  // ---------------------------------------------------------------------------------------------
  // The termination measure: flag bits still unset plus include keys still unseen

  function Upto(n: nat): (ids: set<nat>)
    ensures forall p: nat :: p in ids <==> p < n
  {
    if n == 0 then {} else Upto(n - 1) + {n - 1}
  }

  function Ids(db: DB): set<nat> {
    Upto(|db|)
  }

  function Keys(db: DB): set<string> {
    set p: nat, k: nat | p < |db| && k < |db[p].includes| :: db[p].includes[k].key
  }

  ghost predicate KnownIncludes(db: DB, incs: seq<Include>) {
    forall k | 0 <= k < |incs| :: incs[k].key in Keys(db)
  }

  ghost function Unset(db: DB, forwarded: set<nat>, declared: set<nat>, seen: set<string>): nat {
    |Ids(db) - forwarded| + |Ids(db) - declared| + |Keys(db) - seen|
  }

  ghost function Remaining(db: DB, st: State): nat {
    Unset(db, st.forwarded, st.declared, st.seen)
  }

  // What termination needs: no routine undoes work, and only declarations with text get flagged.
  ghost predicate Progress(db: DB, st: State, r: State) {
    && Remaining(db, r) <= Remaining(db, st)
    && (forall p | p in r.flagged && p !in st.flagged :: p < |db| && db[p].text.Some?)
  }

  lemma SmallerCard<T>(a: set<T>, b: set<T>)
    requires a <= b
    ensures |a| <= |b|
    ensures a != b ==> |a| < |b|
  {
    assert b == a + (b - a);
    if a != b {
      var x :| x in b - a;
      assert |b - a| > 0;
    }
  }

  lemma RemainingDrops(db: DB, st: State, r: State)
    requires st.forwarded <= r.forwarded && st.declared <= r.declared && st.seen <= r.seen
    ensures Remaining(db, r) <= Remaining(db, st)
    ensures forall p | p in r.forwarded && p !in st.forwarded && p < |db| :: Remaining(db, r) < Remaining(db, st)
    ensures forall p | p in r.declared && p !in st.declared && p < |db| :: Remaining(db, r) < Remaining(db, st)
    ensures forall k | k in r.seen && k !in st.seen && k in Keys(db) :: Remaining(db, r) < Remaining(db, st)
  {
    SmallerCard(Ids(db) - r.forwarded, Ids(db) - st.forwarded);
    SmallerCard(Ids(db) - r.declared, Ids(db) - st.declared);
    SmallerCard(Keys(db) - r.seen, Keys(db) - st.seen);
  }

  // ---------------------------------------------------------------------------------------------
  // The four routines

  ghost predicate ValidRefs(db: DB, refs: seq<Ref>) {
    forall k | 0 <= k < |refs| :: ValidChain(db, refs[k].chain)
  }

  // ScanText, on the references of the scanned text.
  ghost function ScanRefs(db: DB, st: State, refs: seq<Ref>): (r: State)
    requires ValidRefs(db, refs)
    ensures Progress(db, st, r)
    decreases Remaining(db, st), 5, |refs|
  {
    if refs == [] then st
    else
      var st1 := DeclareObject(db, st, refs[0].chain, refs[0].full);
      ScanRefs(db, st1, refs[1..])
  }

  ghost function ScanText(db: DB, st: State, toks: Text): (r: State)
    ensures Progress(db, st, r)
    decreases Remaining(db, st), 6
  {
    ScanRefs(db, st, Refs(db, toks, None))
  }

  function CloseIfOpen(st: State): State {
    if st.cond.Some? then st.Emit(CloseIf).(cond := None) else st
  }

  ghost function ChangeIfContext(db: DB, st: State, cond: Option<Text>): (r: State)
    ensures Progress(db, st, r)
    ensures r.cond == cond
    decreases Remaining(db, st), 7
  {
    hide Unset;
    if st.cond == cond then st
    else if cond.None? then CloseIfOpen(st)
    else CloseIfOpen(ScanText(db, CloseIfOpen(st), cond.value)).Emit(OpenIf(cond.value)).(cond := cond)
  }

  // The list is linked newest-first; the oldest #include is written first.
  ghost function AddIncludes(db: DB, st: State, incs: seq<Include>): (r: State)
    requires KnownIncludes(db, incs)
    ensures Progress(db, st, r)
    decreases Remaining(db, st), 1, |incs|
  {
    if incs == [] then st
    else
      var st1 := AddIncludes(db, st, incs[1..]);
      if incs[0].key in st1.seen then st1
      else WriteInclude(db, st1, incs[0])
  }

  ghost function WriteInclude(db: DB, st: State, inc: Include): (r: State)
    requires inc.key in Keys(db) && inc.key !in st.seen
    ensures Progress(db, st, r)
    decreases Remaining(db, st), 0
  {
    var st1 := st.(seen := st.seen + {inc.key});
    RemainingDrops(db, st, st1);
    ChangeIfContext(db, st1, inc.cond).Emit(Incl(inc))
  }

  // DeclareObject's first loop (2581-2593): issue missing forward declarations.
  ghost function Forwards(db: DB, st: State, chain: seq<nat>, done: bool): (r: (State, bool))
    requires ValidChain(db, chain)
    ensures Progress(db, st, r.0)
    decreases Remaining(db, st), 3, |chain|
  {
    hide Unset;
    if chain == [] then (st, done)
    else
      var p := chain[0];
      if db[p].fwd.None? || p in st.forwarded then Forwards(db, st, chain[1..], done)
      else
        var st1 := st.(forwarded := st.forwarded + {p});
        RemainingDrops(db, st, st1);
        if db[p].fwd.value.isTypedef && done then Forwards(db, st1, chain[1..], done)
        else Forwards(db, WriteForward(db, st, p), chain[1..], done || db[p].fwd.value.isTypedef)
  }

  ghost function WriteForward(db: DB, st: State, p: nat): (r: State)
    requires p < |db| && p !in st.forwarded
    ensures Progress(db, st, r)
    decreases Remaining(db, st), 0
  {
    var st1 := st.(forwarded := st.forwarded + {p});
    RemainingDrops(db, st, st1);
    ChangeIfContext(db, st1, db[p].cond).Emit(Fwd(p))
  }

  // The early-out test (2602-2608).
  predicate Suitable(st: State, chain: seq<nat>, full: bool) {
    forall k | 0 <= k < |chain| ::
      chain[k] in st.forwarded && (full ==> chain[k] in st.declared)
  }

  // 2613-2615
  ghost function AllIncludes(db: DB, st: State, chain: seq<nat>): (r: State)
    requires ValidChain(db, chain)
    ensures Progress(db, st, r)
    decreases Remaining(db, st), 2, |chain|
  {
    hide Unset;
    if chain == [] then st
    else
      var st1 := AddIncludes(db, st, db[chain[0]].includes);
      AllIncludes(db, st1, chain[1..])
  }

  predicate Wanted(db: DB, st: State, p: nat, full: bool)
    requires p < |db|
  {
    p !in st.declared && (db[p].fwd.None? || full) && db[p].text.Some?
  }

  ghost function AllWanted(db: DB, st: State, chain: seq<nat>, full: bool): set<nat>
    requires ValidChain(db, chain)
  {
    set k: nat | k < |chain| && Wanted(db, st, chain[k], full) :: chain[k]
  }

  // 2627-2636: mark what gets its full declaration now.
  ghost function Mark(db: DB, st: State, chain: seq<nat>, full: bool): (r: State)
    requires ValidChain(db, chain)
    ensures Progress(db, st, r)
  {
    var wanted := AllWanted(db, st, chain, full);
    var r := st.(
      forwarded := st.forwarded + wanted,
      declared := st.declared + wanted,
      flagged := (set p | p in st.flagged && p !in chain) + wanted);
    RemainingDrops(db, st, r);
    r
  }

  ghost predicate NoneFlagged(st: State, chain: seq<nat>) {
    forall k | 0 <= k < |chain| :: chain[k] !in st.flagged
  }

  // Flagged members of the group have text, and if there is one, less than "bound" remains undone.
  ghost predicate Below(db: DB, st: State, chain: seq<nat>, bound: nat)
    requires ValidChain(db, chain)
  {
    && Remaining(db, st) <= bound
    && (Remaining(db, st) < bound || NoneFlagged(st, chain))
    && (forall k | 0 <= k < |chain| && chain[k] in st.flagged :: db[chain[k]].text.Some?)
  }

  lemma {:induction false} MarkDrops(db: DB, st: State, chain: seq<nat>, full: bool, bound: nat)
    requires ValidChain(db, chain) && Remaining(db, st) <= bound
    ensures Below(db, Mark(db, st, chain, full), chain, bound)
  {
    hide Remaining;
    RemainingDrops(db, st, Mark(db, st, chain, full));
  }

  // 2642-2651: declare what the marked texts refer to.
  ghost function ScanFlagged(db: DB, st: State, chain: seq<nat>, bound: nat): (r: State)
    requires ValidChain(db, chain) && Below(db, st, chain, bound)
    ensures Progress(db, st, r)
    ensures NoneFlagged(st, chain) ==> r == st
    decreases bound, 3, |chain|
  {
    if chain == [] then st
    else
      assert chain[0] in chain;
      var st1 := if chain[0] in st.flagged then ScanText(db, st, db[chain[0]].text.value) else st;
      ScanFlagged(db, st1, chain[1..], bound)
  }

  // 2658-2682: write every marked declaration that is not a typedef.
  ghost function Definitions(db: DB, st: State, chain: seq<nat>, done: bool, bound: nat): (r: (State, bool))
    requires ValidChain(db, chain) && Below(db, st, chain, bound)
    ensures Progress(db, st, r.0)
    ensures NoneFlagged(st, chain) ==> r.0 == st
    decreases bound, 3, |chain|
  {
    if chain == [] then (st, done)
    else
      var p := chain[0];
      if p !in st.flagged || db[p].kind.Typedef? || (db[p].kind.Enumeration? && done) then
        Definitions(db, st, chain[1..], done, bound)
      else
        var st1 := WriteFull(db, st, p);
        var st2 := st1.(flagged := st1.flagged - {p});
        Definitions(db, st2, chain[1..], done || db[p].kind.Enumeration?, bound)
  }

  ghost function WriteFull(db: DB, st: State, p: nat): (r: State)
    requires p < |db|
    ensures Progress(db, st, r)
    decreases Remaining(db, st), 8
  {
    ChangeIfContext(db, st, db[p].cond).Emit(Full(p))
  }

  // 2683-2691: write the first marked typedef.
  ghost function FirstTypedef(db: DB, st: State, chain: seq<nat>, done: bool, bound: nat): (r: State)
    requires ValidChain(db, chain) && Below(db, st, chain, bound)
    ensures Progress(db, st, r)
    decreases bound, 3, |chain|
  {
    hide Unset;
    if chain == [] || done then st
    else if chain[0] in st.flagged then
      WriteFull(db, st, chain[0])
    else FirstTypedef(db, st, chain[1..], done, bound)
  }

  // 2642-2691, once the group is marked.
  ghost function WriteMarked(db: DB, st: State, chain: seq<nat>, done: bool, bound: nat): (r: State)
    requires ValidChain(db, chain) && Below(db, st, chain, bound)
    ensures Progress(db, st, r)
    decreases bound, 3, |chain| + 1
  {
    var st1 := ScanFlagged(db, st, chain, bound);
    var (st2, done2) := Definitions(db, st1, chain, done, bound);
    FirstTypedef(db, st2, chain, done2, bound)
  }

  ghost function MarkAndWrite(db: DB, st: State, chain: seq<nat>, full: bool, done: bool, bound: nat): (r: State)
    requires ValidChain(db, chain) && Remaining(db, st) <= bound
    ensures Progress(db, st, r)
    decreases bound, 3, |chain| + 2
  {
    MarkDrops(db, st, chain, full, bound);
    WriteMarked(db, Mark(db, st, chain, full), chain, done, bound)
  }

  ghost function DeclareObject(db: DB, st: State, chain: seq<nat>, full: bool): (r: State)
    requires ValidChain(db, chain)
    ensures Progress(db, st, r)
    decreases Remaining(db, st), 4
  {
    var (st1, done) := Forwards(db, st, chain, false);
    if Suitable(st1, chain, full) then st1
    else
      MarkAndWrite(db, AllIncludes(db, st1, chain), chain, full, done, Remaining(db, st))
  }
}

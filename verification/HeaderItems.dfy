// Which items of a header need which others, for databases with one declaration per name.

module HeaderItems {
  import opened Options
  import opened Declarations
  import opened HeaderSpec
  import opened HeaderFrame

  // Equal keys stand for equal #includes: a key is the file name plus the #if text (2147-2162).
  ghost predicate KeysAgree(db: DB) {
    forall p, k, q, l | 0 <= p < |db| && 0 <= k < |db[p].includes| && 0 <= q < |db| && 0 <= l < |db[q].includes| ::
      db[p].includes[k].key == db[q].includes[l].key ==> db[p].includes[k] == db[q].includes[l]
  }

  ghost predicate Simple(db: DB) {
    WellFormed(db) && OnePerName(db) && KeysAgree(db)
  }

  lemma SimpleIs(db: DB)
    requires Simple(db)
    ensures WellFormed(db) && OnePerName(db)
  {
  }

  ghost predicate Occurs(db: DB, inc: Include) {
    exists p, k | 0 <= p < |db| && 0 <= k < |db[p].includes| :: db[p].includes[k] == inc
  }

  // The #include a key stands for.
  ghost function IncludeFor(db: DB, key: string): (inc: Include)
    requires key in Keys(db)
    ensures Occurs(db, inc) && inc.key == key
    ensures KeysAgree(db) ==> forall i | Occurs(db, i) && i.key == key :: i == inc
  {
    var p, k :| 0 <= p < |db| && 0 <= k < |db[p].includes| && db[p].includes[k].key == key;
    db[p].includes[k]
  }

  function IncludeItems(incs: seq<Include>): (items: set<Item>)
    ensures forall x | x in items :: x.InclItem? && exists k :: 0 <= k < |incs| && incs[k].key == x.key
  {
    if incs == [] then {} else {InclItem(incs[0].key)} + IncludeItems(incs[1..])
  }

  // What dealing with a reference to p comes down to.
  function Targets(db: DB, hidden: set<nat>, p: nat, full: bool): set<Item>
    requires p < |db|
  {
    if p in hidden then {}
    else
      (if db[p].fwd.Some? then {FwdItem(p)} else {}) +
      (if db[p].fwd.Some? && !full then {}
       else if db[p].text.Some? then {FullItem(p)}
       else IncludeItems(db[p].includes))
  }

  ghost function ChainTargets(db: DB, hidden: set<nat>, chain: seq<nat>, full: bool): set<Item>
    requires ValidChain(db, chain)
  {
    if chain == [] then {} else Targets(db, hidden, chain[0], full)
  }

  ghost function RefTargets(db: DB, hidden: set<nat>, refs: seq<Ref>): set<Item>
    requires ValidRefs(db, refs)
  {
    if refs == [] then {}
    else ChainTargets(db, hidden, refs[0].chain, refs[0].full) + RefTargets(db, hidden, refs[1..])
  }

  ghost function TextTargets(db: DB, hidden: set<nat>, toks: Text): set<Item> {
    RefTargets(db, hidden, Refs(db, toks, None))
  }

  ghost function CondTargets(db: DB, hidden: set<nat>, cond: Option<Text>): set<Item> {
    if cond.None? then {} else TextTargets(db, hidden, cond.value)
  }

  // What must come before an item: for a full declaration its forward form, its #includes and
  // whatever its text and its #if name; for the other items whatever their #if names.
  ghost function Needs(db: DB, hidden: set<nat>, x: Item): set<Item> {
    match x
    case FullItem(p) =>
      if p < |db| && db[p].text.Some? then
        (if db[p].fwd.Some? then {FwdItem(p)} else {}) + IncludeItems(db[p].includes)
        + TextTargets(db, hidden, db[p].text.value) + CondTargets(db, hidden, db[p].cond)
      else {}
    case FwdItem(p) => if p < |db| then CondTargets(db, hidden, db[p].cond) else {}
    case InclItem(key) => if key in Keys(db) then CondTargets(db, hidden, IncludeFor(db, key).cond) else {}
  }

  // Mentions of itself do not count.
  ghost predicate Step(db: DB, hidden: set<nat>, a: Item, b: Item) {
    b in Needs(db, hidden, a) && a != b
  }

  // One item needs another one through a chain of n + 1 steps.
  ghost predicate NeedsIn(db: DB, hidden: set<nat>, a: Item, b: Item, n: nat)
    decreases n
  {
    if n == 0 then Step(db, hidden, a, b)
    else exists c :: Step(db, hidden, a, c) && NeedsIn(db, hidden, c, b, n - 1)
  }

  ghost predicate Reaches(db: DB, hidden: set<nat>, a: Item, b: Item) {
    exists n: nat :: NeedsIn(db, hidden, a, b, n)
  }

  lemma {:induction false} NeedsInExtend(db: DB, hidden: set<nat>, a: Item, b: Item, c: Item, n: nat)
    requires NeedsIn(db, hidden, a, b, n) && Step(db, hidden, b, c)
    ensures NeedsIn(db, hidden, a, c, n + 1)
    decreases n
  {
    hide Step;
    if n == 0 {
      assert NeedsIn(db, hidden, b, c, 0);
    } else {
      var d :| Step(db, hidden, a, d) && NeedsIn(db, hidden, d, b, n - 1);
      NeedsInExtend(db, hidden, d, b, c, n - 1);
    }
  }

  lemma ReachesExtend(db: DB, hidden: set<nat>, a: Item, b: Item, c: Item)
    requires Reaches(db, hidden, a, b) && Step(db, hidden, b, c)
    ensures Reaches(db, hidden, a, c)
  {
    var n: nat :| NeedsIn(db, hidden, a, b, n);
    NeedsInExtend(db, hidden, a, b, c, n);
  }

  lemma ReachesStep(db: DB, hidden: set<nat>, a: Item, b: Item)
    requires Step(db, hidden, a, b)
    ensures Reaches(db, hidden, a, b)
    ensures forall c | Reaches(db, hidden, b, c) :: Reaches(db, hidden, a, c)
  {
    assert NeedsIn(db, hidden, a, b, 0);
    forall c | Reaches(db, hidden, b, c) ensures Reaches(db, hidden, a, c) {
      var n: nat :| NeedsIn(db, hidden, b, c, n);
      assert NeedsIn(db, hidden, a, c, n + 1);
    }
  }

  // x is one of the items of "from" or needed by one.
  ghost predicate From(db: DB, hidden: set<nat>, from: set<Item>, x: Item) {
    exists t :: t in from && (t == x || Reaches(db, hidden, t, x))
  }

  lemma FromNeeds(db: DB, hidden: set<nat>, from: set<Item>, a: Item, x: Item)
    requires from <= Needs(db, hidden, a) && From(db, hidden, from, x)
    ensures From(db, hidden, {a}, x)
  {
    var t :| t in from && (t == x || Reaches(db, hidden, t, x));
    if t != a {
      ReachesStep(db, hidden, a, t);
    }
  }

  // ---------------------------------------------------------------------------------------------
  // Items that can be written, and those under way

  predicate Real(db: DB, hidden: set<nat>, x: Item) {
    match x
    case FullItem(p) => p < |db| && p !in hidden && db[p].text.Some?
    case FwdItem(p) => p < |db| && p !in hidden && db[p].fwd.Some?
    case InclItem(key) => key in Keys(db)
  }

  predicate Done(st: State, x: Item) {
    Count(st.out, x) > 0
  }

  // Flagged as dealt with, but not written yet.
  predicate UnderWay(db: DB, hidden: set<nat>, st: State, x: Item) {
    Real(db, hidden, x) && Started(st, x) && !Done(st, x)
  }

  lemma {:induction false} CountGrows(a: seq<Event>, b: seq<Event>, x: Item)
    requires a <= b
    ensures Count(a, x) <= Count(b, x)
    decreases |b|
  {
    if |a| < |b| {
      assert a <= b[..|b| - 1];
      CountGrows(a, b[..|b| - 1], x);
    } else {
      assert a == b;
    }
  }
}

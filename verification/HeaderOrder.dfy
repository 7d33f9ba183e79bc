// The order of the items in a header: nothing is written before what it needs, exactly when no
// written item lies on a cycle of needs.

module HeaderOrder {
  import opened Options
  import opened Declarations
  import opened HeaderSpec
  import opened HeaderFrame
  import opened HeaderItems
  import opened HeaderClosure

  // Everything an item needs, other than itself, is among the events so far.
  ghost predicate Provided(db: DB, hidden: set<nat>, out: seq<Event>, e: Event) {
    ItemOf(e).Some? ==>
      forall y | y in Needs(db, hidden, ItemOf(e).value) && y != ItemOf(e).value :: Count(out, y) > 0
  }

  // Every item comes after everything it needs.
  ghost predicate Ordered(db: DB, hidden: set<nat>, out: seq<Event>) {
    out == [] ||
    (Ordered(db, hidden, out[..|out| - 1]) && Provided(db, hidden, out[..|out| - 1], out[|out| - 1]))
  }

  ghost predicate Within(out: seq<Event>, last: seq<Event>) {
    out <= last
  }

  lemma WithinShorter(out: seq<Event>, e: Event, last: seq<Event>)
    requires Within(out + [e], last)
    ensures Within(out, last)
  {
    assert out <= out + [e];
  }

  // No written item needs itself through others.
  ghost predicate Acyclic(db: DB, hidden: set<nat>, out: seq<Event>) {
    forall x | Count(out, x) > 0 :: !Reaches(db, hidden, x, x)
  }

  // Whatever is under way leads to the items about to be dealt with.
  ghost predicate Aimed(db: DB, hidden: set<nat>, st: State, items: set<Item>) {
    forall g, x | UnderWay(db, hidden, st, g) && x in items :: g == x || Reaches(db, hidden, g, x)
  }

  lemma OrderedEmit(db: DB, hidden: set<nat>, out: seq<Event>, e: Event)
    ensures Ordered(db, hidden, out + [e]) <==> Ordered(db, hidden, out) && Provided(db, hidden, out, e)
  {
    assert (out + [e])[..|out|] == out;
  }

  lemma {:induction false} OrderedAt(db: DB, hidden: set<nat>, out: seq<Event>, j: nat)
    requires Ordered(db, hidden, out) && j < |out|
    ensures Provided(db, hidden, out[..j], out[j])
    decreases |out|
  {
    if j < |out| - 1 {
      OrderedAt(db, hidden, out[..|out| - 1], j);
      assert out[..|out| - 1][..j] == out[..j];
    }
  }

  // ---------------------------------------------------------------------------------------------

  lemma AimedSame(db: DB, hidden: set<nat>, st: State, r: State, items: set<Item>)
    requires Aimed(db, hidden, st, items) && SameUnderWay(db, hidden, st, r)
    ensures Aimed(db, hidden, r, items)
  {
  }

  lemma AimedFewer(db: DB, hidden: set<nat>, st: State, items: set<Item>, fewer: set<Item>)
    requires Aimed(db, hidden, st, items) && fewer <= items
    ensures Aimed(db, hidden, st, fewer)
  {
  }

  // What leads to an item leads to what that item needs.
  lemma AimedNeeds(db: DB, hidden: set<nat>, st: State, g: Item, items: set<Item>)
    requires Aimed(db, hidden, st, {g}) && items <= Needs(db, hidden, g)
    ensures Aimed(db, hidden, st, items)
  {
    forall h, x | UnderWay(db, hidden, st, h) && x in items ensures h == x || Reaches(db, hidden, h, x) {
      assert g in {g};
      if x != g {
        assert Step(db, hidden, g, x);
        ReachesStep(db, hidden, g, x);
        if h != g {
          ReachesExtend(db, hidden, h, g, x);
        }
      }
    }
  }

  lemma AimedStart(db: DB, hidden: set<nat>, st: State, st1: State, g: Item)
    requires Aimed(db, hidden, st, {g}) && StartsItem(db, hidden, st, st1, g)
    ensures Aimed(db, hidden, st1, {g})
  {
    forall h | UnderWay(db, hidden, st1, h) && h != g ensures Reaches(db, hidden, h, g) {
      assert UnderWay(db, hidden, st, h);
      assert g in {g};
    }
  }

  // What an item that gets written needs has been written: were it still under way, it would lead
  // to the item, and the item would lie on a cycle.
  lemma ItemOrders(
    db: DB, hidden: set<nat>, st: State, st1: State, st2: State, g: Item, e: Event, last: seq<Event>)
    requires ItemOf(e) == Some(g) && StartsItem(db, hidden, st, st1, g)
    requires SameUnderWay(db, hidden, st1, st2) && AllStarted(st2, Needs(db, hidden, g))
    requires forall y | y in Needs(db, hidden, g) :: Real(db, hidden, y)
    requires Aimed(db, hidden, st, {g}) && Ordered(db, hidden, st2.out)
    requires Within(st2.out + [e], last) && Acyclic(db, hidden, last)
    ensures Ordered(db, hidden, st2.out + [e])
  {
    forall y | y in Needs(db, hidden, g) && y != g ensures Count(st2.out, y) > 0 {
      if UnderWay(db, hidden, st2, y) {
        assert UnderWay(db, hidden, st1, y);
        assert UnderWay(db, hidden, st, y) && g in {g};
        assert Step(db, hidden, g, y);
        ReachesStep(db, hidden, g, y);
        CountEmit(st2.out, e, g);
        CountGrows(st2.out + [e], last, g);
        assert false;
      }
    }
    OrderedEmit(db, hidden, st2.out, e);
  }

  // An item that has been written can only need real items.
  lemma {:induction false} RefTargetsAreReal(db: DB, hidden: set<nat>, refs: seq<Ref>, x: Item)
    requires ValidRefs(db, refs) && x in RefTargets(db, hidden, refs)
    ensures Real(db, hidden, x)
  {
    if x in ChainTargets(db, hidden, refs[0].chain, refs[0].full) {
      if x.InclItem? {
        IncludeItemsAreReal(db, hidden, refs[0].chain[0], x);
      }
    } else {
      RefTargetsAreReal(db, hidden, refs[1..], x);
    }
  }

  lemma CondTargetsAreReal(db: DB, hidden: set<nat>, cond: Option<Text>, x: Item)
    requires x in CondTargets(db, hidden, cond)
    ensures Real(db, hidden, x)
  {
    RefTargetsAreReal(db, hidden, Refs(db, cond.value, None), x);
  }

  lemma IncludeItemsAreReal(db: DB, hidden: set<nat>, p: nat, x: Item)
    requires p < |db| && x in IncludeItems(db[p].includes)
    ensures Real(db, hidden, x)
  {
    var k :| 0 <= k < |db[p].includes| && db[p].includes[k].key == x.key;
    assert db[p].includes[k as nat].key in Keys(db);
  }

  lemma NeedsAreReal(db: DB, hidden: set<nat>, g: Item)
    requires Real(db, hidden, g)
    ensures forall y | y in Needs(db, hidden, g) :: Real(db, hidden, y)
  {
    forall y | y in Needs(db, hidden, g) ensures Real(db, hidden, y) {
      match g
      case FullItem(p) =>
        if y in IncludeItems(db[p].includes) {
          IncludeItemsAreReal(db, hidden, p, y);
        } else if y in TextTargets(db, hidden, db[p].text.value) {
          RefTargetsAreReal(db, hidden, Refs(db, db[p].text.value, None), y);
        } else if y in CondTargets(db, hidden, db[p].cond) {
          CondTargetsAreReal(db, hidden, db[p].cond, y);
        }
      case FwdItem(p) => CondTargetsAreReal(db, hidden, db[p].cond, y);
      case InclItem(key) => CondTargetsAreReal(db, hidden, IncludeFor(db, key).cond, y);
    }
  }
}

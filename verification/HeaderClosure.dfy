// What a routine of the header generator brings about for the items it is asked for, for databases
// with one declaration per name: they get started together with all they need, nothing else gets
// started, and what was under way before is exactly what is under way afterwards.

module HeaderClosure {
  import opened Options
  import opened Declarations
  import opened HeaderSpec
  import opened HeaderFrame
  import opened HeaderItems

  // Consistency of a generator state.
  ghost predicate Base(db: DB, hidden: set<nat>, st: State) {
    && hidden <= st.declared <= st.forwarded
    && (forall p | p in st.forwarded && p !in st.declared :: p < |db| && db[p].fwd.Some?)
    && (forall p | p in st.declared && p !in hidden :: p < |db| && db[p].text.Some?)
    && (forall x :: Done(st, x) ==> Started(st, x))
    && AllStarted(st, CondTargets(db, hidden, st.cond))
  }

  ghost predicate AllStarted(st: State, items: set<Item>) {
    forall x | x in items :: Started(st, x)
  }

  ghost predicate SameUnderWay(db: DB, hidden: set<nat>, st: State, r: State) {
    forall x :: UnderWay(db, hidden, st, x) <==> UnderWay(db, hidden, r, x)
  }

  // Whatever got started is one of the items asked for or needed by one.
  ghost predicate Caused(db: DB, hidden: set<nat>, st: State, r: State, items: set<Item>) {
    forall x | Started(r, x) && !Started(st, x) && Real(db, hidden, x) :: From(db, hidden, items, x)
  }

  // Whatever got written can be, and has all it needs started.
  ghost predicate Linked(db: DB, hidden: set<nat>, st: State, r: State) {
    forall x | Done(r, x) && !Done(st, x) :: Real(db, hidden, x) && AllStarted(r, Needs(db, hidden, x))
  }

  ghost predicate Closes(db: DB, hidden: set<nat>, st: State, r: State, items: set<Item>) {
    && Frame(db, st, r)
    && Base(db, hidden, r)
    && SameUnderWay(db, hidden, st, r)
    && AllStarted(r, items)
    && Caused(db, hidden, st, r, items)
    && Linked(db, hidden, st, r)
  }

  lemma StartedGrows(st: State, r: State, items: set<Item>)
    requires Grown(st, r) && AllStarted(st, items)
    ensures AllStarted(r, items)
  {
  }

  lemma BaseAfter(db: DB, hidden: set<nat>, st: State, r: State)
    requires Base(db, hidden, st) && Frame(db, st, r) && AllStarted(r, CondTargets(db, hidden, r.cond))
    ensures Base(db, hidden, r)
  {
    forall x | Done(r, x) ensures Started(r, x) {
      assert Count(r.out, x) <= Count(st.out, x) + if Started(r, x) && !Started(st, x) then 1 else 0;
      assert Done(st, x) ==> Started(st, x);
    }
  }

  lemma ClosesSelf(db: DB, hidden: set<nat>, st: State)
    requires Base(db, hidden, st)
    ensures Closes(db, hidden, st, st, {})
  {
  }

  lemma ClosesTrans(db: DB, hidden: set<nat>, a: State, b: State, c: State, items: set<Item>, more: set<Item>)
    requires Closes(db, hidden, a, b, items) && Closes(db, hidden, b, c, more)
    ensures Closes(db, hidden, a, c, items + more)
  {
    FrameTrans(db, a, b, c);
    StartedGrows(b, c, items);
    forall x | Done(c, x) && !Done(a, x) ensures Real(db, hidden, x) && AllStarted(c, Needs(db, hidden, x)) {
      if Done(b, x) {
        StartedGrows(b, c, Needs(db, hidden, x));
      }
    }
    forall x | Started(c, x) && !Started(a, x) && Real(db, hidden, x) ensures From(db, hidden, items + more, x) {
      if Started(b, x) {
        FromMore(db, hidden, items, items + more, x);
      } else {
        FromMore(db, hidden, more, items + more, x);
      }
    }
  }

  lemma FromMore(db: DB, hidden: set<nat>, few: set<Item>, many: set<Item>, x: Item)
    requires few <= many && From(db, hidden, few, x)
    ensures From(db, hidden, many, x)
  {
  }

  // ---------------------------------------------------------------------------------------------
  // Dealing with one item: its flag is set, what it needs is dealt with, then it is written

  ghost predicate StartsItem(db: DB, hidden: set<nat>, st: State, st1: State, g: Item) {
    && Grown(st, st1) && st1.out == st.out && st1.cond == st.cond
    && (forall x | Real(db, hidden, x) :: Started(st1, x) <==> Started(st, x) || x == g)
  }

  ghost predicate SameBits(st: State, r: State) {
    && r.forwarded == st.forwarded && r.declared == st.declared && r.seen == st.seen
    && r.cond == st.cond
  }

  lemma EmitSameBits(st: State, e: Event)
    ensures SameBits(st, st.Emit(e)) && st.Emit(e).out == st.out + [e]
  {
  }

  lemma ItemUnderWay(db: DB, hidden: set<nat>, st: State, st1: State, st2: State, r: State, g: Item, e: Event)
    requires Base(db, hidden, st) && !Started(st, g) && ItemOf(e) == Some(g)
    requires StartsItem(db, hidden, st, st1, g) && SameUnderWay(db, hidden, st1, st2)
    requires SameBits(st2, r) && r.out == st2.out + [e]
    ensures SameUnderWay(db, hidden, st, r)
  {
    forall x ensures UnderWay(db, hidden, st, x) <==> UnderWay(db, hidden, r, x) {
      CountEmit(st2.out, e, x);
      assert UnderWay(db, hidden, st1, x) <==> UnderWay(db, hidden, st2, x);
      assert Started(r, x) == Started(st2, x);
      if x != g && Real(db, hidden, x) {
        assert Started(st1, x) <==> Started(st, x);
      }
    }
  }

  lemma ItemCaused(db: DB, hidden: set<nat>, st: State, st1: State, st2: State, r: State, g: Item, needed: set<Item>)
    requires StartsItem(db, hidden, st, st1, g) && Caused(db, hidden, st1, st2, needed)
    requires needed <= Needs(db, hidden, g) && SameBits(st2, r)
    ensures Caused(db, hidden, st, r, {g})
  {
    forall x | Started(r, x) && !Started(st, x) && Real(db, hidden, x) ensures From(db, hidden, {g}, x) {
      assert Started(st2, x);
      if x == g {
        assert g in {g};
      } else {
        assert From(db, hidden, needed, x);
        FromNeeds(db, hidden, needed, g, x);
      }
    }
  }

  lemma ItemLinked(db: DB, hidden: set<nat>, st: State, st1: State, st2: State, r: State, g: Item, e: Event)
    requires ItemOf(e) == Some(g) && st1.out == st.out && Linked(db, hidden, st1, st2) && Real(db, hidden, g)
    requires AllStarted(st2, Needs(db, hidden, g))
    requires SameBits(st2, r) && r.out == st2.out + [e]
    ensures Linked(db, hidden, st, r)
  {
    forall x | Done(r, x) && !Done(st, x) ensures Real(db, hidden, x) && AllStarted(r, Needs(db, hidden, x)) {
      CountEmit(st2.out, e, x);
      assert x != g ==> Done(st2, x) && !Done(st1, x);
      StartedSame(st2, r, Needs(db, hidden, x));
    }
  }

  lemma StartedSame(st: State, r: State, items: set<Item>)
    requires SameBits(st, r)
    ensures AllStarted(st, items) == AllStarted(r, items)
  {
    assert forall x :: Started(st, x) == Started(r, x);
  }

  lemma ItemCloses(
    db: DB, hidden: set<nat>, st: State, st1: State, st2: State, r: State, g: Item, e: Event, needed: set<Item>)
    requires Base(db, hidden, st) && Real(db, hidden, g) && !Started(st, g) && ItemOf(e) == Some(g)
    requires StartsItem(db, hidden, st, st1, g) && Closes(db, hidden, st1, st2, needed)
    requires needed <= Needs(db, hidden, g) && AllStarted(st2, Needs(db, hidden, g))
    requires Frame(db, st, r) && SameBits(st2, r) && r.out == st2.out + [e]
    ensures Closes(db, hidden, st, r, {g})
  {
    hide Frame, Needs, CondTargets;
    ItemUnderWay(db, hidden, st, st1, st2, r, g, e);
    ItemCaused(db, hidden, st, st1, st2, r, g, needed);
    ItemLinked(db, hidden, st, st1, st2, r, g, e);
    StartedSame(st2, r, CondTargets(db, hidden, r.cond));
    BaseAfter(db, hidden, st, r);
    assert Started(st1, g);
    assert Started(r, g) by {
      ItemStays(db, hidden, st1, st2, r, g, needed);
    }
  }

  lemma ItemStays(db: DB, hidden: set<nat>, st1: State, st2: State, r: State, g: Item, needed: set<Item>)
    requires Closes(db, hidden, st1, st2, needed) && SameBits(st2, r) && Started(st1, g)
    ensures Started(r, g)
  {
  }
}

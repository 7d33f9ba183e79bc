// What one call adds to the header where no #if has to be opened or closed: a list of #includes
// (tools/cnoh.c:2530-2545) and the forward forms of a group (2581-2593).

module HeaderCalls {
  import opened Sequences
  import opened Declarations
  import opened HeaderSpec
  import opened HeaderFrame
  import opened HeaderSteps

  // ---------------------------------------------------------------------------------------------
  // #includes

  // Positions of the list in the order of the output.
  ghost predicate OldestFirst(incs: seq<Include>, order: seq<nat>) {
    && (forall k | 0 <= k < |order| :: order[k] < |incs|)
    && (forall j, k | 0 <= j < k < |order| :: order[j] > order[k])
  }

  // Not written yet, and the oldest of the list that stands for its file.
  ghost predicate Due(seen: set<string>, incs: seq<Include>, m: nat) {
    m < |incs| && incs[m].key !in seen && forall n | m < n < |incs| :: incs[n].key != incs[m].key
  }

  function Includes(incs: seq<Include>, order: seq<nat>): (events: seq<Event>)
    requires forall k | 0 <= k < |order| :: order[k] < |incs|
    ensures |events| == |order| && forall k | 0 <= k < |order| :: events[k] == Incl(incs[order[k]])
  {
    seq(|order|, k requires 0 <= k < |order| => Incl(incs[order[k]]))
  }

  // The list has an #include with this key.
  ghost predicate HasKey(incs: seq<Include>, key: string) {
    exists m | 0 <= m < |incs| :: incs[m].key == key
  }

  ghost predicate AllDue(seen: set<string>, incs: seq<Include>, order: seq<nat>) {
    forall m: nat :: m in order <==> Due(seen, incs, m)
  }

  // Exactly the keys of the list have been added.
  ghost predicate SeenToo(seen: set<string>, incs: seq<Include>, now: set<string>) {
    forall key :: key in now <==> key in seen || HasKey(incs, key)
  }

  lemma KeysNext(incs: seq<Include>, key: string)
    requires incs != []
    ensures HasKey(incs, key) <==> key == incs[0].key || HasKey(incs[1..], key)
  {
    var rest := incs[1..];
    if HasKey(rest, key) {
      var m :| 0 <= m < |rest| && rest[m].key == key;
      assert incs[m + 1].key == key;
    }
    assert forall m | 0 < m < |incs| :: incs[m] == rest[m - 1];
  }

  lemma SeenNext(seen: set<string>, incs: seq<Include>, now: set<string>)
    requires incs != [] && SeenToo(seen, incs[1..], now)
    ensures SeenToo(seen, incs, now + {incs[0].key})
    ensures Due(seen, incs, 0) <==> incs[0].key !in now
  {
    forall key: string ensures HasKey(incs, key) <==> key == incs[0].key || HasKey(incs[1..], key) {
      KeysNext(incs, key);
    }
    assert forall n | 0 < n < |incs| :: incs[n] == incs[1..][n - 1];
    assert forall n | 0 <= n < |incs[1..]| :: incs[1..][n] == incs[n + 1];
  }

  lemma DueNext(seen: set<string>, incs: seq<Include>, m: nat)
    requires incs != [] && m > 0
    ensures Due(seen, incs, m) <==> Due(seen, incs[1..], m - 1)
  {
    var rest := incs[1..];
    if Due(seen, incs, m) {
      assert forall n | m - 1 < n < |rest| :: rest[n] == incs[n + 1];
    }
    if Due(seen, rest, m - 1) {
      assert forall n | m < n < |incs| :: incs[n] == rest[n - 1];
    }
  }

  // The order for a list with one more #include in front, that one left out.
  lemma Shifted(seen: set<string>, incs: seq<Include>, older: seq<nat>) returns (order: seq<nat>)
    requires incs != [] && OldestFirst(incs[1..], older) && AllDue(seen, incs[1..], older)
    ensures OldestFirst(incs, order) && Includes(incs, order) == Includes(incs[1..], older)
    ensures forall m: nat :: m in order <==> m > 0 && Due(seen, incs, m)
  {
    hide Due;
    order := seq(|older|, k requires 0 <= k < |older| => older[k] + 1);
    forall m: nat | m > 0 ensures m in order <==> Due(seen, incs, m) {
      DueNext(seen, incs, m);
      if m - 1 in older {
        var k :| 0 <= k < |older| && older[k] == m - 1;
        assert order[k] == m;
      }
    }
  }

  // And with that one last.
  lemma Appended(seen: set<string>, incs: seq<Include>, order: seq<nat>)
    requires incs != [] && OldestFirst(incs, order)
    requires forall m: nat :: m in order <==> m > 0 && Due(seen, incs, m)
    ensures !Due(seen, incs, 0) ==> AllDue(seen, incs, order)
    ensures Due(seen, incs, 0) ==>
              && OldestFirst(incs, order + [0]) && AllDue(seen, incs, order + [0])
              && Includes(incs, order + [0]) == Includes(incs, order) + [Incl(incs[0])]
  {
    hide Due;
    assert forall k | 0 <= k < |order| :: order[k] in order;
  }

  // The list is linked newest-first. The oldest #include comes first, and of several for one file only the
  // oldest comes at all.
  lemma {:induction false} IncludesAreOldestFirst(db: DB, st: State, incs: seq<Include>) returns (order: seq<nat>)
    requires KnownIncludes(db, incs) && forall k | 0 <= k < |incs| :: incs[k].cond == st.cond
    ensures OldestFirst(incs, order) && AllDue(st.seen, incs, order)
    ensures var r := AddIncludes(db, st, incs);
            r.out == st.out + Includes(incs, order) && r.cond == st.cond && SeenToo(st.seen, incs, r.seen)
    decreases |incs|
  {
    hide AddIncludes, Remaining, Includes, Due, OldestFirst, AllDue, SeenToo;
    OldestIs(incs);
    if incs == [] {
      order := [];
      NoIncludes(db, st, incs);
    } else {
      var older := IncludesAreOldestFirst(db, st, incs[1..]);
      var st1 := AddIncludes(db, st, incs[1..]);
      order := Shifted(st.seen, incs, older);
      SeenNext(st.seen, incs, st1.seen);
      Appended(st.seen, incs, order);
      IncludeNext(db, st, incs);
      if incs[0].key in st1.seen {
        assert st1.seen + {incs[0].key} == st1.seen;
      } else {
        Regroup(st.out, Includes(incs, order), [Incl(incs[0])]);
        order := order + [0];
      }
    }
  }

  lemma NoIncludes(db: DB, st: State, incs: seq<Include>)
    requires incs == []
    ensures AddIncludes(db, st, incs) == st && SeenToo(st.seen, incs, st.seen)
    ensures OldestFirst(incs, []) && AllDue(st.seen, incs, []) && Includes(incs, []) == []
    ensures st.out + [] == st.out
  {
  }

  // One more #include whose #if is open already.
  lemma IncludeNext(db: DB, st: State, incs: seq<Include>)
    requires KnownIncludes(db, incs) && incs != []
    ensures var st1 := AddIncludes(db, st, incs[1..]);
            st1.cond == incs[0].cond ==>
              AddIncludes(db, st, incs)
              == if incs[0].key in st1.seen then st1
                 else st1.(seen := st1.seen + {incs[0].key}).Emit(Incl(incs[0]))
  {
    hide ChangeIfContext, Remaining;
    var st1 := AddIncludes(db, st, incs[1..]);
    if incs[0].key !in st1.seen {
      WriteIncludeIs(db, st1, incs[0]);
      ChangeIfContextIs(db, st1.(seen := st1.seen + {incs[0].key}), incs[0].cond);
    }
  }

  lemma OldestIs(incs: seq<Include>)
    ensures forall order | OldestFirst(incs, order) :: forall k | 0 <= k < |order| :: order[k] < |incs|
    ensures incs != [] ==>
              forall order | OldestFirst(incs[1..], order) :: forall k | 0 <= k < |order| :: order[k] < |incs[1..]|
  {
  }

  // ---------------------------------------------------------------------------------------------
  // Forward forms

  // A forward form that is still to be issued.
  predicate Missing(db: DB, st: State, chain: seq<nat>, k: nat)
    requires ValidChain(db, chain) && k < |chain|
  {
    db[chain[k]].fwd.Some? && chain[k] !in st.forwarded
  }

  predicate MissingTypedef(db: DB, st: State, chain: seq<nat>, k: nat)
    requires ValidChain(db, chain) && k < |chain|
  {
    Missing(db, st, chain, k) && db[chain[k]].fwd.value.isTypedef
  }

  // Of those that are spelled as a typedef only the first one, and none behind an earlier typedef.
  ghost predicate Issued(db: DB, st: State, chain: seq<nat>, done: bool, k: nat)
    requires ValidChain(db, chain) && k < |chain|
  {
    && Missing(db, st, chain, k)
    && (db[chain[k]].fwd.value.isTypedef ==> !done && forall j | 0 <= j < k :: !MissingTypedef(db, st, chain, j))
  }

  // The same behind the first member.
  lemma IssuedNext(db: DB, st: State, st1: State, chain: seq<nat>, done: bool, k: nat)
    requires ValidChain(db, chain) && 0 < k < |chain|
    requires st1.forwarded == st.forwarded || st1.forwarded == st.forwarded + {chain[0]}
    ensures Issued(db, st, chain, done, k)
            <==> Issued(db, st1, chain[1..], done || MissingTypedef(db, st, chain, 0), k - 1)
  {
    var rest := chain[1..];
    forall j | 0 <= j < |rest| ensures MissingTypedef(db, st1, rest, j) <==> MissingTypedef(db, st, chain, j + 1) {
    }
    if forall j | 0 < j < k :: !MissingTypedef(db, st, chain, j) {
      assert forall j | 0 <= j < k - 1 :: !MissingTypedef(db, st1, rest, j);
    }
    if forall j | 0 <= j < k - 1 :: !MissingTypedef(db, st1, rest, j) {
      forall j | 0 < j < k ensures !MissingTypedef(db, st, chain, j) {
        assert !MissingTypedef(db, st1, rest, j - 1);
      }
    }
  }

  lemma IssuedFirst(db: DB, st: State, chain: seq<nat>, done: bool)
    requires ValidChain(db, chain) && chain != []
    ensures Issued(db, st, chain, done, 0)
            <==> Missing(db, st, chain, 0) && !(MissingTypedef(db, st, chain, 0) && done)
  {
  }

  // The counts behind a loop over the rest, from those behind the first member.
  lemma CountsNext(db: DB, st: State, st1: State, r: State, chain: seq<nat>, done: bool)
    requires ValidChain(db, chain) && chain != []
    requires st1.forwarded == st.forwarded || st1.forwarded == st.forwarded + {chain[0]}
    requires st1.out == if Issued(db, st, chain, done, 0) then st.out + [Fwd(chain[0])] else st.out
    requires Counted(db, st1, r, chain[1..], done || MissingTypedef(db, st, chain, 0))
    ensures Counted(db, st, r, chain, done)
  {
    hide Issued, MissingTypedef, Count;
    var rest := chain[1..];
    forall x ensures Count(st1.out, x)
                     == Count(st.out, x) + if Issued(db, st, chain, done, 0) && x == FwdItem(chain[0]) then 1 else 0
    {
      CountEmit(st.out, Fwd(chain[0]), x);
    }
    forall k | 0 < k < |chain| ensures
      Count(r.out, FwdItem(chain[k]))
      == Count(st.out, FwdItem(chain[k])) + if Issued(db, st, chain, done, k) then 1 else 0
    {
      IssuedNext(db, st, st1, chain, done, k);
      assert rest[k - 1] == chain[k];
    }
    assert chain[0] !in rest;
  }

  // Each form of the group is written as often as it is issued, and nothing else is.
  ghost predicate Counted(db: DB, st: State, r: State, chain: seq<nat>, done: bool)
    requires ValidChain(db, chain)
  {
    && (forall k | 0 <= k < |chain| ::
          Count(r.out, FwdItem(chain[k]))
          == Count(st.out, FwdItem(chain[k])) + if Issued(db, st, chain, done, k) then 1 else 0)
    && (forall x: Item | !(x.FwdItem? && x.p in chain) :: Count(r.out, x) == Count(st.out, x))
  }

  // One call issues every missing forward form of the group, but at most one typedef.
  lemma {:induction false} OneTypedefIsIssued(db: DB, st: State, chain: seq<nat>, done: bool)
    requires ValidChain(db, chain) && forall k | 0 <= k < |chain| :: db[chain[k]].cond == st.cond
    ensures Counted(db, st, Forwards(db, st, chain, done).0, chain, done)
    decreases |chain|
  {
    hide Forwards, Remaining, Issued, Count, ChangeIfContext, Counted;
    assert chain[0..] == chain;
    if chain == [] {
      NoForms(db, st, chain, done);
    } else {
      var p := chain[0];
      var st1 := st.(forwarded := st.forwarded + {p});
      var missing, typedef := Missing(db, st, chain, 0), MissingTypedef(db, st, chain, 0);
      ForwardsStep(db, st, chain, done, 0);
      ChangeIfContextIs(db, st1, db[p].cond);
      IssuedFirst(db, st, chain, done);
      var st2 := if !missing then st else if typedef && done then st1 else st1.Emit(Fwd(p));
      OneTypedefIsIssued(db, st2, chain[1..], done || typedef);
      CountsNext(db, st, st2, Forwards(db, st2, chain[1..], done || typedef).0, chain, done);
    }
  }

  lemma NoForms(db: DB, st: State, chain: seq<nat>, done: bool)
    requires chain == []
    ensures Counted(db, st, Forwards(db, st, chain, done).0, chain, done)
  {
  }
}

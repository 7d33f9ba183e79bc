// Two structures that name each other (tools/cnoh.c:2743-2747): through pointers the header finishes and is
// in order, each by its forward form; by value it cannot be.

module HeaderPointers {
  import opened Options
  import opened Declarations
  import opened References
  import opened HeaderFrame
  import opened HeaderItems
  import opened HeaderOrder
  import opened HeaderRun
  import opened HeaderTheorems

  // A text that names another declaration, with one more token and the end of the line behind it.
  function Naming(name: string, token: string): Text {
    [Id(name), Other(token), Space("\n")]
  }

  function Structure(name: string, other: string, token: string): Decl {
    Decl(name, "a.c", None, Some(ForwardForm(true)), Some(Naming(other, token)), [], false, Plain)
  }

  function Pair(a: string, b: string, token: string): DB {
    [Structure(a, b, token), Structure(b, a, token)]
  }

  predicate Star(token: string) {
    token != "" && token[0] == '*'
  }

  lemma PairIsSimple(a: string, b: string, token: string)
    requires a != b
    ensures Simple(Pair(a, b, token))
    ensures Chain(Pair(a, b, token), a) == [0] && Chain(Pair(a, b, token), b) == [1]
    ensures Hidden(Pair(a, b, token), None) == {} && |Pair(a, b, token)| == 2
    ensures Completable(Pair(a, b, token), None)
  {
    hide Naming, Chain;
    var db := Pair(a, b, token);
    assert db[0].name == a && db[1].name == b;
    assert OnePerName(db) && KeysAgree(db);
    ChainOfOne(db, a);
    ChainOfOne(db, b);
  }

  // What the text of one of them refers to.
  lemma NamingRefers(db: DB, name: string, token: string, q: nat)
    requires Chain(db, name) == [q]
    ensures Refs(db, Naming(name, token), None) == [Ref([q], !Star(token))]
  {
    hide Chain, Refs;
    var end := [Space("\n")];
    NextIs(Naming(name, token), Id(name), [Other(token)] + end);
    NextIs([Other(token)] + end, Other(token), end);
    StarIs([Other(token)] + end);
    RefsStep(db, Naming(name, token), None);
    SpaceRefers(db, end);
  }

  lemma SpaceRefers(db: DB, end: Text)
    requires |end| == 1 && end[0].Space?
    ensures Refs(db, end, None) == []
  {
    assert end[1..] == [];
    assert NextTok(end) == (None, []);
  }

  lemma OneRef(db: DB, q: nat, full: bool)
    requires q < |db|
    ensures RefTargets(db, {}, [Ref([q], full)]) == Targets(db, {}, q, full)
  {
    hide Targets;
    assert [Ref([q], full)][1..] == [];
  }

  // So each needs the forward form of the other one, and its full text only if it is not a pointer.
  lemma StructureNeeds(a: string, b: string, token: string, p: nat)
    requires a != b && p < 2
    ensures var q := 1 - p;
            && Needs(Pair(a, b, token), {}, FwdItem(p)) == {}
            && Needs(Pair(a, b, token), {}, FullItem(p))
               == {FwdItem(p), FwdItem(q)} + (if Star(token) then {} else {FullItem(q)})
            && Targets(Pair(a, b, token), {}, p, true) == {FwdItem(p), FullItem(p)}
  {
    var db, q := Pair(a, b, token), 1 - p;
    assert db[p].includes == [] && IncludeItems([]) == {};
    TextNeeds(a, b, token, p);
    hide RefTargets, Refs, Chain, TextTargets;
    assert Needs(db, {}, FullItem(p)) == {FwdItem(p)} + TextTargets(db, {}, db[p].text.value);
  }

  lemma TextNeeds(a: string, b: string, token: string, p: nat)
    requires a != b && p < 2
    ensures var db, q := Pair(a, b, token), 1 - p;
            TextTargets(db, {}, db[p].text.value) == {FwdItem(q)} + if Star(token) then {} else {FullItem(q)}
  {
    hide Chain, Refs, RefTargets;
    var db, q := Pair(a, b, token), 1 - p;
    PairIsSimple(a, b, token);
    NamingRefers(db, db[q].name, token, q);
    OneRef(db, q, !Star(token));
    assert IncludeItems([]) == {};
  }

  // The four items.
  ghost function Both(): iset<Item> {
    iset{FwdItem(0), FwdItem(1), FullItem(0), FullItem(1)}
  }

  lemma BothIsClosed(a: string, b: string, token: string)
    requires a != b
    ensures Closed(Pair(a, b, token), {}, Both())
    ensures Contains(Both(), NameTargets(Pair(a, b, token), {}, [a]))
  {
    hide Needs, Targets, Chain;
    StructureNeeds(a, b, token, 0);
    StructureNeeds(a, b, token, 1);
    NameAsks(a, b, token);
  }

  lemma NameAsks(a: string, b: string, token: string)
    requires a != b
    ensures NameTargets(Pair(a, b, token), {}, [a]) == {FwdItem(0), FullItem(0)}
  {
    hide Targets, Chain;
    PairIsSimple(a, b, token);
    StructureNeeds(a, b, token, 0);
    assert [a][1..] == [];
  }

  lemma PointersAreNoCycle(a: string, b: string, token: string)
    requires a != b && Star(token)
    ensures CycleFree(Pair(a, b, token), {}, Both())
  {
    hide Needs;
    var db := Pair(a, b, token);
    StructureNeeds(a, b, token, 0);
    StructureNeeds(a, b, token, 1);
    forall x, n: nat | x in Both() ensures !NeedsIn(db, {}, x, x, n) {
      NoWayBack(db, x, n);
    }
  }

  // What needs items without needs only leads nowhere else.
  lemma NoWayBack(db: DB, x: Item, n: nat)
    requires x !in Needs(db, {}, x) && forall y | y in Needs(db, {}, x) :: Needs(db, {}, y) == {}
    ensures !NeedsIn(db, {}, x, x, n)
  {
    hide Needs;
    if n > 0 {
      forall y | Needs(db, {}, y) == {} ensures !NeedsIn(db, {}, y, x, n - 1) {
        assert forall c :: !Step(db, {}, y, c);
      }
    }
  }

  // The header of a file that names the first one.
  ghost function Header(a: string, b: string, token: string): Outcome
    requires a != b
  {
    PairIsSimple(a, b, token);
    SimpleIs(Pair(a, b, token));
    MakeHeader(Pair(a, b, token), None, {}, [a])
  }

  // Two structures that name each other through pointers: the header has both forward forms and both full
  // texts, each once and behind what it needs.
  lemma {:induction false} PointersMayCross(a: string, b: string, token: string)
    requires a != b && Star(token)
    ensures var r := Header(a, b, token);
            && r.Finished? && Ordered(Pair(a, b, token), {}, r.st.out)
            && forall x | x in Both() :: Count(r.st.out, x) == 1
  {
    hide MakeHeader, Closed, Contains, NameTargets, Ordered, Simple, CycleFree, Needs;
    var db := Pair(a, b, token);
    PairIsSimple(a, b, token);
    BothIsClosed(a, b, token);
    PointersAreNoCycle(a, b, token);
    BothAreWritten(a, b, token);
    OrderBeforehand(db, None, {}, [a]);
  }

  lemma {:induction false} BothAreWritten(a: string, b: string, token: string)
    requires a != b
    ensures var r := Header(a, b, token);
            r.Finished? && forall x | x in Both() :: Count(r.st.out, x) == 1
  {
    hide MakeHeader, NameTargets, Simple, Needs, Targets, Pair, Both, Completable, Hidden;
    PairIsSimple(a, b, token);
    NameAsks(a, b, token);
    StructureNeeds(a, b, token, 0);
    StructureNeeds(a, b, token, 1);
    AllFourAreWritten(Pair(a, b, token), a);
  }

  // Any two declarations of which the first one needs the second one's forward form.
  lemma {:induction false} AllFourAreWritten(db: DB, a: string)
    requires Simple(db) && Completable(db, None) && |db| == 2 && Hidden(db, None) == {}
    requires NameTargets(db, {}, [a]) == {FwdItem(0), FullItem(0)}
    requires FwdItem(1) in Needs(db, {}, FullItem(0)) && FullItem(1) in Targets(db, {}, 1, true)
    ensures var r := MakeHeader(db, None, {}, [a]);
            r.Finished? && forall x | x in Both() :: Count(r.st.out, x) == 1
  {
    hide MakeHeader, NameTargets, Simple, Needs, Targets, Completable, Closed, NeedsClosed, Hidden, Count;
    SimpleIs(db);
    var out := MakeHeader(db, None, {}, [a]).st.out;
    CompletableFinishes(db, None, {}, [a]);
    HeaderIsClosed(db, None, {}, [a]);
    assert FwdItem(0) in Contents(out) && FullItem(0) in Contents(out);
    AllFour(db, Contents(out));
    forall x | x in Both() ensures Count(out, x) == 1 {
      WrittenAtMostOnce(db, None, {}, [a], x);
    }
  }

  lemma AllFour(db: DB, s: iset<Item>)
    requires |db| == 2 && Closed(db, {}, s) && FwdItem(0) in s && FullItem(0) in s
    requires FwdItem(1) in Needs(db, {}, FullItem(0)) && FullItem(1) in Targets(db, {}, 1, true)
    ensures Both() <= s
  {
    hide Needs, Targets;
  }

  // By value the header has both as well, but cannot be in order.
  lemma {:induction false} ValuesMayNotCross(a: string, b: string, token: string)
    requires a != b && !Star(token)
    ensures var r := Header(a, b, token);
            && r.Finished? && !Ordered(Pair(a, b, token), {}, r.st.out)
            && forall x | x in Both() :: Count(r.st.out, x) == 1
  {
    hide MakeHeader, Ordered, Simple, Needs, Pair, Completable, Hidden, Targets, Step;
    PairIsSimple(a, b, token);
    SimpleIs(Pair(a, b, token));
    BothAreWritten(a, b, token);
    StepsAcross(a, b, token);
    assert FullItem(0) in Both();
    NoOrder(Pair(a, b, token), a);
  }

  lemma StepsAcross(a: string, b: string, token: string)
    requires a != b && !Star(token)
    ensures Step(Pair(a, b, token), {}, FullItem(0), FullItem(1))
    ensures Step(Pair(a, b, token), {}, FullItem(1), FullItem(0))
  {
    hide Needs;
    StructureNeeds(a, b, token, 0);
    StructureNeeds(a, b, token, 1);
  }

  lemma NoOrder(db: DB, a: string)
    requires Simple(db) && Hidden(db, None) == {}
    requires Step(db, {}, FullItem(0), FullItem(1)) && Step(db, {}, FullItem(1), FullItem(0))
    requires WellFormed(db) && Count(MakeHeader(db, None, {}, [a]).st.out, FullItem(0)) > 0
    ensures !Ordered(db, {}, MakeHeader(db, None, {}, [a]).st.out)
  {
    hide MakeHeader, Ordered, Simple, Needs, Step, NeedsIn, Reaches, Hidden, Count;
    ReachesStep(db, {}, FullItem(1), FullItem(0));
    ReachesStep(db, {}, FullItem(0), FullItem(1));
    DependencyOrder(db, None, {}, [a]);
  }
}

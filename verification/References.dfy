// Which identifiers of a text ScanText acts upon (tools/cnoh.c:2704-2759).

module References {
  import opened Options
  import opened Declarations
  import opened Sequences

  predicate DeclaredId(db: DB, t: Tok) {
    t.Id? && Chain(db, t.name) != []
  }

  // A reference to the group of t, if t is declared; a forward declaration is enough where the next
  // token that is not blank begins with '*'.
  function Mention(db: DB, t: Tok, rest: Text): seq<Ref> {
    if DeclaredId(db, t) then [Ref(Chain(db, t.name), !IsStar(NextTok(rest).0))] else []
  }

  // Every declared identifier of a text, those within directives included, in order.
  function Occurrences(db: DB, toks: Text): seq<Ref>
    decreases Size(toks)
  {
    if toks == [] then []
    else
      FirstSize(toks);
      match toks[0]
      case Directive(body) => Occurrences(db, body + toks[1..])
      case t => Mention(db, t, toks[1..]) + Occurrences(db, toks[1..])
  }

  lemma FirstSize(toks: Text)
    requires toks != []
    ensures Size(toks[1..]) < Size(toks)
    ensures toks[0].Directive? ==> Size(toks[0].body + toks[1..]) < Size(toks) && Size(toks[0].body) < Size(toks)
  {
    if toks[0].Directive? {
      SizeConcat(toks[0].body, toks[1..]);
    }
  }

  // The same without the directives that come right behind a declared identifier, blanks aside.
  // "afterId" says that the text follows a declared identifier.
  function Seen(db: DB, toks: Text, afterId: bool): seq<Ref>
    decreases Size(toks)
  {
    if toks == [] then []
    else
      FirstSize(toks);
      match toks[0]
      case Directive(body) => if afterId then Seen(db, toks[1..], false) else Seen(db, body + toks[1..], false)
      case t => Mention(db, t, toks[1..]) + Seen(db, toks[1..], if t.Space? then afterId else DeclaredId(db, t))
  }

  // A directive that holds a declared identifier comes right behind a declared identifier.
  predicate HidesNames(db: DB, toks: Text, afterId: bool)
    decreases Size(toks)
  {
    if toks == [] then false
    else
      FirstSize(toks);
      match toks[0]
      case Directive(body) =>
        if afterId then Occurrences(db, body) != [] || HidesNames(db, toks[1..], false)
        else HidesNames(db, body + toks[1..], false)
      case t => HidesNames(db, toks[1..], if t.Space? then afterId else DeclaredId(db, t))
  }

  // The text ends in a declared identifier, and the token before it, blanks aside, is another one.
  predicate EndsInTwoIds(db: DB, toks: Text, afterId: bool)
    decreases Size(toks)
  {
    if toks == [] then false
    else
      FirstSize(toks);
      match toks[0]
      case Directive(body) =>
        if afterId then EndsInTwoIds(db, toks[1..], false) else EndsInTwoIds(db, body + toks[1..], false)
      case t =>
        if |toks| == 1 then afterId && DeclaredId(db, t)
        else EndsInTwoIds(db, toks[1..], if t.Space? then afterId else DeclaredId(db, t))
  }

  // ---------------------------------------------------------------------------------------------
  // ScanText acts upon what is seen, less one at the end

  function Cut(refs: seq<Ref>, cut: bool): seq<Ref> {
    if cut && refs != [] then refs[..|refs| - 1] else refs
  }

  // What ScanText acts upon in a text that follows a declared identifier, or does not.
  function Acted(db: DB, toks: Text, afterId: bool): seq<Ref> {
    Cut(Seen(db, toks, afterId), EndsInTwoIds(db, toks, afterId))
  }

  lemma CutMore(a: seq<Ref>, b: seq<Ref>, cut: bool)
    requires cut ==> b != []
    ensures Cut(a + b, cut) == a + Cut(b, cut)
  {
  }

  lemma {:induction false} EndsSeen(db: DB, toks: Text, afterId: bool)
    requires EndsInTwoIds(db, toks, afterId)
    ensures Seen(db, toks, afterId) != []
    decreases Size(toks)
  {
    hide Chain, NextTok;
    FirstSize(toks);
    match toks[0]
    case Directive(body) => EndsSeen(db, if afterId then toks[1..] else body + toks[1..], false);
    case t =>
      if |toks| > 1 {
        EndsSeen(db, toks[1..], if t.Space? then afterId else DeclaredId(db, t));
      }
  }

  // The cases of the definitions.
  lemma ActedNone(db: DB, afterId: bool)
    ensures Acted(db, [], afterId) == []
  {
  }

  lemma ActedSpace(db: DB, t: Tok, rest: Text, afterId: bool)
    requires t.Space?
    ensures Acted(db, [t] + rest, afterId) == Acted(db, rest, afterId)
  {
    assert ([t] + rest)[1..] == rest;
    assert [] + Seen(db, rest, afterId) == Seen(db, rest, afterId);
  }

  lemma ActedDirective(db: DB, body: Text, rest: Text, afterId: bool)
    ensures Acted(db, [Directive(body)] + rest, afterId)
            == if afterId then Acted(db, rest, false) else Acted(db, body + rest, false)
  {
    assert ([Directive(body)] + rest)[1..] == rest;
  }

  lemma ActedOther(db: DB, t: Tok, rest: Text, afterId: bool)
    requires !t.Space? && !t.Directive? && !DeclaredId(db, t)
    ensures Acted(db, [t] + rest, afterId) == Acted(db, rest, false)
  {
    hide Chain;
    assert ([t] + rest)[1..] == rest;
    assert [] + Seen(db, rest, false) == Seen(db, rest, false);
  }

  lemma ActedDeclared(db: DB, t: Tok, rest: Text, afterId: bool)
    requires DeclaredId(db, t) && (rest == [] ==> !afterId)
    ensures Acted(db, [t] + rest, afterId) == Mention(db, t, rest) + Acted(db, rest, true)
  {
    hide Mention, Chain;
    assert ([t] + rest)[1..] == rest;
    if EndsInTwoIds(db, rest, true) {
      EndsSeen(db, rest, true);
    }
    CutMore(Mention(db, t, rest), Seen(db, rest, true), EndsInTwoIds(db, rest, true));
  }

  // Leading blanks do not matter.
  lemma {:induction false} SkipBlanks(db: DB, toks: Text, afterId: bool)
    ensures NextTok(toks).0.None? ==> Acted(db, toks, afterId) == []
    ensures NextTok(toks).0.Some? ==>
              Acted(db, toks, afterId) == Acted(db, [NextTok(toks).0.value] + NextTok(toks).1, afterId)
    decreases |toks|
  {
    hide Acted;
    if toks == [] {
      ActedNone(db, afterId);
    } else {
      assert [toks[0]] + toks[1..] == toks;
      if toks[0].Space? {
        ActedSpace(db, toks[0], toks[1..], afterId);
        SkipBlanks(db, toks[1..], afterId);
      }
    }
  }

  function Whole(toks: Text, ahead: Option<Tok>): Text {
    if ahead.Some? then [ahead.value] + toks else toks
  }

  function Keep(next: Option<Tok>): Option<Tok> {
    if !IsStar(next) && next.Some? && next.value.Id? then next else None
  }

  // The token read to look for a '*' is passed on if it is an identifier. Otherwise it is gone, which
  // matters if it is a directive.
  lemma LookAhead(db: DB, rest: Text)
    ensures var (next, beyond) := NextTok(rest);
            Acted(db, rest, true) == Acted(db, Whole(beyond, Keep(next)), Keep(next).Some?)
  {
    hide Acted;
    var (next, beyond) := NextTok(rest);
    SkipBlanks(db, rest, true);
    if next.None? {
      ActedNone(db, false);
    } else if Keep(next).None? {
      if next.value.Directive? {
        ActedDirective(db, next.value.body, beyond, true);
      } else {
        ActedOther(db, next.value, beyond, true);
      }
    }
  }

  lemma {:induction false} RefsAreActed(db: DB, toks: Text, ahead: Option<Tok>)
    requires ahead.Some? ==> ahead.value.Id?
    ensures Refs(db, toks, ahead)
            == if toks == [] then [] else Acted(db, Whole(toks, ahead), ahead.Some?)
    decreases Size(toks), if ahead.Some? then 1 else 0
  {
    hide Refs, Acted, NextTok, Chain, IsStar, Mention;
    if toks == [] {
      NoRefs(db, ahead);
    } else {
      RefsStep(db, toks, ahead);
      BlankSize(toks);
      SkipBlanks(db, toks, false);
      var (tok, rest) := if ahead.Some? then (ahead, toks) else NextTok(toks);
      if tok.None? {
        RefsAreActed(db, rest, None);
        NextNone(toks);
      } else if tok.value.Directive? {
        RefsAreActed(db, tok.value.body + rest, None);
        ActedDirective(db, tok.value.body, rest, false);
        NothingActed(db, tok.value.body + rest);
      } else if DeclaredId(db, tok.value) {
        var (next, beyond) := NextTok(rest);
        RefsAreActed(db, beyond, Keep(next));
        ActedDeclared(db, tok.value, rest, ahead.Some?);
        MentionIs(db, tok.value, rest);
        LookAhead(db, rest);
        NothingActed(db, Whole(beyond, Keep(next)));
        LastIsCut(db, beyond, Keep(next));
      } else {
        NextIsVisible(toks);
        RefsAreActed(db, rest, None);
        ActedOther(db, tok.value, rest, ahead.Some?);
        NothingActed(db, rest);
      }
    }
  }

  lemma NoRefs(db: DB, ahead: Option<Tok>)
    ensures Refs(db, [], ahead) == []
  {
  }

  lemma NextNone(toks: Text)
    ensures NextTok(toks).0.None? ==> NextTok(toks).1 == []
  {
  }

  lemma NextIsVisible(toks: Text)
    ensures NextTok(toks).0.Some? ==> !NextTok(toks).0.value.Space?
  {
  }

  lemma NothingActed(db: DB, toks: Text)
    ensures toks == [] ==> Acted(db, toks, false) == []
  {
  }

  lemma MentionIs(db: DB, t: Tok, rest: Text)
    requires DeclaredId(db, t)
    ensures Mention(db, t, rest) == [Ref(Chain(db, t.name), !IsStar(NextTok(rest).0))]
  {
  }

  // A pending identifier at the end of the text is not acted upon.
  lemma LastIsCut(db: DB, toks: Text, ahead: Option<Tok>)
    ensures toks == [] && ahead.Some? && ahead.value.Id? ==> Acted(db, Whole(toks, ahead), true) == []
  {
    hide Chain;
    if toks == [] && ahead.Some? && ahead.value.Id? {
      var t := ahead.value;
      assert Whole(toks, ahead) == [t] && [t][1..] == [];
      assert Seen(db, [t], true) == Mention(db, t, []);
    }
  }

  // ---------------------------------------------------------------------------------------------
  // When that is all there is

  lemma OccursFirst(db: DB, t: Tok, rest: Text)
    ensures Occurrences(db, [t] + rest)
            == if t.Directive? then Occurrences(db, t.body + rest) else Mention(db, t, rest) + Occurrences(db, rest)
  {
    assert ([t] + rest)[1..] == rest;
  }

  // What a text mentions does not depend on the text before it.
  lemma {:induction false} OccurrencesBehind(db: DB, a: Text, b: Text)
    ensures |Occurrences(db, a + b)| == |Occurrences(db, a)| + |Occurrences(db, b)|
    ensures Occurrences(db, a + b)[|Occurrences(db, a)|..] == Occurrences(db, b)
    decreases Size(a)
  {
    hide Mention, Occurrences;
    if a == [] {
      NoOccurrences(db);
      assert a + b == b;
    } else {
      var t, rest := a[0], a[1..];
      FirstSize(a);
      assert a == [t] + rest && a + b == [t] + (rest + b);
      OccursFirst(db, t, rest);
      OccursFirst(db, t, rest + b);
      if t.Directive? {
        assert t.body + (rest + b) == t.body + rest + b;
        OccurrencesBehind(db, t.body + rest, b);
      } else {
        OccurrencesBehind(db, rest, b);
        MentionedOnce(db, t, rest, rest + b);
      }
    }
  }

  lemma NoOccurrences(db: DB)
    ensures Occurrences(db, []) == []
  {
  }

  lemma MentionedOnce(db: DB, t: Tok, rest: Text, more: Text)
    ensures |Mention(db, t, rest)| == |Mention(db, t, more)|
  {
  }

  lemma {:induction false} SeenIsAll(db: DB, toks: Text, afterId: bool)
    ensures |Seen(db, toks, afterId)| <= |Occurrences(db, toks)|
    ensures Seen(db, toks, afterId) == Occurrences(db, toks) <==> !HidesNames(db, toks, afterId)
    decreases Size(toks)
  {
    hide Mention, Chain;
    if toks != [] {
      FirstSize(toks);
      match toks[0]
      case Directive(body) =>
        if afterId {
          SeenIsAll(db, toks[1..], false);
          OccurrencesBehind(db, body, toks[1..]);
        } else {
          SeenIsAll(db, body + toks[1..], false);
        }
      case t =>
        var after := if t.Space? then afterId else DeclaredId(db, t);
        SeenIsAll(db, toks[1..], after);
        SameFront(Mention(db, t, toks[1..]), Seen(db, toks[1..], after), Occurrences(db, toks[1..]));
    }
  }

  // ScanText acts upon every declared identifier of a text, those within directives included, if and
  // only if the text does not end in two declared identifiers and no directive that holds one comes
  // right behind a declared identifier. Otherwise it misses exactly those.
  lemma {:induction false} TextReferences(db: DB, toks: Text)
    ensures Refs(db, toks, None) == Cut(Seen(db, toks, false), EndsInTwoIds(db, toks, false))
    ensures Refs(db, toks, None) == Occurrences(db, toks) <==>
            !EndsInTwoIds(db, toks, false) && !HidesNames(db, toks, false)
  {
    hide Refs, Seen, Occurrences, HidesNames, EndsInTwoIds;
    RefsAreActed(db, toks, None);
    NothingActed(db, toks);
    SeenIsAll(db, toks, false);
    if EndsInTwoIds(db, toks, false) {
      EndsSeen(db, toks, false);
    }
  }

  // Of "a b" only a is acted upon.
  lemma {:induction false} LastIdentifierIsMissed(db: DB, a: string, b: string)
    requires Chain(db, a) != [] && Chain(db, b) != []
    ensures var toks := [Id(a), Space(" "), Id(b)];
            && Refs(db, toks, None) == [Ref(Chain(db, a), true)]
            && Occurrences(db, toks) == [Ref(Chain(db, a), true), Ref(Chain(db, b), true)]
  {
    hide Chain, Acted;
    var blank, last := Space(" "), Id(b);
    assert [Id(a), blank, last] == [Id(a)] + ([blank] + [last]) && [last] == [last] + [];
    RefsAreActed(db, [Id(a), blank, last], None);
    ActedDeclared(db, Id(a), [blank] + [last], false);
    ActedSpace(db, blank, [last], true);
    LastIsCut(db, [], Some(last));
    NextIs([blank] + [last], last, []);
    OccursFirst(db, Id(a), [blank] + [last]);
    OccursFirst(db, blank, [last]);
    OccursFirst(db, last, []);
  }

  lemma NextIs(toks: Text, t: Tok, rest: Text)
    requires !t.Space? && ((toks == [t] + rest) || (|toks| > 0 && toks[0].Space? && toks[1..] == [t] + rest))
    ensures NextTok(toks) == (Some(t), rest)
  {
    assert ([t] + rest)[1..] == rest && ([t] + rest)[0] == t;
  }

  // Of "a", a directive that holds b, and a newline, only a is acted upon.
  lemma {:induction false} DirectiveIsMissed(db: DB, a: string, b: string)
    requires Chain(db, a) != [] && Chain(db, b) != []
    ensures var toks := [Id(a), Directive([Id(b)]), Space("\n")];
            && Refs(db, toks, None) == [Ref(Chain(db, a), true)]
            && Occurrences(db, toks) == [Ref(Chain(db, a), true), Ref(Chain(db, b), true)]
            && !EndsInTwoIds(db, toks, false)
  {
    hide Chain, Acted, Refs, Occurrences, EndsInTwoIds, NextTok, Mention;
    var line, end := Directive([Id(b)]), Space("\n");
    assert [Id(a), line, end] == [Id(a)] + ([line] + [end]);
    RefsAreActed(db, [Id(a), line, end], None);
    ActedDeclared(db, Id(a), [line] + [end], false);
    ActedDirective(db, [Id(b)], [end], true);
    MentionIs(db, Id(a), [line] + [end]);
    NextIs([line] + [end], line, [end]);
    NewlineAlone(db, end);
    OccursFirst(db, Id(a), [line] + [end]);
    OccursFirst(db, line, [end]);
    OccursFirst(db, Id(b), [end]);
    MentionIs(db, Id(b), [end]);
    BlankEnd(db, [Id(a), line, end], false);
  }

  lemma NewlineAlone(db: DB, end: Tok)
    requires end.Space?
    ensures NextTok([end]).0.None? && Acted(db, [end], false) == [] && Occurrences(db, [end]) == []
  {
    assert [end] == [end] + [];
    ActedSpace(db, end, [], false);
    ActedNone(db, false);
    OccursFirst(db, end, []);
  }

  // A text that ends in space, as declarations do, does not end in two identifiers.
  lemma {:induction false} BlankEnd(db: DB, toks: Text, afterId: bool)
    requires toks != [] && toks[|toks| - 1].Space?
    ensures !EndsInTwoIds(db, toks, afterId)
    decreases Size(toks)
  {
    hide Chain;
    if |toks| > 1 {
      FirstSize(toks);
      match toks[0]
      case Directive(body) => BlankEnd(db, if afterId then toks[1..] else body + toks[1..], false);
      case t => BlankEnd(db, toks[1..], if t.Space? then afterId else DeclaredId(db, t));
    }
  }

  // ---------------------------------------------------------------------------------------------
  // Which mentions are satisfied with a forward declaration

  // The token begins with a star.
  predicate BeginsWithStar(t: Tok) {
    t.Other? && t.text != "" && t.text[0] == '*'
  }

  ghost predicate Blank(toks: Text) {
    forall k | 0 <= k < |toks| :: toks[k].Space?
  }

  lemma {:induction false} NextBehind(blanks: Text, rest: Text)
    requires Blank(blanks)
    ensures NextTok(blanks + rest) == NextTok(rest)
    decreases |blanks|
  {
    if blanks == [] {
      assert blanks + rest == rest;
    } else {
      assert (blanks + rest)[1..] == blanks[1..] + rest;
      NextBehind(blanks[1..], rest);
    }
  }

  lemma StarIs(rest: Text)
    ensures rest == [] ==> !IsStar(NextTok(rest).0)
    ensures rest != [] && !rest[0].Space? ==> (IsStar(NextTok(rest).0) <==> BeginsWithStar(rest[0]))
  {
  }

  // Anywhere in a text, within a directive or not: a declared name is taken as a mention that a forward
  // declaration satisfies exactly if the next token, blanks aside, begins with a star.
  lemma {:induction false} PointersNeedForward(db: DB, before: Text, name: string, blanks: Text, rest: Text)
    requires Chain(db, name) != [] && Blank(blanks) && (rest != [] ==> !rest[0].Space?)
    ensures var r := Occurrences(db, before + ([Id(name)] + (blanks + rest)));
            var k := |Occurrences(db, before)|;
            && k < |r| && r[k].chain == Chain(db, name)
            && (r[k].full <==> !(rest != [] && BeginsWithStar(rest[0])))
  {
    hide Chain, Occurrences, IsStar, NextTok, BeginsWithStar, Blank;
    var behind := blanks + rest;
    OccurrencesBehind(db, before, [Id(name)] + behind);
    OccursFirst(db, Id(name), behind);
    MentionIs(db, Id(name), behind);
    NextBehind(blanks, rest);
    StarIs(rest);
    var r, k := Occurrences(db, before + ([Id(name)] + behind)), |Occurrences(db, before)|;
    assert r[k..][0] == r[k];
  }

  // So does ScanText, at the beginning of a text that goes on behind the name.
  lemma {:induction false} ScanTakesPointers(db: DB, name: string, blanks: Text, rest: Text)
    requires Chain(db, name) != [] && Blank(blanks) && (rest != [] ==> !rest[0].Space?)
    ensures var r := Refs(db, [Id(name)] + (blanks + rest), None);
            && r != [] && r[0].chain == Chain(db, name)
            && (r[0].full <==> !(rest != [] && BeginsWithStar(rest[0])))
  {
    hide Chain, IsStar, Acted, BeginsWithStar, Blank, Refs, NextTok;
    var behind := blanks + rest;
    RefsAreActed(db, [Id(name)] + behind, None);
    ActedDeclared(db, Id(name), behind, false);
    MentionIs(db, Id(name), behind);
    NextBehind(blanks, rest);
    StarIs(rest);
  }
}

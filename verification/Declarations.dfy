// The declaration database of the header generator: what the recogniser of tools/cnoh.c hands
// over, and how one text refers to declarations.

module Declarations {
  import opened Options

  // A low-level token of a declaration text or of an #if condition.  Text inside "#if 0" counts as
  // Space.  A directive carries the tokens that follow its '#'.
  datatype Tok =
    | Id(name: string)
    | Space(blank: string)
    | Other(text: string)
    | Directive(body: seq<Tok>)

  type Text = seq<Tok>

  datatype Include = Include(file: string, cond: Option<Text>, key: string)

  datatype Kind = Typedef | Enumeration | Plain

  // How a forward declaration is spelled: a "typedef" may be issued only once per name.
  datatype ForwardForm = ForwardForm(isTypedef: bool)

  // text holds the tokens of the full declaration (class extras inserted, a macro's '#' dropped).
  datatype Decl = Decl(
    name: string,
    file: string,
    cond: Option<Text>,
    fwd: Option<ForwardForm>,
    text: Option<Text>,
    includes: seq<Include>,
    local: bool,
    kind: Kind)

  // Declarations in installation order.
  type DB = seq<Decl>

  // ---------------------------------------------------------------------------------------------
  // Same-name groups

  // Distinct declarations of one name.
  ghost predicate ValidChain(db: DB, chain: seq<nat>) {
    && (forall k | 0 <= k < |chain| :: chain[k] < |db|)
    && (forall i, j | 0 <= i < j < |chain| :: chain[i] != chain[j] && db[chain[i]].name == db[chain[j]].name)
  }

  // A second declaration of a name goes right behind the first one.
  function Insert(table: map<string, seq<nat>>, name: string, p: nat): map<string, seq<nat>> {
    if name in table && table[name] != [] then
      table[name := [table[name][0], p] + table[name][1..]]
    else
      table[name := [p]]
  }

  // Group n of a table lists declarations named n, each once.
  ghost predicate GoodGroup(db: DB, n: string, chain: seq<nat>) {
    && |chain| > 0
    && ValidChain(db, chain)
    && (forall k | 0 <= k < |chain| :: db[chain[k]].name == n)
    && (forall p | 0 <= p < |db| && db[p].name == n :: p in chain)
  }

  ghost predicate GoodTable(db: DB, table: map<string, seq<nat>>) {
    && (forall n | n in table :: GoodGroup(db, n, table[n]))
    && (forall p | 0 <= p < |db| :: db[p].name in table)
  }

  // The table after all declarations of db are installed.
  function Table(db: DB): (table: map<string, seq<nat>>)
    ensures GoodTable(db, table)
  {
    if db == [] then map[]
    else
      var last := |db| - 1;
      InsertKeepsGood(db, Table(db[..last]));
      Insert(Table(db[..last]), db[last].name, last)
  }

  // A group stays one when a declaration of another name is installed.
  lemma SameGroup(db: DB, n: string, chain: seq<nat>)
    requires db != [] && db[|db| - 1].name != n && GoodGroup(db[..|db| - 1], n, chain)
    ensures GoodGroup(db, n, chain)
  {
    assert forall p | 0 <= p < |db| - 1 :: db[..|db| - 1][p] == db[p];
  }

  lemma ExtendedGroup(db: DB, n: string, chain: seq<nat>)
    requires db != [] && db[|db| - 1].name == n && GoodGroup(db[..|db| - 1], n, chain)
    ensures GoodGroup(db, n, [chain[0], |db| - 1] + chain[1..])
  {
    var last := |db| - 1;
    var longer := [chain[0], last] + chain[1..];
    InsertedAt(chain, last);
    forall k | 0 <= k < |chain| ensures chain[k] < last && db[chain[k]].name == n {
      assert db[..last][chain[k]] == db[chain[k]];
    }
    forall p | 0 <= p < |db| && db[p].name == n ensures p in longer {
      assert p < last ==> db[..last][p] == db[p] && p in chain;
    }
    hide GoodGroup;
    forall i, j | 0 <= i < j < |longer| ensures longer[i] != longer[j] {
    }
    GroupIs(db, n, longer);
  }

  lemma GroupIs(db: DB, n: string, chain: seq<nat>)
    requires chain != [] && forall k | 0 <= k < |chain| :: chain[k] < |db| && db[chain[k]].name == n
    requires forall i, j | 0 <= i < j < |chain| :: chain[i] != chain[j]
    requires forall p | 0 <= p < |db| && db[p].name == n :: p in chain
    ensures GoodGroup(db, n, chain)
  {
  }

  lemma InsertedAt(chain: seq<nat>, x: nat)
    requires chain != []
    ensures var longer := [chain[0], x] + chain[1..];
            && |longer| == |chain| + 1
            && (forall k | 0 <= k < |longer| ::
                  longer[k] == if k == 0 then chain[0] else if k == 1 then x else chain[k - 1])
            && (forall p | p in chain :: p in longer) && x in longer
  {
    var longer := [chain[0], x] + chain[1..];
    assert longer[1] == x;
    forall p | p in chain ensures p in longer {
      var k :| 0 <= k < |chain| && chain[k] == p;
      assert longer[if k == 0 then 0 else k + 1] == p;
    }
  }

  lemma FirstOfGroup(db: DB)
    requires db != [] && forall p | 0 <= p < |db| - 1 :: db[p].name != db[|db| - 1].name
    ensures GoodGroup(db, db[|db| - 1].name, [|db| - 1])
  {
    assert [|db| - 1][0] == |db| - 1;
  }

  lemma InsertKeepsGood(db: DB, table: map<string, seq<nat>>)
    requires db != [] && GoodTable(db[..|db| - 1], table)
    ensures GoodTable(db, Insert(table, db[|db| - 1].name, |db| - 1))
  {
    hide GoodGroup;
    var before := db[..|db| - 1];
    var name := db[|db| - 1].name;
    var after := Insert(table, name, |db| - 1);
    assert forall p | 0 <= p < |before| :: before[p] == db[p] && before[p].name in table;
    forall n | n in after ensures GoodGroup(db, n, after[n]) {
      if n == name && n in table {
        NonEmptyGroup(before, n, table[n]);
        ExtendedGroup(db, n, table[n]);
      } else if n in table {
        SameGroup(db, n, table[n]);
      } else {
        FirstOfGroup(db);
      }
    }
  }

  lemma NonEmptyGroup(db: DB, n: string, chain: seq<nat>)
    requires GoodGroup(db, n, chain)
    ensures chain != []
  {
  }

  // All declarations of a name, first-installed first; empty when the name is not declared.
  function Chain(db: DB, name: string): (chain: seq<nat>)
    ensures ValidChain(db, chain)
    ensures forall k | 0 <= k < |chain| :: db[chain[k]].name == name
    ensures forall p | 0 <= p < |db| && db[p].name == name :: p in chain
  {
    if name in Table(db) then
      assert GoodGroup(db, name, Table(db)[name]);
      Table(db)[name]
    else []
  }

  // The rest of a group, beginning with declaration p.
  function ChainFrom(db: DB, p: nat): (chain: seq<nat>)
    requires p < |db|
    ensures ValidChain(db, chain) && |chain| > 0 && chain[0] == p
    ensures forall k | 0 <= k < |chain| :: db[chain[k]].name == db[p].name
  {
    var whole := Chain(db, db[p].name);
    assert p in whole;
    Suffix(db, whole, p)
  }

  function Suffix(db: DB, chain: seq<nat>, p: nat): (rest: seq<nat>)
    requires ValidChain(db, chain) && p in chain
    ensures ValidChain(db, rest) && |rest| > 0 && rest[0] == p
    ensures forall k | 0 <= k < |rest| :: rest[k] in chain
  {
    if chain[0] == p then chain else Suffix(db, chain[1..], p)
  }

  ghost predicate OnePerName(db: DB) {
    forall p, q | 0 <= p < q < |db| :: db[p].name != db[q].name
  }

  lemma SameName(db: DB, p: nat, q: nat)
    requires OnePerName(db) && p < |db| && q < |db| && db[p].name == db[q].name
    ensures p == q
  {
  }

  lemma ShortChain(db: DB, chain: seq<nat>)
    requires OnePerName(db) && ValidChain(db, chain)
    ensures |chain| <= 1
  {
    if |chain| > 1 {
      SameName(db, chain[0], chain[1]);
    }
  }

  lemma ChainOfOne(db: DB, name: string)
    requires OnePerName(db)
    ensures |Chain(db, name)| <= 1
    ensures forall p | 0 <= p < |db| && db[p].name == name :: Chain(db, name) == [p]
  {
    var chain := Chain(db, name);
    ShortChain(db, chain);
    forall p | 0 <= p < |db| && db[p].name == name ensures chain == [p] {
      assert p in chain && chain[0] == p;
    }
  }

  lemma ChainFromOfOne(db: DB, p: nat)
    requires OnePerName(db) && p < |db|
    ensures ChainFrom(db, p) == [p]
  {
    ChainOfOne(db, db[p].name);
  }

  // ---------------------------------------------------------------------------------------------
  // Which declarations a text refers to

  // A reference to a same-name group; full asks for the complete declaration.
  datatype Ref = Ref(chain: seq<nat>, full: bool)

  function Size(toks: Text): nat {
    if toks == [] then 0
    else
      (match toks[0]
       case Directive(body) => 1 + Size(body)
       case _ => 1) + Size(toks[1..])
  }

  lemma SizeConcat(a: Text, b: Text)
    ensures Size(a + b) == Size(a) + Size(b)
  {
    if a == [] {
      assert a + b == b;
    } else {
      assert (a + b)[1..] == a[1..] + b;
    }
  }

  // The next token that is not blank, and what follows it.
  function NextTok(toks: Text): (r: (Option<Tok>, Text))
    ensures r.0.None? ==> r.1 == [] && forall t | t in toks :: t.Space?
    ensures r.0.Some? ==> !r.0.value.Space? && Size(r.1) < Size(toks)
    ensures r.0.Some? && r.0.value.Directive? ==> Size(r.0.value.body) + Size(r.1) < Size(toks)
  {
    if toks == [] then (None, [])
    else if toks[0].Space? then NextTok(toks[1..])
    else (Some(toks[0]), toks[1..])
  }

  predicate IsStar(t: Option<Tok>) {
    t.Some? && t.value.Other? && t.value.text != "" && t.value.text[0] == '*'
  }

  // The references ScanText resolves, in order.  "ahead" is the identifier already read while
  // looking for a '*'; the scan stops as soon as the input is used up, even if one is pending.
  function Refs(db: DB, toks: Text, ahead: Option<Tok>): (refs: seq<Ref>)
    ensures forall k | 0 <= k < |refs| :: ValidChain(db, refs[k].chain) && |refs[k].chain| > 0
    decreases Size(toks), if ahead.Some? then 1 else 0
  {
    if toks == [] then []
    else
      var (tok, rest) := if ahead.Some? then (ahead, toks) else NextTok(toks);
      RoundSize(toks, ahead);
      if tok.Some? && tok.value.Id? then
        var chain := Chain(db, tok.value.name);
        if chain == [] then Refs(db, rest, None)
        else
          var (next, beyond) := NextTok(rest);
          var full := !IsStar(next);
          var keep := if full && next.Some? && next.value.Id? then next else None;
          [Ref(chain, full)] + Refs(db, beyond, keep)
      else if tok.Some? && tok.value.Directive? then
        if ahead.Some? then [] else Refs(db, tok.value.body + rest, None)
      else
        Refs(db, rest, None)
  }

  // Each round of the loop uses up some of the text.
  lemma RoundSize(toks: Text, ahead: Option<Tok>)
    requires toks != []
    ensures var (tok, rest) := if ahead.Some? then (ahead, toks) else NextTok(toks);
            && Size(NextTok(rest).1) < Size(toks)
            && (if ahead.Some? then rest == toks else Size(rest) < Size(toks))
            && (ahead.None? && tok.Some? && tok.value.Directive? ==> Size(tok.value.body + rest) < Size(toks))
  {
    hide NextTok;
    BlankSize(toks);
    BlankSize(NextTok(toks).1);
    if NextTok(toks).0.Some? && NextTok(toks).0.value.Directive? {
      SizeConcat(NextTok(toks).0.value.body, NextTok(toks).1);
    }
  }

  lemma BlankSize(toks: Text)
    ensures Size(toks) == 0 <==> toks == []
    ensures Size(NextTok(toks).1) <= Size(toks)
    ensures toks != [] ==> Size(NextTok(toks).1) < Size(toks)
  {
  }

  // One round of ScanText's loop.
  lemma RefsStep(db: DB, toks: Text, ahead: Option<Tok>)
    requires toks != [] && (ahead.Some? ==> ahead.value.Id?)
    ensures var (tok, rest) := if ahead.Some? then (ahead, toks) else NextTok(toks);
            if tok.Some? && tok.value.Id? then
              var chain := Chain(db, tok.value.name);
              if chain == [] then
                && Refs(db, toks, ahead) == Refs(db, rest, None)
                && (Size(rest) < Size(toks) || (ahead.Some? && rest == toks))
              else
                var (next, beyond) := NextTok(rest);
                var full := !IsStar(next);
                && Refs(db, toks, ahead) ==
                   [Ref(chain, full)] + Refs(db, beyond, if full && next.Some? && next.value.Id? then next else None)
                && Size(beyond) < Size(toks)
            else
              && (tok.Some? && tok.value.Directive? ==>
                    Refs(db, toks, ahead) == Refs(db, tok.value.body + rest, None)
                    && Size(tok.value.body + rest) < Size(toks))
              && (!(tok.Some? && tok.value.Directive?) ==>
                    Refs(db, toks, ahead) == Refs(db, rest, None) && Size(rest) < Size(toks))
  {
    BlankSize(toks);
    if ahead.None? && NextTok(toks).0.Some? && NextTok(toks).0.value.Directive? {
      SizeConcat(NextTok(toks).0.value.body, NextTok(toks).1);
    }
    BlankSize(if ahead.Some? then toks else NextTok(toks).1);
  }
}

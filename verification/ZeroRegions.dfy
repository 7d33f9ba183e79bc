// What becomes of "#if 0" groups on their way to the #if stack: GetNonspaceToken of tools/cnoh.c
// (1036-1053) drops them whole, an #else part included.

module ZeroRegions {
  import opened Options
  import opened Conditionals
  import opened ConditionalMeaning
  import opened Lexemes
  import opened Visible
  import opened Sequences

  // The argument of an #if reads as zero: its leading digits, behind an optional sign, are zeros.
  predicate IsZero(c: Command) {
    c.If? && ZeroFrom(c.arg, 0)
  }

  // How deep in such groups the text is behind a directive.
  function DepthAfter(c: Command, depth: nat): nat {
    if IsZero(c) || (depth > 0 && Opens(c)) then depth + 1
    else if depth > 0 && c.Endif? then depth - 1
    else depth
  }

  function DepthBeyond(e: Event, depth: nat): nat {
    if e.Dir? then DepthAfter(e.c, depth) else depth
  }

  // The events that are left.
  function Passed(events: seq<Event>, depth: nat): seq<Event> {
    if events == [] then []
    else
      (if depth == 0 && (events[0].Dir? ==> !IsZero(events[0].c)) then [events[0]] else [])
      + Passed(events[1..], DepthBeyond(events[0], depth))
  }

  // The same on well-nested text: every group that opens with a zero is gone.
  function Kept(items: Items): Items {
    match items
    case End => End
    case Line(id, rest) => Line(id, Kept(rest))
    case Other(rest) => Items.Other(Kept(rest))
    case Group(open, thenPart, elsePart, rest) =>
      if IsZero(open) then Kept(rest)
      else Group(open, Kept(thenPart), if elsePart.Some? then Some(Kept(elsePart.value)) else None, Kept(rest))
  }

  lemma {:induction false} KeptIsWellFormed(items: Items)
    requires WellFormed(items)
    ensures WellFormed(Kept(items))
    decreases items
  {
    hide IsZero;
    match items
    case End =>
    case Line(_, rest) => KeptIsWellFormed(rest);
    case Other(rest) => KeptIsWellFormed(rest);
    case Group(open, thenPart, elsePart, rest) =>
      KeptIsWellFormed(thenPart);
      if elsePart.Some? {
        KeptIsWellFormed(elsePart.value);
      }
      KeptIsWellFormed(rest);
  }

  // ---------------------------------------------------------------------------------------------
  // Dropping by depth drops those groups

  function DepthBehindAll(events: seq<Event>, depth: nat): nat {
    if events == [] then depth else DepthBehindAll(events[1..], DepthBeyond(events[0], depth))
  }

  lemma {:induction false} PassedConcat(a: seq<Event>, b: seq<Event>, depth: nat)
    ensures Passed(a + b, depth) == Passed(a, depth) + Passed(b, DepthBehindAll(a, depth))
    ensures DepthBehindAll(a + b, depth) == DepthBehindAll(b, DepthBehindAll(a, depth))
    decreases |a|
  {
    hide DepthBeyond, IsZero;
    if a == [] {
      assert a + b == b;
    } else {
      assert (a + b)[1..] == a[1..] + b;
      PassedConcat(a[1..], b, DepthBeyond(a[0], depth));
    }
  }

  lemma PassedOne(e: Event, events: seq<Event>, depth: nat)
    ensures var d := DepthBeyond(e, depth);
            && Passed([e] + events, depth)
               == (if depth == 0 && (e.Dir? ==> !IsZero(e.c)) then [e] else []) + Passed(events, d)
            && DepthBehindAll([e] + events, depth) == DepthBehindAll(events, d)
  {
    assert ([e] + events)[1..] == events;
  }

  // Well-nested text leaves the depth as it was; within a dropped group nothing of it is left.
  lemma {:induction false} FlatPasses(items: Items, depth: nat)
    requires WellFormed(items)
    ensures DepthBehindAll(Flat(items), depth) == depth
    ensures Passed(Flat(items), depth) == if depth == 0 then Flat(Kept(items)) else []
    decreases items
  {
    hide IsZero, Passed, DepthBehindAll;
    match items
    case End =>
      NothingPasses(depth);
    case Line(id, rest) =>
      PassedOne(Text(id), Flat(rest), depth);
      FlatPasses(rest, depth);
    case Other(rest) =>
      PassedOne(Dir(Ignored), Flat(rest), depth);
      IgnoredIsNoZero();
      FlatPasses(rest, depth);
    case Group(open, thenPart, elsePart, rest) =>
      GroupPasses(open, thenPart, elsePart, rest, depth);
  }

  lemma NothingPasses(depth: nat)
    ensures Passed([], depth) == [] && DepthBehindAll([], depth) == depth
  {
  }

  lemma IgnoredIsNoZero()
    ensures !IsZero(Ignored) && !IsZero(Else) && !IsZero(Endif)
  {
  }

  lemma DepthInside(open: Command, depth: nat)
    requires Opens(open)
    ensures var inner := DepthAfter(open, depth);
            && (if depth == 0 && !IsZero(open) then inner == 0 else inner == depth + 1)
            && DepthAfter(Else, inner) == inner && DepthAfter(Endif, inner) == depth
  {
  }

  // What is left of the three parts of a conditional.
  lemma ElsePasses(elsePart: Option<Items>, depth: nat)
    requires elsePart.Some? ==>
      && DepthBehindAll(Flat(elsePart.value), depth) == depth
      && Passed(Flat(elsePart.value), depth) == if depth == 0 then Flat(Kept(elsePart.value)) else []
    requires DepthAfter(Else, depth) == depth
    ensures DepthBehindAll(ElseEvents(elsePart), depth) == depth
    ensures Passed(ElseEvents(elsePart), depth)
            == if depth == 0 && elsePart.Some? then [Dir(Else)] + Flat(Kept(elsePart.value)) else []
  {
    hide IsZero, Passed, DepthBehindAll, DepthAfter, Flat, Kept;
    IgnoredIsNoZero();
    if elsePart.Some? {
      PassedOne(Dir(Else), Flat(elsePart.value), depth);
    } else {
      NothingPasses(depth);
    }
  }

  lemma OpenPasses(c: Command, part: Items, depth: nat, inner: nat)
    requires inner == DepthAfter(c, depth)
    requires DepthBehindAll(Flat(part), inner) == inner
    requires Passed(Flat(part), inner) == if inner == 0 then Flat(Kept(part)) else []
    ensures DepthBehindAll([Dir(c)] + Flat(part), depth) == inner
    ensures Passed([Dir(c)] + Flat(part), depth)
            == (if depth == 0 && !IsZero(c) then [Dir(c)] else []) + (if inner == 0 then Flat(Kept(part)) else [])
  {
    hide IsZero, Passed, DepthBehindAll, DepthAfter, Flat, Kept;
    PassedOne(Dir(c), Flat(part), depth);
  }

  lemma KeptGroup(open: Command, thenPart: Items, elsePart: Option<Items>, rest: Items)
    ensures Flat(Kept(Group(open, thenPart, elsePart, rest)))
            == if IsZero(open) then Flat(Kept(rest))
               else ([Dir(open)] + Flat(Kept(thenPart)))
                    + ((if elsePart.Some? then [Dir(Else)] + Flat(Kept(elsePart.value)) else [])
                       + ([Dir(Endif)] + Flat(Kept(rest))))
  {
    hide IsZero;
  }

  lemma {:induction false} GroupPasses(
    open: Command, thenPart: Items, elsePart: Option<Items>, rest: Items, depth: nat)
    requires WellFormed(Group(open, thenPart, elsePart, rest))
    ensures var items := Group(open, thenPart, elsePart, rest);
            && DepthBehindAll(Flat(items), depth) == depth
            && Passed(Flat(items), depth) == if depth == 0 then Flat(Kept(items)) else []
    decreases Group(open, thenPart, elsePart, rest), 0
  {
    hide IsZero, Passed, DepthBehindAll, DepthAfter, Kept, ElseEvents;
    var inner := DepthAfter(open, depth);
    var first, second, third := [Dir(open)] + Flat(thenPart), ElseEvents(elsePart), [Dir(Endif)] + Flat(rest);
    IgnoredIsNoZero();
    DepthInside(open, depth);
    FlatPasses(thenPart, inner);
    if elsePart.Some? {
      FlatPasses(elsePart.value, inner);
    }
    FlatPasses(rest, depth);
    OpenPasses(open, thenPart, depth, inner);
    ElsePasses(elsePart, inner);
    OpenPasses(Endif, rest, inner, depth);
    PassedConcat(first, second + third, depth);
    PassedConcat(second, third, inner);
    KeptGroup(open, thenPart, elsePart, rest);
  }

  // ---------------------------------------------------------------------------------------------
  // What is lost

  // No group that is dropped, where the preprocessor gets to it, has a line that it compiles.
  ghost predicate NothingLost(items: Items, env: Env)
    requires WellFormed(items)
  {
    match items
    case End => true
    case Line(_, rest) => NothingLost(rest, env)
    case Other(rest) => NothingLost(rest, env)
    case Group(open, thenPart, elsePart, rest) =>
      && NothingLost(rest, env)
      && (if IsZero(open) then Compiled(Group(open, thenPart, elsePart, End), env) == []
          else
            && (IsScope(open) || Chosen(open, env) ==> NothingLost(thenPart, env))
            && ((IsScope(open) || !Chosen(open, env)) && elsePart.Some? ==> NothingLost(elsePart.value, env)))
  }

  lemma {:induction false} KeptCompiles(items: Items, env: Env)
    requires WellFormed(items)
    ensures WellFormed(Kept(items))
    ensures |Compiled(Kept(items), env)| <= |Compiled(items, env)|
    ensures Compiled(Kept(items), env) == Compiled(items, env) <==> NothingLost(items, env)
    ensures NothingLost(items, env) <==> |Compiled(Kept(items), env)| == |Compiled(items, env)|
    decreases items
  {
    hide IsZero, IsScope, Chosen;
    KeptIsWellFormed(items);
    match items
    case End =>
    case Line(id, rest) =>
      KeptCompiles(rest, env);
      SameFront([id], Compiled(Kept(rest), env), Compiled(rest, env));
    case Other(rest) => KeptCompiles(rest, env);
    case Group(open, thenPart, elsePart, rest) => GroupCompiles(open, thenPart, elsePart, rest, env);
  }

  // A list made of parts that are no longer than those of another one.
  lemma PartsAgree(a: seq<nat>, b: seq<nat>, c: seq<nat>, d: seq<nat>)
    requires |a| <= |c| && |b| <= |d| && (|a| == |c| ==> a == c) && (|b| == |d| ==> b == d)
    ensures |a + b| <= |c + d|
    ensures a + b == c + d <==> a == c && b == d
    ensures |a + b| == |c + d| <==> a == c && b == d
  {
  }

  lemma CompiledGroup(open: Command, thenPart: Items, elsePart: Option<Items>, rest: Items, env: Env)
    requires WellFormed(Group(open, thenPart, elsePart, rest))
    ensures Compiled(Group(open, thenPart, elsePart, rest), env)
            == Compiled(Group(open, thenPart, elsePart, End), env) + Compiled(rest, env)
    ensures var first := Compiled(thenPart, env);
            var second := if elsePart.Some? then Compiled(elsePart.value, env) else [];
            Compiled(Group(open, thenPart, elsePart, End), env)
            == if IsScope(open) then first + second else if Chosen(open, env) then first else second
  {
    hide IsScope, Chosen;
  }

  lemma {:induction false} GroupCompiles(
    open: Command, thenPart: Items, elsePart: Option<Items>, rest: Items, env: Env)
    requires WellFormed(Group(open, thenPart, elsePart, rest))
    requires WellFormed(Kept(Group(open, thenPart, elsePart, rest)))
    ensures var items := Group(open, thenPart, elsePart, rest);
            && |Compiled(Kept(items), env)| <= |Compiled(items, env)|
            && (Compiled(Kept(items), env) == Compiled(items, env) <==> NothingLost(items, env))
            && (NothingLost(items, env) <==> |Compiled(Kept(items), env)| == |Compiled(items, env)|)
    decreases Group(open, thenPart, elsePart, rest), 0
  {
    hide IsZero, IsScope, Chosen, Compiled;
    KeptCompiles(rest, env);
    CompiledGroup(open, thenPart, elsePart, rest, env);
    var whole := Compiled(Group(open, thenPart, elsePart, End), env);
    if IsZero(open) {
      assert [] + Compiled(Kept(rest), env) == Compiled(Kept(rest), env);
      PartsAgree([], Compiled(Kept(rest), env), whole, Compiled(rest, env));
    } else {
      var keptElse := if elsePart.Some? then Some(Kept(elsePart.value)) else None;
      CompiledGroup(open, Kept(thenPart), keptElse, Kept(rest), env);
      KeptCompiles(thenPart, env);
      var first, kept := Compiled(thenPart, env), Compiled(Kept(thenPart), env);
      var second := if elsePart.Some? then Compiled(elsePart.value, env) else [];
      var other := if elsePart.Some? then Compiled(Kept(elsePart.value), env) else [];
      if elsePart.Some? {
        KeptCompiles(elsePart.value, env);
      }
      PartsAgree(kept, other, first, second);
      PartsAgree(Compiled(Group(open, Kept(thenPart), keptElse, End), env), Compiled(Kept(rest), env),
                 whole, Compiled(rest, env));
    }
  }

  // What the stack makes of a well-nested text from which GetNonspaceToken has dropped the groups that
  // open with a zero: the surviving lines are those of the text without these groups, with its flags;
  // they are the lines that a preprocessor compiles if and only if no dropped group has such a line.
  lemma {:induction false} PassedMean(items: Items, env: Env)
    requires WellFormed(items)
    ensures WellFormed(Kept(items))
    ensures var records := Records(Passed(Flat(items), 0), []);
            && Surviving(records, env) == Compiled(Kept(items), env)
            && FlagsOf(records) == LineFlags(Kept(items), {})
            && (Surviving(records, env) == Compiled(items, env) <==> NothingLost(items, env))
  {
    hide Records, Surviving, FlagsOf, Passed, Flat, Compiled, LineFlags, NothingLost, Kept;
    FlatPasses(items, 0);
    KeptCompiles(items, env);
    ConditionsMean(Kept(items), [], env);
    NothingStacked(env);
  }

  lemma NothingStacked(env: Env)
    ensures AllHold(Conds([]), env) && Flags([]) == {}
  {
  }

  // The #else part of "#if 0" is compiled, and lost.
  lemma {:induction false} ElseOfZeroIsLost(env: Env)
    requires !env.holds("0")
    ensures var items := Group(If("0"), End, Some(Line(7, End)), End);
            && WellFormed(items) && Compiled(items, env) == [7]
            && Surviving(Records(Passed(Flat(items), 0), []), env) == []
  {
    var items := Group(If("0"), End, Some(Line(7, End)), End);
    ZerosRead();
    PassedMean(items, env);
    assert Kept(items) == End;
  }

  // A number in another base, or a longer condition, reads as zero too.
  lemma ZerosRead()
    ensures IsZero(If("0")) && IsZero(If("0x1")) && IsZero(If("0 || A")) && !IsZero(If("1")) && !IsZero(If("A"))
    ensures Scope("0") == {}
  {
    forall arg | arg in {"0", "0x1", "0 || A", "1", "A"} ensures IsZero(If(arg)) <==> arg[0] == '0' {
      assert Run(arg, 0, Digits) == if IsDigit(arg[0]) then 1 else 0;
    }
  }

  // ---------------------------------------------------------------------------------------------
  // The directives of a text

  lemma {:induction false} RunSame(z: string, q: nat, arg: string, k: nat)
    requires q + |arg| <= |z| && z[q..q + |arg|] == arg && k <= |arg| && !IsDigit(At(z, q + |arg|))
    ensures Run(z, q + k, Digits) == q + Run(arg, k, Digits)
    decreases |arg| - k
  {
    if k < |arg| {
      assert z[q..q + |arg|][k] == z[q + k];
      RunSame(z, q, arg, k + 1);
    }
  }

  lemma ZeroSame(z: string, q: nat, arg: string)
    requires q + |arg| <= |z| && z[q..q + |arg|] == arg && arg != [] && !IsDigit(At(z, q + |arg|))
    ensures ZeroFrom(z, q) <==> ZeroFrom(arg, 0)
  {
    assert forall k | 0 <= k < |arg| :: arg[k] == z[q + k];
    var k := if arg[0] == '+' || arg[0] == '-' then 1 else 0;
    RunSame(z, q, arg, k);
    var e := Run(arg, k, Digits);
    if forall j | k <= j < e :: arg[j] == '0' {
      forall j | q + k <= j < q + e ensures z[j] == '0' {
        assert z[j] == arg[j - q];
      }
    }
    if forall j | q + k <= j < q + e :: z[j] == '0' {
      forall j | k <= j < e ensures arg[j] == '0' {
        assert z[q + j] == arg[j];
      }
    }
  }

  // d is the text of a directive of z, from its "#" to the end of its last line.
  ghost predicate IsDirective(z: string, start: nat, d: string) {
    && d != [] && start + |d| <= |z| && z[start..start + |d|] == d
    && (start + |d| == |z| || z[start + |d|] == '\n')
  }

  lemma {:induction false} TabsSame(z: string, start: nat, d: string, k: nat)
    requires IsDirective(z, start, d) && k <= |d|
    ensures SkipTabs(z, start + k) == start + SkipTabs(d, k)
    decreases |d| - k
  {
    if k < |d| {
      assert z[start..start + |d|][k] == z[start + k];
      TabsSame(z, start, d, k + 1);
    }
  }

  // GetNonspaceToken sees a directive as ParsePreprocessor reads it: as long as only spaces and tabs
  // stand between the "#" and the word, the depth changes as for the command, and it shows accordingly.
  lemma {:induction false} DirectiveDepth(z: string, start: nat, d: string, depth: nat)
    requires IsDirective(z, start, d) && SkipGap(d, 1) == SkipTabs(d, 1) && Read(d) != Ignored
    ensures Visible.DepthBehind(z, Directive, start, depth) == DepthAfter(Read(d), depth)
    ensures Shows(z, Directive, start, depth) <==> depth == 0 && !IsZero(Read(d))
  {
    hide IfZero, ZeroFrom, SkipTabs, SkipGap, Read, StartsWith, Run;
    var p := SkipTabs(z, start + 1);
    TabsSame(z, start, d, 1);
    WordStarts(z, start, d);
    if Read(d).If? {
      IfIsZero(z, start, d);
    } else {
      LetterIsNoZero(z, start, d);
    }
  }

  // A piece of the directive is the same piece of the text.
  lemma PieceOf(z: string, start: nat, d: string, a: nat, b: nat)
    requires IsDirective(z, start, d) && a <= b <= |d|
    ensures z[start + a..start + b] == d[a..b]
  {
    forall k | 0 <= k < b - a ensures z[start + a..start + b][k] == d[a..b][k] {
      assert z[start..start + |d|][a + k] == z[start + (a + k)];
    }
  }

  // The words that matter to both readers.
  predicate IsWord(word: string) {
    word in {"if", "ifdef", "ifndef", "else", "endif"}
  }

  lemma WordRead(d: string)
    requires d != [] && Read(d) != Ignored
    ensures var i := SkipGap(d, 1); var word := d[i..SkipLetters(d, i)];
            && IsWord(word)
            && (Opens(Read(d)) <==> word in {"if", "ifdef", "ifndef"})
            && (Read(d).Endif? <==> word == "endif")
            && (Read(d).If? <==> word == "if")
  {
    hide SkipGap, SkipLetters;
  }

  lemma WordBegins(z: string, p: nat, word: string)
    requires IsWord(word) && p + |word| <= |z| && z[p..p + |word|] == word
    ensures StartsWith(z, p, "if") <==> word in {"if", "ifdef", "ifndef"}
    ensures StartsWith(z, p, "endif") <==> word == "endif"
  {
    assert word[0] == z[p] && word[1] == z[p + 1];
    if StartsWith(z, p, "if") {
      assert "if"[0] == z[p..p + 2][0] == z[p];
    }
    if StartsWith(z, p, "endif") {
      assert "endif"[0] == z[p..p + 5][0] == z[p] && "endif"[1] == z[p..p + 5][1] == z[p + 1];
    }
    if word == "endif" {
      assert z[p..p + 5] == word;
    } else if word != "else" {
      assert z[p..p + 2] == [z[p], z[p + 1]] == "if";
    }
  }

  lemma WordStarts(z: string, start: nat, d: string)
    requires IsDirective(z, start, d) && SkipGap(d, 1) == SkipTabs(d, 1) && Read(d) != Ignored
    ensures var p := start + SkipTabs(d, 1);
            && (StartsWith(z, p, "if") <==> Opens(Read(d)))
            && (StartsWith(z, p, "endif") <==> Read(d).Endif?)
  {
    hide SkipTabs, SkipGap, SkipLetters, Read, StartsWith, IsWord;
    var i := SkipGap(d, 1);
    var j := SkipLetters(d, i);
    WordRead(d);
    PieceOf(z, start, d, i, j);
    WordBegins(z, start + i, d[i..j]);
  }

  lemma ArgumentRead(d: string)
    requires d != [] && Read(d) != Ignored && Read(d).If?
    ensures var a := SkipGap(d, SkipLetters(d, SkipGap(d, 1)));
            a < |d| && d[a] != '\n' && Read(d).arg == d[a..]
  {
    hide SkipGap, SkipLetters;
    var i := SkipGap(d, 1);
    var j := SkipLetters(d, i);
    assert d[i..j] == "if" && Read(d) == WithArgument(d, j, arg => If(arg));
  }

  // The zero test reads the argument of an #if ...
  lemma IfIsZero(z: string, start: nat, d: string)
    requires IsDirective(z, start, d) && SkipGap(d, 1) == SkipTabs(d, 1) && Read(d).If?
    ensures IfZero(z, start + SkipTabs(d, 1)) <==> IsZero(Read(d))
  {
    hide SkipTabs, SkipGap, SkipLetters, Read, StartsWith, IsWord, ZeroFrom, Run, Opens, IsZero, IsDirective;
    var i := SkipGap(d, 1);
    var j := SkipLetters(d, i);
    var a := SkipGap(d, j);
    WordStarts(z, start, d);
    WordRead(d);
    ArgumentRead(d);
    assert j == i + 2;
    BlanksSame(z, start, d, j);
    ZeroBehind(z, start, d, a);
    IfOpens(Read(d));
  }

  lemma IfOpens(c: Command)
    requires c.If?
    ensures Opens(c) && (IsZero(c) <==> ZeroFrom(c.arg, 0))
  {
  }

  lemma ZeroBehind(z: string, start: nat, d: string, a: nat)
    requires IsDirective(z, start, d) && a < |d|
    ensures ZeroFrom(z, start + a) <==> ZeroFrom(d[a..], 0)
  {
    hide ZeroFrom;
    PieceOf(z, start, d, a, |d|);
    assert d[a..|d|] == d[a..];
    ZeroSame(z, start + a, d[a..]);
  }

  // ... and finds a letter behind #ifdef and #ifndef.
  lemma LetterIsNoZero(z: string, start: nat, d: string)
    requires IsDirective(z, start, d) && SkipGap(d, 1) == SkipTabs(d, 1) && Read(d) != Ignored && !Read(d).If?
    ensures !IfZero(z, start + SkipTabs(d, 1))
  {
    hide SkipTabs, SkipGap, SkipLetters, Read, StartsWith, ZeroFrom;
    var i := SkipGap(d, 1);
    var word := d[i..SkipLetters(d, i)];
    WordStarts(z, start, d);
    WordRead(d);
    if word == "ifdef" || word == "ifndef" {
      PieceOf(z, start, d, i, i + |word|);
      assert z[start + i..start + i + |word|][2] == z[start + i + 2];
      NoZeroAt(z, start + i + 2);
    }
  }

  lemma NoZeroAt(z: string, q: nat)
    requires q < |z| && (z[q] == 'd' || z[q] == 'n')
    ensures !ZeroFrom(z, Run(z, q, Blanks))
  {
    assert Run(z, q, Blanks) == q && Run(z, q, Digits) == q;
  }

  lemma {:induction false} BlanksSame(z: string, start: nat, d: string, k: nat)
    requires IsDirective(z, start, d) && k <= |d| && SkipGap(d, k) < |d| && d[SkipGap(d, k)] != '\n'
    ensures Run(z, start + k, Blanks) == start + SkipGap(d, k)
    decreases |d| - k
  {
    assert z[start..start + |d|][k] == z[start + k];
    if Conditionals.IsGap(d[k]) {
      BlanksSame(z, start, d, k + 1);
    }
  }
}

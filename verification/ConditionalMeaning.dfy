// What the conditions and flags kept on the #if stack of tools/cnoh.c (558-581, 2075-2242) mean: the
// conditions hold exactly where a C preprocessor would compile.

module ConditionalMeaning {
  import opened Options
  import opened Conditionals
  import opened Sequences

  // A sequence of lines, other directives, and conditionals with at most one #else each.
  datatype Items =
    | End
    | Line(id: nat, rest: Items)
    | Other(rest: Items)
    | Group(open: Command, thenPart: Items, elsePart: Option<Items>, rest: Items)

  ghost predicate WellFormed(items: Items) {
    match items
    case End => true
    case Line(_, rest) => WellFormed(rest)
    case Other(rest) => WellFormed(rest)
    case Group(open, thenPart, elsePart, rest) =>
      && Opens(open) && WellFormed(thenPart) && WellFormed(rest)
      && (elsePart.Some? ==> WellFormed(elsePart.value))
  }

  // What the values of macros make of the text of conditions.
  datatype Env = Env(holds: string -> bool, defined: string -> bool)

  predicate Eval(c: Cond, env: Env) {
    match c
    case Raw(text) => env.holds(text)
    case Defined(macro) => env.defined(macro)
    case Not(inner) => !Eval(inner, env)
  }

  // Opens a scope of the generator rather than asking the preprocessor.
  predicate IsScope(c: Command) {
    c.If? && Scope(c.arg) != {}
  }

  // What the preprocessor decides at the opening directive.
  predicate Chosen(c: Command, env: Env)
    requires Opens(c)
  {
    match c
    case If(arg) => env.holds(arg)
    case Ifdef(arg) => env.defined(arg)
    case Ifndef(arg) => !env.defined(arg)
  }

  // The lines that are compiled, in order; a scope compiles both its parts.
  function Compiled(items: Items, env: Env): seq<nat>
    requires WellFormed(items)
  {
    match items
    case End => []
    case Line(id, rest) => [id] + Compiled(rest, env)
    case Other(rest) => Compiled(rest, env)
    case Group(open, thenPart, elsePart, rest) =>
      var first := Compiled(thenPart, env);
      var second := if elsePart.Some? then Compiled(elsePart.value, env) else [];
      (if IsScope(open) then first + second else if Chosen(open, env) then first else second) + Compiled(rest, env)
  }

  // The flags in force at each line, given the flags outside.
  function LineFlags(items: Items, outside: set<Flag>): seq<set<Flag>>
    requires WellFormed(items)
  {
    match items
    case End => []
    case Line(_, rest) => [outside] + LineFlags(rest, outside)
    case Other(rest) => LineFlags(rest, outside)
    case Group(open, thenPart, elsePart, rest) =>
      LineFlags(thenPart, outside + (if open.If? then Scope(open.arg) else {}))
      + (if elsePart.Some? then LineFlags(elsePart.value, outside) else [])
      + LineFlags(rest, outside)
  }

  // ---------------------------------------------------------------------------------------------
  // What the stack makes of it

  datatype Event = Text(id: nat) | Dir(c: Command)

  function Flat(items: Items): seq<Event> {
    match items
    case End => []
    case Line(id, rest) => [Text(id)] + Flat(rest)
    case Other(rest) => [Dir(Ignored)] + Flat(rest)
    case Group(open, thenPart, elsePart, rest) =>
      ([Dir(open)] + Flat(thenPart))
      + (ElseEvents(elsePart) + ([Dir(Endif)] + Flat(rest)))
  }

  function ElseEvents(elsePart: Option<Items>): seq<Event> {
    if elsePart.Some? then [Dir(Else)] + Flat(elsePart.value) else []
  }

  function StackAfter(events: seq<Event>, stack: Stack): Stack {
    if events == [] then stack
    else StackAfter(events[1..], match events[0] case Text(_) => stack case Dir(c) => After(stack, c))
  }

  function ErrorsIn(events: seq<Event>, stack: Stack): nat {
    if events == [] then 0
    else match events[0]
      case Text(_) => ErrorsIn(events[1..], stack)
      case Dir(c) => Errors(stack, c) + ErrorsIn(events[1..], After(stack, c))
  }

  // A declaration on a line gets the conditions and flags of the stack.
  datatype Record = Record(id: nat, conds: seq<Cond>, flags: set<Flag>)

  function Records(events: seq<Event>, stack: Stack): seq<Record> {
    if events == [] then []
    else match events[0]
      case Text(id) => [Record(id, Conds(stack), Flags(stack))] + Records(events[1..], stack)
      case Dir(c) => Records(events[1..], After(stack, c))
  }

  predicate AllHold(conds: seq<Cond>, env: Env) {
    forall k | 0 <= k < |conds| :: Eval(conds[k], env)
  }

  function Surviving(records: seq<Record>, env: Env): seq<nat> {
    if records == [] then []
    else (if AllHold(records[0].conds, env) then [records[0].id] else []) + Surviving(records[1..], env)
  }

  function FlagsOf(records: seq<Record>): seq<set<Flag>> {
    if records == [] then [] else [records[0].flags] + FlagsOf(records[1..])
  }

  // ---------------------------------------------------------------------------------------------
  // Both agree

  lemma {:induction false} RecordsConcat(a: seq<Event>, b: seq<Event>, stack: Stack)
    ensures StackAfter(a + b, stack) == StackAfter(b, StackAfter(a, stack))
    ensures ErrorsIn(a + b, stack) == ErrorsIn(a, stack) + ErrorsIn(b, StackAfter(a, stack))
    ensures Records(a + b, stack) == Records(a, stack) + Records(b, StackAfter(a, stack))
  {
    hide After, Conds, Flags, Errors;
    if a == [] {
      assert a + b == b;
    } else {
      assert (a + b)[1..] == a[1..] + b;
      RecordsConcat(a[1..], b, match a[0] case Text(_) => stack case Dir(c) => After(stack, c));
    }
  }

  lemma SurvivingNext(r: Record, rest: seq<Record>, env: Env)
    ensures Surviving([r] + rest, env) == (if AllHold(r.conds, env) then [r.id] else []) + Surviving(rest, env)
    ensures FlagsOf([r] + rest) == [r.flags] + FlagsOf(rest)
  {
    assert ([r] + rest)[1..] == rest;
  }

  lemma NothingSurvives(env: Env)
    ensures Surviving([], env) == [] && FlagsOf([]) == []
  {
  }

  lemma {:induction false} SurvivingConcat(a: seq<Record>, b: seq<Record>, env: Env)
    ensures Surviving(a + b, env) == Surviving(a, env) + Surviving(b, env)
    ensures FlagsOf(a + b) == FlagsOf(a) + FlagsOf(b)
  {
    hide AllHold, Surviving, FlagsOf;
    if a == [] {
      assert a + b == b;
      NothingSurvives(env);
    } else {
      var r, more := a[0], a[1..];
      assert a == [r] + more && a + b == [r] + (more + b);
      SurvivingNext(r, more, env);
      SurvivingNext(r, more + b, env);
      SurvivingConcat(more, b, env);
      Regroup(if AllHold(r.conds, env) then [r.id] else [], Surviving(more, env), Surviving(b, env));
      Regroup([r.flags], FlagsOf(more), FlagsOf(b));
    }
  }

  // The stack inside the first and the second part of a conditional.
  function Inside(open: Command, stack: Stack): Stack
    requires Opens(open)
  {
    [FrameOf(open)] + stack
  }

  function Otherwise(open: Command, stack: Stack): Stack
    requires Opens(open)
  {
    [Inverted(FrameOf(open))] + stack
  }

  // A directive and what follows it.
  lemma Led(c: Command, events: seq<Event>, stack: Stack)
    ensures var s := After(stack, c);
            && StackAfter([Dir(c)] + events, stack) == StackAfter(events, s)
            && ErrorsIn([Dir(c)] + events, stack) == Errors(stack, c) + ErrorsIn(events, s)
            && Records([Dir(c)] + events, stack) == Records(events, s)
  {
    assert ([Dir(c)] + events)[1..] == events;
  }

  // An "#else" and an "#endif" see the frame that their conditional pushed.
  lemma FrameOnTop(open: Command, stack: Stack)
    requires Opens(open)
    ensures After(stack, open) == Inside(open, stack) && Errors(stack, open) == 0
    ensures After(Inside(open, stack), Else) == Otherwise(open, stack) && Errors(Inside(open, stack), Else) == 0
    ensures After(Inside(open, stack), Endif) == stack && Errors(Inside(open, stack), Endif) == 0
    ensures After(Otherwise(open, stack), Endif) == stack && Errors(Otherwise(open, stack), Endif) == 0
  {
  }

  lemma ElseLed(elsePart: Option<Items>, stack: Stack)
    ensures elsePart.Some? ==>
      var s := After(stack, Else);
      && StackAfter(ElseEvents(elsePart), stack) == StackAfter(Flat(elsePart.value), s)
      && ErrorsIn(ElseEvents(elsePart), stack) == Errors(stack, Else) + ErrorsIn(Flat(elsePart.value), s)
      && Records(ElseEvents(elsePart), stack) == Records(Flat(elsePart.value), s)
    ensures elsePart.None? ==>
      && StackAfter(ElseEvents(elsePart), stack) == stack
      && ErrorsIn(ElseEvents(elsePart), stack) == 0
      && Records(ElseEvents(elsePart), stack) == []
  {
    hide Flat, After, Errors;
    if elsePart.Some? {
      Led(Else, Flat(elsePart.value), stack);
    }
  }

  // The parts of a conditional, each with the stack it starts from.
  lemma GroupIsSplit(open: Command, thenPart: Items, elsePart: Option<Items>, rest: Items, stack: Stack)
    requires Opens(open)
    requires var inside := Inside(open, stack);
             && StackAfter(Flat(thenPart), inside) == inside && ErrorsIn(Flat(thenPart), inside) == 0
    requires elsePart.Some? ==>
      var other := Otherwise(open, stack);
      StackAfter(Flat(elsePart.value), other) == other && ErrorsIn(Flat(elsePart.value), other) == 0
    ensures var events := Flat(Group(open, thenPart, elsePart, rest));
            && StackAfter(events, stack) == StackAfter(Flat(rest), stack)
            && ErrorsIn(events, stack) == ErrorsIn(Flat(rest), stack)
            && Records(events, stack)
               == Records(Flat(thenPart), Inside(open, stack))
                  + ((if elsePart.Some? then Records(Flat(elsePart.value), Otherwise(open, stack)) else [])
                     + Records(Flat(rest), stack))
  {
    hide After, Errors, Inside, Otherwise, Opens, StackAfter, ErrorsIn, Records, ElseEvents;
    var first, second, third := [Dir(open)] + Flat(thenPart), ElseEvents(elsePart), [Dir(Endif)] + Flat(rest);
    var inside := Inside(open, stack);
    var between := StackAfter(second, inside);
    FrameOnTop(open, stack);
    Led(open, Flat(thenPart), stack);
    RecordsConcat(first, second + third, stack);
    RecordsConcat(second, third, inside);
    ElseLed(elsePart, inside);
    Led(Endif, Flat(rest), between);
  }

  // A well-nested text leaves the stack as it found it, and no error is reported.
  lemma {:induction false} FlatIsBalanced(items: Items, stack: Stack)
    requires WellFormed(items)
    ensures StackAfter(Flat(items), stack) == stack && ErrorsIn(Flat(items), stack) == 0
    decreases items
  {
    hide After, Errors, Inside, Otherwise, Opens;
    match items
    case End =>
    case Line(id, rest) =>
      assert ([Text(id)] + Flat(rest))[1..] == Flat(rest);
      FlatIsBalanced(rest, stack);
    case Other(rest) =>
      Led(Ignored, Flat(rest), stack);
      IgnoredStays(stack);
      FlatIsBalanced(rest, stack);
    case Group(open, thenPart, elsePart, rest) =>
      FlatIsBalanced(thenPart, Inside(open, stack));
      if elsePart.Some? {
        FlatIsBalanced(elsePart.value, Otherwise(open, stack));
      }
      GroupIsSplit(open, thenPart, elsePart, rest, stack);
      FlatIsBalanced(rest, stack);
  }

  lemma IgnoredStays(stack: Stack)
    ensures After(stack, Ignored) == stack && Errors(stack, Ignored) == 0
  {
  }

  lemma OneFrame(f: Frame, stack: Stack)
    ensures Conds([f] + stack) == if f.cond.Some? then [f.cond.value] + Conds(stack) else Conds(stack)
    ensures Flags([f] + stack) == Flags(stack) + f.flags
  {
    assert ([f] + stack)[1..] == stack;
  }

  lemma InsideMeans(open: Command, stack: Stack, env: Env)
    requires Opens(open)
    ensures AllHold(Conds(Inside(open, stack)), env)
            <==> AllHold(Conds(stack), env) && (IsScope(open) || Chosen(open, env))
    ensures Flags(Inside(open, stack)) == Flags(stack) + if open.If? then Scope(open.arg) else {}
  {
    hide Scope, Conds, Flags, AllHold;
    var frame := FrameOf(open);
    OneFrame(frame, stack);
    if frame.cond.Some? {
      OneMore(frame.cond.value, Conds(stack), env);
    }
  }

  lemma OtherwiseMeans(open: Command, stack: Stack, env: Env)
    requires Opens(open)
    ensures AllHold(Conds(Otherwise(open, stack)), env)
            <==> AllHold(Conds(stack), env) && (IsScope(open) || !Chosen(open, env))
    ensures Flags(Otherwise(open, stack)) == Flags(stack)
  {
    hide Scope, Conds, Flags, AllHold;
    var frame := Inverted(FrameOf(open));
    OneFrame(frame, stack);
    assert Flags(stack) + {} == Flags(stack);
    if frame.cond.Some? {
      assert Eval(FrameOf(open).cond.value, env) == Chosen(open, env);
      OneMore(frame.cond.value, Conds(stack), env);
    }
  }

  lemma OneMore(c: Cond, conds: seq<Cond>, env: Env)
    ensures AllHold([c] + conds, env) <==> Eval(c, env) && AllHold(conds, env)
  {
    var all := [c] + conds;
    if AllHold(all, env) {
      assert all[0] == c;
      forall k | 0 <= k < |conds| ensures Eval(conds[k], env) {
        assert all[k + 1] == conds[k];
      }
    }
  }

  lemma LineStep(id: nat, events: seq<Event>, stack: Stack, env: Env)
    ensures Surviving(Records([Text(id)] + events, stack), env)
            == (if AllHold(Conds(stack), env) then [id] else []) + Surviving(Records(events, stack), env)
    ensures FlagsOf(Records([Text(id)] + events, stack)) == [Flags(stack)] + FlagsOf(Records(events, stack))
  {
    hide AllHold, Conds, Flags;
    assert ([Text(id)] + events)[1..] == events;
    var r := Record(id, Conds(stack), Flags(stack));
    assert ([r] + Records(events, stack))[1..] == Records(events, stack);
  }

  // For every well-nested text and every assignment of macros: the lines whose stacked conditions all
  // hold are the lines that a preprocessor compiles, in their order; and each line carries the flags
  // of the scopes around it.
  lemma {:induction false} ConditionsMean(items: Items, stack: Stack, env: Env)
    requires WellFormed(items)
    ensures var records := Records(Flat(items), stack);
            && Surviving(records, env) == (if AllHold(Conds(stack), env) then Compiled(items, env) else [])
            && FlagsOf(records) == LineFlags(items, Flags(stack))
    decreases items
  {
    hide AllHold, Conds, Flags, Records, Surviving, FlagsOf, Inside, Otherwise, IsScope, Chosen, StackAfter, ErrorsIn;
    match items
    case End =>
      EmptyMeans(stack, env);
    case Line(id, rest) =>
      LineStep(id, Flat(rest), stack, env);
      ConditionsMean(rest, stack, env);
    case Other(rest) =>
      Led(Ignored, Flat(rest), stack);
      IgnoredStays(stack);
      ConditionsMean(rest, stack, env);
    case Group(open, thenPart, elsePart, rest) =>
      GroupMeans(open, thenPart, elsePart, rest, stack, env);
      ConditionsMean(thenPart, Inside(open, stack), env);
      InsideMeans(open, stack, env);
      if elsePart.Some? {
        ConditionsMean(elsePart.value, Otherwise(open, stack), env);
        OtherwiseMeans(open, stack, env);
      }
      ConditionsMean(rest, stack, env);
      Assembled(AllHold(Conds(stack), env), IsScope(open), Chosen(open, env), Compiled(thenPart, env),
                if elsePart.Some? then Compiled(elsePart.value, env) else [], Compiled(rest, env));
  }

  lemma Assembled(live: bool, scope: bool, chosen: bool, first: seq<nat>, second: seq<nat>, third: seq<nat>)
    ensures (if live && (scope || chosen) then first else [])
            + (if live && (scope || !chosen) then second else [])
            + (if live then third else [])
            == if live then (if scope then first + second else if chosen then first else second) + third else []
  {
  }

  lemma EmptyMeans(stack: Stack, env: Env)
    ensures Surviving(Records([], stack), env) == [] && FlagsOf(Records([], stack)) == []
  {
  }

  lemma GroupMeans(open: Command, thenPart: Items, elsePart: Option<Items>, rest: Items, stack: Stack, env: Env)
    requires Opens(open) && WellFormed(Group(open, thenPart, elsePart, rest))
    ensures var records := Records(Flat(Group(open, thenPart, elsePart, rest)), stack);
            var first := Records(Flat(thenPart), Inside(open, stack));
            var second := if elsePart.Some? then Records(Flat(elsePart.value), Otherwise(open, stack)) else [];
            var third := Records(Flat(rest), stack);
            && Surviving(records, env) == Surviving(first, env) + Surviving(second, env) + Surviving(third, env)
            && FlagsOf(records) == FlagsOf(first) + FlagsOf(second) + FlagsOf(third)
    ensures elsePart.None? ==> Surviving([], env) == [] && FlagsOf([]) == []
  {
    hide Inside, Otherwise, StackAfter, ErrorsIn, Records, Flat, Surviving, FlagsOf;
    NothingSurvives(env);
    FlatIsBalanced(thenPart, Inside(open, stack));
    if elsePart.Some? {
      FlatIsBalanced(elsePart.value, Otherwise(open, stack));
    }
    GroupIsSplit(open, thenPart, elsePart, rest, stack);
    var first := Records(Flat(thenPart), Inside(open, stack));
    var second := if elsePart.Some? then Records(Flat(elsePart.value), Otherwise(open, stack)) else [];
    var third := Records(Flat(rest), stack);
    SurvivingConcat(first, second + third, env);
    SurvivingConcat(second, third, env);
    Regroup(Surviving(first, env), Surviving(second, env), Surviving(third, env));
    Regroup(FlagsOf(first), FlagsOf(second), FlagsOf(third));
  }

  // ---------------------------------------------------------------------------------------------
  // Texts that are not well nested

  // How many conditionals are open behind a text, if "open" of them are open before it.
  function OpenAfter(events: seq<Event>, open: nat): nat
    decreases |events|
  {
    if events == [] then open
    else
      var before, last := OpenAfter(events[..|events| - 1], open), events[|events| - 1];
      if last.Text? || last.c.Ignored? || last.c.Else? then before
      else if !last.c.Endif? then before + 1
      else if before == 0 then 0 else before - 1
  }

  // The #else and #endif behind which no conditional is open.
  ghost function Unmatched(events: seq<Event>, open: nat): set<nat> {
    set k: nat | k < |events| && events[k] in {Dir(Else), Dir(Endif)} && OpenAfter(events[..k], open) == 0
  }

  lemma {:induction false} StackConcat(a: seq<Event>, b: seq<Event>, stack: Stack)
    ensures StackAfter(a + b, stack) == StackAfter(b, StackAfter(a, stack))
    ensures ErrorsIn(a + b, stack) == ErrorsIn(a, stack) + ErrorsIn(b, StackAfter(a, stack))
    decreases |a|
  {
    hide After, Errors;
    if a == [] {
      assert a + b == b;
    } else {
      assert (a + b)[1..] == a[1..] + b;
      StackConcat(a[1..], b, match a[0] case Text(_) => stack case Dir(c) => After(stack, c));
    }
  }

  lemma OneEvent(e: Event, stack: Stack)
    ensures |StackAfter([e], stack)| == OpenAfter([e], |stack|)
    ensures ErrorsIn([e], stack) == if e in {Dir(Else), Dir(Endif)} && stack == [] then 1 else 0
  {
    assert [e][1..] == [] && [e][..0] == [];
    assert OpenAfter([], |stack|) == |stack|;
  }

  lemma UnmatchedNext(events: seq<Event>, open: nat)
    requires events != []
    ensures var n := |events| - 1;
            |Unmatched(events, open)|
            == |Unmatched(events[..n], open)|
               + if events[n] in {Dir(Else), Dir(Endif)} && OpenAfter(events[..n], open) == 0 then 1 else 0
  {
    hide OpenAfter;
    var n := |events| - 1;
    var before := events[..n];
    forall k: nat | k < n ensures before[..k] == events[..k] {
    }
    var last := if events[n] in {Dir(Else), Dir(Endif)} && OpenAfter(before, open) == 0 then {n} else {};
    assert Unmatched(events, open) == Unmatched(before, open) + last;
  }

  // For every sequence of directives: the stack holds one frame for each conditional that is open, and the
  // errors are the #else and #endif at which none is, one for each.
  lemma {:induction false} ErrorsAreUnmatched(events: seq<Event>)
    ensures |StackAfter(events, [])| == OpenAfter(events, 0)
    ensures ErrorsIn(events, []) == |Unmatched(events, 0)|
    decreases |events|
  {
    hide OpenAfter, StackAfter, ErrorsIn, Unmatched;
    if events == [] {
      NothingUnmatched();
    } else {
      var n := |events| - 1;
      ErrorsAreUnmatched(events[..n]);
      UnmatchedNext(events, 0);
      assert events == events[..n] + [events[n]];
      StackConcat(events[..n], [events[n]], []);
      OneEvent(events[n], StackAfter(events[..n], []));
      OpenNext(events, 0);
    }
  }

  lemma OpenNext(events: seq<Event>, open: nat)
    requires events != []
    ensures OpenAfter(events, open) == OpenAfter([events[|events| - 1]], OpenAfter(events[..|events| - 1], open))
  {
    var e := events[|events| - 1];
    assert [e][..0] == [];
  }

  lemma NothingUnmatched()
    ensures StackAfter([], []) == [] && ErrorsIn([], []) == 0 && OpenAfter([], 0) == 0 && Unmatched([], 0) == {}
  {
  }
}

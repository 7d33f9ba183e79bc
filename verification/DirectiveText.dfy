// The directives of tools/cnoh.c (2075-2242) as text: which command each spelling is, and what the lines
// between them are then recorded with.

module DirectiveText {
  import opened Options
  import opened Lexemes
  import opened Conditionals
  import opened ConditionalMeaning
  import opened ZeroRegions

  // ---------------------------------------------------------------------------------------------
  // One directive

  predicate GapCharacter(c: char) {
    c == ' ' || c == '\t' || c == '\U{B}' || c == '\U{C}' || c == '\r'
  }

  predicate Letter(c: char) {
    'a' <= c <= 'z' || 'A' <= c <= 'Z'
  }

  ghost predicate Gap(g: string) {
    forall k | 0 <= k < |g| :: GapCharacter(g[k])
  }

  ghost predicate Letters(word: string) {
    forall k | 0 <= k < |word| :: Letter(word[k])
  }

  // What can stand behind a word.
  predicate EndsWord(tail: string) {
    tail == "" || !Letter(tail[0])
  }

  function Spell(g: string, word: string, tail: string): (d: string)
    ensures |d| == 1 + |g| + |word| + |tail|
    ensures forall k | 0 <= k < |g| :: d[1 + k] == g[k]
    ensures forall k | 0 <= k < |word| :: d[1 + |g| + k] == word[k]
    ensures forall k | 0 <= k < |tail| :: d[1 + |g| + |word| + k] == tail[k]
  {
    "#" + g + word + tail
  }

  lemma GapIs(c: char)
    ensures IsGap(c) <==> GapCharacter(c)
  {
    if '\t' <= c <= '\r' {
      assert 9 <= c as int <= 13;
    }
  }

  lemma {:induction false} SkipsGap(d: string, i: nat, j: nat)
    requires i <= j <= |d| && (forall k | i <= k < j :: GapCharacter(d[k])) && (j < |d| ==> !GapCharacter(d[j]))
    ensures SkipGap(d, i) == j
    decreases j - i
  {
    if i < |d| {
      GapIs(d[i]);
    }
    if i < j {
      SkipsGap(d, i + 1, j);
    }
  }

  lemma {:induction false} SkipsLetters(d: string, i: nat, j: nat)
    requires i <= j <= |d| && (forall k | i <= k < j :: Letter(d[k])) && (j < |d| ==> !Letter(d[j]))
    ensures SkipLetters(d, i) == j
    decreases j - i
  {
    if i < j {
      SkipsLetters(d, i + 1, j);
    }
  }

  // The word of a directive is read as such, whatever gap is before it.
  lemma WordIsRead(g: string, word: string, tail: string)
    requires Gap(g) && Letters(word) && word != "" && EndsWord(tail)
    ensures var d := Spell(g, word, tail); var i := 1 + |g|; var j := i + |word|;
            SkipGap(d, 1) == i && SkipLetters(d, i) == j && d[i..j] == word && d[j..] == tail
  {
    var d, i, j := Spell(g, word, tail), 1 + |g|, 1 + |g| + |word|;
    assert Letter(word[0]) && d[i] == word[0];
    SkipsGap(d, 1, i);
    SkipsLetters(d, i, j);
  }

  // The argument begins with the first character that is no gap.
  lemma ArgumentIsRead(d: string, j: nat, h: string, a: string)
    requires j <= |d| && d[j..] == h + a && Gap(h) && (a == "" || !GapCharacter(a[0]))
    ensures SkipGap(d, j) == j + |h| && d[j + |h|..] == a
  {
    assert forall k | j <= k < |d| :: d[k] == d[j..][k - j];
    SkipsGap(d, j, j + |h|);
    assert d[j + |h|..] == d[j..][|h|..] == a;
  }

  // Which command a directive is, from its spelling.
  lemma CommandIsRead(g: string, word: string, h: string, a: string)
    requires Gap(g) && Letters(word) && word != "" && Gap(h) && EndsWord(h + a)
    requires a == "" || (!GapCharacter(a[0]) && a[0] != NUL)
    ensures Read(Spell(g, word, h + a))
            == if word == "else" then Else
               else if word == "endif" then Endif
               else if a == "" || a[0] == '\n' then Ignored
               else if word == "if" then If(a)
               else if word == "ifdef" then Ifdef(a)
               else if word == "ifndef" then Ifndef(a)
               else Ignored
  {
    hide SkipGap, SkipLetters;
    var d := Spell(g, word, h + a);
    var j := 1 + |g| + |word|;
    WordIsRead(g, word, h + a);
    ArgumentIsRead(d, j, h, a);
    assert a != "" ==> d[j + |h|..][0] == d[j + |h|];
  }

  // ---------------------------------------------------------------------------------------------
  // A text of code lines and directives

  datatype Line = Code(id: nat) | HashLine(d: string)

  // Well-nested text. Each directive is given with its spelling, that of a conditional also by the word
  // and the argument that the spelling stands for.
  datatype Source =
    | Nothing
    | CodeLine(id: nat, rest: Source)
    | OtherLine(d: string, rest: Source)
    | Conditional(d: string, word: string, arg: string, thenPart: Source,
                  elseLine: string, elsePart: Option<Source>, endLine: string, rest: Source)

  ghost predicate Spells(d: string, word: string, arg: string) {
    exists g, h ::
      Gap(g) && Gap(h) && EndsWord(h + arg) && d == Spell(g, word, h + arg)
  }

  ghost predicate SpellsWord(d: string, word: string) {
    exists a :: (a == "" || (!GapCharacter(a[0]) && a[0] != NUL)) && Spells(d, word, a)
  }

  ghost predicate WellSpelled(src: Source) {
    match src
    case Nothing => true
    case CodeLine(_, rest) => WellSpelled(rest)
    case OtherLine(d, rest) => Passive(d) && WellSpelled(rest)
    case Conditional(d, word, arg, thenPart, elseLine, elsePart, endLine, rest) =>
      && word in {"if", "ifdef", "ifndef"}
      && arg != "" && !GapCharacter(arg[0]) && arg[0] != NUL && arg[0] != '\n' && Spells(d, word, arg)
      && WellSpelled(thenPart)
      && (elsePart.Some? ==> SpellsWord(elseLine, "else") && WellSpelled(elsePart.value))
      && SpellsWord(endLine, "endif")
      && WellSpelled(rest)
  }

  // A directive that is none of the five.
  ghost predicate Passive(d: string) {
    exists word | SpellsWord(d, word) ::
      word != "" && Letters(word) && word !in {"if", "ifdef", "ifndef", "else", "endif"}
  }

  function Lines(src: Source): seq<Line> {
    match src
    case Nothing => []
    case CodeLine(id, rest) => [Code(id)] + Lines(rest)
    case OtherLine(d, rest) => [HashLine(d)] + Lines(rest)
    case Conditional(d, _, _, thenPart, elseLine, elsePart, endLine, rest) =>
      ([HashLine(d)] + Lines(thenPart))
      + ((if elsePart.Some? then [HashLine(elseLine)] + Lines(elsePart.value) else [])
         + ([HashLine(endLine)] + Lines(rest)))
  }

  // The lines of a text as ParseFile takes them, directives by what is read in them.
  function Events(lines: seq<Line>): seq<Event> {
    if lines == [] then []
    else
      (match lines[0]
       case Code(id) => [Text(id)]
       case HashLine(d) => if d == "" then [] else [Dir(Read(d))]) + Events(lines[1..])
  }

  // ---------------------------------------------------------------------------------------------
  // What the text means

  predicate ScopeName(arg: string) {
    arg == "CNOH_INTE" || arg == "EXPORT_INTERFACE" || arg == "LOCAL_INTERFACE"
  }

  function FlagsNamed(word: string, arg: string): set<Flag> {
    if word != "if" then {}
    else if arg == "CNOH_INTE" then {Interface}
    else if arg == "EXPORT_INTERFACE" then {Export}
    else if arg == "LOCAL_INTERFACE" then {Local}
    else {}
  }

  // The preprocessor's decision about a condition.
  predicate Taken(word: string, arg: string, env: Env) {
    (word == "if" && env.holds(arg)) || (word == "ifdef" && env.defined(arg))
    || (word == "ifndef" && !env.defined(arg))
  }

  // The code lines that the preprocessor compiles; both parts of a scope.
  function Expected(src: Source, env: Env): seq<nat> {
    match src
    case Nothing => []
    case CodeLine(id, rest) => [id] + Expected(rest, env)
    case OtherLine(_, rest) => Expected(rest, env)
    case Conditional(_, word, arg, thenPart, _, elsePart, _, rest) =>
      var scope := word == "if" && ScopeName(arg);
      (if scope || Taken(word, arg, env) then Expected(thenPart, env) else [])
      + (if (scope || !Taken(word, arg, env)) && elsePart.Some? then Expected(elsePart.value, env) else [])
      + Expected(rest, env)
  }

  // The scopes around each code line.
  function ExpectedFlags(src: Source, outside: set<Flag>): seq<set<Flag>> {
    match src
    case Nothing => []
    case CodeLine(_, rest) => [outside] + ExpectedFlags(rest, outside)
    case OtherLine(_, rest) => ExpectedFlags(rest, outside)
    case Conditional(_, word, arg, thenPart, _, elsePart, _, rest) =>
      ExpectedFlags(thenPart, outside + FlagsNamed(word, arg))
      + (if elsePart.Some? then ExpectedFlags(elsePart.value, outside) else [])
      + ExpectedFlags(rest, outside)
  }

  function CommandOf(word: string, arg: string): Command {
    if word == "if" then If(arg) else if word == "ifdef" then Ifdef(arg) else Ifndef(arg)
  }

  // The text by its commands.
  function Meant(src: Source): Items {
    match src
    case Nothing => End
    case CodeLine(id, rest) => Items.Line(id, Meant(rest))
    case OtherLine(_, rest) => Items.Other(Meant(rest))
    case Conditional(_, word, arg, thenPart, _, elsePart, _, rest) =>
      Group(CommandOf(word, arg), Meant(thenPart),
            if elsePart.Some? then Some(Meant(elsePart.value)) else None, Meant(rest))
  }

  // ---------------------------------------------------------------------------------------------
  // Both agree

  lemma ConditionalIsRead(d: string, word: string, arg: string)
    requires word in {"if", "ifdef", "ifndef"}
    requires arg != "" && !GapCharacter(arg[0]) && arg[0] != NUL && arg[0] != '\n' && Spells(d, word, arg)
    ensures d != "" && Read(d) == CommandOf(word, arg)
  {
    hide Read, Letters, Spell;
    WordsOfLetters(word);
    var g, h :| Gap(g) && Gap(h) && EndsWord(h + arg) && d == Spell(g, word, h + arg);
    CommandIsRead(g, word, h, arg);
  }

  lemma WordsOfLetters(word: string)
    requires word in {"if", "ifdef", "ifndef"}
    ensures word != "" && Letters(word) && word != "else" && word != "endif"
  {
  }

  lemma WordAlone(d: string, word: string)
    requires SpellsWord(d, word) && word != "" && Letters(word) && word !in {"if", "ifdef", "ifndef"}
    ensures d != "" && Read(d) == if word == "else" then Else else if word == "endif" then Endif else Ignored
  {
    hide Read;
    var a :| (a == "" || (!GapCharacter(a[0]) && a[0] != NUL)) && Spells(d, word, a);
    var g, h :| Gap(g) && Gap(h) && EndsWord(h + a) && d == Spell(g, word, h + a);
    CommandIsRead(g, word, h, a);
  }

  lemma {:induction false} EventsConcat(a: seq<Line>, b: seq<Line>)
    ensures Events(a + b) == Events(a) + Events(b)
    decreases |a|
  {
    hide Read;
    if a == [] {
      assert a + b == b;
    } else {
      assert (a + b)[1..] == a[1..] + b;
      EventsConcat(a[1..], b);
    }
  }

  lemma EventsFirst(d: string, lines: seq<Line>)
    requires d != ""
    ensures Events([HashLine(d)] + lines) == [Dir(Read(d))] + Events(lines)
  {
    hide Read;
    assert ([HashLine(d)] + lines)[1..] == lines;
  }

  lemma CommandOpens(word: string, arg: string)
    requires word in {"if", "ifdef", "ifndef"}
    ensures Opens(CommandOf(word, arg))
  {
  }

  // Reading the lines of a text gives its commands.
  lemma {:induction false} LinesAreRead(src: Source)
    requires WellSpelled(src)
    ensures WellFormed(Meant(src)) && Events(Lines(src)) == Flat(Meant(src))
    decreases src
  {
    hide Read, Events, Spells, SpellsWord, CommandOf, Passive, Opens;
    match src
    case Nothing => NoEvents();
    case CodeLine(id, rest) =>
      LinesAreRead(rest);
      CodeFirst(id, Lines(rest));
    case OtherLine(d, rest) =>
      LinesAreRead(rest);
      PassiveIsRead(d);
      EventsFirst(d, Lines(rest));
    case Conditional(d, word, arg, thenPart, elseLine, elsePart, endLine, rest) =>
      CommandOpens(word, arg);
      ConditionalIsRead(d, word, arg);
      WordAlone(endLine, "endif");
      LinesAreRead(thenPart);
      LinesAreRead(rest);
      EventsFirst(d, Lines(thenPart));
      EventsFirst(endLine, Lines(rest));
      var second := if elsePart.Some? then [HashLine(elseLine)] + Lines(elsePart.value) else [];
      if elsePart.Some? {
        WordAlone(elseLine, "else");
        LinesAreRead(elsePart.value);
        EventsFirst(elseLine, Lines(elsePart.value));
      } else {
        NoEvents();
      }
      EventsConcat([HashLine(d)] + Lines(thenPart), second + ([HashLine(endLine)] + Lines(rest)));
      EventsConcat(second, [HashLine(endLine)] + Lines(rest));
  }

  lemma NoEvents()
    ensures Events([]) == []
  {
  }

  lemma CodeFirst(id: nat, lines: seq<Line>)
    ensures Events([Code(id)] + lines) == [Text(id)] + Events(lines)
  {
    assert ([Code(id)] + lines)[1..] == lines;
  }

  lemma PassiveIsRead(d: string)
    requires Passive(d)
    ensures d != "" && Read(d) == Ignored
  {
    hide Read, SpellsWord;
    var word :| SpellsWord(d, word) && word != "" && Letters(word)
                && word !in {"if", "ifdef", "ifndef", "else", "endif"};
    WordAlone(d, word);
  }

  lemma ScopeIs(word: string, arg: string, env: Env)
    requires word in {"if", "ifdef", "ifndef"}
    ensures var c := CommandOf(word, arg);
            && (IsScope(c) <==> word == "if" && ScopeName(arg))
            && (if c.If? then Scope(c.arg) else {}) == FlagsNamed(word, arg)
            && Chosen(c, env) == Taken(word, arg, env)
  {
    InterfaceIsMisspelt(arg);
  }

  lemma {:induction false} MeantIsExpected(src: Source, env: Env, outside: set<Flag>)
    requires WellSpelled(src) && WellFormed(Meant(src))
    ensures Compiled(Meant(src), env) == Expected(src, env)
    ensures LineFlags(Meant(src), outside) == ExpectedFlags(src, outside)
    decreases src
  {
    hide Spells, SpellsWord, Passive, CommandOf, Taken, IsScope, Chosen, Scope, FlagsNamed, ScopeName;
    match src
    case Nothing =>
    case CodeLine(_, rest) => MeantIsExpected(rest, env, outside);
    case OtherLine(_, rest) => MeantIsExpected(rest, env, outside);
    case Conditional(_, word, arg, thenPart, _, elsePart, _, rest) =>
      ScopeIs(word, arg, env);
      MeantIsExpected(thenPart, env, outside + FlagsNamed(word, arg));
      if elsePart.Some? {
        MeantIsExpected(elsePart.value, env, outside);
      }
      MeantIsExpected(rest, env, outside);
      hide Compiled, LineFlags, Expected, ExpectedFlags;
      GroupIsMeant(src, env, outside);
  }

  // A conditional, given what its parts mean.
  lemma GroupIsMeant(src: Source, env: Env, outside: set<Flag>)
    requires src.Conditional? && WellFormed(Meant(src)) && src.word in {"if", "ifdef", "ifndef"}
    requires var c := CommandOf(src.word, src.arg);
             && (IsScope(c) <==> src.word == "if" && ScopeName(src.arg))
             && (if c.If? then Scope(c.arg) else {}) == FlagsNamed(src.word, src.arg)
             && Opens(c) && Chosen(c, env) == Taken(src.word, src.arg, env)
    requires Compiled(Meant(src.thenPart), env) == Expected(src.thenPart, env)
    requires Compiled(Meant(src.rest), env) == Expected(src.rest, env)
    requires src.elsePart.Some? ==> Compiled(Meant(src.elsePart.value), env) == Expected(src.elsePart.value, env)
    requires var flags := outside + FlagsNamed(src.word, src.arg);
             LineFlags(Meant(src.thenPart), flags) == ExpectedFlags(src.thenPart, flags)
    requires LineFlags(Meant(src.rest), outside) == ExpectedFlags(src.rest, outside)
    requires src.elsePart.Some? ==>
               LineFlags(Meant(src.elsePart.value), outside) == ExpectedFlags(src.elsePart.value, outside)
    ensures Compiled(Meant(src), env) == Expected(src, env)
    ensures LineFlags(Meant(src), outside) == ExpectedFlags(src, outside)
  {
    hide CommandOf, Taken, IsScope, Chosen, Scope, FlagsNamed, ScopeName;
    var scope := src.word == "if" && ScopeName(src.arg);
    var taken := Taken(src.word, src.arg, env);
    var first := Expected(src.thenPart, env);
    var second := if src.elsePart.Some? then Expected(src.elsePart.value, env) else [];
    assert (if scope then first + second else if taken then first else second)
           == (if scope || taken then first else []) + (if scope || !taken then second else []);
  }

  // The lines whose stacked conditions all hold are those that a preprocessor compiles, and each line
  // has the flags of the scopes around it: for every well-nested text, whatever the spelling of its
  // directives, and every assignment of macros.
  lemma {:induction false} TextMeans(src: Source, env: Env)
    requires WellSpelled(src)
    ensures var records := Records(Events(Lines(src)), []);
            Surviving(records, env) == Expected(src, env) && FlagsOf(records) == ExpectedFlags(src, {})
  {
    hide Records, Surviving, FlagsOf, Events, Lines, Flat, Compiled, LineFlags, Expected, ExpectedFlags, WellSpelled;
    LinesAreRead(src);
    MeantIsExpected(src, env, {});
    ConditionsMean(Meant(src), [], env);
    assert AllHold(Conds([]), env) && Flags([]) == {};
  }

  // With "#if 0" groups dropped on the way: these are the lines that a preprocessor compiles if and only if
  // no dropped group that it gets to has one.
  lemma {:induction false} TextThatPasses(src: Source, env: Env)
    requires WellSpelled(src)
    ensures WellFormed(Meant(src))
    ensures Surviving(Records(Passed(Events(Lines(src)), 0), []), env) == Expected(src, env)
            <==> NothingLost(Meant(src), env)
  {
    hide Records, Surviving, Events, Lines, Flat, Compiled, Expected, WellSpelled, Passed, NothingLost;
    LinesAreRead(src);
    MeantIsExpected(src, env, {});
    PassedMean(Meant(src), env);
  }
}

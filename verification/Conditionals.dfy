// The #if stack of tools/cnoh.c (558-581, 2024-2056, 2075-2242, 2267-2272, 2432-2439): what its
// conditions and flags mean.

module Conditionals {
  import opened Options
  import opened Lexemes

  datatype Flag = Interface | Export | Local

  // A condition as an expression. The original keeps it as text.
  datatype Cond =
    | Raw(text: string)
    | Defined(macro: string)
    | Not(cond: Cond)

  // Ifmacro, without the line number that error messages name.
  datatype Frame = Frame(cond: Option<Cond>, flags: set<Flag>)

  // What one directive asks for. Define and include leave the stack alone.
  datatype Command = If(arg: string) | Ifdef(arg: string) | Ifndef(arg: string) | Else | Endif | Ignored

  // ---------------------------------------------------------------------------------------------
  // Reading a directive

  // Blanks other than a newline.
  predicate IsGap(c: char) {
    IsBlank(c) && c != '\n'
  }

  function SkipGap(d: string, i: nat): (j: nat)
    requires i <= |d|
    ensures i <= j <= |d|
    ensures forall k | i <= k < j :: IsGap(d[k])
    ensures j < |d| ==> !IsGap(d[j])
    decreases |d| - i
  {
    if i < |d| && IsGap(d[i]) then SkipGap(d, i + 1) else i
  }

  function SkipLetters(d: string, i: nat): (j: nat)
    requires i <= |d|
    ensures i <= j <= |d|
    ensures forall k | i <= k < j :: IsAlpha(d[k])
    ensures j < |d| ==> !IsAlpha(d[j])
    decreases |d| - i
  {
    if i < |d| && IsAlpha(d[i]) then SkipLetters(d, i + 1) else i
  }

  // The argument runs to the end of the directive; without one the directive is ignored.
  function WithArgument(d: string, i: nat, make: string -> Command): Command
    requires i <= |d|
  {
    var a := SkipGap(d, i);
    if At(d, a) == NUL || At(d, a) == '\n' then Ignored else make(d[a..])
  }

  // d is the text of a directive, from its "#" to the end of its last line.
  function Read(d: string): Command
    requires d != []
  {
    var i := SkipGap(d, 1);
    var j := SkipLetters(d, i);
    var word := d[i..j];
    if word == "endif" then Endif
    else if word == "else" then Else
    else if word == "if" then WithArgument(d, j, arg => If(arg))
    else if word == "ifdef" then WithArgument(d, j, arg => Ifdef(arg))
    else if word == "ifndef" then WithArgument(d, j, arg => Ifndef(arg))
    else Ignored
  }

  // The scope an "#if" opens (2176-2184).
  function Scope(arg: string): set<Flag> {
    if |arg| == 9 && arg == "CNOH_INTERFACE"[..9] then {Interface}
    else if arg == "EXPORT_INTERFACE" then {Export}
    else if arg == "LOCAL_INTERFACE" then {Local}
    else {}
  }

  // The documentation (2065-2073) has "#if CNOH_INTERFACE" set PS_Interface. The code compares nine
  // characters, so exactly the argument "CNOH_INTE" does.
  lemma {:induction false} InterfaceIsMisspelt(arg: string)
    ensures Interface in Scope(arg) <==> arg == "CNOH_INTE"
    ensures Scope("CNOH_INTERFACE") == {}
  {
    assert "CNOH_INTERFACE"[..9] == "CNOH_INTE";
    assert |"CNOH_INTERFACE"| == 14;
    assert |"EXPORT_INTERFACE"| == 16 && |"LOCAL_INTERFACE"| == 15;
    assert "CNOH_INTERFACE"[0] == 'C';
  }

  // ---------------------------------------------------------------------------------------------
  // The stack; its top comes first

  type Stack = seq<Frame>

  // 558-570
  function Conds(stack: Stack): seq<Cond> {
    if stack == [] then []
    else (if stack[0].cond.Some? then [stack[0].cond.value] else []) + Conds(stack[1..])
  }

  // 2236-2239
  function Flags(stack: Stack): set<Flag> {
    if stack == [] then {} else stack[0].flags + Flags(stack[1..])
  }

  lemma CondsNext(stack: Stack, i: nat)
    requires i < |stack|
    ensures Conds(stack[i..])
            == if stack[i].cond.Some? then [stack[i].cond.value] + Conds(stack[i + 1..]) else Conds(stack[i + 1..])
  {
    assert stack[i..][1..] == stack[i + 1..];
  }

  lemma NoConds()
    ensures Conds([]) == []
  {
  }

  predicate Opens(c: Command) {
    c.If? || c.Ifdef? || c.Ifndef?
  }

  function FrameOf(c: Command): Frame
    requires Opens(c)
  {
    match c
    case If(arg) => if Scope(arg) != {} then Frame(None, Scope(arg)) else Frame(Some(Raw(arg)), {})
    case Ifdef(arg) => Frame(Some(Defined(arg)), {})
    case Ifndef(arg) => Frame(Some(Not(Defined(arg))), {})
  }

  function Inverted(f: Frame): Frame {
    Frame(if f.cond.Some? then Some(Not(f.cond.value)) else None, {})
  }

  function After(stack: Stack, c: Command): Stack {
    match c
    case Ignored => stack
    case Endif => if stack == [] then [] else stack[1..]
    case Else => if stack == [] then [] else [Inverted(stack[0])] + stack[1..]
    case _ => [FrameOf(c)] + stack
  }

  function Errors(stack: Stack, c: Command): nat {
    if stack == [] && (c.Endif? || c.Else?) then 1 else 0
  }

  class Parser {
    var ifStack: Stack
    const initFlags: set<Flag>
    var presetFlags: set<Flag>

    // presetFlags always is initFlags with the flags of all open conditionals.
    ghost predicate Valid()
      reads this
    {
      presetFlags == initFlags + Flags(ifStack)
    }

    // 2255-2261
    constructor (initFlags: set<Flag>)
      ensures Valid() && ifStack == [] && this.initFlags == initFlags
    {
      this.initFlags, presetFlags, ifStack := initFlags, initFlags, [];
    }

    // 2024-2056
    method PushIfMacro(cond: Option<Cond>, flags: set<Flag>)
      modifies `ifStack
      ensures ifStack == [Frame(cond, flags)] + old(ifStack)
    {
      ifStack := [Frame(cond, flags)] + ifStack;
    }

    // The directive case of ParseFile (2267-2272).
    method Directive(d: string) returns (nErr: nat)
      requires Valid() && d != [] && CString(d)
      modifies this
      ensures Valid()
      ensures ifStack == After(old(ifStack), Read(d))
      ensures nErr == Errors(old(ifStack), Read(d))
    {
      nErr := ParsePreprocessor(d);
      presetFlags := presetFlags + initFlags;
    }

    // 2075-2242, without what it does for define and include
    method ParsePreprocessor(d: string) returns (nErr: nat)
      requires Valid() && d != [] && CString(d)
      modifies this
      ensures ifStack == After(old(ifStack), Read(d))
      ensures nErr == Errors(old(ifStack), Read(d))
      ensures presetFlags == Flags(ifStack) || presetFlags == initFlags + Flags(ifStack)
    {
      hide Scope, Flags;
      var command := Parse(d);
      nErr := 0;
      match command {
        case Ignored =>
          return;
        case Endif =>
          if ifStack == [] {
            return 1;
          }
          ifStack := ifStack[1..];
        case Else =>
          if ifStack == [] {
            return 1;
          }
          var top := ifStack[0];
          if top.cond.Some? {
            ifStack := ifStack[1..];
            PushIfMacro(Some(Not(top.cond.value)), {});
          } else {
            ifStack := [top.(flags := {})] + ifStack[1..];
          }
        case If(arg) =>
          if Scope(arg) != {} {
            PushIfMacro(None, Scope(arg));
          } else {
            PushIfMacro(Some(Raw(arg)), {});
          }
        case Ifdef(arg) =>
          PushIfMacro(Some(Defined(arg)), {});
        case Ifndef(arg) =>
          PushIfMacro(Some(Not(Defined(arg))), {});
      }
      presetFlags := PresetFlags();
    }

    // 2236-2239
    method PresetFlags() returns (flags: set<Flag>)
      ensures flags == Flags(ifStack)
    {
      flags := {};
      var i := 0;
      assert ifStack[0..] == ifStack;
      while i < |ifStack|
        invariant i <= |ifStack|
        invariant flags + Flags(ifStack[i..]) == Flags(ifStack)
      {
        assert ifStack[i..][1..] == ifStack[i + 1..];
        flags := flags + ifStack[i].flags;
        i := i + 1;
      }
    }

    // 558-581; null when nothing has to be tested.
    method GetIfString() returns (conds: Option<seq<Cond>>)
      ensures conds == if Conds(ifStack) == [] then None else Some(Conds(ifStack))
    {
      hide Conds;
      var hasIf, all := false, [];
      var i := 0;
      assert ifStack[0..] == ifStack;
      while i < |ifStack|
        invariant i <= |ifStack|
        invariant all + Conds(ifStack[i..]) == Conds(ifStack)
        invariant hasIf <==> all != []
      {
        CondsNext(ifStack, i);
        var cond := ifStack[i].cond;
        i := i + 1;
        if cond.None? {
          continue;
        }
        hasIf := true;
        assert all + ([cond.value] + Conds(ifStack[i..])) == all + [cond.value] + Conds(ifStack[i..]);
        all := all + [cond.value];
      }
      NoConds();
      assert ifStack[i..] == [] && all + [] == all;
      conds := if hasIf then Some(all) else None;
    }

    // 2432-2439: the number of conditionals left open.
    method Finish() returns (nErr: nat)
      requires Valid()
      modifies this
      ensures ifStack == [] && nErr == |old(ifStack)| && presetFlags == old(presetFlags)
    {
      nErr := 0;
      while ifStack != []
        invariant nErr + |ifStack| == |old(ifStack)| && presetFlags == old(presetFlags)
        decreases |ifStack|
      {
        ifStack := ifStack[1..];
        nErr := nErr + 1;
      }
    }
  }

  method Parse(d: string) returns (c: Command)
    requires d != [] && CString(d)
    ensures c == Read(d)
  {
    hide SkipGap, SkipLetters;
    var i := ToWord(d, 1);
    if !IsAlpha(At(d, i)) {
      NoWord(d, i);
      return Ignored;
    }
    var j := i + 1;
    assert SkipLetters(d, i) == SkipLetters(d, j) by {
      OneLetter(d, i);
    }
    j := ToEnd(d, j);
    var word := d[i..j];
    if word == "endif" {
      return Endif;
    } else if word == "else" {
      return Else;
    } else if word != "if" && word != "ifdef" && word != "ifndef" {
      return Ignored;
    }
    var a := ToWord(d, j);
    if At(d, a) == NUL || At(d, a) == '\n' {
      return Ignored;
    }
    c := if word == "if" then If(d[a..]) else if word == "ifdef" then Ifdef(d[a..]) else Ifndef(d[a..]);
  }

  method ToWord(d: string, start: nat) returns (i: nat)
    requires start <= |d|
    ensures i == SkipGap(d, start)
  {
    i := start;
    while IsGap(At(d, i))
      invariant start <= i <= |d|
      invariant SkipGap(d, i) == SkipGap(d, start)
      decreases |d| - i
    {
      i := i + 1;
    }
  }

  method ToEnd(d: string, start: nat) returns (i: nat)
    requires start <= |d|
    ensures i == SkipLetters(d, start)
  {
    i := start;
    while IsAlpha(At(d, i))
      invariant start <= i <= |d|
      invariant SkipLetters(d, i) == SkipLetters(d, start)
      decreases |d| - i
    {
      i := i + 1;
    }
  }

  lemma OneLetter(d: string, i: nat)
    requires i < |d| && IsAlpha(d[i])
    ensures SkipLetters(d, i) == SkipLetters(d, i + 1)
  {
  }

  lemma NoWord(d: string, i: nat)
    requires i <= |d| && !IsAlpha(At(d, i))
    ensures SkipLetters(d, i) == i
  {
  }
}

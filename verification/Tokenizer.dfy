// GetToken of tools/cnoh.c (769-991) in its own form, and what successive calls of it do.

module Tokenizer {
  import opened Lexemes

  datatype Token = Token(kind: Kind, start: nat, len: nat, line: nat)

  lemma {:induction false} NewlinesSplit(z: string, i: nat, j: nat, k: nat)
    requires i <= j <= k
    ensures Newlines(z, i, k) == Newlines(z, i, j) + Newlines(z, j, k)
    decreases k - j
  {
    if j < k {
      NewlinesSplit(z, i, j, k - 1);
    }
  }

  lemma {:induction false} NoNewlines(z: string, i: nat, j: nat)
    requires i <= j && forall k | i <= k < j :: At(z, k) != '\n'
    ensures Newlines(z, i, j) == 0
    decreases j - i
  {
    if i < j {
      NoNewlines(z, i, j - 1);
    }
  }

  class InStream {
    const z: string
    var i: nat
    var nLine: nat

    ghost predicate Valid()
      reads this
    {
      i <= |z| && CString(z)
    }

    constructor (z: string)
      requires CString(z)
      ensures Valid() && this.z == z && i == 0 && nLine == 1
    {
      this.z, i, nLine := z, 0, 1;
    }

    // 769-991. A directive whose last line ends with a backslash right before the terminator makes
    // the original read on beyond the text.
    method GetToken() returns (token: Token, nErr: nat)
      requires Valid() && Scan(z, i).end <= |z|
      modifies this
      ensures Valid()
      ensures var r := Scan(z, old(i));
              && i == r.end && nErr == r.errors
              && token == Token(r.kind, old(i), r.end - old(i), old(nLine))
      ensures nLine == old(nLine) + Newlines(z, old(i), i)
    {
      hide Newlines, Decimal, Literal, CComment, Find, Run, Unescaped, IsDigit, IsAlpha;
      var start, line := i, nLine;
      var kind := Other;
      var j := start;
      nErr := 0;
      if start == |z| {
        kind := Eof;
        NoNewlines(z, start, start);
      } else {
        match LeadOf(z[start])
        case Hash =>
          if LineStart(z, start) {
            kind := Directive;
            j := SkipDirective(start);
          } else {
            j := start + 1;
            OneCharacter(z, start);
          }
        case Blank =>
          kind := Space;
          j := SkipBlanks(start);
        case Backslash =>
          j := SkipBackslash(start);
          kind := if At(z, start + 1) == '\n' then Space else Other;
        case Quote =>
          kind := Str;
          j, nErr := SkipLiteral(start);
        case Slash =>
          if At(z, start + 1) == '/' {
            kind := Comment;
            j := SkipLine(start);
          } else if At(z, start + 1) == '*' {
            j, kind, nErr := SkipComment(start);
          } else {
            j := if At(z, start + 1) == '+' then start + 2 else start + 1;
            OneOrTwoCharacters(z, start, j);
          }
        case Zero =>
          kind := Number;
          if Letter(At(z, start + 1), 'x', 'X') {
            j := SkipRun(start + 2, HexDigits);
            OneOrTwoCharacters(z, start, start + 2);
            NewlinesSplit(z, start, start + 2, j);
          } else {
            j := SkipRun(start, Digits);
          }
        case Nonzero =>
          kind := Number;
          j := SkipDecimal(start);
        case Letters =>
          kind := Id;
          j := SkipRun(start, Word);
        case Operator =>
          j := if Pair(z[start], At(z, start + 1)) then start + 2 else start + 1;
          OneOrTwoCharacters(z, start, j);
      }
      token := Token(kind, start, j - start, line);
      i := j;
    }

    // 793-799
    method SkipDirective(start: nat) returns (j: nat)
      requires Valid() && start < |z| && z[start] == '#' && Unescaped(z, start + 1, '\n') <= |z|
      modifies `nLine
      ensures j == Unescaped(z, start + 1, '\n')
      ensures nLine == old(nLine) + Newlines(z, start, j)
    {
      j := start + 1;
      while At(z, j) != NUL && At(z, j) != '\n'
        invariant j <= |z| && start <= j
        invariant Unescaped(z, j, '\n') == Unescaped(z, start + 1, '\n')
        invariant nLine == old(nLine) + Newlines(z, start, j)
        decreases |z| - j
      {
        if z[j] == '\\' {
          j := j + 1;
          if At(z, j) == '\n' {
            nLine := nLine + 1;
          }
        }
        j := j + 1;
      }
    }

    // 813-816
    method SkipBlanks(start: nat) returns (j: nat)
      requires Valid() && start <= |z|
      modifies `nLine
      ensures j == Run(z, start, Blanks)
      ensures nLine == old(nLine) + Newlines(z, start, j)
    {
      j := start;
      while IsBlank(At(z, j))
        invariant start <= j <= |z|
        invariant Run(z, j, Blanks) == Run(z, start, Blanks)
        invariant nLine == old(nLine) + Newlines(z, start, j)
        decreases |z| - j
      {
        if z[j] == '\n' {
          nLine := nLine + 1;
        }
        j := j + 1;
      }
    }

    // 822-829
    method SkipBackslash(start: nat) returns (j: nat)
      requires Valid() && start < |z| && z[start] == '\\'
      modifies `nLine
      ensures j == if start + 1 == |z| then start + 1 else start + 2
      ensures nLine == old(nLine) + Newlines(z, start, j)
    {
      j := start + 2;
      if At(z, start + 1) == '\n' {
        nLine := nLine + 1;
      } else if At(z, start + 1) == NUL {
        j := start + 1;
      }
      assert Newlines(z, start, start + 1) == 0;
    }

    // 834-864
    method SkipLiteral(start: nat) returns (j: nat, nErr: nat)
      requires Valid() && start < |z| && (z[start] == '\'' || z[start] == '\"')
      modifies `nLine
      ensures var r := Literal(z, start); j == r.end && nErr == r.errors
      ensures nLine == old(nLine) + Newlines(z, start, j)
    {
      j, nErr := start, 0;
      var c := z[start];
      while c != NUL
        invariant start <= j <= |z|
        invariant c != NUL ==>
          j < |z| && nErr == 0 && Unescaped(z, j + 1, z[start]) == Unescaped(z, start + 1, z[start])
          && nLine == old(nLine) + Newlines(z, start, j + 1)
        invariant c == NUL ==>
          j == Literal(z, start).end && nErr == Literal(z, start).errors
          && nLine == old(nLine) + Newlines(z, start, j)
        decreases |z| - j, c != NUL
      {
        j := j + 1;
        c := At(z, j);
        if c == '\n' {
          nLine := nLine + 1;
        }
        if c == '\\' {
          j := j + 1;
          c := At(z, j);
          if c == '\n' {
            nLine := nLine + 1;
          }
        } else if c == z[start] {
          j := j + 1;
          c := NUL;
        } else if c == NUL {
          nErr := nErr + 1;
        }
      }
    }

    // 870
    method SkipLine(start: nat) returns (j: nat)
      requires Valid() && start <= |z|
      ensures j == Find(z, start, '\n')
      ensures Newlines(z, start, j) == 0
    {
      j := start;
      while At(z, j) != NUL && At(z, j) != '\n'
        invariant start <= j <= |z|
        invariant Find(z, j, '\n') == Find(z, start, '\n')
        decreases |z| - j
      {
        j := j + 1;
      }
      NoNewlines(z, start, j);
    }

    // 873-901; block is 0 (no), 1 (so far on one line) or 2 (so far).
    method SkipComment(start: nat) returns (j: nat, kind: Kind, nErr: nat)
      requires Valid() && start + 2 <= |z| && z[start] == '/' && z[start + 1] == '*'
      modifies `nLine
      ensures var r := CComment(z, start); j == r.end && kind == r.kind && nErr == r.errors
      ensures nLine == old(nLine) + Newlines(z, start, j)
    {
      hide IsBlank, IsWord;
      var block := if start == 0 || z[start - 1] == '\n' then 1 else 0;
      j, nErr := start + 2, 0;
      assert Newlines(z, start, start + 1) == 0;
      while At(z, j) != NUL && !Closes(z, j)
        invariant start + 2 <= j <= |z|
        invariant Closing(z, j) == Closing(z, start + 2)
        invariant nLine == old(nLine) + Newlines(z, start, j)
        invariant block == BlockState(z, start, j)
        decreases |z| - j
      {
        if z[j] == '\n' {
          nLine := nLine + 1;
          if block != 0 {
            block := if At(z, j + 1) == '*' || At(z, j + 2) == '*' then 2 else 0;
          }
        }
        BlockStateNext(z, start, j);
        j := j + 1;
      }
      if At(z, j) != NUL {
        BlockStateIs(z, start, j);
        assert Newlines(z, start, j + 2) == Newlines(z, start, j);
        j := j + 2;
      } else {
        block := 0;
        nErr := nErr + 1;
      }
      kind := if block == 2 then BlockComment else Comment;
    }

    // The loops over digits, hexadecimal digits and identifier characters (912, 915, 923-938, 960)
    method SkipRun(start: nat, class_: Class) returns (j: nat)
      requires Valid() && start <= |z| && class_ != Blanks
      ensures j == Run(z, start, class_)
      ensures Newlines(z, start, j) == 0
    {
      j := start;
      while In(At(z, j), class_)
        invariant start <= j <= |z|
        invariant Run(z, j, class_) == Run(z, start, class_)
        decreases |z| - j
      {
        j := j + 1;
      }
      NoNewlines(z, start, j);
    }

    // 923-949
    method SkipDecimal(start: nat) returns (j: nat)
      requires Valid() && start < |z| && IsDigit(z[start])
      ensures j == Decimal(z, start)
      ensures Newlines(z, start, j) == 0
    {
      hide Newlines, Run, Fraction, Exponent;
      j := SkipRun(start, Digits);
      var c := At(z, j);
      if c == '.' {
        j := SkipFraction(j + 1);
      } else if Letter(c, 'e', 'E') {
        j := SkipExponent(j + 1);
      } else if Letter(c, 'l', 'L') {
        j := j + 1;
        c := At(z, j);
        if Letter(c, 'u', 'U') {
          j := j + 1;
        }
      } else if Letter(c, 'u', 'U') {
        j := j + 1;
        c := At(z, j);
        if Letter(c, 'l', 'L') {
          j := j + 1;
        }
      }
      DecimalHasNoNewline(z, start);
    }

    // 925-935
    method SkipFraction(start: nat) returns (j: nat)
      requires Valid() && start <= |z|
      ensures j == Fraction(z, start)
    {
      hide Newlines, Run, Exponent;
      j := SkipRun(start, Digits);
      var c := At(z, j);
      if Letter(c, 'e', 'E') {
        j := SkipExponent(j + 1);
        c := At(z, j);
      }
      if Letter(c, 'f', 'F') || Letter(c, 'l', 'L') {
        j := j + 1;
      }
    }

    // 929-931 and 937-938
    method SkipExponent(start: nat) returns (j: nat)
      requires Valid() && start <= |z|
      ensures j == Exponent(z, start)
    {
      j := start;
      var c := At(z, j);
      if (c == '+' || c == '-') && IsDigit(At(z, j + 1)) {
        j := j + 1;
      }
      j := SkipRun(j, Digits);
    }
  }

  lemma OneCharacter(z: string, i: nat)
    requires i < |z| && z[i] != '\n'
    ensures Newlines(z, i, i + 1) == 0
  {
  }

  lemma OneOrTwoCharacters(z: string, i: nat, j: nat)
    requires i < |z| && z[i] != '\n' && i < j <= i + 2 && (j == i + 2 ==> At(z, i + 1) != '\n')
    ensures Newlines(z, i, j) == 0
  {
    NoNewlines(z, i, j);
  }

  lemma DecimalHasNoNewline(z: string, i: nat)
    requires i < |z| && IsDigit(z[i])
    ensures Newlines(z, i, Decimal(z, i)) == 0
  {
    forall k | i <= k < Decimal(z, i) ensures At(z, k) != '\n' {
    }
    NoNewlines(z, i, Decimal(z, i));
  }

  // isBlockComment after the comment that starts at i is read up to j.
  ghost function BlockState(z: string, i: nat, j: nat): nat
    requires i + 2 <= j <= |z|
  {
    if !(i == 0 || z[i - 1] == '\n') || (exists k :: i + 2 <= k < j && z[k] == '\n' && !Starred(z, k)) then 0
    else if exists k :: i + 2 <= k < j && z[k] == '\n' then 2
    else 1
  }

  lemma BlockStateNext(z: string, i: nat, j: nat)
    requires i + 2 <= j < |z|
    ensures BlockState(z, i, j + 1) ==
            if z[j] != '\n' || BlockState(z, i, j) == 0 then BlockState(z, i, j) else if Starred(z, j) then 2 else 0
  {
  }

  lemma BlockStateIs(z: string, i: nat, j: nat)
    requires i + 2 <= j < |z|
    ensures BlockState(z, i, j) == 2 <==> IsBlock(z, i, j)
  {
  }
}

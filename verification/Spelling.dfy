// What each token of tools/cnoh.c (769-991) is, character by character and in terms of its own: the
// specification in Lexemes, which GetToken is proved equal to, is compared with it here.

module Spelling {
  import opened Lexemes

  // ---------------------------------------------------------------------------------------------
  // Comments

  // A star and a slash at positions j and j + 1.
  predicate StarSlash(z: string, j: nat) {
    j + 1 < |z| && z[j] == '*' && z[j + 1] == '/'
  }

  // The first star-slash from position i on.
  ghost predicate FirstStarSlash(z: string, i: nat, j: nat) {
    i <= j && StarSlash(z, j) && forall k: nat | i <= k < j :: !StarSlash(z, k)
  }

  // A line break with a star right behind it or one character further on.
  predicate StarredBreak(z: string, k: nat)
    requires k < |z|
  {
    z[k] == '\n' && ((k + 1 < |z| && z[k + 1] == '*') || (k + 2 < |z| && z[k + 2] == '*'))
  }

  // A C comment ends right behind its first star-slash, the opening slash-star aside. It is a block comment
  // if it begins a line, spans several, and each of them is starred.
  lemma CommentEnds(z: string, i: nat, j: nat)
    requires i + 2 <= |z| && z[i] == '/' && z[i + 1] == '*' && FirstStarSlash(z, i + 2, j)
    ensures var starred := (exists k | i + 2 <= k < j :: z[k] == '\n')
                           && (forall k | i + 2 <= k < j && z[k] == '\n' :: StarredBreak(z, k));
            Scan(z, i) == Lexeme(
              if (i == 0 || z[i - 1] == '\n') && starred then BlockComment else Comment, j + 2, 0)
  {
    ClosingIs(z, i + 2);
    assert Closes(z, j) && Closing(z, i + 2) == j;
    assert forall k | i + 2 <= k < j && z[k] == '\n' :: Starred(z, k) <==> StarredBreak(z, k);
  }

  // Without a star-slash it is an error and runs to the end.
  lemma CommentIsOpen(z: string, i: nat)
    requires i + 2 <= |z| && z[i] == '/' && z[i + 1] == '*'
    requires forall j: nat | i + 2 <= j :: !StarSlash(z, j)
    ensures Scan(z, i) == Lexeme(Comment, |z|, 1)
  {
    ClosingIs(z, i + 2);
  }

  lemma ClosingIs(z: string, i: nat)
    requires i <= |z|
    ensures Closing(z, i) < |z| ==> StarSlash(z, Closing(z, i))
  {
  }

  // The other comment runs to the end of its line.
  lemma LineCommentEnds(z: string, i: nat)
    requires i + 2 <= |z| && z[i] == '/' && z[i + 1] == '/'
    ensures var r := Scan(z, i);
            && r.kind == Comment && r.errors == 0 && i + 2 <= r.end <= |z|
            && (forall k | i <= k < r.end :: z[k] != '\n') && (r.end == |z| || z[r.end] == '\n')
  {
    assert Find(z, i, '\n') == Find(z, i + 1, '\n') == Find(z, i + 2, '\n');
  }

  // ---------------------------------------------------------------------------------------------
  // Words, blanks, directives, operators

  predicate WordCharacter(c: char) {
    'a' <= c <= 'z' || 'A' <= c <= 'Z' || '0' <= c <= '9' || c == '_'
  }

  predicate Digit(c: char) {
    '0' <= c <= '9'
  }

  predicate HexDigit(c: char) {
    '0' <= c <= '9' || 'a' <= c <= 'f' || 'A' <= c <= 'F'
  }

  predicate BlankCharacter(c: char) {
    c == ' ' || c == '\t' || c == '\n' || c == '\U{B}' || c == '\U{C}' || c == '\r'
  }

  // All characters from i to j are of that sort, and the next one is not.
  ghost predicate Stretch(z: string, i: nat, j: nat, sort: char -> bool) {
    i <= j <= |z| && (forall k | i <= k < j :: sort(z[k])) && (j < |z| ==> !sort(z[j]))
  }

  function Sort(class_: Class): char -> bool {
    match class_
    case Blanks => BlankCharacter
    case Digits => Digit
    case HexDigits => HexDigit
    case Word => WordCharacter
  }

  lemma SortOf(c: char, class_: Class)
    ensures In(c, class_) <==> Sort(class_)(c)
  {
    if '\t' <= c <= '\r' {
      assert 9 <= c as int <= 13;
    }
  }

  lemma RunIs(z: string, i: nat, class_: Class)
    requires i <= |z|
    ensures Stretch(z, i, Run(z, i, class_), Sort(class_))
  {
    hide Run, In, Sort;
    var j := Run(z, i, class_);
    forall k | i <= k < j ensures Sort(class_)(z[k]) {
      SortOf(z[k], class_);
    }
    if j < |z| {
      SortOf(z[j], class_);
    }
  }

  lemma IdentifierEnds(z: string, i: nat)
    requires i < |z| && ('a' <= z[i] <= 'z' || 'A' <= z[i] <= 'Z' || z[i] == '_')
    ensures var r := Scan(z, i);
            r.kind == Id && r.errors == 0 && i < r.end && Stretch(z, i, r.end, WordCharacter)
  {
    RunIs(z, i, Word);
  }

  lemma SpaceEnds(z: string, i: nat)
    requires i < |z| && z[i] in {' ', '\t', '\n', '\U{C}', '\r'}
    ensures var r := Scan(z, i);
            r.kind == Space && r.errors == 0 && i < r.end && Stretch(z, i, r.end, BlankCharacter)
  {
    RunIs(z, i, Blanks);
  }

  // A hash is a directive where a line begins, behind a line feed and a carriage return too.
  lemma HashIs(z: string, i: nat)
    requires i < |z| && z[i] == '#'
    ensures if i == 0 || z[i - 1] == '\n' || (i > 1 && z[i - 2..i] == "\n\r") then Scan(z, i).kind == Directive
            else Scan(z, i) == Lexeme(Other, i + 1, 0)
  {
    if i > 1 {
      assert z[i - 2..i] == [z[i - 2], z[i - 1]];
    }
  }

  lemma BackslashIs(z: string, i: nat)
    requires i < |z| && z[i] == '\\'
    ensures Scan(z, i)
            == if i + 1 == |z| then Lexeme(Other, i + 1, 0)
               else if z[i + 1] == '\n' then Lexeme(Space, i + 2, 0) else Lexeme(Other, i + 2, 0)
  {
  }

  const PAIRS := ["::", "/+", "==", "<=", ">=", "+=", "-=", "*=", "%=", "^=", "&=", "|="]

  // A character that begins nothing else is an operator, alone or with its neighbour in one of the pairs.
  lemma OperatorIs(z: string, i: nat)
    requires i < |z| && !WordCharacter(z[i]) && z[i] !in {' ', '\t', '\n', '\U{C}', '\r', '#', '\\', '\'', '\"'}
    requires z[i] == '/' ==> i + 1 == |z| || (z[i + 1] != '/' && z[i + 1] != '*')
    ensures Scan(z, i) == Lexeme(Other, if i + 2 <= |z| && z[i..i + 2] in PAIRS then i + 2 else i + 1, 0)
  {
    SortOf(z[i], Word);
    if i + 2 <= |z| {
      var c, d := z[i], z[i + 1];
      assert z[i..i + 2] == [c, d];
      PairIs(c, d);
    }
  }

  lemma PairIs(c: char, d: char)
    ensures [c, d] in PAIRS <==> Pair(c, d)
  {
    assert [c, d][0] == c && [c, d][1] == d;
    if Pair(c, d) {
      if c == ':' { assert [c, d] == PAIRS[0]; }
      if c == '/' { assert [c, d] == PAIRS[1]; }
      if c == '=' { assert [c, d] == PAIRS[2]; }
      if c == '<' { assert [c, d] == PAIRS[3]; }
      if c == '>' { assert [c, d] == PAIRS[4]; }
      if c == '+' { assert [c, d] == PAIRS[5]; }
      if c == '-' { assert [c, d] == PAIRS[6]; }
      if c == '*' { assert [c, d] == PAIRS[7]; }
      if c == '%' { assert [c, d] == PAIRS[8]; }
      if c == '^' { assert [c, d] == PAIRS[9]; }
      if c == '&' { assert [c, d] == PAIRS[10]; }
      if c == '|' { assert [c, d] == PAIRS[11]; }
    }
  }

  // ---------------------------------------------------------------------------------------------
  // Numbers

  ghost predicate AllDigits(z: string, i: nat, j: nat) {
    i <= j <= |z| && forall k | i <= k < j :: Digit(z[k])
  }

  predicate OneOf(z: string, i: nat, chars: set<char>) {
    i < |z| && z[i] in chars
  }

  // Digits, with a sign in front if there are any.
  ghost predicate ExponentText(z: string, i: nat, j: nat) {
    AllDigits(z, i, j) || (OneOf(z, i, {'+', '-'}) && i + 1 < j && AllDigits(z, i + 1, j))
  }

  // Digits, an optional exponent, and an optional suffix.
  ghost predicate FractionText(z: string, i: nat, j: nat) {
    exists b: nat, c: nat :: FractionParts(z, i, b, c, j)
  }

  ghost predicate FractionParts(z: string, i: nat, b: nat, c: nat, j: nat) {
    && AllDigits(z, i, b)
    && (c == b || (OneOf(z, b, {'e', 'E'}) && ExponentText(z, b + 1, c)))
    && (j == c || (j == c + 1 && OneOf(z, c, {'f', 'F', 'l', 'L'})))
  }

  // What may follow the first digits.
  ghost predicate TailText(z: string, a: nat, j: nat) {
    || j == a
    || (OneOf(z, a, {'.'}) && FractionText(z, a + 1, j))
    || (OneOf(z, a, {'e', 'E'}) && ExponentText(z, a + 1, j))
    || (OneOf(z, a, {'l', 'L'}) && (j == a + 1 || (j == a + 2 && OneOf(z, a + 1, {'u', 'U'}))))
    || (OneOf(z, a, {'u', 'U'}) && (j == a + 1 || (j == a + 2 && OneOf(z, a + 1, {'l', 'L'}))))
  }

  ghost predicate DecimalText(z: string, i: nat, j: nat) {
    exists a: nat :: i < a && AllDigits(z, i, a) && TailText(z, a, j)
  }

  // Digits go as far as they can.
  lemma DigitsEnd(z: string, i: nat, j: nat)
    requires i <= |z|
    ensures AllDigits(z, i, Run(z, i, Digits))
    ensures Run(z, i, Digits) < |z| ==> !Digit(z[Run(z, i, Digits)])
    ensures AllDigits(z, i, j) ==> j <= Run(z, i, Digits)
    ensures AllDigits(z, i, j) && j < Run(z, i, Digits) ==> Digit(z[j])
  {
    RunIs(z, i, Digits);
  }

  lemma ExponentEnds(z: string, i: nat, j: nat)
    requires i <= |z|
    ensures var e := Exponent(z, i);
            && ExponentText(z, i, e)
            && (ExponentText(z, i, j) ==> j <= e)
            && (ExponentText(z, i, j) && j < e ==> Digit(z[j]) || z[j] == '+' || z[j] == '-')
  {
    DigitsEnd(z, i, j);
    if i < |z| {
      DigitsEnd(z, i + 1, j);
      DigitsEnd(z, i, i + 1);
    }
  }

  lemma FractionEnds(z: string, i: nat)
    requires i <= |z|
    ensures FractionText(z, i, Fraction(z, i))
    ensures forall j: nat | FractionText(z, i, j) :: j <= Fraction(z, i)
  {
    hide Exponent, AllDigits, ExponentText, Run;
    var b := Run(z, i, Digits);
    var c := if OneOf(z, b, {'e', 'E'}) then Exponent(z, b + 1) else b;
    DigitsEnd(z, i, b);
    if b < |z| {
      ExponentEnds(z, b + 1, c);
    }
    assert FractionParts(z, i, b, c, Fraction(z, i));
    forall j: nat | FractionText(z, i, j) ensures j <= Fraction(z, i) {
      var b1: nat, c1: nat :| FractionParts(z, i, b1, c1, j);
      DigitsEnd(z, i, b1);
      if b < |z| {
        ExponentEnds(z, b + 1, c1);
      }
    }
  }

  // A number that does not begin with zero is the longest text of this form: digits with an optional
  // fraction, exponent and suffix.
  lemma DecimalEnds(z: string, i: nat)
    requires i < |z| && '1' <= z[i] <= '9'
    ensures var r := Scan(z, i);
            && r.kind == Number && r.errors == 0 && DecimalText(z, i, r.end)
            && forall j: nat | DecimalText(z, i, j) :: j <= r.end
  {
    hide Exponent, AllDigits, ExponentText, Run, Fraction, FractionText;
    var a, end := Run(z, i, Digits), Decimal(z, i);
    DigitsEnd(z, i, a);
    DigitsEnd(z, i, i + 1);
    OneDigit(z, i);
    if a < |z| {
      FractionEnds(z, a + 1);
      ExponentEnds(z, a + 1, end);
    }
    assert TailText(z, a, end);
    forall j: nat | DecimalText(z, i, j) ensures j <= end {
      var a1: nat :| i < a1 && AllDigits(z, i, a1) && TailText(z, a1, j);
      DigitsEnd(z, i, a1);
      if a < |z| {
        ExponentEnds(z, a + 1, j);
      }
    }
  }

  lemma OneDigit(z: string, i: nat)
    requires i < |z| && Digit(z[i])
    ensures AllDigits(z, i, i + 1)
  {
  }

  // One that does is hexadecimal behind an x, and digits otherwise.
  lemma ZeroEnds(z: string, i: nat)
    requires i < |z| && z[i] == '0'
    ensures var r := Scan(z, i);
            && r.kind == Number && r.errors == 0
            && if OneOf(z, i + 1, {'x', 'X'}) then Stretch(z, i + 2, r.end, HexDigit)
               else i < r.end && Stretch(z, i, r.end, Digit)
  {
    RunIs(z, i, Digits);
    if i + 2 <= |z| {
      RunIs(z, i + 2, HexDigits);
    }
  }
}

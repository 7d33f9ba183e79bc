// The low-level tokens of tools/cnoh.c (769-991) as functions of the text and a position. A text is
// a C string without its terminator: At gives NUL at its end.

module Lexemes {

  const NUL := '\U{0}'

  datatype Kind = Eof | Space | Id | Directive | Comment | BlockComment | Number | Str | Other | Braces | Error

  // What GetToken finds at a position: the token ends before "end".
  datatype Lexeme = Lexeme(kind: Kind, end: nat, errors: nat)

  ghost predicate CString(z: string) {
    forall k | 0 <= k < |z| :: z[k] != NUL
  }

  function At(z: string, i: nat): char {
    if i < |z| then z[i] else NUL
  }

  // ---------------------------------------------------------------------------------------------
  // Character classes (C locale)

  datatype Class = Blanks | Digits | HexDigits | Word

  predicate IsDigit(c: char) {
    '0' <= c <= '9'
  }

  predicate IsAlpha(c: char) {
    'a' <= c <= 'z' || 'A' <= c <= 'Z'
  }

  predicate IsWord(c: char) {
    c == '_' || IsAlpha(c) || IsDigit(c)
  }

  predicate IsBlank(c: char) {
    c == ' ' || '\t' <= c <= '\r'
  }

  predicate In(c: char, class_: Class) {
    match class_
    case Blanks => IsBlank(c)
    case Digits => IsDigit(c)
    case HexDigits => IsDigit(c) || 'a' <= c <= 'f' || 'A' <= c <= 'F'
    case Word => IsWord(c)
  }

  // The end of the run of characters of one class that begins at i.
  function Run(z: string, i: nat, class_: Class): (j: nat)
    requires i <= |z|
    ensures i <= j <= |z|
    ensures j < |z| ==> !In(z[j], class_)
    ensures forall k | i <= k < j :: In(z[k], class_)
    decreases |z| - i
  {
    if i < |z| && In(z[i], class_) then Run(z, i + 1, class_) else i
  }

  // ---------------------------------------------------------------------------------------------
  // Where each kind of token ends

  // The first "stop" from i on that no backslash protects. Without one the result is |z|, or
  // |z| + 1 when the last character is a backslash that protects the terminator.
  function Unescaped(z: string, i: nat, stop: char): (j: nat)
    requires i <= |z| + 1
    ensures i <= j <= |z| + 1
    decreases |z| + 1 - i
  {
    if i >= |z| || z[i] == stop then i
    else if z[i] == '\\' then Unescaped(z, i + 2, stop)
    else Unescaped(z, i + 1, stop)
  }

  // A literal that runs into the end of the text is an error, unless a backslash ends the text.
  function Literal(z: string, i: nat): (r: Lexeme)
    requires i < |z|
    ensures i < r.end <= |z| && r.kind == Str
  {
    var j := Unescaped(z, i + 1, z[i]);
    if j < |z| then Lexeme(Str, j + 1, 0)
    else Lexeme(Str, |z|, if j == |z| then 1 else 0)
  }

  // The first c from i on, or the end of the text.
  function Find(z: string, i: nat, c: char): (j: nat)
    requires i <= |z|
    ensures i <= j <= |z|
    ensures j < |z| ==> z[j] == c
    ensures forall k | i <= k < j :: z[k] != c
    decreases |z| - i
  {
    if i == |z| || z[i] == c then i else Find(z, i + 1, c)
  }

  predicate Closes(z: string, i: nat)
    requires i < |z|
  {
    z[i] == '*' && At(z, i + 1) == '/'
  }

  // The first "*/" from i on, or the end of the text.
  function Closing(z: string, i: nat): (j: nat)
    requires i <= |z|
    ensures i <= j <= |z|
    ensures j < |z| ==> j + 2 <= |z| && Closes(z, j)
    ensures forall k | i <= k < j :: !Closes(z, k)
    decreases |z| - i
  {
    if i == |z| || Closes(z, i) then i else Closing(z, i + 1)
  }

  // Line k of a block comment begins with a star, at most one character in.
  predicate Starred(z: string, k: nat) {
    At(z, k + 1) == '*' || At(z, k + 2) == '*'
  }

  // A comment at the left margin, of several lines that all begin with a star.
  predicate IsBlock(z: string, i: nat, j: nat)
    requires i + 2 <= j < |z|
  {
    && (i == 0 || z[i - 1] == '\n')
    && (exists k :: i + 2 <= k < j && z[k] == '\n')
    && (forall k | i + 2 <= k < j && z[k] == '\n' :: Starred(z, k))
  }

  function CComment(z: string, i: nat): (r: Lexeme)
    requires i + 2 <= |z|
    ensures i < r.end <= |z| && (r.kind == Comment || r.kind == BlockComment)
  {
    var j := Closing(z, i + 2);
    if j == |z| then Lexeme(Comment, j, 1)
    else Lexeme(if IsBlock(z, i, j) then BlockComment else Comment, j + 2, 0)
  }

  // An optional exponent sign counts only in front of a digit.
  function Exponent(z: string, i: nat): (j: nat)
    requires i <= |z|
    ensures i <= j <= |z|
  {
    if (At(z, i) == '+' || At(z, i) == '-') && IsDigit(At(z, i + 1)) then Run(z, i + 1, Digits)
    else Run(z, i, Digits)
  }

  predicate Letter(c: char, lower: char, upper: char) {
    c == lower || c == upper
  }

  // The fraction of a number, from behind its point on.
  function Fraction(z: string, i: nat): (j: nat)
    requires i <= |z|
    ensures i <= j <= |z|
  {
    var a := Run(z, i, Digits);
    var b := if Letter(At(z, a), 'e', 'E') then Exponent(z, a + 1) else a;
    if Letter(At(z, b), 'f', 'F') || Letter(At(z, b), 'l', 'L') then b + 1 else b
  }

  // A decimal number that starts at i.
  function Decimal(z: string, i: nat): (j: nat)
    requires i < |z| && IsDigit(z[i])
    ensures i < j <= |z|
  {
    var a := Run(z, i, Digits);
    var c := At(z, a);
    if c == '.' then Fraction(z, a + 1)
    else if Letter(c, 'e', 'E') then Exponent(z, a + 1)
    else if Letter(c, 'l', 'L') then (if Letter(At(z, a + 1), 'u', 'U') then a + 2 else a + 1)
    else if Letter(c, 'u', 'U') then (if Letter(At(z, a + 1), 'l', 'L') then a + 2 else a + 1)
    else a
  }

  predicate LineStart(z: string, i: nat)
    requires i <= |z|
  {
    i == 0 || z[i - 1] == '\n' || (i > 1 && z[i - 1] == '\r' && z[i - 2] == '\n')
  }

  // Two characters that make one operator (905, 967, 981).
  predicate Pair(c: char, d: char) {
    || (c == ':' && d == ':')
    || (c == '/' && d == '+')
    || (d == '=' && TakesEqual(c))
  }

  predicate TakesEqual(c: char) {
    c == '=' || c == '<' || c == '>' || c == '+' || c == '-' || c == '*' || c == '%' || c == '^' || c == '&' || c == '|'
  }

  // The case of the switch that a first character selects.
  datatype Lead = Hash | Blank | Backslash | Quote | Slash | Zero | Nonzero | Letters | Operator

  function LeadOf(c: char): Lead {
    if IsAlpha(c) || c == '_' then Letters
    else if c == '0' then Zero
    else if IsDigit(c) then Nonzero
    else if c == ' ' || c == '\t' || c == '\n' || c == '\U{C}' || c == '\r' then Blank
    else if c == '#' then Hash
    else if c == '\\' then Backslash
    else if c == '\'' || c == '\"' then Quote
    else if c == '/' then Slash
    else Operator
  }

  // The token at position i. Only a directive can end beyond the text.
  function Scan(z: string, i: nat): (r: Lexeme)
    requires i <= |z|
    ensures i < |z| ==> i < r.end
    ensures r.kind == Eof <==> i == |z|
    ensures i == |z| ==> r.end == i && r.errors == 0
    ensures r.kind != Directive ==> r.end <= |z|
    ensures r.end <= |z| + 1
  {
    if i == |z| then Lexeme(Eof, i, 0)
    else match LeadOf(z[i])
      case Hash => if LineStart(z, i) then Lexeme(Directive, Unescaped(z, i + 1, '\n'), 0) else Lexeme(Other, i + 1, 0)
      case Blank => Lexeme(Space, Run(z, i, Blanks), 0)
      case Backslash =>
        if i + 1 == |z| then Lexeme(Other, i + 1, 0)
        else Lexeme(if z[i + 1] == '\n' then Space else Other, i + 2, 0)
      case Quote => Literal(z, i)
      case Slash =>
        if At(z, i + 1) == '/' then Lexeme(Comment, Find(z, i, '\n'), 0)
        else if At(z, i + 1) == '*' then CComment(z, i)
        else Lexeme(Other, if At(z, i + 1) == '+' then i + 2 else i + 1, 0)
      case Zero =>
        Lexeme(Number, if Letter(At(z, i + 1), 'x', 'X') then Run(z, i + 2, HexDigits) else Run(z, i, Digits), 0)
      case Nonzero => Lexeme(Number, Decimal(z, i), 0)
      case Letters => Lexeme(Id, Run(z, i, Word), 0)
      case Operator => Lexeme(Other, if Pair(z[i], At(z, i + 1)) then i + 2 else i + 1, 0)
  }

  // The newlines in z[i..j]; nothing is counted beyond the text.
  function Newlines(z: string, i: nat, j: nat): (n: nat)
    requires i <= j
    decreases j - i
  {
    if i == j then 0 else Newlines(z, i, j - 1) + if At(z, j - 1) == '\n' then 1 else 0
  }
}

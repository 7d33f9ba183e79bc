// What TokensToString prints (tools/cnoh.c:1355-1435), GetToken (769-991) reads back.

module RoundTrip {
  import opened Lexemes
  import opened Printer
  import opened Sequences
  import opened Tokenizer
  import opened Tiling

  // ---------------------------------------------------------------------------------------------
  // Tokens as GetToken makes them

  ghost predicate AllWord(s: string) {
    forall k | 0 <= k < |s| :: IsWord(s[k])
  }

  ghost predicate AllDigits(s: string) {
    forall k | 0 <= k < |s| :: IsDigit(s[k])
  }

  predicate OperatorStart(c: char) {
    (LeadOf(c) == Operator && !IsBlank(c)) || c == '/'
  }

  ghost predicate IsOperator(s: string) {
    || (|s| == 1 && OperatorStart(s[0]))
    || (|s| == 2 && OperatorStart(s[0]) && Pair(s[0], s[1]))
  }

  // Identifiers, decimal or octal integers, closed literals, directives, and operators of one or two
  // characters other than '#' and those that start with a backslash.
  ghost predicate IsPiece(p: Piece) {
    p.text != [] && CString(p.text) &&
    match p.kind
    case Id => LeadOf(p.text[0]) == Letters && AllWord(p.text)
    case Number => AllDigits(p.text)
    case Str => LeadOf(p.text[0]) == Quote && Unescaped(p.text, 1, p.text[0]) == |p.text| - 1
    case Directive => p.text[0] == '#' && Unescaped(p.text, 1, '\n') == |p.text|
    case Other => IsOperator(p.text)
    case _ => false
  }

  ghost predicate ArePieces(ts: seq<Piece>) {
    forall k | 0 <= k < |ts| :: IsPiece(ts[k])
  }

  // The token p swallows the character c when c follows it directly.
  predicate Swallows(p: Piece, c: char)
    requires p.text != []
  {
    || (p.kind == Number && p.text[0] != '0' && c == '.')
    || (p.kind == Other && |p.text| == 1 && (Pair(p.text[0], c) || (p.text[0] == '/' && (c == '/' || c == '*'))))
  }

  // Two neighbours that are read as one token.
  ghost predicate Glued(a: Piece, b: Piece) {
    a.text != [] && b.text != [] && b.kind != Directive && Swallows(a, b.text[0])
  }

  ghost predicate NothingGlued(ts: seq<Piece>) {
    forall k | 0 <= k < |ts| - 1 :: !Glued(ts[k], ts[k + 1])
  }

  // The tokens of z from position i on, without the spaces.
  ghost function Read(z: string, i: nat): seq<Piece>
    decreases |z| + 1 - i
  {
    if i >= |z| then []
    else
      var r := Scan(z, i);
      (if r.kind == Space || r.end > |z| then [] else [Piece(r.kind, z[i..r.end])]) + Read(z, r.end)
  }

  // ---------------------------------------------------------------------------------------------
  // One token

  // z has the text s at position i.
  ghost predicate Has(z: string, i: nat, s: string) {
    i + |s| <= |z| && z[i..i + |s|] == s
  }

  lemma HasAt(z: string, i: nat, s: string, k: nat)
    requires Has(z, i, s) && k < |s|
    ensures z[i + k] == s[k]
  {
    assert z[i..i + |s|][k] == s[k];
  }

  lemma {:induction false} RunIs(z: string, i: nat, j: nat, class_: Class)
    requires i <= j <= |z| && (forall k | i <= k < j :: In(z[k], class_)) && !(j < |z| && In(z[j], class_))
    ensures Run(z, i, class_) == j
    decreases j - i
  {
    if i < j {
      RunIs(z, i + 1, j, class_);
    }
  }

  // A closed text is closed wherever it stands.
  lemma {:induction false} UnescapedWithin(z: string, i: nat, s: string, k: nat, stop: char)
    requires Has(z, i, s) && k <= |s| && Unescaped(s, k, stop) < |s|
    ensures Unescaped(z, i + k, stop) == i + Unescaped(s, k, stop)
    decreases |s| - k
  {
    HasAt(z, i, s, k);
    if s[k] != stop {
      UnescapedWithin(z, i, s, if s[k] == '\\' then k + 2 else k + 1, stop);
    }
  }

  // A text without a stop character ends at the one behind it.
  lemma {:induction false} UnescapedBehind(z: string, i: nat, s: string, k: nat, stop: char)
    requires Has(z, i, s) && k <= |s| && Unescaped(s, k, stop) == |s|
    requires i + |s| < |z| && z[i + |s|] == stop
    ensures Unescaped(z, i + k, stop) == i + |s|
    decreases |s| - k
  {
    if k < |s| {
      HasAt(z, i, s, k);
      UnescapedBehind(z, i, s, if s[k] == '\\' then k + 2 else k + 1, stop);
    }
  }

  lemma ScanWord(z: string, i: nat, p: Piece)
    requires IsPiece(p) && p.kind == Id && Has(z, i, p.text) && !IsWord(At(z, i + |p.text|))
    ensures Scan(z, i) == Lexeme(Id, i + |p.text|, 0)
  {
    forall k | i <= k < i + |p.text| ensures IsWord(z[k]) {
      HasAt(z, i, p.text, k - i);
    }
    RunIs(z, i, i + |p.text|, Word);
    HasAt(z, i, p.text, 0);
  }

  lemma ScanNumber(z: string, i: nat, p: Piece)
    requires IsPiece(p) && p.kind == Number && Has(z, i, p.text) && !IsWord(At(z, i + |p.text|))
    ensures var r := Scan(z, i);
            r.kind == Number
            && (if Swallows(p, At(z, i + |p.text|)) then r.end > i + |p.text| else r.end == i + |p.text|)
  {
    var j := i + |p.text|;
    forall k | i <= k < j ensures IsDigit(z[k]) {
      HasAt(z, i, p.text, k - i);
    }
    HasAt(z, i, p.text, 0);
    RunIs(z, i, j, Digits);
    assert LeadOf(z[i]) == if p.text[0] == '0' then Zero else Nonzero;
    assert !Letter(At(z, i + 1), 'x', 'X') by {
      assert i + 1 == j || IsDigit(z[i + 1]);
    }
  }

  lemma ScanLiteral(z: string, i: nat, p: Piece)
    requires IsPiece(p) && p.kind == Str && Has(z, i, p.text)
    ensures Scan(z, i) == Lexeme(Str, i + |p.text|, 0)
  {
    HasAt(z, i, p.text, 0);
    UnescapedWithin(z, i, p.text, 1, p.text[0]);
  }

  lemma ScanDirective(z: string, i: nat, p: Piece)
    requires IsPiece(p) && p.kind == Directive && Has(z, i, p.text) && LineStart(z, i)
    requires i + |p.text| < |z| && z[i + |p.text|] == '\n'
    ensures Scan(z, i) == Lexeme(Directive, i + |p.text|, 0)
  {
    HasAt(z, i, p.text, 0);
    UnescapedBehind(z, i, p.text, 1, '\n');
  }

  lemma ScanOperator(z: string, i: nat, p: Piece)
    requires IsPiece(p) && p.kind == Other && Has(z, i, p.text)
    ensures var r := Scan(z, i);
            if Swallows(p, At(z, i + |p.text|)) then r.end > i + |p.text| && r.kind != Space && r.end <= |z|
            else r.kind == Other && r.end == i + |p.text|
  {
    HasAt(z, i, p.text, 0);
    if |p.text| == 2 {
      HasAt(z, i, p.text, 1);
    }
  }

  // Everything a token needs to be read back: a word is followed by something else, a directive
  // stands alone on its line.
  ghost predicate Placed(z: string, i: nat, p: Piece) {
    && Has(z, i, p.text)
    && (IsWordKind(p.kind) ==> !IsWord(At(z, i + |p.text|)))
    && (p.kind == Directive ==> LineStart(z, i) && i + |p.text| < |z| && z[i + |p.text|] == '\n')
  }

  lemma ScanPiece(z: string, i: nat, p: Piece)
    requires IsPiece(p) && Placed(z, i, p)
    ensures var r := Scan(z, i);
            if Swallows(p, At(z, i + |p.text|)) then r.end > i + |p.text| && r.kind != Space && r.end <= |z|
            else r.kind == p.kind && r.end == i + |p.text|
  {
    hide Scan;
    match p.kind
    case Id => ScanWord(z, i, p);
    case Number => ScanNumber(z, i, p);
    case Str => ScanLiteral(z, i, p);
    case Directive => ScanDirective(z, i, p);
    case Other => ScanOperator(z, i, p);
  }

  // ---------------------------------------------------------------------------------------------
  // The whole text

  // Spaces and newlines that GetToken takes as one space.
  ghost predicate IsGap(s: string) {
    forall k | 0 <= k < |s| :: s[k] == ' ' || s[k] == '\n'
  }

  lemma ScanGap(z: string, i: nat, s: string)
    requires Has(z, i, s) && IsGap(s) && s != [] && !IsBlank(At(z, i + |s|))
    ensures Scan(z, i) == Lexeme(Space, i + |s|, 0)
  {
    forall k | i <= k < i + |s| ensures IsBlank(z[k]) {
      HasAt(z, i, s, k - i);
    }
    HasAt(z, i, s, 0);
    RunIs(z, i, i + |s|, Blanks);
  }

  lemma ReadGap(z: string, i: nat, s: string)
    requires Has(z, i, s) && IsGap(s) && !IsBlank(At(z, i + |s|))
    ensures Read(z, i) == Read(z, i + |s|)
  {
    hide Scan, IsGap, IsBlank;
    if s != [] {
      ScanGap(z, i, s);
      assert [] + Read(z, i + |s|) == Read(z, i + |s|);
    }
  }

  lemma StartsVisibly(p: Piece)
    requires IsPiece(p)
    ensures !IsBlank(p.text[0])
  {
  }

  function First(s: string): char {
    if s == [] then NUL else s[0]
  }

  // What follows a token is not part of it, unless the two are glued.
  lemma WhatFollows(p: Piece, rest: seq<Piece>)
    requires IsPiece(p) && ArePieces(rest)
    ensures var c := First(Tail(p) + Layout(rest, IsWordKind(p.kind)));
            && (IsWordKind(p.kind) ==> !IsWord(c))
            && (Swallows(p, c) <==> rest != [] && Glued(p, rest[0]))
  {
    if rest != [] {
      var q := rest[0];
      var shown := Shown(q, IsWordKind(p.kind));
      assert IsPiece(q);
      var c := First(Tail(p) + Layout(rest, IsWordKind(p.kind)));
      assert c == if p.kind == Directive || q.kind == Directive then '\n'
                  else if Gap(q, IsWordKind(p.kind)) == " " then ' ' else q.text[0];
    }
  }

  lemma ReadStep(z: string, i: nat, p: Piece)
    requires IsPiece(p) && Placed(z, i, p)
    ensures if Swallows(p, At(z, i + |p.text|)) then Read(z, i) != [] && |Read(z, i)[0].text| > |p.text|
            else Read(z, i) == [p] + Read(z, i + |p.text|)
  {
    hide Scan, Swallows;
    ScanPiece(z, i, p);
  }

  lemma NothingGluedNext(p: Piece, rest: seq<Piece>)
    ensures NothingGlued([p] + rest) <==> NothingGlued(rest) && (rest != [] ==> !Glued(p, rest[0]))
  {
    var ts := [p] + rest;
    assert forall k | 0 <= k < |rest| :: rest[k] == ts[k + 1];
    if NothingGlued(rest) && (rest != [] ==> !Glued(p, rest[0])) {
      forall k | 0 <= k < |ts| - 1 ensures !Glued(ts[k], ts[k + 1]) {
        if k > 0 {
          assert ts[k] == rest[k - 1] && ts[k + 1] == rest[k];
        }
      }
    }
    if NothingGlued(ts) {
      forall k | 0 <= k < |rest| - 1 ensures !Glued(rest[k], rest[k + 1]) {
        assert !Glued(ts[k + 1], ts[k + 2]);
      }
      assert rest != [] ==> ts[0] == p && ts[1] == rest[0];
    }
  }

  // Where the parts of a laid out list lie in z.
  lemma Parts(z: string, i: nat, gap: string, p: Piece, rest: seq<Piece>, afterWord: bool)
    requires i <= |z| && z[i..] == gap + Layout([p] + rest, afterWord)
    ensures var sep := gap + Gap(p, afterWord);
            var j := i + |sep|;
            && Has(z, i, sep) && Has(z, j, p.text)
            && z[j + |p.text|..] == Tail(p) + Layout(rest, IsWordKind(p.kind))
  {
    hide Has, Gap, Tail, Shown, Layout;
    var sep := gap + Gap(p, afterWord);
    var more := Tail(p) + Layout(rest, IsWordKind(p.kind));
    LayoutNext(p, rest, afterWord);
    ShownParts(gap, p, afterWord, Layout(rest, IsWordKind(p.kind)));
    Middle(z, i, sep, p.text, more);
  }

  lemma ShownParts(gap: string, p: Piece, afterWord: bool, more: string)
    ensures gap + (Shown(p, afterWord) + more) == gap + Gap(p, afterWord) + p.text + (Tail(p) + more)
  {
    hide Gap, Tail;
    var g := Gap(p, afterWord);
    Regroup(g + p.text, Tail(p), more);
    Regroup(gap, g + p.text, Tail(p) + more);
    Regroup(gap, g, p.text);
  }

  lemma Middle(z: string, i: nat, a: string, b: string, c: string)
    requires i <= |z| && z[i..] == a + b + c
    ensures Has(z, i, a) && Has(z, i + |a|, b) && z[i + |a| + |b|..] == c
  {
    assert z[i..i + |a|] == z[i..][..|a|];
    assert z[i + |a|..i + |a| + |b|] == z[i..][|a|..|a| + |b|];
    assert z[i + |a| + |b|..] == z[i..][|a| + |b|..];
  }

  lemma FirstIsAt(z: string, i: nat)
    requires i <= |z|
    ensures First(z[i..]) == At(z, i)
  {
  }

  lemma NothingToRead(z: string, i: nat, gap: string, afterWord: bool)
    requires IsGap(gap) && i <= |z| && z[i..] == gap + Layout([], afterWord)
    ensures Read(z, i) == [] && NothingGlued([])
  {
    assert gap + Layout([], afterWord) == gap;
    assert Has(z, i, gap);
    ReadGap(z, i, gap);
  }

  lemma PieceIsPlaced(z: string, i: nat, gap: string, p: Piece, rest: seq<Piece>, afterWord: bool)
    requires IsPiece(p) && IsGap(gap)
    requires var sep := gap + Gap(p, afterWord);
             var j := i + |sep|;
             && Has(z, i, sep) && Has(z, j, p.text)
             && z[j + |p.text|..] == Tail(p) + Layout(rest, IsWordKind(p.kind))
             && (IsWordKind(p.kind) ==> !IsWord(First(Tail(p) + Layout(rest, IsWordKind(p.kind)))))
    ensures var sep := gap + Gap(p, afterWord);
            var j := i + |sep|;
            && Placed(z, j, p) && !IsBlank(At(z, j)) && IsGap(sep) && IsGap(Tail(p))
            && j + |p.text| <= |z|
            && At(z, j + |p.text|) == First(Tail(p) + Layout(rest, IsWordKind(p.kind)))
  {
    hide Layout, IsWord;
    var sep := gap + Gap(p, afterWord);
    var j := i + |sep|;
    StartsVisibly(p);
    HasAt(z, j, p.text, 0);
    FirstIsAt(z, j + |p.text|);
    if p.kind == Directive {
      assert sep[|sep| - 1] == '\n';
      HasAt(z, i, sep, |sep| - 1);
    }
  }

  lemma FirstPiece(ts: seq<Piece>)
    requires ts != [] && ArePieces(ts)
    ensures IsPiece(ts[0]) && ArePieces(ts[1..])
  {
  }

  lemma {:induction false} ReadBack(z: string, i: nat, gap: string, ts: seq<Piece>, afterWord: bool)
    requires ArePieces(ts) && IsGap(gap) && i <= |z| && z[i..] == gap + Layout(ts, afterWord)
    ensures Read(z, i) == ts <==> NothingGlued(ts)
    decreases |ts|
  {
    hide Read, Layout, ArePieces, IsPiece, NothingGlued, Glued, Has, Swallows, Scan;
    if ts == [] {
      NothingToRead(z, i, gap, afterWord);
    } else {
      var p, rest := ts[0], ts[1..];
      assert ts == [p] + rest;
      FirstPiece(ts);
      var sep := gap + Gap(p, afterWord);
      var j := i + |sep|;
      Parts(z, i, gap, p, rest, afterWord);
      WhatFollows(p, rest);
      PieceIsPlaced(z, i, gap, p, rest, afterWord);
      ReadGap(z, i, sep);
      ReadStep(z, j, p);
      NothingGluedNext(p, rest);
      ReadBack(z, j + |p.text|, Tail(p), rest, IsWordKind(p.kind));
      assert ([p] + rest)[1..] == rest;
    }
  }

  lemma {:induction false} KeptArePieces(ts: seq<Piece>, skipOne: bool)
    requires ArePieces(ts)
    ensures ArePieces(Kept(ts, skipOne))
  {
    if ts != [] {
      hide IsPiece;
      FirstPiece(ts);
      KeptArePieces(ts[1..], if ts[0].kind == Id then Skips(ts[0], skipOne) else skipOne);
    }
  }

  // Reading what TokensToString prints gives back the tokens it kept, kinds and texts in their order,
  // if and only if no two neighbours are glued.
  lemma {:induction false} PrintThenRead(ts: seq<Piece>)
    requires ArePieces(ts)
    ensures var kept := Kept(ts, false);
            Read(Layout(kept, false), 0) == kept <==> NothingGlued(kept)
  {
    hide ArePieces, NothingGlued, Read;
    var z := Layout(Kept(ts, false), false);
    KeptArePieces(ts, false);
    assert z[0..] == z == "" + z;
    ReadBack(z, 0, "", Kept(ts, false), false);
  }

  predicate Bracket(c: char) {
    c == '(' || c == ')' || c == '[' || c == ']' || c == ',' || c == ';' || c == '*' || c == '&'
  }

  // Identifiers that are not keywords, integers, and single punctuators.
  ghost predicate Plain(p: Piece) {
    IsPiece(p) && !Keyword(p) &&
    (p.kind == Id || p.kind == Number || (p.kind == Other && |p.text| == 1 && Bracket(p.text[0])))
  }

  lemma {:induction false} PlainIsKept(ts: seq<Piece>)
    requires forall k | 0 <= k < |ts| :: Plain(ts[k])
    ensures Kept(ts, false) == ts
  {
    if ts != [] {
      PlainIsKept(ts[1..]);
    }
  }

  lemma PlainIsNotGlued(a: Piece, b: Piece)
    requires Plain(a) && Plain(b)
    ensures !Glued(a, b)
  {
  }

  // Lists of identifiers, integers and ( ) [ ] , ; * & are always read back.
  lemma {:induction false} PlainRoundTrip(ts: seq<Piece>)
    requires forall k | 0 <= k < |ts| :: Plain(ts[k])
    ensures Read(Layout(Kept(ts, false), false), 0) == ts
  {
    hide Read, Layout, Glued;
    PlainIsKept(ts);
    PrintThenRead(ts);
    forall k | 0 <= k < |ts| - 1 ensures !Glued(ts[k], ts[k + 1]) {
      PlainIsNotGlued(ts[k], ts[k + 1]);
    }
  }

  // A quotient of a pointed-to value comes back as a comment.
  lemma {:induction false} SlashStarIsGlued()
    ensures var ts := [Piece(Other, "/"), Piece(Other, "*")];
            ArePieces(ts) && Layout(ts, false) == "/*" && Scan("/*", 0).kind == Comment
  {
    var ts := [Piece(Other, "/"), Piece(Other, "*")];
    assert ts[1..] == [Piece(Other, "*")];
    assert Layout([Piece(Other, "*")], false) == "*";
  }

  // ---------------------------------------------------------------------------------------------
  // Reading is what successive GetToken calls do

  // The tokens of a list that are not spaces, with their texts.
  ghost function WithoutSpaces(z: string, ts: seq<Token>): seq<Piece> {
    if ts == [] then []
    else
      var t := ts[0];
      (if t.kind == Space || t.kind == Eof || t.start + t.len > |z| then []
       else [Piece(t.kind, z[t.start..t.start + t.len])]) + WithoutSpaces(z, ts[1..])
  }

  lemma {:induction false} ReadIsTokens(z: string, i: nat, line: nat)
    ensures Read(z, i) == WithoutSpaces(z, Tokens(z, i, line))
    decreases |z| + 1 - i
  {
    hide Scan, Newlines;
    if i < |z| {
      var r := Scan(z, i);
      var more := line + Newlines(z, i, r.end);
      ReadIsTokens(z, r.end, more);
      TokensStep(z, i, line);
      assert Tokens(z, i, line)[1..] == Tokens(z, r.end, more);
    }
  }
}

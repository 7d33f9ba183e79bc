// GetNonspaceToken of tools/cnoh.c (1003-1064): the tokens that are not space, comment, or text
// between an "#if 0" and its "#endif".

module Visible {
  import opened Lexemes
  import opened Tokenizer
  import opened Tiling

  // Every token from position i on ends within the text.
  ghost predicate Safe(z: string, i: nat)
    decreases |z| + 1 - i
  {
    i <= |z| && (i < |z| ==> Scan(z, i).end <= |z| && Safe(z, Scan(z, i).end))
  }

  lemma {:induction false} SafeIsWithin(z: string, i: nat, line: nat)
    ensures Safe(z, i) <==> Within(z, Tokens(z, i, line))
    decreases |z| + 1 - i
  {
    hide Scan, Newlines;
    if i >= |z| {
      TokensEnd(z, i, line);
    } else {
      var more := line + Newlines(z, i, Scan(z, i).end);
      SafeIsWithin(z, Scan(z, i).end, more);
      TokensStep(z, i, line);
      WithinRest(z, Tokens(z, i, line));
      assert Tokens(z, i, line)[1..] == Tokens(z, Scan(z, i).end, more);
    }
  }

  // GetToken never leaves a text, unless it ends in a directive with an odd number of backslashes.
  lemma SafeUnlessLeaving(z: string)
    ensures Safe(z, 0) <==> !LeavesText(z, Tokens(z, 0, 1))
  {
    SafeIsWithin(z, 0, 1);
    TokensStayWithin(z, 0, 1);
  }

  // ---------------------------------------------------------------------------------------------
  // "#if 0"

  predicate StartsWith(z: string, p: nat, word: string) {
    p + |word| <= |z| && z[p..p + |word|] == word
  }

  // The first character behind "#" that is neither space nor tab.
  function SkipTabs(z: string, p: nat): (q: nat)
    requires p <= |z|
    ensures p <= q <= |z|
    decreases |z| - p
  {
    if p < |z| && (z[p] == ' ' || z[p] == '\t') then SkipTabs(z, p + 1) else p
  }

  // An integer that is zero begins here: an optional sign, then zeros only.
  predicate ZeroFrom(z: string, q: nat) {
    var d := if At(z, q) == '+' || At(z, q) == '-' then q + 1 else q;
    d < |z| && var e := Run(z, d, Digits);
    d < e && forall k | d <= k < e :: z[k] == '0'
  }

  // The text reads as "if", blanks, and an integer that is zero (1041).
  predicate IfZero(z: string, p: nat) {
    StartsWith(z, p, "if") && ZeroFrom(z, Run(z, p + 2, Blanks))
  }

  // How deep in "#if 0" regions the text is behind a token that was found at the given depth.
  function DepthBehind(z: string, kind: Kind, start: nat, depth: nat): nat
    requires start < |z|
  {
    if kind != Directive then depth
    else
      var p := SkipTabs(z, start + 1);
      if IfZero(z, p) then depth + 1
      else if depth > 0 && StartsWith(z, p, "if") then depth + 1
      else if depth > 0 && StartsWith(z, p, "endif") then depth - 1
      else depth
  }

  // A token that GetNonspaceToken returns.
  predicate Shows(z: string, kind: Kind, start: nat, depth: nat)
    requires start < |z|
  {
    depth == 0 && kind != Space && kind != Comment && kind != BlockComment
    && !(kind == Directive && IfZero(z, SkipTabs(z, start + 1)))
  }

  // The token found, with the errors on the way to it.
  datatype Found = Found(kind: Kind, start: nat, end: nat, errors: nat)

  // The next visible token from position i on.
  function Next(z: string, i: nat, depth: nat): (f: Found)
    requires i <= |z|
    ensures i <= f.start <= |z| && f.start <= f.end
    ensures f.kind == Eof <==> f.start >= |z|
    ensures f.kind != Eof ==> f.start < f.end
    ensures f.kind == Eof ==> f.end == f.start
    decreases |z| - i
  {
    var r := Scan(z, i);
    if i == |z| then Found(Eof, i, i, if depth > 0 then 1 else 0)
    else if Shows(z, r.kind, i, depth) then Found(r.kind, i, r.end, r.errors)
    else if r.end > |z| then Found(Eof, |z|, |z|, 0)
    else
      var f := Next(z, r.end, DepthBehind(z, r.kind, i, depth));
      f.(errors := f.errors + r.errors)
  }

  lemma {:induction false} NextIsSafe(z: string, i: nat, depth: nat)
    requires i <= |z| && Safe(z, i)
    ensures var f := Next(z, i, depth); f.end <= |z| && Safe(z, f.end)
    decreases |z| - i
  {
    hide Scan, Shows, DepthBehind;
    var r := Scan(z, i);
    if i < |z| && !Shows(z, r.kind, i, depth) {
      NextIsSafe(z, r.end, DepthBehind(z, r.kind, i, depth));
    }
  }

  // 1003-1064
  method GetNonspaceToken(s: InStream) returns (token: Token, nErr: nat)
    requires s.Valid() && Safe(s.z, s.i)
    modifies s
    ensures s.Valid() && Safe(s.z, s.i)
    ensures var f := Next(s.z, old(s.i), 0);
            && s.i == f.end && nErr == f.errors
            && token == Token(f.kind, f.start, f.end - f.start, old(s.nLine) + Newlines(s.z, old(s.i), f.start))
    ensures s.nLine == old(s.nLine) + Newlines(s.z, old(s.i), s.i)
  {
    hide Scan, IfZero, StartsWith, SkipTabs, Newlines, DepthBehind, Shows, Next;
    var nIf: nat, inZero := 0, false;
    ghost var goal := Next(s.z, s.i, 0);
    nErr := 0;
    NoNewlines(s.z, s.i, s.i);
    while true
      invariant s.Valid() && Safe(s.z, s.i) && old(s.i) <= s.i
      invariant inZero <==> nIf > 0
      invariant var f := Next(s.z, s.i, nIf); goal == f.(errors := f.errors + nErr)
      invariant s.nLine == old(s.nLine) + Newlines(s.z, old(s.i), s.i)
      decreases |s.z| - s.i
    {
      ghost var i, depth := s.i, nIf;
      var e;
      token, e := s.GetToken();
      nErr := nErr + e;
      NewlinesSplit(s.z, old(s.i), i, s.i);
      Behind(s.z, i, depth);
      NextStep(s.z, i, depth);
      match token.kind
      case Comment | Space | BlockComment =>
      case Eof =>
        if nIf > 0 {
          nErr := nErr + 1;
        }
        return;
      case Directive =>
        var p := ToCommand(s.z, token.start + 1);
        if IfZero(s.z, p) {
          nIf := nIf + 1;
          inZero := true;
        } else if inZero {
          if StartsWith(s.z, p, "if") {
            nIf := nIf + 1;
          } else if StartsWith(s.z, p, "endif") {
            nIf := nIf - 1;
            if nIf == 0 {
              inZero := false;
            }
          }
        } else {
          return;
        }
      case _ =>
        if !inZero {
          return;
        }
    }
  }

  lemma NextStep(z: string, i: nat, depth: nat)
    requires i <= |z|
    ensures var r, f := Scan(z, i), Next(z, i, depth);
            if i == |z| then f == Found(Eof, i, i, if depth > 0 then 1 else 0)
            else if Shows(z, r.kind, i, depth) then f == Found(r.kind, i, r.end, r.errors)
            else r.end <= |z| ==>
              var g := Next(z, r.end, DepthBehind(z, r.kind, i, depth)); f == g.(errors := g.errors + r.errors)
  {
    hide Shows, DepthBehind, Scan;
  }

  // The cases of the switch.
  lemma Behind(z: string, i: nat, depth: nat)
    requires i <= |z|
    ensures var kind := Scan(z, i).kind;
            kind == Eof || (
              && (kind == Space || kind == Comment || kind == BlockComment ==>
                    !Shows(z, kind, i, depth) && DepthBehind(z, kind, i, depth) == depth)
              && (kind == Directive ==>
                    var p := SkipTabs(z, i + 1);
                    && (Shows(z, kind, i, depth) <==> depth == 0 && !IfZero(z, p))
                    && DepthBehind(z, kind, i, depth) ==
                       if IfZero(z, p) || (depth > 0 && StartsWith(z, p, "if")) then depth + 1
                       else if depth > 0 && StartsWith(z, p, "endif") then depth - 1
                       else depth)
              && (kind != Space && kind != Comment && kind != BlockComment && kind != Directive ==>
                    (Shows(z, kind, i, depth) <==> depth == 0) && DepthBehind(z, kind, i, depth) == depth))
  {
    hide IfZero, StartsWith, SkipTabs;
  }

  // 1038-1039
  method ToCommand(z: string, start: nat) returns (p: nat)
    requires start <= |z|
    ensures p == SkipTabs(z, start)
  {
    p := start;
    while At(z, p) == ' ' || At(z, p) == '\t'
      invariant start <= p <= |z|
      invariant SkipTabs(z, p) == SkipTabs(z, start)
      decreases |z| - p
    {
      p := p + 1;
    }
  }

  // ---------------------------------------------------------------------------------------------
  // The same as a filter of all tokens

  datatype Span = Span(kind: Kind, start: nat, end: nat)

  function SpanOf(f: Found): Span {
    Span(f.kind, f.start, f.end)
  }

  // What successive calls of GetNonspaceToken return, up to the end of the text.
  ghost function Stream(z: string, i: nat): (spans: seq<Span>)
    ensures spans != []
    decreases |z| + 1 - i
  {
    if i > |z| then [Span(Eof, i, i)]
    else
      var f := Next(z, i, 0);
      [SpanOf(f)] + if f.kind == Eof then [] else Stream(z, f.end)
  }

  // A directive that reads as an #if of zero.
  predicate OpensZero(z: string, t: Token)
    requires t.start < |z|
  {
    t.kind == Directive && IfZero(z, SkipTabs(z, t.start + 1))
  }

  // The tokens of ts that are neither space nor comment, outside of all "#if 0" regions; the text before ts
  // is that deep in such regions.
  ghost function Outside(z: string, ts: seq<Token>, depth: nat): seq<Span> {
    if ts == [] then []
    else
      var t := ts[0];
      if t.start >= |z| then [Span(Eof, t.start, t.start)]
      else
        (if depth == 0 && t.kind !in {Space, Comment, BlockComment} && !OpensZero(z, t)
         then [Span(t.kind, t.start, t.start + t.len)] else [])
        + Outside(z, ts[1..], DepthBehind(z, t.kind, t.start, depth))
  }

  lemma {:induction false} NextIsFirstOutside(z: string, i: nat, line: nat, depth: nat)
    requires Safe(z, i)
    ensures var f := Next(z, i, depth);
            exists more ::
              Outside(z, Tokens(z, i, line), depth)
              == [SpanOf(f)] + if f.kind == Eof then [] else Outside(z, Tokens(z, f.end, more), 0)
    decreases |z| - i
  {
    hide Scan, Shows, DepthBehind, Newlines, Next, Tokens, OpensZero;
    var r := Scan(z, i);
    NextStep(z, i, depth);
    if i == |z| {
      TokensEnd(z, i, line);
    } else {
      var more := line + Newlines(z, i, r.end);
      TokensStep(z, i, line);
      assert Tokens(z, i, line)[1..] == Tokens(z, r.end, more);
      ShowsIs(z, Tokens(z, i, line)[0], depth);
      if Shows(z, r.kind, i, depth) {
        ShownKeepsDepth(z, r.kind, i, depth);
      } else {
        NextIsFirstOutside(z, r.end, more, DepthBehind(z, r.kind, i, depth));
        assert forall s: seq<Span> :: [] + s == s;
      }
    }
  }

  lemma ShowsIs(z: string, t: Token, depth: nat)
    requires t.start < |z|
    ensures Shows(z, t.kind, t.start, depth)
            <==> depth == 0 && t.kind !in {Space, Comment, BlockComment} && !OpensZero(z, t)
  {
    hide IfZero, SkipTabs;
  }

  lemma ShownKeepsDepth(z: string, kind: Kind, start: nat, depth: nat)
    requires start < |z| && Shows(z, kind, start, depth)
    ensures DepthBehind(z, kind, start, depth) == 0
  {
  }

  // GetNonspaceToken returns, one after the other, exactly the tokens of the text that are neither
  // space nor comment and lie outside of all "#if 0" regions.
  lemma {:induction false} StreamIsOutside(z: string, i: nat, line: nat)
    requires Safe(z, i)
    ensures Stream(z, i) == Outside(z, Tokens(z, i, line), 0)
    decreases |z| + 1 - i
  {
    hide Next, Outside, Tokens, Safe;
    SafeStaysIn(z, i);
    var f := Next(z, i, 0);
    NextIsFirstOutside(z, i, line, 0);
    if f.kind != Eof {
      NextIsSafe(z, i, 0);
      var more :| Outside(z, Tokens(z, i, line), 0) == [SpanOf(f)] + Outside(z, Tokens(z, f.end, more), 0);
      StreamIsOutside(z, f.end, more);
    }
  }

  lemma SafeStaysIn(z: string, i: nat)
    requires Safe(z, i)
    ensures i <= |z|
  {
  }

  // ---------------------------------------------------------------------------------------------
  // Errors

  // Those of successive calls of GetNonspaceToken.
  ghost function StreamErrors(z: string, i: nat): nat
    decreases |z| + 1 - i
  {
    if i > |z| then 0
    else
      var f := Next(z, i, 0);
      f.errors + if f.kind == Eof then 0 else StreamErrors(z, f.end)
  }

  // Those of the tokens.
  ghost function TokenErrors(z: string, ts: seq<Token>): nat {
    if ts == [] then 0
    else (if ts[0].start <= |z| then Scan(z, ts[0].start).errors else 0) + TokenErrors(z, ts[1..])
  }

  // How deep in "#if 0" regions the text ends.
  ghost function EndDepth(z: string, ts: seq<Token>, depth: nat): nat {
    if ts == [] || ts[0].start >= |z| then depth
    else EndDepth(z, ts[1..], DepthBehind(z, ts[0].kind, ts[0].start, depth))
  }

  // The errors from position i on, in a text that is that deep in "#if 0" regions there.
  ghost function Expected(z: string, ts: seq<Token>, depth: nat): nat {
    TokenErrors(z, ts) + if EndDepth(z, ts, depth) > 0 then 1 else 0
  }

  lemma ExpectedStep(z: string, i: nat, line: nat, depth: nat)
    requires Safe(z, i)
    ensures var ts := Tokens(z, i, line);
            if i == |z| then Expected(z, ts, depth) == if depth > 0 then 1 else 0
            else
              var r := Scan(z, i);
              var more := line + Newlines(z, i, r.end);
              Expected(z, ts, depth)
              == r.errors + Expected(z, Tokens(z, r.end, more), DepthBehind(z, r.kind, i, depth))
  {
    hide Scan, DepthBehind, Newlines, Tokens;
    if i == |z| {
      TokensEnd(z, i, line);
      var ts := Tokens(z, i, line);
      assert ts[1..] == [] && Scan(z, ts[0].start).errors == 0;
      assert TokenErrors(z, ts) == 0 && EndDepth(z, ts, depth) == depth;
    } else {
      TokensStep(z, i, line);
      assert Tokens(z, i, line)[1..] == Tokens(z, Scan(z, i).end, line + Newlines(z, i, Scan(z, i).end));
    }
  }

  lemma {:induction false} NextErrors(z: string, i: nat, line: nat, depth: nat)
    requires Safe(z, i)
    ensures i <= |z|
    ensures var f := Next(z, i, depth);
            exists more ::
              Expected(z, Tokens(z, i, line), depth)
              == f.errors + if f.kind == Eof then 0 else Expected(z, Tokens(z, f.end, more), 0)
    decreases |z| - i
  {
    hide Scan, Shows, DepthBehind, Newlines, Next, Tokens, Expected;
    SafeStaysIn(z, i);
    var r := Scan(z, i);
    NextStep(z, i, depth);
    ExpectedStep(z, i, line, depth);
    if i < |z| {
      if Shows(z, r.kind, i, depth) {
        ShownKeepsDepth(z, r.kind, i, depth);
      } else {
        NextErrors(z, r.end, line + Newlines(z, i, r.end), DepthBehind(z, r.kind, i, depth));
      }
    }
  }

  // Successive calls report the errors of all tokens, of comments and of what is within "#if 0" regions too,
  // and one more if such a region is still open at the end of the text.
  lemma {:induction false} AllErrorsAreReported(z: string, i: nat, line: nat)
    requires Safe(z, i)
    ensures StreamErrors(z, i) == Expected(z, Tokens(z, i, line), 0)
    decreases |z| + 1 - i
  {
    hide Next, Tokens, Safe, Expected;
    SafeStaysIn(z, i);
    var f := Next(z, i, 0);
    NextErrors(z, i, line, 0);
    if f.kind != Eof {
      NextIsSafe(z, i, 0);
      var more :| Expected(z, Tokens(z, i, line), 0) == f.errors + Expected(z, Tokens(z, f.end, more), 0);
      AllErrorsAreReported(z, f.end, more);
    }
  }
}

// Collapsing braces in tools/cnoh.c: GetBigToken (1107-1183) and TokenizeFile (1208-1241).

module Braces {
  import opened Lexemes
  import opened Tokenizer
  import opened Visible

  // One more or one less brace is open behind a token.
  function BracesBehind(z: string, f: Found, open: nat): int
    requires f.start < |z|
  {
    if f.kind != Other then open
    else if z[f.start] == '{' then open + 1
    else if z[f.start] == '}' then open - 1
    else open
  }

  // Where the brace that closes the open ones ends. Without one the kind is Error.
  function Close(z: string, i: nat, open: nat): (f: Found)
    requires i <= |z| && open > 0
    ensures i <= f.start <= f.end && (f.kind == Error ==> f.errors > 0)
    ensures f.kind == Error || f.kind == Braces
    decreases |z| - i
  {
    var f := Next(z, i, 0);
    if f.kind == Eof then Found(Error, f.start, f.end, f.errors + 1)
    else
      var more := BracesBehind(z, f, open);
      if more <= 0 then Found(Braces, f.start, f.end, f.errors)
      else if f.end > |z| then Found(Error, f.start, f.end, f.errors + 1)
      else
        var g := Close(z, f.end, more);
        g.(errors := f.errors + g.errors)
  }

  // The next token from position i on, with everything in {...} taken as one.
  function Big(z: string, i: nat): (f: Found)
    requires i <= |z|
    ensures i <= f.start <= f.end
    ensures f.kind != Eof && f.kind != Error ==> f.start < f.end
  {
    var f := Next(z, i, 0);
    if f.kind == Other && z[f.start] == '{' && f.end <= |z| then
      var c := Close(z, f.end, 1);
      if c.kind == Error then c.(errors := f.errors + c.errors)
      else Found(Braces, f.start, c.end, f.errors + c.errors)
    else f
  }

  lemma {:induction false} CloseIsSafe(z: string, i: nat, open: nat)
    requires i <= |z| && Safe(z, i) && open > 0
    ensures var f := Close(z, i, open); f.end <= |z| && Safe(z, f.end)
    decreases |z| - i
  {
    hide Next, BracesBehind, Safe;
    var f := Next(z, i, 0);
    NextIsSafe(z, i, 0);
    if f.kind != Eof && BracesBehind(z, f, open) > 0 {
      CloseIsSafe(z, f.end, BracesBehind(z, f, open));
    }
  }

  lemma BigIsSafe(z: string, i: nat)
    requires i <= |z| && Safe(z, i)
    ensures var f := Big(z, i); f.end <= |z| && Safe(z, f.end)
  {
    hide Next, Close, Safe;
    var f := Next(z, i, 0);
    NextIsSafe(z, i, 0);
    if f.kind == Other && z[f.start] == '{' {
      CloseIsSafe(z, f.end, 1);
    }
  }

  // 1107-1183, without the table of identifiers
  method GetBigToken(s: InStream) returns (token: Token, nErr: nat)
    requires s.Valid() && Safe(s.z, s.i)
    modifies s
    ensures s.Valid() && Safe(s.z, s.i)
    ensures var f := Big(s.z, old(s.i));
            && s.i == f.end && nErr == f.errors
            && token == Token(f.kind, f.start, f.end - f.start, old(s.nLine) + Newlines(s.z, old(s.i), f.start))
    ensures s.nLine == old(s.nLine) + Newlines(s.z, old(s.i), s.i)
  {
    hide Next, Newlines, Safe, Close, BracesBehind;
    token, nErr := GetNonspaceToken(s);
    if token.kind != Other || s.z[token.start] != '{' {
      return;
    }
    var first := token;
    ghost var goal, e0 := Close(s.z, s.i, 1), nErr;
    var nBrace := 1;
    while nBrace > 0
      invariant s.Valid() && Safe(s.z, s.i) && old(s.i) <= first.start < s.i
      invariant nBrace >= 0
      invariant nErr >= e0
      invariant nBrace > 0 ==> var f := Close(s.z, s.i, nBrace); goal == f.(errors := f.errors + nErr - e0)
      invariant nBrace == 0 ==> goal.kind == Braces && goal.end == s.i && nErr == goal.errors + e0
      invariant s.nLine == old(s.nLine) + Newlines(s.z, old(s.i), s.i)
      decreases |s.z| - s.i, nBrace
    {
      ghost var i := s.i;
      var e;
      token, e := GetNonspaceToken(s);
      nErr := nErr + e;
      NewlinesSplit(s.z, old(s.i), i, s.i);
      NewlinesSplit(s.z, old(s.i), i, token.start);
      CloseStep(s.z, i, nBrace);
      if token.kind == Eof {
        nErr := nErr + 1;
        token := token.(kind := Error);
        return;
      }
      if token.kind == Other {
        var c := s.z[token.start];
        if c == '{' {
          nBrace := nBrace + 1;
        } else if c == '}' {
          nBrace := nBrace - 1;
        }
      }
    }
    token := Token(Braces, first.start, s.i - first.start, first.line);
  }

  lemma CloseStep(z: string, i: nat, open: nat)
    requires i <= |z| && Safe(z, i) && open > 0
    ensures var f, c := Next(z, i, 0), Close(z, i, open);
            if f.kind == Eof then c == Found(Error, f.start, f.end, f.errors + 1)
            else
              var more := if f.kind != Other then open
                          else if z[f.start] == '{' then open + 1 else if z[f.start] == '}' then open - 1 else open;
              if more == 0 then c == Found(Braces, f.start, f.end, f.errors)
              else f.end <= |z| && var g := Close(z, f.end, more); c == g.(errors := f.errors + g.errors)
  {
    hide Next, Safe;
    NextIsSafe(z, i, 0);
  }

  // ---------------------------------------------------------------------------------------------
  // What a pair of braces is

  // The braces that a visible token opens; negative for a closing one.
  function Delta(z: string, t: Span): int {
    if t.kind != Other then 0 else if At(z, t.start) == '{' then 1 else if At(z, t.start) == '}' then -1 else 0
  }

  function Nesting(z: string, ts: seq<Span>): int {
    if ts == [] then 0 else Delta(z, ts[0]) + Nesting(z, ts[1..])
  }

  // Behind the first k tokens for any k <= m, starting from "open", some brace is open.
  ghost predicate StaysOpen(z: string, ts: seq<Span>, open: int, m: nat) {
    forall k | 0 <= k <= m && k <= |ts| :: open + Nesting(z, ts[..k]) > 0
  }

  // The first m + 1 tokens close what was open, and no fewer do; the last of them is the "}" that
  // ends at "end".
  ghost predicate ClosesAt(z: string, ts: seq<Span>, open: int, m: nat, end: nat) {
    && m < |ts|
    && StaysOpen(z, ts, open, m)
    && open + Nesting(z, ts[..m + 1]) == 0
    && ts[m].kind == Other && At(z, ts[m].start) == '}' && ts[m].end == end == ts[m].start + 1
  }

  lemma NestingNext(z: string, t: Span, ts: seq<Span>, k: nat)
    requires k <= |ts|
    ensures ([t] + ts)[..k + 1] == [t] + ts[..k]
    ensures Nesting(z, ([t] + ts)[..k + 1]) == Delta(z, t) + Nesting(z, ts[..k])
  {
    assert ([t] + ts[..k])[1..] == ts[..k];
  }

  lemma StaysOpenNext(z: string, t: Span, ts: seq<Span>, open: int, m: nat)
    requires open > 0 && StaysOpen(z, ts, open + Delta(z, t), m)
    ensures StaysOpen(z, [t] + ts, open, m + 1)
  {
    hide Delta;
    forall k | 0 <= k <= m + 1 && k <= |[t] + ts| ensures open + Nesting(z, ([t] + ts)[..k]) > 0 {
      if k > 0 {
        NestingNext(z, t, ts, k - 1);
      }
    }
  }

  lemma ClosesNext(z: string, t: Span, ts: seq<Span>, open: int, m: nat, end: nat)
    requires open > 0 && ClosesAt(z, ts, open + Delta(z, t), m, end)
    ensures ClosesAt(z, [t] + ts, open, m + 1, end)
  {
    hide Delta, StaysOpen;
    StaysOpenNext(z, t, ts, open, m);
    NestingNext(z, t, ts, m + 1);
  }

  lemma ClosesFirst(z: string, t: Span, ts: seq<Span>)
    requires t.kind == Other && At(z, t.start) == '}' && t.end == t.start + 1
    ensures ClosesAt(z, [t] + ts, 1, 0, t.end)
  {
    assert ([t] + ts)[..1] == [t] && [t][1..] == [];
    assert Nesting(z, [t]) == -1;
  }

  lemma EndStaysOpen(z: string, t: Span, open: int)
    requires open > 0 && t.kind == Eof
    ensures StaysOpen(z, [t], open, 1)
  {
    assert forall k | 0 <= k <= 1 :: [t][..k] == if k == 0 then [] else [t];
    assert [t][1..] == [];
    assert Nesting(z, [t]) == 0;
  }

  // A brace is a token of its own.
  lemma {:induction false} BraceIsOneCharacter(z: string, i: nat, depth: nat)
    requires i <= |z|
    ensures var f := Next(z, i, depth);
            f.kind == Other && f.start < |z| && (z[f.start] == '{' || z[f.start] == '}') ==> f.end == f.start + 1
    decreases |z| - i
  {
    hide Shows, DepthBehind;
    var r := Scan(z, i);
    if i < |z| && r.end <= |z| && !Shows(z, r.kind, i, depth) {
      BraceIsOneCharacter(z, r.end, DepthBehind(z, r.kind, i, depth));
    }
  }

  lemma StreamStep(z: string, i: nat)
    requires i <= |z|
    ensures var f := Next(z, i, 0);
            Stream(z, i) == if f.kind == Eof then [SpanOf(f)] else [SpanOf(f)] + Stream(z, f.end)
  {
    hide Next;
  }

  lemma {:induction false} CloseIsFirst(z: string, i: nat, open: nat)
    requires Safe(z, i) && i <= |z| && open > 0
    ensures var c, ts := Close(z, i, open), Stream(z, i);
            if c.kind == Braces then exists m :: ClosesAt(z, ts, open, m, c.end)
            else StaysOpen(z, ts, open, |ts|)
    decreases |z| - i
  {
    hide Next, Close, Stream, Safe, ClosesAt, StaysOpen;
    var f, ts := Next(z, i, 0), Stream(z, i);
    CloseStep(z, i, open);
    StreamStep(z, i);
    NextIsSafe(z, i, 0);
    BraceIsOneCharacter(z, i, 0);
    if f.kind == Eof {
      EndStaysOpen(z, SpanOf(f), open);
    } else {
      var t := SpanOf(f);
      var more := open + Delta(z, t);
      if more == 0 {
        ClosesFirst(z, t, Stream(z, f.end));
      } else {
        CloseIsFirst(z, f.end, more);
        var c, rest := Close(z, f.end, more), Stream(z, f.end);
        if c.kind == Braces {
          var m :| ClosesAt(z, rest, more, m, c.end);
          ClosesNext(z, t, rest, open, m, c.end);
        } else {
          StaysOpenNext(z, t, rest, open, |rest|);
        }
      }
    }
  }

  // A token in braces runs from its "{" to the first position behind it where as many braces have been
  // closed as opened, counting the visible tokens only; without such a position it is an error.
  lemma {:induction false} BracesMatch(z: string, i: nat)
    requires Safe(z, i) && i <= |z|
    ensures var b, ts := Big(z, i), Stream(z, i);
            if Delta(z, ts[0]) == 1 then
              && (b.kind == Braces || b.kind == Error)
              && (b.kind == Braces ==> b.start == ts[0].start && exists m :: ClosesAt(z, ts[1..], 1, m, b.end))
              && (b.kind == Error ==> b.errors > 0 && StaysOpen(z, ts[1..], 1, |ts| - 1))
            else SpanOf(b) == ts[0]
  {
    hide Next, Close, Stream, Safe, ClosesAt, StaysOpen;
    var f, ts := Next(z, i, 0), Stream(z, i);
    StreamStep(z, i);
    NextIsSafe(z, i, 0);
    if f.kind != Eof {
      assert ts[1..] == Stream(z, f.end);
      if f.kind == Other && z[f.start] == '{' {
        CloseIsFirst(z, f.end, 1);
      }
    }
  }
}

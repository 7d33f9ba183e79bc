// TokenizeFile of tools/cnoh.c (1208-1241): the list of all tokens of a file.

module TokenList {
  import opened Lexemes
  import opened Tokenizer
  import opened Visible
  import opened Braces
  import opened Sequences

  // The tokens of the list. A text that ends in space or comment leaves an Eof token at its end.
  ghost function BigTokens(z: string, i: nat, line: nat): seq<Token>
    decreases |z| + 1 - i
  {
    if i >= |z| then []
    else
      var f := Big(z, i);
      [Token(f.kind, f.start, f.end - f.start, line + Newlines(z, i, f.start))]
      + if f.kind == Eof || f.end <= i then [] else BigTokens(z, f.end, line + Newlines(z, i, f.end))
  }

  ghost function BigErrors(z: string, i: nat): nat
    decreases |z| + 1 - i
  {
    if i >= |z| then 0
    else
      var f := Big(z, i);
      f.errors + if f.kind == Eof || f.end <= i then 0 else BigErrors(z, f.end)
  }

  // Token of the original, in its list.
  class Node {
    const token: Token
    var pNext: Node?
    var pPrev: Node?

    constructor (token: Token)
      ensures this.token == token && pNext == null && pPrev == null
    {
      this.token, pNext, pPrev := token, null, null;
    }
  }

  // From "first" on, the list consists of exactly these nodes, linked both ways.
  ghost predicate Linked(first: Node?, nodes: seq<Node>)
    reads nodes
  {
    && (first == if nodes == [] then null else nodes[0])
    && (forall i, j | 0 <= i < j < |nodes| :: nodes[i] != nodes[j])
    && (forall i {:trigger nodes[i].pNext} | 0 <= i < |nodes| ::
          nodes[i].pNext == if i + 1 < |nodes| then nodes[i + 1] else null)
    && (forall i {:trigger nodes[i].pPrev} | 0 <= i < |nodes| ::
          nodes[i].pPrev == if i > 0 then nodes[i - 1] else null)
  }

  ghost function TokensOf(nodes: seq<Node>): (ts: seq<Token>)
    ensures |ts| == |nodes| && forall i | 0 <= i < |nodes| :: ts[i] == nodes[i].token
  {
    if nodes == [] then [] else TokensOf(nodes[..|nodes| - 1]) + [nodes[|nodes| - 1].token]
  }

  // 1218-1231: links a new node behind the last one.
  method Append(first: Node?, last: Node?, node: Node, ghost nodes: seq<Node>) returns (newFirst: Node)
    requires Linked(first, nodes) && node !in nodes && node.pNext == null && node.pPrev == null
    requires last == if nodes == [] then null else nodes[|nodes| - 1]
    modifies node, nodes
    ensures Linked(newFirst, nodes + [node])
  {
    if last == null {
      newFirst := node;
    } else {
      newFirst := first;
      last.pNext := node;
      node.pPrev := last;
    }
  }

  lemma TokensOfMore(nodes: seq<Node>, node: Node)
    ensures TokensOf(nodes + [node]) == TokensOf(nodes) + [node.token]
  {
    assert (nodes + [node])[..|nodes|] == nodes;
  }

  method TokenizeFile(z: string) returns (pFirst: Node?, ghost nodes: seq<Node>)
    requires CString(z) && Safe(z, 0)
    ensures Linked(pFirst, nodes) && fresh(nodes)
    ensures TokensOf(nodes) == if BigErrors(z, 0) == 0 then BigTokens(z, 0, 1) else []
  {
    hide Big, Newlines, Safe, TokensOf, Linked, BigTokens, BigErrors;
    var sIn := new InStream(z);
    var nErr := 0;
    var pLast: Node? := null;
    pFirst, nodes := null, [];
    ghost var done := false;
    NoNodes();
    assert [] + BigTokens(z, 0, 1) == BigTokens(z, 0, 1);
    while At(sIn.z, sIn.i) != NUL
      invariant sIn.z == z && sIn.Valid() && Safe(z, sIn.i) && fresh(sIn) && fresh(nodes)
      invariant Linked(pFirst, nodes) && pLast == if nodes == [] then null else nodes[|nodes| - 1]
      invariant TokensOf(nodes) + BigTokens(z, sIn.i, sIn.nLine) == BigTokens(z, 0, 1)
      invariant nErr + BigErrors(z, sIn.i) == BigErrors(z, 0)
      decreases |z| - sIn.i
    {
      ghost var i, line := sIn.i, sIn.nLine;
      var token, e := GetBigToken(sIn);
      nErr := nErr + e;
      var pNew := new Node(token);
      BigTokensStep(z, i, line);
      BigMoves(z, i);
      TokensOfMore(nodes, pNew);
      Regroup(TokensOf(nodes), [token], BigTokens(z, sIn.i, sIn.nLine));
      pFirst := Append(pFirst, pLast, pNew, nodes);
      pLast := pNew;
      nodes := nodes + [pNew];
      if token.kind == Eof {
        AtEnd(z, sIn.i, sIn.nLine);
        break;
      }
    }
    AtEnd(z, sIn.i, sIn.nLine);
    if nErr > 0 {
      pFirst, nodes := null, [];
      NoNodes();
    }
  }

  lemma NoNodes()
    ensures Linked(null, []) && TokensOf([]) == []
  {
  }

  lemma BigTokensUnfold(z: string, i: nat, line: nat)
    requires i < |z|
    ensures var f := Big(z, i);
            var rest := if f.kind == Eof || f.end <= i then [] else BigTokens(z, f.end, line + Newlines(z, i, f.end));
            BigTokens(z, i, line) == [Token(f.kind, f.start, f.end - f.start, line + Newlines(z, i, f.start))] + rest
  {
    hide Big, Newlines;
  }

  lemma BigErrorsUnfold(z: string, i: nat)
    requires i < |z|
    ensures var f := Big(z, i);
            BigErrors(z, i) == f.errors + if f.kind == Eof || f.end <= i then 0 else BigErrors(z, f.end)
  {
    hide Big;
  }

  lemma BigTokensStep(z: string, i: nat, line: nat)
    requires i < |z| && Safe(z, i)
    ensures var f := Big(z, i);
            && BigTokens(z, i, line)
               == [Token(f.kind, f.start, f.end - f.start, line + Newlines(z, i, f.start))]
                  + BigTokens(z, f.end, line + Newlines(z, i, f.end))
            && BigErrors(z, i) == f.errors + BigErrors(z, f.end)
  {
    hide Big, Newlines, BigTokens, BigErrors, Safe;
    BigMoves(z, i);
    BigTokensUnfold(z, i, line);
    BigErrorsUnfold(z, i);
    var f := Big(z, i);
    if f.kind == Eof {
      AtEnd(z, f.end, line + Newlines(z, i, f.end));
    }
  }

  lemma AtEnd(z: string, i: nat, line: nat)
    requires i >= |z|
    ensures BigTokens(z, i, line) == [] && BigErrors(z, i) == 0
  {
  }

  lemma BigMoves(z: string, i: nat)
    requires i < |z| && Safe(z, i)
    ensures i < Big(z, i).end <= |z| && Safe(z, Big(z, i).end)
    ensures Big(z, i).kind == Eof || Big(z, i).kind == Error ==> Big(z, i).end == |z|
  {
    hide Next, Close, Safe;
    BigIsSafe(z, i);
    NextIsSafe(z, i, 0);
    var f := Next(z, i, 0);
    NextIsNoError(z, i, 0);
    if f.kind == Other && z[f.start] == '{' {
      CloseEnds(z, f.end, 1);
    }
  }

  lemma {:induction false} NextIsNoError(z: string, i: nat, depth: nat)
    requires i <= |z|
    ensures Next(z, i, depth).kind != Error && Next(z, i, depth).kind != Braces
    ensures Next(z, i, depth).kind == Eof ==> Next(z, i, depth).end == |z|
    decreases |z| - i
  {
    hide Shows, DepthBehind, Literal, CComment, Run, Decimal;
    var r := Scan(z, i);
    if i < |z| && r.end <= |z| && !Shows(z, r.kind, i, depth) {
      NextIsNoError(z, r.end, DepthBehind(z, r.kind, i, depth));
    }
  }

  lemma {:induction false} CloseEnds(z: string, i: nat, open: nat)
    requires i <= |z| && Safe(z, i) && open > 0
    ensures Close(z, i, open).kind == Error ==> Close(z, i, open).end == |z|
    ensures Close(z, i, open).kind == Braces ==> i < Close(z, i, open).end
    decreases |z| - i
  {
    hide Next, Safe, Close;
    CloseStep(z, i, open);
    NextIsSafe(z, i, 0);
    NextIsNoError(z, i, 0);
    var f := Next(z, i, 0);
    var more := open + Delta(z, SpanOf(f));
    if f.kind != Eof && more > 0 {
      CloseEnds(z, f.end, more);
    }
  }

  // ---------------------------------------------------------------------------------------------
  // The list covers the text in order

  // Token k lies within z, behind the one before it, and carries the number of its line.
  ghost predicate Ordered(z: string, i: nat, line: nat, ts: seq<Token>) {
    && (forall k | 0 <= k < |ts| :: i <= ts[k].start && ts[k].start + ts[k].len <= |z|)
    && (forall k | 0 <= k < |ts| :: ts[k].line == line + Newlines(z, i, ts[k].start))
    && (forall j, k | 0 <= j < k < |ts| :: ts[j].start + ts[j].len <= ts[k].start)
  }

  lemma OrderedCons(z: string, i: nat, line: nat, t: Token, j: nat, ts: seq<Token>)
    requires i <= t.start && t.start + t.len == j <= |z| && t.line == line + Newlines(z, i, t.start)
    requires Ordered(z, j, line + Newlines(z, i, j), ts)
    ensures Ordered(z, i, line, [t] + ts)
  {
    hide Newlines;
    var all := [t] + ts;
    assert forall k | 0 < k < |all| :: all[k] == ts[k - 1];
    forall k | 0 <= k < |all| ensures all[k].line == line + Newlines(z, i, all[k].start) {
      if k > 0 {
        NewlinesSplit(z, i, j, all[k].start);
      }
    }
  }

  lemma {:induction false} ListIsOrdered(z: string, i: nat, line: nat)
    requires Safe(z, i)
    ensures Ordered(z, i, line, BigTokens(z, i, line))
    decreases |z| + 1 - i
  {
    hide Big, Safe, Ordered, Newlines, BigTokens, BigErrors;
    if i >= |z| {
      AtEnd(z, i, line);
      NoneOrdered(z, i, line);
    } else {
      var f := Big(z, i);
      var more := line + Newlines(z, i, f.end);
      BigMoves(z, i);
      BigTokensStep(z, i, line);
      ListIsOrdered(z, f.end, more);
      var t := Token(f.kind, f.start, f.end - f.start, line + Newlines(z, i, f.start));
      OrderedCons(z, i, line, t, f.end, BigTokens(z, f.end, more));
    }
  }

  lemma NoneOrdered(z: string, i: nat, line: nat)
    ensures Ordered(z, i, line, [])
  {
  }

  // ---------------------------------------------------------------------------------------------
  // Nothing visible is lost

  ghost predicate CoveredBy(s: Span, t: Token) {
    t.start <= s.start && s.end <= t.start + t.len
  }

  // Each of the spans but Eof lies in a token of the list.
  ghost predicate Covers(ts: seq<Token>, spans: seq<Span>) {
    forall j | 0 <= j < |spans| && spans[j].kind != Eof :: exists k :: 0 <= k < |ts| && CoveredBy(spans[j], ts[k])
  }

  ghost predicate AllWithin(spans: seq<Span>, i: nat, j: nat) {
    forall k | 0 <= k < |spans| :: i <= spans[k].start && spans[k].end <= j
  }

  // The list is "first", all of it between i and j, and then "rest".
  ghost predicate Leads(spans: seq<Span>, first: seq<Span>, rest: seq<Span>, i: nat, j: nat) {
    spans == first + rest && AllWithin(first, i, j)
  }

  lemma LeadsOne(t: Span, rest: seq<Span>, i: nat, j: nat)
    requires i <= t.start && t.end <= j
    ensures Leads([t] + rest, [t], rest, i, j)
  {
  }

  lemma LeadsMore(t: Span, spans: seq<Span>, first: seq<Span>, rest: seq<Span>, i: nat, m: nat, j: nat)
    requires i <= t.start <= t.end <= m <= j && Leads(spans, first, rest, m, j)
    ensures Leads([t] + spans, [t] + first, rest, i, j)
  {
    assert [t] + (first + rest) == [t] + first + rest;
  }

  // The visible tokens up to a closing brace.
  lemma {:induction false} StreamBehind(z: string, i: nat, open: nat)
    requires i <= |z| && Safe(z, i) && open > 0 && Close(z, i, open).kind == Braces
    ensures exists first :: Leads(Stream(z, i), first, Stream(z, Close(z, i, open).end), i, Close(z, i, open).end)
    decreases |z| - i
  {
    hide Next, Close, Stream, Safe, Leads;
    var f, c := Next(z, i, 0), Close(z, i, open);
    CloseStep(z, i, open);
    StreamStep(z, i);
    NextIsSafe(z, i, 0);
    CloseEnds(z, i, open);
    var t := SpanOf(f);
    var more := open + Delta(z, t);
    var rest := Stream(z, f.end);
    if more == 0 {
      LeadsOne(t, rest, i, c.end);
    } else {
      StreamBehind(z, f.end, more);
      var first :| Leads(rest, first, Stream(z, c.end), f.end, c.end);
      CloseEnds(z, f.end, more);
      LeadsMore(t, rest, first, Stream(z, c.end), i, f.end, c.end);
    }
  }

  lemma CoversMore(t: Token, ts: seq<Token>, spans: seq<Span>, first: seq<Span>, rest: seq<Span>)
    requires Leads(spans, first, rest, t.start, t.start + t.len) && Covers(ts, rest)
    ensures Covers([t] + ts, spans)
  {
    var all := [t] + ts;
    forall j | 0 <= j < |spans| && spans[j].kind != Eof
      ensures exists k :: 0 <= k < |all| && CoveredBy(spans[j], all[k]) {
      if j < |first| {
        assert CoveredBy(first[j], all[0]);
      } else {
        assert spans[j] == rest[j - |first|];
        var k :| 0 <= k < |ts| && CoveredBy(rest[j - |first|], ts[k]);
        assert all[k + 1] == ts[k];
      }
    }
  }

  lemma EofIsCovered(ts: seq<Token>, s: Span)
    requires s.kind == Eof
    ensures Covers(ts, [s])
  {
  }

  // The visible tokens of one token of the list.
  lemma BigSpans(z: string, i: nat)
    requires i <= |z| && Safe(z, i) && Big(z, i).kind != Eof && Big(z, i).kind != Error
    ensures exists first :: Leads(Stream(z, i), first, Stream(z, Big(z, i).end), Big(z, i).start, Big(z, i).end)
  {
    hide Next, Close, Stream, Safe, Leads;
    var f, b := Next(z, i, 0), Big(z, i);
    StreamStep(z, i);
    NextIsSafe(z, i, 0);
    var t, rest := SpanOf(f), Stream(z, f.end);
    if f.kind == Other && z[f.start] == '{' {
      CloseEnds(z, f.end, 1);
      StreamBehind(z, f.end, 1);
      var first :| Leads(rest, first, Stream(z, b.end), f.end, b.end);
      LeadsMore(t, rest, first, Stream(z, b.end), f.start, f.end, b.end);
    } else {
      LeadsOne(t, rest, f.start, f.end);
    }
  }

  // Every token of the text that is neither space nor comment nor within "#if 0" lies in a token of
  // the list.
  lemma {:induction false} ListCovers(z: string, i: nat, line: nat)
    requires Safe(z, i) && i < |z| && BigErrors(z, i) == 0
    ensures Covers(BigTokens(z, i, line), Stream(z, i))
    decreases |z| - i
  {
    hide Big, Safe, Stream, Newlines, BigTokens, BigErrors, Covers, Leads;
    var b := Big(z, i);
    var more := line + Newlines(z, i, b.end);
    BigMoves(z, i);
    BigTokensStep(z, i, line);
    BigFailsOnError(z, i);
    var ts := Stream(z, i);
    if b.kind == Eof {
      StreamAtEof(z, i);
      EofIsCovered(BigTokens(z, i, line), ts[0]);
      assert ts == [ts[0]];
    } else {
      BigSpans(z, i);
      var rest := Stream(z, b.end);
      var first :| Leads(ts, first, rest, b.start, b.end);
      if b.end == |z| {
        StreamAtEnd(z);
        EofIsCovered(BigTokens(z, b.end, more), rest[0]);
        assert rest == [rest[0]];
      } else {
        ListCovers(z, b.end, more);
      }
      var t := Token(b.kind, b.start, b.end - b.start, line + Newlines(z, i, b.start));
      CoversMore(t, BigTokens(z, b.end, more), ts, first, rest);
    }
  }

  lemma BigFailsOnError(z: string, i: nat)
    requires i <= |z|
    ensures Big(z, i).kind == Error ==> Big(z, i).errors > 0
  {
    hide Next, Close;
    NextIsNoError(z, i, 0);
  }

  lemma StreamAtEof(z: string, i: nat)
    requires i <= |z| && Big(z, i).kind == Eof
    ensures |Stream(z, i)| == 1 && Stream(z, i)[0].kind == Eof
  {
    hide Next, Close;
  }

  lemma StreamAtEnd(z: string)
    ensures |Stream(z, |z|)| == 1 && Stream(z, |z|)[0].kind == Eof
  {
    hide Scan, Shows, DepthBehind;
  }
}

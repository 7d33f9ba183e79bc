// Successive GetToken calls (tools/cnoh.c:769-991) cover a text without gap or overlap and keep its
// line count.

module Tiling {
  import opened Lexemes
  import opened Tokenizer

  // ---------------------------------------------------------------------------------------------
  // What an escaped character is

  // The number of backslashes right before position k, looking back to i at most.
  ghost function Slashes(z: string, i: nat, k: nat): (n: nat)
    requires i <= k <= |z|
    ensures n <= k - i
    decreases k
  {
    if i < k && z[k - 1] == '\\' then 1 + Slashes(z, i, k - 1) else 0
  }

  ghost predicate Escaped(z: string, i: nat, k: nat)
    requires i <= k <= |z|
  {
    Slashes(z, i, k) % 2 == 1
  }

  lemma {:induction false} SlashesSkip(z: string, i: nat, k: nat)
    requires i < k <= |z|
    ensures z[i] != '\\' ==> Slashes(z, i, k) == Slashes(z, i + 1, k)
    ensures z[i] == '\\' && i + 2 <= k ==> Slashes(z, i, k) % 2 == Slashes(z, i + 2, k) % 2
    decreases k
  {
    if i + 1 < k && z[k - 1] == '\\' {
      SlashesSkip(z, i, k - 1);
    }
  }

  ghost predicate FirstUnescaped(z: string, i: nat, stop: char, j: nat)
    requires i <= |z|
  {
    && i <= j
    && (forall k | i <= k < j && k < |z| && z[k] == stop :: Escaped(z, i, k))
    && (if j < |z| then z[j] == stop && !Escaped(z, i, j)
        else j == if Escaped(z, i, |z|) then |z| + 1 else |z|)
  }

  // Unescaped finds the first stop character with an even number of backslashes before it.
  lemma {:induction false} UnescapedIsFirst(z: string, i: nat, stop: char)
    requires i <= |z| && stop != '\\'
    ensures FirstUnescaped(z, i, stop, Unescaped(z, i, stop))
    decreases |z| - i
  {
    if i < |z| && z[i] != stop {
      var j := Unescaped(z, i, stop);
      var next := if z[i] == '\\' then i + 2 else i + 1;
      if next <= |z| {
        UnescapedIsFirst(z, next, stop);
        forall k | next <= k <= |z| ensures Escaped(z, i, k) == Escaped(z, next, k) {
          SlashesSkip(z, i, k);
        }
        assert next == i + 2 ==> Escaped(z, i, i + 1);
      }
    }
  }

  // A directive runs to the first newline that no backslash escapes.
  lemma DirectiveEnds(z: string, i: nat)
    requires i < |z| && z[i] == '#' && LineStart(z, i)
    ensures Scan(z, i).kind == Directive && FirstUnescaped(z, i + 1, '\n', Scan(z, i).end)
  {
    UnescapedIsFirst(z, i + 1, '\n');
  }

  ghost predicate ClosingQuote(z: string, i: nat, k: int)
    requires i < |z|
  {
    i < k < |z| && z[k] == z[i] && !Escaped(z, i + 1, k)
  }

  // A literal ends behind the first quote of its kind that is not escaped. Without one it runs to the
  // end of the text; that is reported unless an escaping backslash is the last character.
  lemma LiteralEnds(z: string, i: nat)
    requires i < |z| && (z[i] == '\'' || z[i] == '\"')
    ensures var r := Scan(z, i);
            && r.kind == Str
            && (forall k | ClosingQuote(z, i, k) :: r.end <= k + 1)
            && (if exists k :: ClosingQuote(z, i, k)
                then ClosingQuote(z, i, r.end - 1) && r.errors == 0
                else r.end == |z| && (r.errors == 1 <==> !Escaped(z, i + 1, |z|)))
  {
    UnescapedIsFirst(z, i + 1, z[i]);
    var j := Unescaped(z, i + 1, z[i]);
    if j < |z| {
      assert ClosingQuote(z, i, j);
    }
  }

  // An unterminated literal that nothing reports.
  lemma {:induction false} SilentLiteral()
    ensures Scan("\"a\\", 0) == Lexeme(Str, 3, 0)
  {
    assert Unescaped("\"a\\", 1, '\"') == Unescaped("\"a\\", 2, '\"') == 4;
  }

  // A directive that makes GetToken leave the text.
  lemma {:induction false} DirectiveLeaves()
    ensures Scan("#\\", 0) == Lexeme(Directive, 3, 0)
  {
  }

  // ---------------------------------------------------------------------------------------------
  // All tokens of a text

  // The tokens that successive calls return from position i on.
  function Tokens(z: string, i: nat, line: nat): (ts: seq<Token>)
    ensures ts != []
    decreases |z| + 1 - i
  {
    if i >= |z| then [Token(Eof, i, 0, line)]
    else
      var r := Scan(z, i);
      [Token(r.kind, i, r.end - i, line)] + Tokens(z, r.end, line + Newlines(z, i, r.end))
  }

  // Token k starts where the one before ends; only the last one is empty.
  ghost predicate Chained(i: nat, ts: seq<Token>) {
    && ts != [] && ts[0].start == i
    && (forall k | 0 <= k < |ts| - 1 :: ts[k].len > 0 && ts[k].kind != Eof)
    && (forall k | 0 < k < |ts| :: ts[k].start == ts[k - 1].start + ts[k - 1].len)
    && ts[|ts| - 1].kind == Eof && ts[|ts| - 1].len == 0
  }

  // Each token carries the number of the line it starts on.
  ghost predicate Numbered(z: string, i: nat, line: nat, ts: seq<Token>) {
    forall k | 0 <= k < |ts| :: i <= ts[k].start && ts[k].line == line + Newlines(z, i, ts[k].start)
  }

  lemma ChainedCons(i: nat, t: Token, ts: seq<Token>)
    requires t.start == i && t.len > 0 && t.kind != Eof && Chained(i + t.len, ts)
    ensures Chained(i, [t] + ts)
  {
    var all := [t] + ts;
    forall k | 0 < k < |all| ensures all[k].start == all[k - 1].start + all[k - 1].len {
      assert all[k] == ts[k - 1];
      assert k > 1 ==> all[k - 1] == ts[k - 2];
    }
  }

  lemma NumberedCons(z: string, i: nat, t: Token, ts: seq<Token>)
    requires t.start == i && Numbered(z, i + t.len, t.line + Newlines(z, i, i + t.len), ts)
    ensures Numbered(z, i, t.line, [t] + ts)
  {
    hide Newlines;
    var all := [t] + ts;
    forall k | 0 <= k < |all| ensures i <= all[k].start && all[k].line == t.line + Newlines(z, i, all[k].start) {
      if k == 0 {
        NoNewlines(z, i, i);
      } else {
        assert all[k] == ts[k - 1];
        NewlinesSplit(z, i, i + t.len, all[k].start);
      }
    }
  }

  lemma TokensStep(z: string, i: nat, line: nat)
    requires i < |z|
    ensures var r := Scan(z, i);
            Tokens(z, i, line)
            == [Token(r.kind, i, r.end - i, line)] + Tokens(z, r.end, line + Newlines(z, i, r.end))
  {
  }

  lemma TokensEnd(z: string, i: nat, line: nat)
    requires i >= |z|
    ensures var ts := Tokens(z, i, line); ts == [Token(Eof, i, 0, line)] && Chained(i, ts) && Numbered(z, i, line, ts)
  {
    NoNewlines(z, i, i);
  }

  lemma {:induction false} TokensAreTiled(z: string, i: nat, line: nat)
    ensures Chained(i, Tokens(z, i, line)) && Numbered(z, i, line, Tokens(z, i, line))
    decreases |z| + 1 - i
  {
    hide *;
    if i >= |z| {
      TokensEnd(z, i, line);
    } else {
      var r := Scan(z, i);
      var t := Token(r.kind, i, r.end - i, line);
      var rest := Tokens(z, r.end, line + Newlines(z, i, r.end));
      TokensAreTiled(z, r.end, line + Newlines(z, i, r.end));
      TokensStep(z, i, line);
      ChainedCons(i, t, rest);
      NumberedCons(z, i, t, rest);
    }
  }

  // The text of a token that lies within z.
  ghost function TextOf(z: string, t: Token): string
    requires t.start + t.len <= |z|
  {
    z[t.start..t.start + t.len]
  }

  ghost predicate Within(z: string, ts: seq<Token>) {
    forall k | 0 <= k < |ts| :: ts[k].start + ts[k].len <= |z|
  }

  ghost function Texts(z: string, ts: seq<Token>): string
    requires Within(z, ts)
  {
    if ts == [] then [] else TextOf(z, ts[0]) + Texts(z, ts[1..])
  }

  // The last token before the end is a directive, and an odd number of backslashes ends the text.
  ghost predicate LeavesText(z: string, ts: seq<Token>) {
    |ts| >= 2 && ts[|ts| - 2].kind == Directive && Escaped(z, 0, |z|)
  }

  // Looking further back past a "#" makes no difference.
  lemma {:induction false} SlashesBehind(z: string, i: nat, k: nat)
    requires i < k <= |z| && z[i] != '\\'
    ensures Slashes(z, 0, k) == Slashes(z, i + 1, k)
    decreases k
  {
    if k > i + 1 && z[k - 1] == '\\' {
      SlashesBehind(z, i, k - 1);
    }
  }

  lemma {:induction false} TokensStayWithin(z: string, i: nat, line: nat)
    requires i <= |z|
    ensures var ts := Tokens(z, i, line); Within(z, ts) <==> !LeavesText(z, ts)
    decreases |z| - i
  {
    hide Newlines, Escaped, Scan, Tokens;
    var ts := Tokens(z, i, line);
    if i == |z| {
      TokensEnd(z, i, line);
    } else {
      var r := Scan(z, i);
      var more := line + Newlines(z, i, r.end);
      TokensStep(z, i, line);
      assert ts[1..] == Tokens(z, r.end, more) && ts[0].start + ts[0].len == r.end;
      ScanLeaves(z, i);
      if r.end < |z| {
        TokensStayWithin(z, r.end, more);
        WithinRest(z, ts);
        TokensStep(z, r.end, more);
        LastTwo(ts, ts[1..]);
      } else {
        TokensEnd(z, r.end, more);
      }
    }
  }

  lemma {:induction false} TextsAreTheText(z: string, i: nat, line: nat)
    requires i <= |z| && Within(z, Tokens(z, i, line))
    ensures Texts(z, Tokens(z, i, line)) == z[i..]
    decreases |z| - i
  {
    hide Newlines, Scan, Tokens;
    var ts := Tokens(z, i, line);
    if i == |z| {
      TokensEnd(z, i, line);
    } else {
      var r := Scan(z, i);
      TokensStep(z, i, line);
      assert ts[1..] == Tokens(z, r.end, line + Newlines(z, i, r.end)) && ts[0].start + ts[0].len == r.end;
      WithinRest(z, ts);
      TextsAreTheText(z, r.end, line + Newlines(z, i, r.end));
      assert z[i..] == z[i..r.end] + z[r.end..];
    }
  }

  lemma LastTwo(ts: seq<Token>, rest: seq<Token>)
    requires ts != [] && rest != [] && ts[1..] == rest
    ensures |rest| >= 2 ==> ts[|ts| - 2] == rest[|rest| - 2]
    ensures |rest| == 1 ==> ts[|ts| - 2] == ts[0]
  {
  }

  lemma WithinRest(z: string, ts: seq<Token>)
    requires ts != []
    ensures Within(z, ts) <==> ts[0].start + ts[0].len <= |z| && Within(z, ts[1..])
  {
    if Within(z, ts[1..]) {
      forall k | 1 <= k < |ts| ensures ts[k].start + ts[k].len <= |z| {
        assert ts[k] == ts[1..][k - 1];
      }
    }
  }

  // A token leaves the text only as a directive that ends with an odd number of backslashes.
  lemma ScanLeaves(z: string, i: nat)
    requires i < |z|
    ensures Scan(z, i).end > |z| ==> Scan(z, i).kind == Directive && Escaped(z, 0, |z|)
    ensures Scan(z, i).end == |z| && Scan(z, i).kind == Directive ==> !Escaped(z, 0, |z|)
  {
    if LeadOf(z[i]) == Hash && LineStart(z, i) {
      DirectiveEnds(z, i);
      SlashesBehind(z, i, |z|);
    }
  }

  // The tokens of a text follow each other without gap or overlap, none is empty, each carries the
  // number of the line it starts on, and their texts together are the text, if and only if the last
  // one is not a directive that ends in an odd number of backslashes.
  lemma TokensTileTheText(z: string)
    ensures var ts := Tokens(z, 0, 1);
            && Chained(0, ts) && Numbered(z, 0, 1, ts)
            && (Within(z, ts) && Texts(z, ts) == z <==> !LeavesText(z, ts))
  {
    TokensAreTiled(z, 0, 1);
    TokensStayWithin(z, 0, 1);
    if Within(z, Tokens(z, 0, 1)) {
      TextsAreTheText(z, 0, 1);
    }
    assert z[0..] == z;
  }
}

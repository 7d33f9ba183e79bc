// TokensToString of tools/cnoh.c (1355-1435): which tokens it keeps and how it lays them out.

module Printer {
  import opened Options
  import opened Lexemes
  import opened Sequences

  // A token with its text.
  datatype Piece = Piece(kind: Kind, text: string)

  ghost predicate NonEmpty(ts: seq<Piece>) {
    forall k | 0 <= k < |ts| :: ts[k].text != []
  }

  // ---------------------------------------------------------------------------------------------
  // What is kept

  predicate Keyword(t: Piece) {
    t.kind == Id && (t.text == "EXPORT" || t.text == "PUBLIC" || t.text == "PRIVATE" || t.text == "PROTECTED")
  }

  // An identifier of such a length clears skipOne unless it is a keyword (1393-1400).
  predicate Clears(t: Piece) {
    && t.kind == Id && t.text != [] && t.text[0] == 'P'
    && (|t.text| == 6 || |t.text| == 7 || |t.text| == 9)
    && !Keyword(t)
  }

  // skipOne behind an identifier.
  function Skips(t: Piece, skipOne: bool): bool {
    if Keyword(t) then true else if Clears(t) then false else skipOne
  }

  // The tokens that are printed.
  function Kept(ts: seq<Piece>, skipOne: bool): seq<Piece> {
    if ts == [] then []
    else if ts[0].kind != Id then [ts[0]] + Kept(ts[1..], skipOne)
    else
      var skip := Skips(ts[0], skipOne);
      (if skip then [] else [ts[0]]) + Kept(ts[1..], skip)
  }

  // ---------------------------------------------------------------------------------------------
  // How it is laid out

  predicate IsWordKind(kind: Kind) {
    kind == Id || kind == Number
  }

  // What is printed in front of a token, given that the last one was a word.
  function Gap(t: Piece, afterWord: bool): string {
    if t.kind == Directive then "\n"
    else if afterWord && (IsWordKind(t.kind) || (t.text != [] && (t.text[0] == '*' || t.text[0] == '{'))) then " "
    else ""
  }

  function Tail(t: Piece): string {
    if t.kind == Directive then "\n" else ""
  }

  // One token as printed.
  function Shown(t: Piece, afterWord: bool): string {
    Gap(t, afterWord) + t.text + Tail(t)
  }

  function Layout(ts: seq<Piece>, afterWord: bool): string {
    if ts == [] then "" else Shown(ts[0], afterWord) + Layout(ts[1..], IsWordKind(ts[0].kind))
  }

  // The list without the n tokens from position "at" on.
  function Without(ts: seq<Piece>, at: nat, n: nat): seq<Piece> {
    if at + n < |ts| then ts[..at] + ts[at + n..]
    else if at < |ts| then ts[..at]
    else ts
  }

  // What is still to print at position i, when n tokens are to be left out from "at" on.
  function Rest(ts: seq<Piece>, at: nat, n: nat, i: nat): seq<Piece>
    requires i <= |ts|
  {
    if i <= at then Without(ts[i..], at - i, n)
    else if at + n <= i then ts[i..]
    else if at + n < |ts| then ts[at + n..]
    else []
  }

  lemma RestNext(ts: seq<Piece>, at: nat, n: nat, i: nat)
    requires i < |ts|
    ensures Rest(ts, at, n, i) == if at <= i < at + n then Rest(ts, at, n, i + 1) else [ts[i]] + Rest(ts, at, n, i + 1)
  {
    hide Without;
    if i < at {
      assert ts[i..] == [ts[i]] + ts[i + 1..];
      WithoutNext(ts[i], ts[i + 1..], at - i, n);
    } else if i == at {
      WithoutFirst(ts[i..], n);
      assert n < |ts[i..]| ==> ts[i..][n..] == ts[at + n..];
    }
  }

  lemma WithoutFirst(ts: seq<Piece>, n: nat)
    ensures Without(ts, 0, n) == if n < |ts| then ts[n..] else []
  {
  }

  lemma WithoutNext(t: Piece, ts: seq<Piece>, at: nat, n: nat)
    requires at > 0
    ensures Without([t] + ts, at, n) == [t] + Without(ts, at - 1, n)
  {
    if at < |[t] + ts| {
      TakeNext(t, ts, at);
      if at + n < |[t] + ts| {
        DropNext(t, ts, at + n);
        Prepended(t, ts[..at - 1], ts[at - 1 + n..]);
      }
    }
  }

  lemma TakeNext(t: Piece, ts: seq<Piece>, at: nat)
    requires 0 < at <= |ts| + 1
    ensures ([t] + ts)[..at] == [t] + ts[..at - 1]
  {
  }

  lemma DropNext(t: Piece, ts: seq<Piece>, at: nat)
    requires 0 < at <= |ts| + 1
    ensures ([t] + ts)[at..] == ts[at - 1..]
  {
  }

  lemma Prepended(t: Piece, a: seq<Piece>, b: seq<Piece>)
    ensures [t] + a + b == [t] + (a + b)
  {
  }

  // 1369-1435; the tokens from pFirst to pLast are "tokens"; skip is the position of pSkip.
  method TokensToString(tokens: seq<Piece>, zTerm: string, skip: Option<nat>, nSkip: nat) returns (str: string)
    requires NonEmpty(tokens)
    ensures var kept := match skip case None => tokens case Some(at) => Without(tokens, at, nSkip);
            str == Layout(Kept(kept, false), false) + zTerm
  {
    hide Without, Rest, Kept, Layout, Shown, Skips, IsWordKind;
    ghost var at := if skip.Some? then skip.value else |tokens|;
    ghost var total := Layout(Kept(Rest(tokens, at, nSkip, 0), false), false);
    RestAll(tokens, at, nSkip);
    str := "";
    var needSpace, iSkip, skipOne := false, 0, false;
    var i := 0;
    while i < |tokens|
      invariant i <= |tokens|
      invariant iSkip == if at < i < at + nSkip then at + nSkip - i else 0
      invariant str + Layout(Kept(Rest(tokens, at, nSkip, i), skipOne), needSpace) == total
    {
      var t := tokens[i];
      RestNext(tokens, at, nSkip, i);
      if skip == Some(i) {
        iSkip := nSkip;
      }
      if iSkip > 0 {
        iSkip := iSkip - 1;
        i := i + 1;
        continue;
      }
      ghost var rest := Rest(tokens, at, nSkip, i + 1);
      ghost var needSpace0 := needSpace;
      KeptNext(t, rest, skipOne);
      LayoutNext(t, Kept(rest, if t.kind == Id then Skips(t, skipOne) else skipOne), needSpace);
      i := i + 1;
      if t.kind == Id {
        skipOne := SkipOne(t, skipOne);
        if skipOne {
          continue;
        }
      }
      ghost var before := str;
      str, needSpace := Append(str, t, needSpace);
      Regroup(before, Shown(t, needSpace0), Layout(Kept(rest, skipOne), needSpace));
    }
    NothingLeft(skipOne, needSpace);
    assert str + "" == str == total;
    str := str + zTerm;
  }

  // 1379-1384 and 1409-1425
  method Append(before: string, t: Piece, afterWord: bool) returns (str: string, needSpace: bool)
    requires t.text != []
    ensures str == before + Shown(t, afterWord) && needSpace == IsWordKind(t.kind)
  {
    str, needSpace := before, afterWord;
    if t.kind == Directive {
      str := str + "\n";
      str := str + t.text;
      str := str + "\n";
      needSpace := false;
    } else if t.kind == Id || t.kind == Number {
      if needSpace {
        str := str + " ";
      }
      str := str + t.text;
      needSpace := true;
    } else {
      if needSpace && (t.text[0] == '*' || t.text[0] == '{') {
        str := str + " ";
      }
      str := str + t.text;
      needSpace := false;
    }
  }

  lemma RestAll(tokens: seq<Piece>, at: nat, n: nat)
    ensures Rest(tokens, at, n, 0) == Without(tokens, at, n)
    ensures Rest(tokens, at, n, |tokens|) == []
    ensures at == |tokens| ==> Without(tokens, at, n) == tokens
  {
    assert tokens[0..] == tokens;
  }

  lemma NothingLeft(skipOne: bool, afterWord: bool)
    ensures Layout(Kept([], skipOne), afterWord) == ""
  {
  }

  lemma KeptNext(t: Piece, rest: seq<Piece>, skipOne: bool)
    ensures var skip := if t.kind == Id then Skips(t, skipOne) else skipOne;
            Kept([t] + rest, skipOne) == if t.kind == Id && skip then Kept(rest, skip) else [t] + Kept(rest, skip)
  {
    assert ([t] + rest)[1..] == rest;
  }

  lemma LayoutNext(t: Piece, rest: seq<Piece>, afterWord: bool)
    ensures Layout([t] + rest, afterWord) == Shown(t, afterWord) + Layout(rest, IsWordKind(t.kind))
  {
    assert ([t] + rest)[1..] == rest;
  }

  // 1387-1403
  method SkipOne(t: Piece, before: bool) returns (skipOne: bool)
    requires t.kind == Id && t.text != []
    ensures skipOne == Skips(t, before)
  {
    skipOne := before;
    if t.text[0] == 'E' {
      if |t.text| == 6 && t.text == "EXPORT" {
        skipOne := true;
      }
    } else if t.text[0] == 'P' {
      if |t.text| == 6 {
        skipOne := t.text == "PUBLIC";
      } else if |t.text| == 7 {
        skipOne := t.text == "PRIVATE";
      } else if |t.text| == 9 {
        skipOne := t.text == "PROTECTED";
      }
    }
  }

  // ---------------------------------------------------------------------------------------------
  // The keywords are to be left out (1358-1359); skipOne is not cleared, so more may be.

  function NoKeywords(ts: seq<Piece>): seq<Piece> {
    if ts == [] then []
    else (if Keyword(ts[0]) then [] else [ts[0]]) + NoKeywords(ts[1..])
  }

  // The first identifier of the list, if any, is a keyword or clears skipOne.
  predicate NextStops(ts: seq<Piece>) {
    if ts == [] then true
    else if ts[0].kind == Id then Keyword(ts[0]) || Clears(ts[0])
    else NextStops(ts[1..])
  }

  // Behind each keyword the next identifier is a keyword or clears skipOne.
  ghost predicate KeywordsStop(ts: seq<Piece>) {
    forall k | 0 <= k < |ts| && Keyword(ts[k]) :: NextStops(ts[k + 1..])
  }

  lemma {:induction false} KeptIsShorter(ts: seq<Piece>, skipOne: bool)
    ensures |Kept(ts, skipOne)| <= |NoKeywords(ts)|
  {
    if ts != [] {
      KeptIsShorter(ts[1..], if ts[0].kind == Id then Skips(ts[0], skipOne) else skipOne);
    }
  }

  lemma KeywordsStopNext(ts: seq<Piece>)
    requires ts != []
    ensures KeywordsStop(ts) <==> KeywordsStop(ts[1..]) && (Keyword(ts[0]) ==> NextStops(ts[1..]))
  {
    assert forall k | 0 <= k < |ts[1..]| :: ts[1..][k] == ts[k + 1] && ts[1..][k + 1..] == ts[k + 2..];
    if KeywordsStop(ts[1..]) && (Keyword(ts[0]) ==> NextStops(ts[1..])) {
      forall k | 0 <= k < |ts| && Keyword(ts[k]) ensures NextStops(ts[k + 1..]) {
        if k > 0 {
          assert ts[1..][k - 1] == ts[k];
        }
      }
    }
  }

  // Exactly the keywords are left out if and only if the next identifier behind each is another
  // keyword or happens to clear skipOne.
  lemma {:induction false} KeywordsAreDropped(ts: seq<Piece>, skipOne: bool)
    ensures Kept(ts, skipOne) == NoKeywords(ts) <==> KeywordsStop(ts) && (skipOne ==> NextStops(ts))
  {
    if ts != [] {
      hide KeywordsStop;
      var skip := if ts[0].kind == Id then Skips(ts[0], skipOne) else skipOne;
      KeywordsAreDropped(ts[1..], skip);
      KeywordsStopNext(ts);
      KeptIsShorter(ts[1..], skip);
      var kept, plain := Kept(ts[1..], skip), NoKeywords(ts[1..]);
      assert [] + kept == kept && [] + plain == plain;
      if ts[0].kind == Id && skip && !Keyword(ts[0]) {
        assert |Kept(ts, skipOne)| < |NoKeywords(ts)|;
      } else if !Keyword(ts[0]) {
        assert Kept(ts, skipOne)[1..] == kept && NoKeywords(ts)[1..] == plain;
      }
    }
  }

  const KEYWORDS := {"EXPORT", "PUBLIC", "PRIVATE", "PROTECTED"}

  // An identifier in front is left out exactly if it is one of the four words ...
  lemma WordInFront(w: string, rest: seq<Piece>)
    requires w != ""
    ensures Kept([Piece(Id, w)] + rest, false)
            == if w in KEYWORDS then Kept(rest, true) else [Piece(Id, w)] + Kept(rest, false)
  {
    KeptNext(Piece(Id, w), rest, false);
  }

  // ... and behind one of them, exactly unless it begins with a P and is as long as one of the others.
  lemma WordBehindKeyword(w: string, rest: seq<Piece>)
    requires w != ""
    ensures Kept([Piece(Id, w)] + rest, true)
            == if w !in KEYWORDS && w[0] == 'P' && |w| in {6, 7, 9} then [Piece(Id, w)] + Kept(rest, false)
               else Kept(rest, true)
  {
    KeptNext(Piece(Id, w), rest, true);
    LengthOfKeyword(w);
  }

  lemma LengthOfKeyword(w: string)
    ensures w in KEYWORDS ==> w[0] == 'E' || (w[0] == 'P' && |w| in {6, 7, 9})
  {
  }

  // How a token is printed in front of others: words are kept apart by one space; a star and a brace get one
  // behind a word; a directive gets lines of its own.
  lemma TokenIsSpaced(t: Piece, rest: seq<Piece>, afterWord: bool)
    requires t.text != ""
    ensures t.kind == Directive ==> Layout([t] + rest, afterWord) == ("\n" + t.text + "\n") + Layout(rest, false)
    ensures t.kind == Id || t.kind == Number ==>
              Layout([t] + rest, afterWord) == ((if afterWord then " " else "") + t.text) + Layout(rest, true)
    ensures t.kind !in {Id, Number, Directive} ==>
              Layout([t] + rest, afterWord)
              == ((if afterWord && (t.text[0] == '*' || t.text[0] == '{') then " " else "") + t.text)
                 + Layout(rest, false)
  {
    hide Layout;
    LayoutNext(t, rest, afterWord);
    assert t.kind != Directive ==> Shown(t, afterWord) == Gap(t, afterWord) + t.text;
  }

  // EXPORT takes all of the declaration with it.
  lemma ExportDropsTheDeclaration()
    ensures var ts := [Piece(Id, "EXPORT"), Piece(Id, "int"), Piece(Id, "x"), Piece(Other, ";")];
            Layout(Kept(ts, false), false) == ";" && Layout(NoKeywords(ts), false) == "int x;"
  {
    var ts := [Piece(Id, "EXPORT"), Piece(Id, "int"), Piece(Id, "x"), Piece(Other, ";")];
    assert ts[1..] == [Piece(Id, "int"), Piece(Id, "x"), Piece(Other, ";")];
    assert ts[1..][1..] == [Piece(Id, "x"), Piece(Other, ";")];
    assert ts[1..][1..][1..] == [Piece(Other, ";")];
    EndsInSemicolon();
    assert NoKeywords(ts) == ts[1..];
    assert Layout(ts[1..][1..], true) == " x;";
  }

  lemma EndsInSemicolon()
    ensures var end := [Piece(Other, ";")];
            Kept(end, true) == end && NoKeywords(end) == end && Layout(end, true) == ";" && Layout(end, false) == ";"
  {
  }
}

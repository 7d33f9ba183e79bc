// GetIfString of tools/cnoh.c (558-581) joins the texts of conditions with "&&" and adds no
// parentheses: when the joined text means the conjunction.

module ConditionText {
  import opened Conditionals

  // A text as its operands, anything that binds tighter than "&&", and the "&&" and "||" between them.
  datatype Text = One(operand: string) | More(operand: string, or: bool, rest: Text)

  // The value of a text behind a conjunction that has the value "left" so far.
  predicate Value(left: bool, t: Text, env: string -> bool)
    decreases t
  {
    match t
    case One(x) => left && env(x)
    case More(x, or, rest) =>
      if or then (left && env(x)) || Value(true, rest, env) else Value(left && env(x), rest, env)
  }

  function Append(t: Text, u: Text): Text {
    match t
    case One(x) => More(x, false, u)
    case More(x, or, rest) => More(x, or, Append(rest, u))
  }

  // 564-573
  function Joined(ts: seq<Text>): Text
    requires ts != []
  {
    if |ts| == 1 then ts[0] else Append(ts[0], Joined(ts[1..]))
  }

  predicate HasOr(t: Text) {
    t.More? && (t.or || HasOr(t.rest))
  }

  ghost predicate AllHold(ts: seq<Text>, env: string -> bool) {
    forall k | 0 <= k < |ts| :: Value(true, ts[k], env)
  }

  // What a condition of the stack is spelled like (2038-2045): "spell" reads the argument of an #if;
  // "defined(...)", "!defined(...)" and "!(...)" are operands.
  function TextOf(c: Cond, spell: string -> Text, operand: Cond -> string): Text {
    if c.Raw? then spell(c.text) else One(operand(c))
  }

  function Operands(t: Text): set<string> {
    {t.operand} + if t.More? then Operands(t.rest) else {}
  }

  function AllOperands(ts: seq<Text>): set<string> {
    if ts == [] then {} else Operands(ts[0]) + AllOperands(ts[1..])
  }

  // No operand occurs in two of the texts.
  ghost predicate Independent(ts: seq<Text>) {
    ts == [] || (Operands(ts[0]) !! AllOperands(ts[1..]) && Independent(ts[1..]))
  }

  // ---------------------------------------------------------------------------------------------
  // Without "||" the texts mean their conjunction

  lemma {:induction false} AppendMeans(left: bool, t: Text, u: Text, env: string -> bool)
    requires !HasOr(t)
    ensures Value(left, Append(t, u), env) == Value(left && Value(true, t, env), u, env)
    ensures Value(left, t, env) == (left && Value(true, t, env))
    decreases t
  {
    if t.More? {
      AppendMeans(left && env(t.operand), t.rest, u, env);
      AppendMeans(env(t.operand), t.rest, u, env);
    }
  }

  lemma {:induction false} JoinedMeans(ts: seq<Text>, env: string -> bool)
    requires ts != [] && forall k | 0 <= k < |ts| :: !HasOr(ts[k])
    ensures Value(true, Joined(ts), env) == AllHold(ts, env) && !HasOr(Joined(ts))
    decreases |ts|
  {
    if |ts| > 1 {
      JoinedMeans(ts[1..], env);
      AppendMeans(true, ts[0], Joined(ts[1..]), env);
      AppendMeans(Value(true, ts[0], env), Joined(ts[1..]), One(""), env);
      AppendOr(ts[0], Joined(ts[1..]));
      assert forall k | 0 < k < |ts| :: ts[k] == ts[1..][k - 1];
      assert AllHold(ts, env) == (Value(true, ts[0], env) && AllHold(ts[1..], env));
    }
  }

  lemma {:induction false} AppendOr(t: Text, u: Text)
    ensures HasOr(Append(t, u)) <==> HasOr(t) || HasOr(u)
    ensures Operands(Append(t, u)) == Operands(t) + Operands(u)
    decreases t
  {
    if t.More? {
      AppendOr(t.rest, u);
    }
  }

  lemma {:induction false} JoinedOr(ts: seq<Text>)
    requires ts != []
    ensures HasOr(Joined(ts)) <==> exists k :: 0 <= k < |ts| && HasOr(ts[k])
    ensures Operands(Joined(ts)) == AllOperands(ts)
    decreases |ts|
  {
    if |ts| > 1 {
      JoinedOr(ts[1..]);
      AppendOr(ts[0], Joined(ts[1..]));
      assert forall k | 0 < k < |ts| :: ts[k] == ts[1..][k - 1];
    }
  }

  // ---------------------------------------------------------------------------------------------
  // With "||" they do not

  // A text none of whose operands hold does not hold.
  lemma {:induction false} NoneHolds(left: bool, t: Text, env: string -> bool)
    requires forall x | x in Operands(t) :: !env(x)
    ensures !Value(left, t, env)
    decreases t
  {
    if t.More? {
      NoneHolds(true, t.rest, env);
      NoneHolds(false, t.rest, env);
    }
  }

  // The operands before the first "||", and those behind the last one.
  function FirstPart(t: Text): set<string> {
    {t.operand} + if t.More? && !t.or then FirstPart(t.rest) else {}
  }

  function LastPart(t: Text): set<string>
    requires HasOr(t)
  {
    if HasOr(t.rest) then LastPart(t.rest) else Operands(t.rest)
  }

  lemma {:induction false} FirstPartHolds(t: Text, u: Text, env: string -> bool)
    requires HasOr(t) && forall x | x in FirstPart(t) :: env(x)
    ensures Value(true, Append(t, u), env) && FirstPart(t) <= Operands(t)
    decreases t
  {
    if !t.or {
      FirstPartHolds(t.rest, u, env);
    } else {
      assert t.operand in FirstPart(t);
    }
  }

  lemma {:induction false} AllHolds(t: Text, env: string -> bool)
    requires forall x | x in Operands(t) :: env(x)
    ensures Value(true, t, env)
    decreases t
  {
    assert t.operand in Operands(t);
    if t.More? {
      AllHolds(t.rest, env);
    }
  }

  lemma {:induction false} LastPartHolds(left: bool, t: Text, env: string -> bool)
    requires HasOr(t) && forall x | x in LastPart(t) :: env(x)
    ensures Value(left, t, env) && LastPart(t) <= Operands(t)
    decreases t
  {
    if HasOr(t.rest) {
      LastPartHolds(true, t.rest, env);
      LastPartHolds(left && env(t.operand), t.rest, env);
    } else {
      AllHolds(t.rest, env);
    }
  }

  // A case in which the joined text holds and one of the texts does not.
  lemma {:induction false} JoinedFails(ts: seq<Text>, k: nat) returns (env: string -> bool)
    requires |ts| > 1 && Independent(ts) && k < |ts| && HasOr(ts[k])
    ensures Value(true, Joined(ts), env) && !AllHold(ts, env)
  {
    var rest := Joined(ts[1..]);
    JoinedOr(ts[1..]);
    if HasOr(ts[0]) {
      var s := FirstPart(ts[0]);
      env := x => x in s;
      FirstPartHolds(ts[0], rest, env);
      assert Operands(ts[1]) <= AllOperands(ts[1..]);
      NoneHolds(true, ts[1], env);
    } else {
      assert HasOr(ts[1..][k - 1]);
      var s := LastPart(rest);
      env := x => x in s;
      LastPartHolds(Value(true, ts[0], env), rest, env);
      AppendMeans(true, ts[0], rest, env);
      NoneHolds(true, ts[0], env);
    }
  }

  // For texts that share no operand: the joined text means that all of them hold, whatever the macros,
  // if and only if there is just one or none has an "||" outside of parentheses.
  lemma {:induction false} JoinIsConjunction(ts: seq<Text>)
    requires ts != [] && Independent(ts)
    ensures (forall env: string -> bool :: Value(true, Joined(ts), env) == AllHold(ts, env))
            <==> |ts| == 1 || forall k | 0 <= k < |ts| :: !HasOr(ts[k])
  {
    if |ts| == 1 {
      assert forall env :: AllHold(ts, env) == Value(true, ts[0], env);
    } else if exists k | 0 <= k < |ts| :: HasOr(ts[k]) {
      var k :| 0 <= k < |ts| && HasOr(ts[k]);
      var env := JoinedFails(ts, k);
    } else {
      forall env: string -> bool ensures Value(true, Joined(ts), env) == AllHold(ts, env) {
        JoinedMeans(ts, env);
      }
    }
  }

  function TextsOf(conds: seq<Cond>, spell: string -> Text, operand: Cond -> string): (ts: seq<Text>)
    ensures |ts| == |conds| && forall k | 0 <= k < |ts| :: ts[k] == TextOf(conds[k], spell, operand)
  {
    if conds == [] then [] else [TextOf(conds[0], spell, operand)] + TextsOf(conds[1..], spell, operand)
  }

  // What GetIfString returns for a stack: only arguments of #if, not negated by an #else, are at risk.
  lemma {:induction false} StackTextMeans(stack: Stack, spell: string -> Text, operand: Cond -> string)
    requires Conds(stack) != [] && Independent(TextsOf(Conds(stack), spell, operand))
    ensures var conds := Conds(stack);
            var ts := TextsOf(conds, spell, operand);
            (forall env: string -> bool :: Value(true, Joined(ts), env) == AllHold(ts, env))
            <==> |conds| == 1 || forall k | 0 <= k < |conds| && conds[k].Raw? :: !HasOr(spell(conds[k].text))
  {
    hide Independent, Joined, AllHold, Conds;
    var conds := Conds(stack);
    var ts := TextsOf(conds, spell, operand);
    JoinIsConjunction(ts);
    assert forall k | 0 <= k < |conds| :: HasOr(ts[k]) <==> conds[k].Raw? && HasOr(spell(conds[k].text));
  }

  // "#if C" around "#if A || B" gives "A || B && C", which holds for A alone.
  lemma OrIsLost()
    ensures var ts := [More("A", true, One("B")), One("C")];
            var env := (x: string) => x == "A";
            Value(true, Joined(ts), env) && !AllHold(ts, env)
  {
    var ts := [More("A", true, One("B")), One("C")];
    var env := (x: string) => x == "A";
    assert ts[1..] == [One("C")];
    assert Joined(ts) == More("A", true, More("B", false, One("C")));
    assert !Value(true, ts[1], env);
  }
}

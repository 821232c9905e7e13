/**
 The formatter's simplification: adjacent subinclude calls become one.
 */
module Simplify {

  datatype Argument = Literal(value: string) | Computed(text: string)

  datatype Expr =
    | Call(callee: string, arguments: seq<Argument>, forceCompact: bool, forceMultiLine: bool)
    | Other(text: string)

  /** A subinclude call whose arguments are all string literals. */
  predicate IsSubinclude(e: Expr) {
    e.Call? && e.callee == "subinclude" && forall i :: 0 <= i < |e.arguments| ==> e.arguments[i].Literal?
  }

  function Joined(a: Expr, b: Expr): Expr
    requires IsSubinclude(a) && IsSubinclude(b)
  {
    a.(arguments := a.arguments + b.arguments, forceCompact := true, forceMultiLine := false)
  }

  /** Every statement joined with the simplified rest behind it, if both are subincludes. */
  function Simplified(stmts: seq<Expr>): seq<Expr> {
    if stmts == [] then []
    else
      var rest := Simplified(stmts[1..]);
      if rest != [] && IsSubinclude(stmts[0]) && IsSubinclude(rest[0]) then [Joined(stmts[0], rest[0])] + rest[1..]
      else [stmts[0]] + rest
  }

  class File {
    var stmts: seq<Expr>

    constructor (stmts: seq<Expr>)
      ensures this.stmts == stmts
    {
      this.stmts := stmts;
    }

    /** Goes through the statements backwards, deleting the second of two subincludes. */
    method Simplify()
      modifies this
      ensures stmts == Simplified(old(stmts))
    {
      ghost var before := stmts;
      SimplifiedAtEnd(before);
      var i := |stmts| - 2;
      while i >= 0
        invariant -2 <= i <= |before| - 2
        invariant stmts == SimplifiedFrom(before, if i < 0 then 0 else i + 1)
      {
        SimplifiedNext(before, i);
        if IsSubinclude(stmts[i]) && IsSubinclude(stmts[i + 1]) {
          stmts := stmts[..i] + [Joined(stmts[i], stmts[i + 1])] + stmts[i + 2..];
        }
        i := i - 1;
      }
      assert before[..0] + Simplified(before[0..]) == Simplified(before);
    }
  }

  /** The statements with those from index `k` on simplified. */
  function SimplifiedFrom(stmts: seq<Expr>, k: nat): seq<Expr>
    requires k <= |stmts|
  {
    stmts[..k] + Simplified(stmts[k..])
  }

  lemma SimplifiedAtEnd(stmts: seq<Expr>)
    ensures SimplifiedFrom(stmts, if |stmts| < 2 then 0 else |stmts| - 1) == stmts
  {
    if stmts != [] {
      var last := stmts[|stmts| - 1..];
      assert Simplified(last) == [stmts[|stmts| - 1]];
    }
  }

  /** One step of the loop: the statement at `k` meets the first of the simplified ones. */
  lemma SimplifiedNext(stmts: seq<Expr>, k: nat)
    requires k + 1 < |stmts|
    ensures var s := SimplifiedFrom(stmts, k + 1);
            && k + 1 < |s|
            && SimplifiedFrom(stmts, k) ==
                 if IsSubinclude(s[k]) && IsSubinclude(s[k + 1]) then s[..k] + [Joined(s[k], s[k + 1])] + s[k + 2..] else s
  {
    var rest := Simplified(stmts[k + 1..]);
    assert stmts[k..][1..] == stmts[k + 1..];
    assert SimplifiedFrom(stmts, k + 1)[k + 2..] == rest[1..];
  }

  // ---------------------------------------------------------------- what it means

  /** What a file does, in order: a subinclude of each label, and every other statement. */
  datatype Action = Include(argument: Argument) | Run(e: Expr)

  ghost function Meaning(stmts: seq<Expr>): seq<Action> {
    if stmts == [] then [] else Actions(stmts[0]) + Meaning(stmts[1..])
  }

  ghost function Actions(e: Expr): seq<Action> {
    if IsSubinclude(e) then seq(|e.arguments|, i requires 0 <= i < |e.arguments| => Include(e.arguments[i])) else [Run(e)]
  }

  lemma MeaningOfFirst(e: Expr, rest: seq<Expr>)
    ensures Meaning([e] + rest) == Actions(e) + Meaning(rest)
  {
    assert ([e] + rest)[1..] == rest;
  }

  lemma ActionsOfJoined(a: Expr, b: Expr)
    requires IsSubinclude(a) && IsSubinclude(b)
    ensures IsSubinclude(Joined(a, b)) && Actions(Joined(a, b)) == Actions(a) + Actions(b)
  {
  }

  lemma {:induction false} SimplifyKeepsMeaning(stmts: seq<Expr>)
    ensures Meaning(Simplified(stmts)) == Meaning(stmts)
  {
    if stmts != [] {
      var first, rest := stmts[0], Simplified(stmts[1..]);
      SimplifyKeepsMeaning(stmts[1..]);
      if rest != [] && IsSubinclude(first) && IsSubinclude(rest[0]) {
        var second, others := rest[0], rest[1..];
        MeaningOfFirst(Joined(first, second), others);
        ActionsOfJoined(first, second);
        assert Actions(first) + (Actions(second) + Meaning(others)) == Actions(first) + Actions(second) + Meaning(others);
      } else {
        MeaningOfFirst(first, rest);
      }
    }
  }

  /** A call of subinclude with these labels, however it is laid out. */
  ghost predicate IsCallWith(e: Expr, labels: seq<string>) {
    && e.Call? && e.callee == "subinclude" && |e.arguments| == |labels|
    && forall i :: 0 <= i < |labels| ==> e.arguments[i] == Literal(labels[i])
  }

  lemma SubincludesNameTheirLabels(e: Expr)
    ensures IsSubinclude(e) <==> exists labels :: IsCallWith(e, labels)
  {
    if IsSubinclude(e) {
      assert IsCallWith(e, seq(|e.arguments|, i requires 0 <= i < |e.arguments| => e.arguments[i].value));
    }
  }

  /** Whatever is no call of subinclude with literal labels stays; what replaces others is such a call, laid out compactly. */
  lemma {:induction false} OnlySubincludesChange(stmts: seq<Expr>, e: Expr)
    ensures e in stmts && (forall labels :: !IsCallWith(e, labels)) ==> e in Simplified(stmts)
    ensures e in Simplified(stmts) && e !in stmts ==>
            (exists labels :: IsCallWith(e, labels)) && e.forceCompact && !e.forceMultiLine
  {
    if stmts != [] {
      var rest := Simplified(stmts[1..]);
      OnlySubincludesChange(stmts[1..], e);
      SubincludesNameTheirLabels(e);
      assert stmts == [stmts[0]] + stmts[1..];
      if rest != [] && IsSubinclude(stmts[0]) && IsSubinclude(rest[0]) {
        assert rest == [rest[0]] + rest[1..];
      }
    }
  }

  ghost predicate NothingToJoin(stmts: seq<Expr>) {
    forall i :: 0 <= i < |stmts| - 1 ==> !(IsSubinclude(stmts[i]) && IsSubinclude(stmts[i + 1]))
  }

  /** No two adjacent subincludes are left. */
  lemma {:induction false} SimplifyJoinsAll(stmts: seq<Expr>)
    ensures NothingToJoin(Simplified(stmts))
  {
    if stmts != [] {
      var first, rest := stmts[0], Simplified(stmts[1..]);
      SimplifyJoinsAll(stmts[1..]);
      var all := Simplified(stmts);
      forall i | 0 <= i < |all| - 1
        ensures !(IsSubinclude(all[i]) && IsSubinclude(all[i + 1]))
      {
        if rest != [] && IsSubinclude(first) && IsSubinclude(rest[0]) {
          assert !(IsSubinclude(rest[i]) && IsSubinclude(rest[i + 1]));
        } else if i > 0 {
          assert !(IsSubinclude(rest[i - 1]) && IsSubinclude(rest[i - 1 + 1]));
        }
      }
    }
  }

  /** A file is left as it is exactly if it has no two adjacent subincludes. */
  lemma {:induction false} UnchangedIffNothingToJoin(stmts: seq<Expr>)
    ensures Simplified(stmts) == stmts <==> NothingToJoin(stmts)
  {
    SimplifyJoinsAll(stmts);
    if NothingToJoin(stmts) && stmts != [] {
      assert NothingToJoin(stmts[1..]) by {
        forall i | 0 <= i < |stmts| - 2
          ensures !(IsSubinclude(stmts[1..][i]) && IsSubinclude(stmts[1..][i + 1]))
        {
          assert !(IsSubinclude(stmts[i + 1]) && IsSubinclude(stmts[i + 1 + 1]));
        }
      }
      UnchangedIffNothingToJoin(stmts[1..]);
      assert |stmts| > 1 ==> !(IsSubinclude(stmts[0]) && IsSubinclude(stmts[0 + 1]));
    }
  }

  lemma SimplifyTwiceIsOnce(stmts: seq<Expr>)
    ensures Simplified(Simplified(stmts)) == Simplified(stmts)
  {
    SimplifyJoinsAll(stmts);
    UnchangedIffNothingToJoin(Simplified(stmts));
  }
}

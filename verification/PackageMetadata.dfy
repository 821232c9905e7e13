/**
 What the interpreter records about the statements of one BUILD file: which targets each statement
 produced and which subincludes and files it needed, and for each target the statement it came from.
 */
module PackageMetadata {
  import opened Options
  import opened BuildLabels
  import opened Reachability
  import opened Unions

  /** A statement is identified by its byte range. */
  datatype Stmt = Stmt(start: int, end: int)

  datatype StatementMetadata = StatementMetadata(
    subincludes: seq<Label>, files: seq<string>, targets: seq<Label>, isSubinclude: bool)

  const NOTHING := StatementMetadata([], [], [], false)

  /** Everything recorded about a package. */
  datatype Info = Info(statements: map<Stmt, StatementMetadata>, targetToStmt: map<Label, Stmt>)

  /** Every target is listed by the statement it is traced back to. */
  ghost predicate Traced(p: Info) {
    forall t :: t in p.targetToStmt ==>
      p.targetToStmt[t] in p.statements && t in p.statements[p.targetToStmt[t]].targets
  }

  /** The two maps are inverse: a statement lists exactly the targets traced back to it. */
  ghost predicate Inverse(p: Info) {
    Traced(p) &&
    forall s, t :: s in p.statements && t in p.statements[s].targets ==>
      t in p.targetToStmt && p.targetToStmt[t] == s
  }

  function MetadataOf(p: Info, s: Stmt): StatementMetadata {
    if s in p.statements then p.statements[s] else NOTHING
  }

  /** Appends the elements that are not there yet, in order. */
  function Merge<T(==)>(existing: seq<T>, added: seq<T>): seq<T> {
    if added == [] then existing
    else
      var front := Merge(existing, added[..|added| - 1]);
      if added[|added| - 1] in front then front else front + [added[|added| - 1]]
  }

  lemma {:induction false} MergeIsUnion<T>(existing: seq<T>, added: seq<T>)
    ensures existing <= Merge(existing, added)
    ensures Elements(Merge(existing, added)) == Elements(existing) + Elements(added)
    ensures Distinct(existing) ==> Distinct(Merge(existing, added))
  {
    if added != [] {
      var front, last := added[..|added| - 1], added[|added| - 1];
      MergeIsUnion(existing, front);
      assert added == front + [last];
      ElementsConcat(front, [last]);
      ElementsConcat(Merge(existing, front), [last]);
    }
  }

  method MergeSlices<T(==)>(existing: seq<T>, added: seq<T>) returns (merged: seq<T>)
    ensures merged == Merge(existing, added)
  {
    merged := existing;
    for i := 0 to |added|
      invariant merged == Merge(existing, added[..i])
    {
      assert added[..i + 1][..i] == added[..i];
      if added[i] !in merged {
        merged := merged + [added[i]];
      }
    }
    assert added[..|added|] == added;
  }

  class Tracked {
    var statements: map<Stmt, StatementMetadata>
    var targetToStmt: map<Label, Stmt>

    ghost function View(): Info
      reads this
    {
      Info(statements, targetToStmt)
    }

    constructor ()
      ensures View() == Info(map[], map[])
    {
      statements, targetToStmt := map[], map[];
    }

    /** Records that a statement was interpreted and what it needed; a second call adds to the first. */
    method RegisterStatement(stmt: Stmt, requiredSubincludes: seq<Label>, files: seq<string>)
      modifies this
      ensures targetToStmt == old(targetToStmt)
      ensures var was := MetadataOf(old(View()), stmt);
              statements == old(statements)[stmt := was.(
                subincludes := Merge(was.subincludes, requiredSubincludes), files := Merge(was.files, files))]
      ensures old(Traced(View())) ==> Traced(View())
      ensures old(Inverse(View())) ==> Inverse(View())
    {
      var sm := if stmt in statements then statements[stmt] else NOTHING;
      var subincludes := MergeSlices(sm.subincludes, requiredSubincludes);
      var fs := MergeSlices(sm.files, files);
      statements := statements[stmt := sm.(subincludes := subincludes, files := fs)];
    }

    /** Records that a statement produced a target. The maps stay inverse exactly if the target was not
        recorded for another statement before. */
    method RegisterTargetStatement(target: Label, stmt: Stmt)
      modifies this
      ensures View() == Registered(old(View()), target, stmt)
      ensures old(Traced(View())) ==> Traced(View())
      ensures old(Inverse(View())) ==>
                (Inverse(View()) <==> target !in old(targetToStmt) || old(targetToStmt)[target] == stmt)
    {
      var sm := if stmt in statements then statements[stmt] else NOTHING;
      statements := statements[stmt := sm.(targets := sm.targets + [target])];
      targetToStmt := targetToStmt[target := stmt];
      RegisteredTarget(old(View()), target, stmt);
    }

    method RegisterSubincludeStatement(stmt: Stmt)
      modifies this
      ensures targetToStmt == old(targetToStmt)
      ensures statements == old(statements)[stmt := MetadataOf(old(View()), stmt).(isSubinclude := true)]
      ensures old(Inverse(View())) ==> Inverse(View())
    {
      var sm := if stmt in statements then statements[stmt] else NOTHING;
      statements := statements[stmt := sm.(isSubinclude := true)];
    }

    /** The other targets of the statement that produced `target`; None if it is not recorded. */
    method FindRelatedTargets(target: Label) returns (related: Option<seq<Label>>)
      requires Traced(View())
      ensures related.None? <==> target !in targetToStmt
      ensures related.Some? ==> Elements(related.value) == Related(View(), target)
    {
      if target !in targetToStmt {
        return None;
      }
      var labels := RelatedTargets(Info(statements, targetToStmt), target);
      return Some(labels);
    }

    /** The subincludes and files the package needs outside of its targets. */
    method FindPackageLevelRequirements() returns (labels: seq<Label>, files: seq<string>)
      ensures Elements(labels) == PackageLevel(View()) && Elements(files) == PackageFiles(View())
    {
      labels, files := PackageLevelRequirements(Info(statements, targetToStmt));
    }
  }

  /** The record after a statement is noted to have produced a target. */
  function Registered(p: Info, target: Label, stmt: Stmt): Info {
    var was := MetadataOf(p, stmt);
    Info(p.statements[stmt := was.(targets := was.targets + [target])], p.targetToStmt[target := stmt])
  }

  /** The target was recorded for another statement before. */
  predicate Moves(p: Info, target: Label, stmt: Stmt) {
    target in p.targetToStmt && p.targetToStmt[target] != stmt
  }

  lemma RegisteredTarget(p: Info, target: Label, stmt: Stmt)
    ensures Traced(p) ==> Traced(Registered(p, target, stmt))
    ensures Inverse(p) ==> (Inverse(Registered(p, target, stmt)) <==> !Moves(p, target, stmt))
  {
    var q, was := Registered(p, target, stmt), MetadataOf(p, stmt).targets;
    assert forall t :: t in was + [target] <==> t in was || t == target;
    if Inverse(p) && Moves(p, target, stmt) {
      var first := p.targetToStmt[target];
      assert first in q.statements && target in q.statements[first].targets;
      assert q.targetToStmt[target] == stmt;
    }
  }

  // ---------------------------------------------------------------- what the exporter asks

  /** The other targets produced by the same statement. */
  ghost function Related(p: Info, target: Label): set<Label> {
    if target in p.targetToStmt then Elements(MetadataOf(p, p.targetToStmt[target]).targets) - {target} else {}
  }

  /** The subincludes the target's statement needed. */
  ghost function UsedSubincludes(p: Info, target: Label): set<Label> {
    if target in p.targetToStmt then Elements(MetadataOf(p, p.targetToStmt[target]).subincludes) else {}
  }

  /** The statement neither produces targets nor is a subinclude call. */
  predicate AtPackageLevel(sm: StatementMetadata) {
    sm.targets == [] && !sm.isSubinclude
  }

  /** The subincludes such statements need. */
  ghost function PackageLevel(p: Info): set<Label> {
    set s, l | s in p.statements && AtPackageLevel(p.statements[s]) && l in p.statements[s].subincludes :: l
  }

  /** The files such statements need. */
  ghost function PackageFiles(p: Info): set<string> {
    set s, f | s in p.statements && AtPackageLevel(p.statements[s]) && f in p.statements[s].files :: f
  }

  method RelatedTargets(info: Info, l: Label) returns (related: seq<Label>)
    requires Traced(info) && l in info.targetToStmt
    ensures Elements(related) == Related(info, l)
    ensures forall x :: x in related <==> x != l && x in info.statements[info.targetToStmt[l]].targets
  {
    var all := info.statements[info.targetToStmt[l]].targets;
    related := [];
    for i := 0 to |all|
      invariant forall x :: x in related <==> x in all[..i] && x != l
    {
      if all[i] != l {
        related := related + [all[i]];
      }
    }
    assert all[..|all|] == all;
  }

  /** The subincludes and files that the statements at package level need, in any order. */
  method PackageLevelRequirements(info: Info) returns (labels: seq<Label>, files: seq<string>)
    ensures Elements(labels) == PackageLevel(info) && Elements(files) == PackageFiles(info)
    ensures forall x :: x in labels <==>
              exists s :: s in info.statements && info.statements[s].targets == [] && !info.statements[s].isSubinclude &&
                x in info.statements[s].subincludes
    ensures forall x :: x in files <==>
              exists s :: s in info.statements && info.statements[s].targets == [] && !info.statements[s].isSubinclude &&
                x in info.statements[s].files
  {
    var requiredSet: set<Label>, filesSet: set<string> := {}, {};
    var rest := info.statements.Keys;
    while rest != {}
      invariant rest <= info.statements.Keys
      invariant forall x :: x in requiredSet <==>
                  exists s :: s in info.statements && s !in rest && AtPackageLevel(info.statements[s]) &&
                    x in info.statements[s].subincludes
      invariant forall x :: x in filesSet <==>
                  exists s :: s in info.statements && s !in rest && AtPackageLevel(info.statements[s]) &&
                    x in info.statements[s].files
      decreases rest
    {
      var s :| s in rest;
      var sm := info.statements[s];
      if AtPackageLevel(sm) {
        requiredSet := requiredSet + (set x | x in sm.subincludes);
        filesSet := filesSet + (set x | x in sm.files);
      }
      rest := rest - {s};
    }
    assert requiredSet == PackageLevel(info) && filesSet == PackageFiles(info);
    labels := AppendMissing([], requiredSet);
    files := AppendMissing([], filesSet);
  }

  // ---------------------------------------------------------------- targets of one statement

  /** Targets of one statement name each other. */
  ghost predicate Symmetric(p: Info) {
    forall a, b :: b in Related(p, a) ==> a in Related(p, b)
  }

  lemma InverseIsSymmetric(p: Info)
    requires Inverse(p)
    ensures Symmetric(p)
  {
  }

  /** Starting from inverse maps, registering a target keeps targets of one statement naming each other exactly if it does
      not take the target away from others it was produced with. */
  lemma SymmetricAfterRegistering(p: Info, target: Label, stmt: Stmt)
    requires Inverse(p)
    ensures Symmetric(Registered(p, target, stmt)) <==> (Moves(p, target, stmt) ==> Related(p, target) == {})
  {
    if !Moves(p, target, stmt) {
      RegisteredTarget(p, target, stmt);
      InverseIsSymmetric(Registered(p, target, stmt));
    } else if Related(p, target) == {} {
      MovedAlone(p, target, stmt);
    } else {
      var b :| b in Related(p, target);
      MovedAway(p, target, stmt, b);
    }
  }

  lemma MovedAway(p: Info, target: Label, stmt: Stmt, b: Label)
    requires Inverse(p) && Moves(p, target, stmt) && b in Related(p, target)
    ensures var q := Registered(p, target, stmt); target in Related(q, b) && b !in Related(q, target)
  {
    var was := MetadataOf(p, stmt).targets;
    assert forall t :: t in was + [target] <==> t in was || t == target;
  }

  lemma MovedAlone(p: Info, target: Label, stmt: Stmt)
    requires Inverse(p) && Moves(p, target, stmt) && Related(p, target) == {}
    ensures Symmetric(Registered(p, target, stmt))
  {
    var q, was := Registered(p, target, stmt), MetadataOf(p, stmt).targets;
    assert forall t :: t in was + [target] <==> t in was || t == target;
    forall a, b | b in Related(q, a)
      ensures a in Related(q, b)
    {
      assert a != target ==> a in p.targetToStmt && a in p.statements[p.targetToStmt[a]].targets;
      assert b != target ==> b in p.targetToStmt;
    }
  }

  /** Three registrations after which one target names another that does not name it. */
  method RegisterTwice() returns (m: Tracked, a: Label, b: Label)
    ensures Traced(m.View()) && b in Related(m.View(), a) && a !in Related(m.View(), b)
  {
    a, b := Label("p", "a", ""), Label("p", "b", "");
    var first, second := Stmt(0, 1), Stmt(2, 3);
    m := new Tracked();
    m.RegisterTargetStatement(a, first);
    assert second !in m.statements && m.statements[first].targets == [a] && b !in m.targetToStmt;
    m.RegisterTargetStatement(b, first);
    assert second !in m.statements && m.statements[first].targets == [a, b] && m.targetToStmt[a] == first;
    m.RegisterTargetStatement(b, second);
    assert m.statements[first].targets == [a, b] && m.statements[second].targets == [b];
  }
}

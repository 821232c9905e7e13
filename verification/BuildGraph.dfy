/**
 Build targets and the graph they form.
 A `Target` is the value of one parsed target; `BuildTarget` is the object the parser fills in.
 Require/provide decides which targets actually stand behind a declared dependency.
 */
module BuildGraph {
  import opened Options
  import opened BuildLabels
  import opened Reachability
  import opened Unions

  /** A declared dependency and what kind of dependency it is. */
  datatype Dependency = Dependency(id: Label, exported: bool, source: bool, internal: bool, runtime: bool, data: bool)

  /** An input of a target: a file, or the outputs of another target. */
  datatype Input = File(path: string) | Output(id: Label)

  datatype Target = Target(
    id: Label,
    dependencies: seq<Dependency>,
    sources: seq<Input>,
    data: seq<Input>,
    tools: seq<Input>,
    requirements: seq<string>,
    provisions: map<string, seq<Label>>,
    needsTransitiveDependencies: bool,
    outputIsComplete: bool,
    local: bool,
    isTest: bool,
    hasPreBuild: bool,
    subrepoTarget: Option<Label>)

  type Graph = map<Label, Target>

  /** Every target is filed under its own label. */
  ghost predicate WellFiled(g: Graph) {
    forall l :: l in g ==> g[l].id == l
  }

  function DeclaredLabels(t: Target): set<Label> {
    set d | d in t.dependencies :: d.id
  }

  function InputLabels(inputs: seq<Input>): set<Label> {
    set i | i in inputs && i.Output? :: i.id
  }

  /** `t` is a data item or a tool of `other`, which never goes through require/provide. */
  predicate UsedDirectly(t: Target, other: Target) {
    t.id in InputLabels(other.data) || t.id in InputLabels(other.tools)
  }

  /** The labels provided for each requirement in turn. */
  function Provided(provisions: map<string, seq<Label>>, requirements: seq<string>): seq<Label> {
    if requirements == [] then []
    else
      Provided(provisions, requirements[..|requirements| - 1]) +
      (var last := requirements[|requirements| - 1]; if last in provisions then provisions[last] else [])
  }

  predicate ProvidesAny(provisions: map<string, seq<Label>>, requirements: seq<string>) {
    exists r :: r in requirements && r in provisions
  }

  /** The labels that stand behind `t` when `other` depends on it. */
  function ProvideFor(t: Target, other: Target): seq<Label> {
    if !UsedDirectly(t, other) && ProvidesAny(t.provisions, other.requirements) then
      Provided(t.provisions, other.requirements)
    else [t.id]
  }

  lemma {:induction false} ProvidedMember(provisions: map<string, seq<Label>>, requirements: seq<string>, l: Label)
    ensures l in Provided(provisions, requirements) <==>
            exists r :: r in requirements && r in provisions && l in provisions[r]
  {
    if requirements != [] {
      var front := requirements[..|requirements| - 1];
      ProvidedMember(provisions, front, l);
      assert requirements == front + [requirements[|requirements| - 1]];
    }
  }

  /** A label stands behind a dependency when it is provided for some requirement, or is the dependency itself. */
  lemma ProvideForMember(t: Target, other: Target, l: Label)
    ensures l in ProvideFor(t, other) <==>
            if Output(t.id) !in other.data && Output(t.id) !in other.tools &&
               (exists r :: r in other.requirements && r in t.provisions)
            then exists r :: r in other.requirements && r in t.provisions && l in t.provisions[r]
            else l == t.id
  {
    ProvidedMember(t.provisions, other.requirements, l);
    assert UsedDirectly(t, other) <==> Output(t.id) in other.data || Output(t.id) in other.tools by {
      if Output(t.id) in other.data {
        assert Output(t.id).id in InputLabels(other.data);
      }
      if Output(t.id) in other.tools {
        assert Output(t.id).id in InputLabels(other.tools);
      }
    }
  }

  /** The loop that collects what a target provisions for another one. */
  method CollectProvided(t: Target, other: Target) returns (ret: seq<Label>)
    ensures ret == ProvideFor(t, other)
  {
    ret := [];
    if |other.requirements| == 0 || UsedDirectly(t, other) {
      return [t.id];
    }
    var found := false;
    for i := 0 to |other.requirements|
      invariant ret == Provided(t.provisions, other.requirements[..i])
      invariant found <==> ProvidesAny(t.provisions, other.requirements[..i])
    {
      var r := other.requirements[i];
      assert other.requirements[..i + 1] == other.requirements[..i] + [r];
      if r in t.provisions {
        ret := ret + t.provisions[r];
        found := true;
      }
    }
    assert other.requirements[..|other.requirements|] == other.requirements;
    if !found {
      ret := [t.id];
    }
  }

  /** The labels of the declared dependencies, in order. */
  method DeclaredDependencies(t: Target) returns (labels: seq<Label>)
    ensures Elements(labels) == DeclaredLabels(t)
  {
    labels := seq(|t.dependencies|, i requires 0 <= i < |t.dependencies| => t.dependencies[i].id);
    forall l
      ensures l in Elements(labels) <==> l in DeclaredLabels(t)
    {
      if l in labels {
        var i :| 0 <= i < |labels| && labels[i] == l;
        assert t.dependencies[i] in t.dependencies;
      }
      if l in DeclaredLabels(t) {
        var d :| d in t.dependencies && d.id == l;
        var i :| 0 <= i < |t.dependencies| && t.dependencies[i] == d;
        assert labels[i] == l;
      }
    }
  }

  /** What is behind the declared dependency `d` of `t`; nothing if `d` is not in the graph. */
  function Behind(g: Graph, t: Target, d: Label): seq<Label> {
    if d in g then ProvideFor(g[d], t) else []
  }

  /** The targets of the graph that `t` depends on, after require/provide. */
  ghost function Resolved(g: Graph, t: Target): set<Label> {
    set d, p | d in DeclaredLabels(t) && p in Behind(g, t, d) && p in g :: p
  }

  /** The labels that `t` needs and the graph does not have. */
  ghost function Unresolved(g: Graph, t: Target): set<Label> {
    (set d | d in DeclaredLabels(t) && d !in g) +
    (set d, p | d in DeclaredLabels(t) && p in Behind(g, t, d) && p !in g :: p)
  }

  /** A label is resolved if it is in the graph and stands behind a declared dependency that is; whatever stands behind
      one, or is declared, without being in the graph is unresolved. */
  lemma ResolvedMember(g: Graph, t: Target, l: Label)
    ensures l in Resolved(g, t) <==>
            l in g && exists d :: d in t.dependencies && d.id in g && l in ProvideFor(g[d.id], t)
    ensures l in Unresolved(g, t) <==>
            l !in g && exists d :: d in t.dependencies && if d.id in g then l in ProvideFor(g[d.id], t) else l == d.id
  {
    if d :| d in t.dependencies && d.id in g && l in ProvideFor(g[d.id], t) {
      assert d.id in DeclaredLabels(t) && l in Behind(g, t, d.id);
    }
    if d :| d in t.dependencies && d.id == l {
      assert l in DeclaredLabels(t);
    }
  }

  /** The resolved dependency graph. */
  ghost function DependencyEdges(g: Graph): Edges<Label> {
    map l | l in g :: Resolved(g, g[l])
  }

  /** Looks each label up; those that are not in the graph are reported apart. */
  method LookUp(g: Graph, labels: seq<Label>) returns (found: seq<Label>, missing: seq<Label>)
    ensures forall l :: l in found <==> l in labels && l in g
    ensures forall l :: l in missing <==> l in labels && l !in g
  {
    found, missing := [], [];
    for k := 0 to |labels|
      invariant forall l :: l in found <==> l in labels[..k] && l in g
      invariant forall l :: l in missing <==> l in labels[..k] && l !in g
    {
      if labels[k] in g {
        found := found + [labels[k]];
      } else {
        missing := missing + [labels[k]];
      }
    }
    assert labels[..|labels|] == labels;
  }

  /** Resolves every declared dependency of a target; whatever is not in the graph is reported apart. */
  method Dependencies(g: Graph, t: Target) returns (ret: seq<Label>, unresolved: seq<Label>)
    ensures (set l | l in ret) == Resolved(g, t)
    ensures (set l | l in unresolved) == Unresolved(g, t)
  {
    ret, unresolved := [], [];
    for i := 0 to |t.dependencies|
      invariant forall l :: l in ret <==>
                  exists j :: 0 <= j < i && l in Behind(g, t, t.dependencies[j].id) && l in g
      invariant forall l :: l in unresolved <==>
                  exists j :: 0 <= j < i && MissingBehind(g, t, t.dependencies[j].id, l)
    {
      var d := t.dependencies[i].id;
      if d !in g {
        unresolved := unresolved + [d];
        continue;
      }
      var provided := CollectProvided(g[d], t);
      var found, missing := LookUp(g, provided);
      ret, unresolved := ret + found, unresolved + missing;
    }
    forall l
      ensures l in ret <==> l in Resolved(g, t)
      ensures l in unresolved <==> l in Unresolved(g, t)
    {
      assert forall j :: 0 <= j < |t.dependencies| ==> t.dependencies[j] in t.dependencies;
    }
  }

  ghost predicate MissingBehind(g: Graph, t: Target, d: Label, l: Label) {
    l !in g && (if d in g then l in ProvideFor(g[d], t) else l == d)
  }

  // ---------------------------------------------------------------- the target object

  predicate Declares(deps: seq<Dependency>, l: Label) {
    exists i :: 0 <= i < |deps| && deps[i].id == l
  }

  /** Each label is declared once. */
  ghost predicate LabelsOnce(deps: seq<Dependency>) {
    forall i, j :: 0 <= i < j < |deps| ==> deps[i].id != deps[j].id
  }

  /** Declares a dependency, or merges it into the one that is there: it stays a mere source, internal or run-time
      dependency only if it is that every time. */
  function Merged(deps: seq<Dependency>, d: Dependency): seq<Dependency> {
    if !Declares(deps, d.id) then deps + [d]
    else seq(|deps|, i requires 0 <= i < |deps| => if deps[i].id == d.id then MergedWith(deps[i], d) else deps[i])
  }

  function MergedWith(was: Dependency, d: Dependency): Dependency {
    Dependency(was.id, was.exported || d.exported, was.source && d.source, was.internal && d.internal,
               was.runtime && d.runtime, d.data)
  }

  function MarkedAsData(deps: seq<Dependency>, l: Label): seq<Dependency> {
    seq(|deps|, i requires 0 <= i < |deps| => if deps[i].id == l then deps[i].(data := true) else deps[i])
  }

  lemma MergedDeclares(deps: seq<Dependency>, d: Dependency)
    ensures forall l :: Declares(Merged(deps, d), l) <==> Declares(deps, l) || l == d.id
    ensures LabelsOnce(deps) ==> LabelsOnce(Merged(deps, d))
  {
    var all := Merged(deps, d);
    if !Declares(deps, d.id) {
      assert all[|deps|].id == d.id;
    }
    SameIds(deps, all);
    if Declares(deps, d.id) {
      SameIds(all, deps);
    }
  }

  lemma SameIds(a: seq<Dependency>, b: seq<Dependency>)
    requires |a| <= |b| && forall i :: 0 <= i < |a| ==> a[i].id == b[i].id
    ensures forall l :: Declares(a, l) ==> Declares(b, l)
  {
    forall l | Declares(a, l)
      ensures Declares(b, l)
    {
      var i :| 0 <= i < |a| && a[i].id == l;
      assert b[i].id == l;
    }
  }

  /** Declaring a label twice is declaring it once with the merged flags. */
  lemma MergedTwice(deps: seq<Dependency>, a: Dependency, b: Dependency)
    requires a.id == b.id
    ensures Merged(Merged(deps, a), b) == Merged(deps, MergedWith(a, b))
  {
    if Declares(deps, a.id) {
      MergedKnown(deps, a, b);
    } else {
      MergedNew(deps, a, b);
    }
  }

  lemma MergedNew(deps: seq<Dependency>, a: Dependency, b: Dependency)
    requires a.id == b.id && !Declares(deps, a.id)
    ensures Merged(deps + [a], b) == deps + [MergedWith(a, b)]
  {
    var once := deps + [a];
    assert once[|deps|].id == b.id;
    assert forall i :: 0 <= i < |deps| ==> once[i] == deps[i] && deps[i].id != b.id;
  }

  lemma MergedKnown(deps: seq<Dependency>, a: Dependency, b: Dependency)
    requires a.id == b.id && Declares(deps, a.id)
    ensures Merged(Merged(deps, a), b) == Merged(deps, MergedWith(a, b))
  {
    var once := Merged(deps, a);
    MergedDeclares(deps, a);
    forall i | 0 <= i < |deps|
      ensures Merged(once, b)[i] == Merged(deps, MergedWith(a, b))[i]
    {
      assert once[i].id == deps[i].id;
    }
  }

  /** A target's dependencies after a list of declarations, made one after the other. */
  ghost function MergedAll(ds: seq<Dependency>): seq<Dependency> {
    if ds == [] then [] else Merged(MergedAll(ds[..|ds| - 1]), ds[|ds| - 1])
  }

  lemma {:induction false} MergedAllDeclares(ds: seq<Dependency>, l: Label)
    ensures Declares(MergedAll(ds), l) <==> exists i :: 0 <= i < |ds| && ds[i].id == l
  {
    if ds != [] {
      var front, d := ds[..|ds| - 1], ds[|ds| - 1];
      MergedAllDeclares(front, l);
      MergedDeclares(MergedAll(front), d);
      assert forall i :: 0 <= i < |front| ==> front[i] == ds[i];
    }
  }

  /** What the flags of a declared dependency say about the declarations it came from. */
  ghost predicate FlagsOf(m: Dependency, ds: seq<Dependency>) {
    && (m.exported <==> exists i :: 0 <= i < |ds| && ds[i].id == m.id && ds[i].exported)
    && (m.source <==> forall i :: 0 <= i < |ds| && ds[i].id == m.id ==> ds[i].source)
    && (m.internal <==> forall i :: 0 <= i < |ds| && ds[i].id == m.id ==> ds[i].internal)
    && (m.runtime <==> forall i :: 0 <= i < |ds| && ds[i].id == m.id ==> ds[i].runtime)
  }

  /** A dependency is exported if any of its declarations says so, and a mere source, internal or run-time dependency if
      all of them do. */
  lemma {:induction false} FlagsOfMergedAll(ds: seq<Dependency>, k: nat)
    requires k < |MergedAll(ds)|
    ensures FlagsOf(MergedAll(ds)[k], ds)
  {
    var front, d := ds[..|ds| - 1], ds[|ds| - 1];
    var before := MergedAll(front);
    assert ds == front + [d];
    MergedAllDeclares(front, d.id);
    if k < |before| {
      FlagsOfMergedAll(front, k);
      if before[k].id == d.id {
        FlagsWithOneMore(before[k], front, d);
      } else {
        FlagsWithAnother(before[k], front, d);
      }
    } else {
      FlagsOfFirst(front, d);
    }
  }

  lemma FlagsWithOneMore(m: Dependency, front: seq<Dependency>, d: Dependency)
    requires FlagsOf(m, front) && m.id == d.id
    ensures FlagsOf(MergedWith(m, d), front + [d])
  {
    var ds := front + [d];
    assert ds[|front|] == d && forall i :: 0 <= i < |front| ==> ds[i] == front[i];
  }

  lemma FlagsWithAnother(m: Dependency, front: seq<Dependency>, d: Dependency)
    requires FlagsOf(m, front) && m.id != d.id
    ensures FlagsOf(m, front + [d])
  {
    var ds := front + [d];
    assert ds[|front|] == d && forall i :: 0 <= i < |front| ==> ds[i] == front[i];
  }

  lemma FlagsOfFirst(front: seq<Dependency>, d: Dependency)
    requires forall i :: 0 <= i < |front| ==> front[i].id != d.id
    ensures FlagsOf(d, front + [d])
  {
    var ds := front + [d];
    assert ds[|front|] == d && forall i :: 0 <= i < |front| ==> ds[i] == front[i];
  }

  /** In whatever order a label is declared, its flags come out the same. */
  lemma MergeOrderDoesNotMatter(deps: seq<Dependency>, a: Dependency, b: Dependency)
    requires a.id == b.id && a.data == b.data
    ensures Merged(Merged(deps, a), b) == Merged(Merged(deps, b), a)
  {
    MergedTwice(deps, a, b);
    MergedTwice(deps, b, a);
  }

  /** A target while the parser is still adding to it. */
  class BuildTarget {
    const id: Label
    const isBinary: bool
    var dependencies: seq<Dependency>
    var runtimeDependencies: seq<Label>
    var sources: seq<Input>
    var data: seq<Input>
    var tools: seq<Input>

    /** No label is declared twice, nothing depends on itself, and every labelled input is declared. */
    ghost predicate Valid()
      reads this
    {
      && LabelsOnce(dependencies)
      && (forall i :: 0 <= i < |dependencies| ==> dependencies[i].id != id)
      && (forall s :: s in sources && s.Output? ==> Declares(dependencies, s.id))
      && (forall s :: s in data && s.Output? ==> Declares(dependencies, s.id))
      && (forall s :: s in tools && s.Output? ==> Declares(dependencies, s.id))
      && (forall r :: r in runtimeDependencies ==> Declares(dependencies, r))
    }

    constructor (id: Label, isBinary: bool)
      ensures Valid() && this.id == id && this.isBinary == isBinary
      ensures dependencies == [] && runtimeDependencies == [] && sources == [] && data == [] && tools == []
    {
      this.id, this.isBinary := id, isBinary;
      dependencies, runtimeDependencies, sources, data, tools := [], [], [], [], [];
    }

    /** The position of the declared dependency, or -1. */
    method DependencyInfo(dep: Label) returns (i: int)
      ensures -1 <= i < |dependencies|
      ensures i >= 0 ==> dependencies[i].id == dep
      ensures i == -1 <==> !Declares(dependencies, dep)
    {
      i := 0;
      while i < |dependencies|
        invariant 0 <= i <= |dependencies|
        invariant forall j :: 0 <= j < i ==> dependencies[j].id != dep
      {
        if dependencies[i].id == dep {
          return;
        }
        i := i + 1;
      }
      i := -1;
    }

    method AddMaybeExportedDependency(dep: Label, exported: bool, source: bool, internal: bool, runtime: bool)
      requires Valid() && dep != id
      requires runtime ==> isBinary
      modifies this`dependencies, this`runtimeDependencies
      ensures Valid()
      ensures runtimeDependencies == old(runtimeDependencies) + (if runtime then [dep] else [])
      ensures dependencies == Merged(old(dependencies), Dependency(dep, exported, source, internal, runtime, false))
    {
      MergedDeclares(dependencies, Dependency(dep, exported, source, internal, runtime, false));
      if runtime {
        runtimeDependencies := runtimeDependencies + [dep];
      }
      var i := DependencyInfo(dep);
      if i == -1 {
        dependencies := dependencies + [Dependency(dep, exported, source, internal, runtime, false)];
      } else {
        var was := dependencies[i];
        dependencies := dependencies[i := Dependency(dep, was.exported || exported, was.source && source,
                                                     was.internal && internal, was.runtime && runtime, false)];
      }
      assert dependencies == Merged(old(dependencies), Dependency(dep, exported, source, internal, runtime, false));
    }

    /** Adds a source once; a labelled one becomes a dependency. */
    method AddSource(source: Input)
      requires Valid()
      requires source.Output? ==> source.id != id
      modifies this`dependencies, this`runtimeDependencies, this`sources
      ensures Valid() && runtimeDependencies == old(runtimeDependencies)
      ensures sources == if source in old(sources) then old(sources) else old(sources) + [source]
      ensures dependencies == if source in old(sources) || source.File? then old(dependencies)
                              else Merged(old(dependencies), Dependency(source.id, false, true, false, false, false))
    {
      if source in sources {
        return;
      }
      if source.Output? {
        MergedDeclares(dependencies, Dependency(source.id, false, true, false, false, false));
        AddMaybeExportedDependency(source.id, false, true, false, false);
      }
      sources := sources + [source];
    }

    /** Adds a tool, which is an ordinary dependency. */
    method AddTool(tool: Input)
      requires Valid()
      requires tool.Output? ==> tool.id != id
      modifies this`dependencies, this`runtimeDependencies, this`tools
      ensures Valid() && runtimeDependencies == old(runtimeDependencies) && tools == old(tools) + [tool]
      ensures dependencies == if tool.File? then old(dependencies)
                              else Merged(old(dependencies), Dependency(tool.id, false, false, false, false, false))
    {
      if tool.Output? {
        MergedDeclares(dependencies, Dependency(tool.id, false, false, false, false, false));
        AddMaybeExportedDependency(tool.id, false, false, false, false);
      }
      tools := tools + [tool];
    }

    /** Adds a data item; its dependency is marked as data, whatever it was before. */
    method AddDatum(datum: Input)
      requires Valid()
      requires datum.Output? ==> datum.id != id
      modifies this`dependencies, this`runtimeDependencies, this`data
      ensures Valid() && runtimeDependencies == old(runtimeDependencies) && data == old(data) + [datum]
      ensures dependencies ==
                if datum.File? then old(dependencies)
                else MarkedAsData(Merged(old(dependencies), Dependency(datum.id, false, false, false, false, false)), datum.id)
    {
      if datum.Output? {
        MergedDeclares(dependencies, Dependency(datum.id, false, false, false, false, false));
        AddMaybeExportedDependency(datum.id, false, false, false, false);
        var i := DependencyInfo(datum.id);
        ghost var added := dependencies;
        dependencies := dependencies[i := dependencies[i].(data := true)];
        SameIds(added, dependencies);
        SameIds(dependencies, added);
        assert dependencies == MarkedAsData(added, datum.id);
      }
      data := data + [datum];
    }
  }
}

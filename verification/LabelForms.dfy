/**
 The forms in which labels are written in BUILD files: relative, abbreviated and with a subrepo; the short form in which
 the exporter writes them; and what wildcards cover.
 */
module LabelForms {
  import opened Options
  import opened Strings
  import opened BuildLabels

  // ---------------------------------------------------------------- relative and abbreviated

  /** `:name` is a target of the package it is written in, and of the host repo; any other use of the colon is refused. */
  lemma RelativeForm(name: string, pkg: string, subrepo: string)
    ensures TryParse(":" + name, pkg, subrepo) == if ValidTargetName(name) then Some(Label(pkg, name, "")) else None
  {
    assert (":" + name)[1..] == name;
  }

  /** The last component of a path. */
  function LastComponent(s: string): string {
    s[LastIndexOf(s, '/') + 1..]
  }

  /** `//path`, without a colon, is the target of that package that is named like its last component. */
  lemma AbbreviatedForm(path: string, pkg: string, subrepo: string)
    requires path != "" && ValidPackageName(path) && LastComponent(path) != "..."
    ensures TryParse("//" + path, pkg, subrepo) == Some(Label(path, LastComponent(path), subrepo))
  {
    var s := "//" + path;
    SlashesBefore(s, path);
    AbsoluteBranch(s, pkg, subrepo);
    ValidPackageHasNoColon(path);
    assert IndexOf(s, ':') == -1;
    if HasSuffix(s, "/...") {
      EndsInWildcard(path);
    }
    assert path[|path| - 1] != '/';
  }

  /** What two slashes in front of a path leave unchanged. */
  lemma SlashesBefore(s: string, path: string)
    requires s == "//" + path
    ensures |s| == 2 + |path| && s[0] == s[1] == '/' && s[2..] == path
    ensures forall i :: 0 <= i < |path| ==> s[2 + i] == path[i]
    ensures ':' !in path ==> ':' !in s
    ensures s[LastIndexOf(s, '/') + 1..] == LastComponent(path)
  {
    LastSlash(s, path);
  }

  lemma LastSlash(s: string, path: string)
    requires |s| == 2 + |path| && s[0] == s[1] == '/' && s[2..] == path
    ensures s[LastIndexOf(s, '/') + 1..] == LastComponent(path)
  {
    var i := LastIndexOf(path, '/');
    assert forall j :: 2 <= j < |s| ==> s[j] == s[2..][j - 2];
    if i >= 0 {
      assert s[2 + i] == '/';
    }
    assert LastIndexOf(s, '/') == 2 + i;
  }

  lemma EndsInWildcard(path: string)
    requires HasSuffix("//" + path, "/...")
    ensures LastComponent(path) == "..."
  {
    var s := "//" + path;
    assert s[|s| - 4..] == "/...";
    assert s[|s| - 3..] == "..." && s[|s| - 4] == '/';
    assert |path| >= 3 by {
      assert s[|s| - 1] == '.' && s[|s| - 2] == '.' && s[|s| - 3] == '.';
    }
    assert path[|path| - 3..] == s[|s| - 3..];
    var i := LastIndexOf(path, '/');
    assert forall j :: |path| - 3 <= j < |path| ==> path[j] == path[|path| - 3..][j - (|path| - 3)] == '.';
    if |path| > 3 {
      assert path[|path| - 4] == s[|s| - 4] == '/';
    }
    assert i == |path| - 4;
  }

  // ---------------------------------------------------------------- subrepos

  /** `@` and `///` mean the same. */
  lemma AtIsTripleSlash(rest: string, pkg: string, subrepo: string)
    ensures TryParse("@" + rest, pkg, subrepo) == TryParse("///" + rest, pkg, subrepo)
  {
    TripleSlashBranch(rest, pkg, subrepo);
    assert ("@" + rest)[1..] == rest;
  }

  /** A subrepo followed by an absolute label is that label in the subrepo. */
  lemma SubrepoForm(name: string, rest: string, pkg: string, subrepo: string)
    requires ValidSubrepo(name) && SlashesAt(rest, 0)
    ensures TryParse("@" + name + rest, pkg, subrepo) ==
            match TryParse(rest, pkg, "") case Some(l) => Some(l.(subrepo := name)) case None => None
  {
    assert "@" + name + rest == "@" + (name + rest);
    AtIsTripleSlash(name + rest, pkg, subrepo);
    TripleSlashBranch(name + rest, pkg, subrepo);
    SubrepoBranch(name, rest, pkg);
  }

  /** A subrepo followed by a relative label is a target of the same package in the subrepo. */
  lemma SubrepoRelativeForm(name: string, target: string, pkg: string, subrepo: string)
    requires ':' !in name && IndexOfSlashes(name + ":" + target) == -1
    ensures TryParse("@" + name + ":" + target, pkg, subrepo) ==
            if ValidTargetName(target) then Some(Label(pkg, target, name)) else None
  {
    var s := name + ":" + target;
    assert "@" + name + ":" + target == "@" + s;
    AtForm(s, pkg, subrepo);
    assert s[|name|] == ':' && forall i :: 0 <= i < |name| ==> s[i] == name[i];
    assert IndexOf(s, ':') == |name|;
    assert s[..|name|] == name && s[|name|..] == ":" + target;
    RelativeForm(target, pkg, "");
    assert (":" + target)[1..] == target;
  }

  /** A subrepo alone is the target at its root that is named like its last component. */
  lemma BareSubrepoForm(name: string, pkg: string, subrepo: string)
    requires name != "" && ':' !in name && IndexOfSlashes(name) == -1 && name[|name| - 1] != '/'
    ensures TryParse("@" + name, pkg, subrepo) == Some(Label("", LastComponent(name), name))
  {
    AtForm(name, pkg, subrepo);
    assert IndexOf(name, ':') == -1;
  }

  lemma AtForm(rest: string, pkg: string, subrepo: string)
    requires rest != ""
    ensures ParseParts("@" + rest, pkg, subrepo) == ParseSubrepoParts(rest, pkg)
  {
    assert ("@" + rest)[1..] == rest;
  }

  /** A colon before the end of the subrepo is refused. */
  lemma ColonInSubrepoIsRefused(name: string, rest: string, pkg: string, subrepo: string)
    requires ':' in name && IndexOfSlashes(name + rest) == |name|
    ensures TryParse("@" + name + rest, pkg, subrepo) == None
  {
    assert "@" + name + rest == "@" + (name + rest);
    AtForm(name + rest, pkg, subrepo);
    assert (name + rest)[..|name|] == name;
  }

  /** Whatever starts differently is no label. */
  lemma OtherFormsAreRefused(s: string, pkg: string, subrepo: string)
    requires |s| < 2 || (s[0] != ':' && s[0] != '@' && !(s[0] == '/' && s[1] == '/'))
    ensures TryParse(s, pkg, subrepo) == None
  {
    assert |s| >= 3 ==> s[..3][0] == s[0] && s[..3][1] == s[1];
  }

  // ---------------------------------------------------------------- the short form

  /** path.Base, for a package. */
  function Base(pkg: string): string {
    if pkg == "" then "." else LastComponent(pkg)
  }

  /** A label abbreviated as far as possible, relative to another one. */
  function ShortString(l: Label, context: Label): string {
    if l.subrepo != context.subrepo then Print(l)
    else if l.pkg == context.pkg then ":" + l.name
    else if l.name == Base(l.pkg) then "//" + l.pkg
    else Print(l.(subrepo := ""))
  }

  /** A short form read where it was written gives the label back exactly if: between repos, the label is not one of the
      host repo other than a wildcard; in the same package, both are of the host repo; otherwise it is no wildcard, or a
      wildcard of the host repo that is not named like its own package. */
  ghost predicate ReadsBackShort(l: Label, context: Label) {
    if l.subrepo != context.subrepo then l.subrepo != "" || l.name == ALL_SUBPACKAGES
    else if l.pkg == context.pkg then l.subrepo == ""
    else l.name == ALL_SUBPACKAGES ==> l.subrepo == "" && Base(l.pkg) != ALL_SUBPACKAGES
  }

  lemma ShortRoundTrip(l: Label, context: Label)
    requires Printable(l) && l.(subrepo := "") != ORIGINAL_TARGET
    ensures TryParse(ShortString(l, context), context.pkg, context.subrepo) == Some(l) <==> ReadsBackShort(l, context)
  {
    if l.subrepo != context.subrepo {
      if l.subrepo == "" {
        HostRoundTrip(l, context.pkg, context.subrepo);
      } else {
        SubrepoLabelsAreAbsolute(l, context.pkg, context.subrepo);
      }
    } else if l.pkg == context.pkg {
      RelativeForm(l.name, context.pkg, context.subrepo);
    } else if l.name == Base(l.pkg) {
      ShortPackageForm(l, context);
    } else {
      HostRoundTrip(l.(subrepo := ""), context.pkg, context.subrepo);
    }
  }

  /** Short forms that are read as another label: a target of the same package in a subrepo, and a host label in one. */
  lemma ShortFormsCanBeMisread()
    ensures var l, context := Label("p", "t", "r"), Label("p", "all", "r");
            TryParse(ShortString(l, context), context.pkg, context.subrepo) == Some(Label("p", "t", ""))
    ensures var l, context := Label("q", "t", ""), Label("p", "all", "r");
            TryParse(ShortString(l, context), context.pkg, context.subrepo) == Some(Label("q", "t", "r"))
  {
    RelativeForm("t", "p", "r");
    assert ValidTargetName("t") by {
      assert |BUILD_DIR_SUFFIX| == 7 && |TEST_DIR_SUFFIX| == 6;
    }
    HostRoundTrip(Label("q", "t", ""), "p", "r");
  }

  lemma ShortPackageForm(l: Label, context: Label)
    requires Printable(l) && l.subrepo == context.subrepo && l.name == Base(l.pkg)
    ensures TryParse("//" + l.pkg, context.pkg, context.subrepo) == Some(l) <==> l.name != ALL_SUBPACKAGES
  {
    assert l.pkg != "" by {
      assert !ValidTargetName(".");
    }
    if l.name != ALL_SUBPACKAGES {
      AbbreviatedForm(l.pkg, context.pkg, context.subrepo);
    } else {
      WildcardSwallowsPackage(l.pkg, context.pkg, context.subrepo);
    }
  }

  lemma SlashThenWildcard(s: string, i: nat)
    requires i < |s| && s[i] == '/' && s[i + 1..] == "..."
    ensures HasSuffix(s, "/...")
  {
    assert |s| == i + 4;
    assert s[i..] == [s[i]] + s[i + 1..];
  }

  /** A package whose last component is the wildcard reads as the wildcard of its parent. */
  lemma WildcardSwallowsPackage(path: string, pkg: string, subrepo: string)
    requires path != "" && ValidPackageName(path) && LastComponent(path) == ALL_SUBPACKAGES
    ensures var r := TryParse("//" + path, pkg, subrepo); r.Some? ==> r.value.pkg != path
  {
    var s := "//" + path;
    SlashesBefore(s, path);
    AbsoluteBranch(s, pkg, subrepo);
    ValidPackageHasNoColon(path);
    assert IndexOf(s, ':') == -1;
    SlashThenWildcard(s, LastIndexOf(s, '/'));
    assert |TrimRightSlashes(s[2..|s| - 3])| <= |s| - 5;
  }

  // ---------------------------------------------------------------- what wildcards cover

  /** The components of a path. */
  function Components(s: string): seq<string> {
    var i := IndexOf(s, '/');
    if i == -1 then [s] else [s[..i]] + Components(s[i + 1..])
  }

  lemma FirstSlashOfJoin(s: string, a: string, b: string)
    requires s == a + "/" + b
    ensures s[|a|] == '/' && s[..|a|] == a && s[|a| + 1..] == b
    ensures IndexOf(s, '/') == if '/' in a then IndexOf(a, '/') else |a|
  {
    assert s[|a|] == '/' && forall j :: 0 <= j < |a| ==> s[j] == a[j];
    var i := IndexOf(a, '/');
    if '/' in a {
      assert s[i] == '/';
    }
  }

  lemma {:induction false} ComponentsOfJoin(s: string, a: string, b: string)
    requires s == a + "/" + b
    ensures Components(s) == Components(a) + Components(b)
    decreases |a|
  {
    FirstSlashOfJoin(s, a, b);
    if '/' in a {
      var i := IndexOf(a, '/');
      TailOfJoin(s, a, b, i);
      ComponentsOfJoin(s[i + 1..], a[i + 1..], b);
      FirstThenRest(a[..i], Components(a[i + 1..]), Components(b));
    }
  }

  lemma TailOfJoin(s: string, a: string, b: string, i: nat)
    requires s == a + "/" + b && i < |a|
    ensures s[..i] == a[..i] && s[i + 1..] == a[i + 1..] + "/" + b
  {
  }

  lemma FirstThenRest(first: string, a: seq<string>, b: seq<string>)
    ensures [first] + (a + b) == ([first] + a) + b
  {
  }

  /** One path is under another if it begins with the same components. */
  lemma UnderIsComponentPrefix(root: string, p: string)
    ensures p == root || HasPrefix(p, root + "/") <==> Components(root) <= Components(p)
  {
    if HasPrefix(p, root + "/") {
      assert p[..|root| + 1] == root + "/";
      assert p == p[..|root| + 1] + p[|root| + 1..];
      ComponentsOfJoin(p, root, p[|root| + 1..]);
    }
    if Components(root) <= Components(p) {
      PrefixIsUnder(root, p);
    }
  }

  lemma {:induction false} PrefixIsUnder(root: string, p: string)
    requires Components(root) <= Components(p)
    ensures p == root || HasPrefix(p, root + "/")
    decreases |root|
  {
    var i := IndexOf(root, '/');
    assert Components(p)[0] == Components(root)[0];
    if i == -1 {
      FirstComponent(root, p);
    } else {
      var r, q := root[i + 1..], p[i + 1..];
      FirstComponent(root[..i], p);
      assert Components(root)[1..] == Components(r);
      assert |Components(p)| > 1;
      assert Components(p)[1..] == Components(q);
      PrefixIsUnder(r, q);
      JoinUnder(root, p, i, r, q);
    }
  }

  /** The first component of a path is the path itself, or is followed by a slash. */
  lemma FirstComponent(first: string, p: string)
    requires Components(p)[0] == first
    ensures p == first || (IndexOf(p, '/') == |first| && HasPrefix(p, first + "/"))
    ensures |Components(p)| > 1 ==> IndexOf(p, '/') == |first| < |p| && p[..|first|] == first
  {
    var j := IndexOf(p, '/');
    if j != -1 {
      assert p[..j] == first;
      assert p[..j + 1] == p[..j] + "/";
    }
  }

  lemma JoinUnder(root: string, p: string, i: nat, r: string, q: string)
    requires i < |root| && i < |p| && root[..i] == p[..i] && root[i] == p[i] == '/'
    requires r == root[i + 1..] && q == p[i + 1..] && (q == r || HasPrefix(q, r + "/"))
    ensures p == root || HasPrefix(p, root + "/")
  {
    assert root == root[..i] + "/" + r && p == root[..i] + "/" + q;
    if HasPrefix(q, r + "/") {
      assert q[..|r| + 1] == r + "/";
      assert p[..|root| + 1] == root[..i] + "/" + q[..|r| + 1];
    }
  }

  /** A path without empty components, said by where its slashes are. */
  ghost predicate IsClean(p: string) {
    p != "" && p[0] != '/' && p[|p| - 1] != '/' && forall j: nat :: !SlashesAt(p, j)
  }

  lemma CleanRest(p: string, i: nat)
    requires i == IndexOf(p, '/')
    ensures IsClean(p) <==> i > 0 && IsClean(p[i + 1..])
  {
    var rest := p[i + 1..];
    if IsClean(p) {
      assert !SlashesAt(p, i);
      forall j: nat
        ensures !SlashesAt(rest, j)
      {
        assert !SlashesAt(p, i + 1 + j);
      }
    }
    if i > 0 && IsClean(rest) {
      forall j: nat
        ensures !SlashesAt(p, j)
      {
        if j > i {
          assert !SlashesAt(rest, j - i - 1);
        }
      }
    }
  }

  lemma {:induction false} ComponentsAreNamed(p: string)
    ensures (forall w :: w in Components(p) ==> w != "") <==> IsClean(p)
    decreases |p|
  {
    var i := IndexOf(p, '/');
    if i == -1 {
      assert p in Components(p);
    } else {
      var first, rest := p[..i], Components(p[i + 1..]);
      CleanRest(p, i);
      ComponentsAreNamed(p[i + 1..]);
      assert Components(p) == [first] + rest;
      assert first in [first] + rest && forall w :: w in rest ==> w in [first] + rest;
    }
  }

  /** A package is valid if it is the root, or a path with no empty component and no reserved character. */
  lemma ValidPackages(pkg: string)
    ensures ValidPackageName(pkg) <==>
            pkg == "" || ((forall w :: w in Components(pkg) ==> w != "") && forall c :: c in pkg ==> c !in "|$*?[]{}:()&\\")
  {
    ComponentsAreNamed(pkg);
  }

  /** A name is valid if it is a single component without reserved characters or suffixes, hidden only if it is `...`. */
  lemma ValidTargets(name: string)
    ensures ValidTargetName(name) <==>
            && name != "" && (forall c :: c in name ==> c != '/' && c !in "|$*?[]{}:()&\\")
            && (name[0] == '.' ==> name == "...")
            && !exists stem :: name == stem + "._build" || name == stem + "._test"
  {
    assert forall c :: c in FORBIDDEN_IN_NAME <==> c == '/' || c in "|$*?[]{}:()&\\";
    if HasSuffix(name, "._build") {
      assert name == name[..|name| - 7] + "._build";
    }
    if HasSuffix(name, "._test") {
      assert name == name[..|name| - 6] + "._test";
    }
  }

  /** A label covers another: a wildcard, all packages whose path begins with its own; `all`, its package; any label,
      itself. */
  lemma IncludesIsCovering(l: Label, that: Label)
    ensures Includes(l, that) <==>
            || (l.name == "..." && (l.pkg == "" || Components(l.pkg) <= Components(that.pkg)))
            || (l.name != "..." && l.pkg == that.pkg && (l.name == "all" || l.name == that.name))
  {
    UnderIsComponentPrefix(l.pkg, that.pkg);
  }

  // ---------------------------------------------------------------- parents

  lemma {:induction false} TrimmedUnderscores(s: string)
    ensures var r := TrimLeftUnderscores(s);
            && |r| <= |s| && r == s[|s| - |r|..] && (r != "" ==> r[0] != '_') && (forall i :: 0 <= i < |s| - |r| ==> s[i] == '_')
  {
    if s != [] && s[0] == '_' {
      var rest, r := s[1..], TrimLeftUnderscores(s);
      TrimmedUnderscores(rest);
      assert rest[|rest| - |r|..] == s[|s| - |r|..];
      forall i | 0 <= i < |s| - |r|
        ensures s[i] == '_'
      {
        assert i > 0 ==> s[i] == rest[i - 1];
      }
    }
  }

  /** The name is `n` underscores, then the parent's name, then a tag. */
  ghost predicate SplitsAs(name: string, n: nat, parent: string, tag: string) {
    n <= |name| && (forall i :: 0 <= i < n ==> name[i] == '_') && name[n..] == parent + "#" + tag
  }

  /** Exactly the targets named `_parent#tag` have a parent; it is in the same package and has no parent itself. */
  lemma ParentsAreUltimate(l: Label)
    ensures HasParent(l) <==> l.name != "" && l.name[0] == '_' && '#' in l.name
    ensures Parent(l).pkg == l.pkg && Parent(l).subrepo == l.subrepo && !HasParent(Parent(l))
    ensures HasParent(l) ==>
              '#' !in Parent(l).name && exists n: nat, tag: string :: n > 0 && SplitsAs(l.name, n, Parent(l).name, tag)
  {
    var i := IndexOf(l.name, '#');
    assert HasPrefix(l.name, "_") <==> l.name != "" && l.name[0] == '_';
    if i != -1 && HasPrefix(l.name, "_") {
      var front := l.name[..i];
      TrimmedUnderscores(front);
      var r := TrimLeftUnderscores(front);
      var n := |front| - |r|;
      assert |r| < |l.name|;
      assert i > 0 && front[0] == '_';
      assert SplitsAs(l.name, n, r, l.name[i + 1..]);
    }
  }
}

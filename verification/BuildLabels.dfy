/**
 Build labels: how they are printed, validated and parsed.
 The printer and the parser are separate pieces of code; `RoundTrip` says exactly for which
 labels the second undoes the first.
 */
module BuildLabels {
  import opened Options
  import opened Strings

  datatype Label = Label(pkg: string, name: string, subrepo: string)

  const ORIGINAL_TARGET := Label("", "_ORIGINAL", "")
  const ALL_SUBPACKAGES := "..."
  const BUILD_DIR_SUFFIX := "._build"
  const TEST_DIR_SUFFIX := "._test"
  const INVALID := Label("", "", "")

  predicate IsAllTargets(l: Label) {
    l.name == "all"
  }

  // ---------------------------------------------------------------- validation

  const FORBIDDEN_IN_PACKAGE := "|$*?[]{}:()&\\"
  const FORBIDDEN_IN_NAME := "|$*?[]{}:()&/\\"

  predicate ValidPackageName(name: string) {
    || name == ""
    || (&& name[0] != '/'
        && name[|name| - 1] != '/'
        && !ContainsAny(name, FORBIDDEN_IN_PACKAGE)
        && IndexOfSlashes(name) == -1)
  }

  predicate ValidTargetName(name: string) {
    && name != ""
    && !ContainsAny(name, FORBIDDEN_IN_NAME)
    && (name[0] != '.' || name == ALL_SUBPACKAGES)
    && !HasSuffix(name, BUILD_DIR_SUFFIX)
    && !HasSuffix(name, TEST_DIR_SUFFIX)
  }

  // ---------------------------------------------------------------- relations between labels

  /** Whether `l`, which may be a wildcard, covers `that`. */
  predicate Includes(l: Label, that: Label) {
    && ((l.pkg == "" && l.name == ALL_SUBPACKAGES) || that.pkg == l.pkg || HasPrefix(that.pkg, l.pkg + "/"))
    && (l.name == ALL_SUBPACKAGES || (l.pkg == that.pkg && (l.name == that.name || IsAllTargets(l))))
  }

  function TrimLeftUnderscores(s: string): string {
    if s != [] && s[0] == '_' then TrimLeftUnderscores(s[1..]) else s
  }

  /** The label that a private "_name#tag" label was made for; any other label is its own parent. */
  function Parent(l: Label): Label {
    var i := IndexOf(l.name, '#');
    if i == -1 || !HasPrefix(l.name, "_") then l
    else l.(name := TrimLeftUnderscores(l.name[..i]))
  }

  predicate HasParent(l: Label) {
    Parent(l) != l
  }

  // ---------------------------------------------------------------- printing

  function Print(l: Label): string {
    if l == Label("", "", "") then ""
    else if l == ORIGINAL_TARGET then "command-line targets"
    else if l.subrepo != "" then "///" + (l.subrepo + PrintInRepo(l))
    else PrintInRepo(l)
  }

  /** The part of the printed form that names the package and the target. */
  function PrintInRepo(l: Label): string {
    if l.name == ALL_SUBPACKAGES then
      (if l.pkg == "" then "//..." else "//" + l.pkg + "/...")
    else
      "//" + l.pkg + ":" + l.name
  }

  // ---------------------------------------------------------------- parsing

  /** Splits a label into its parts; the name is empty when it is not a valid label. */
  function ParseParts(target: string, currentPath: string, subrepo: string): Label
    decreases |target|, 0
  {
    if |target| < 2 then INVALID
    else if target[0] == ':' then
      if !ValidTargetName(target[1..]) then INVALID
      else Label(currentPath, target[1..], "")
    else if target[0] == '@' then ParseSubrepoParts(target[1..], currentPath)
    else if HasPrefix(target, "///") then ParseSubrepoParts(target[3..], currentPath)
    else if target[0] != '/' || target[1] != '/' then INVALID
    else ParseAbsolute(target, subrepo)
  }

  /** Parses "//pkg:name", "//pkg/..." or the abbreviated "//pkg". */
  function ParseAbsolute(target: string, subrepo: string): Label
    requires |target| >= 2 && target[0] == '/' && target[1] == '/'
  {
    var idx := IndexOf(target, ':');
    if idx != -1 then
      var pkg, name := target[2..idx], target[idx + 1..];
      if !ValidPackageName(pkg) || !ValidTargetName(name) || name == ALL_SUBPACKAGES then INVALID
      else Label(pkg, name, subrepo)
    else if !ValidPackageName(target[2..]) then INVALID
    else if HasSuffix(target, "/...") then
      Label(TrimRightSlashes(target[2..|target| - 3]), ALL_SUBPACKAGES, "")
    else
      Label(target[2..], target[LastIndexOf(target, '/') + 1..], subrepo)
  }

  /** Parses what follows the subrepo symbol, either "@" or "///". */
  function ParseSubrepoParts(target: string, currentPath: string): Label
    decreases |target|, 1
  {
    var slashes := IndexOfSlashes(target);
    var idx := if slashes != -1 then slashes else IndexOf(target, ':');
    if idx == -1 then
      Label("", target[LastIndexOf(target, '/') + 1..], target)
    else if ':' in target[..idx] then INVALID
    else
      var inner := ParseParts(target[idx..], currentPath, "");
      Label(inner.pkg, inner.name, target[..idx])
  }

  /** Parses one label, given the package and the subrepo it is mentioned in. */
  function TryParse(target: string, currentPath: string, subrepo: string): Option<Label> {
    var parts := ParseParts(target, currentPath, subrepo);
    if parts.name != "" then Some(parts) else None
  }

  // ---------------------------------------------------------------- round trip

  /** The subrepos whose end can be found again in a printed label. */
  predicate ValidSubrepo(subrepo: string) {
    && ':' !in subrepo
    && IndexOfSlashes(subrepo) == -1
    && (subrepo != "" ==> subrepo[|subrepo| - 1] != '/')
  }

  /** The labels whose printed form reads back as themselves. */
  predicate Printable(l: Label) {
    && ValidPackageName(l.pkg)
    && ValidTargetName(l.name)
    && ValidSubrepo(l.subrepo)
    && l != ORIGINAL_TARGET
  }

  lemma ValidPackageHasNoColon(pkg: string)
    requires ValidPackageName(pkg)
    ensures ':' !in pkg
  {
    assert ':' in FORBIDDEN_IN_PACKAGE by { assert FORBIDDEN_IN_PACKAGE[8] == ':'; }
    assert forall i :: 0 <= i < |pkg| ==> pkg[i] !in FORBIDDEN_IN_PACKAGE;
  }

  lemma ValidNameHasNone(name: string, c: char)
    requires ValidTargetName(name) && c in FORBIDDEN_IN_NAME
    ensures c !in name
  {
    assert forall i :: 0 <= i < |name| ==> name[i] !in FORBIDDEN_IN_NAME;
  }

  /** A package name stays valid when the subpackage wildcard is put behind it, and only then. */
  lemma WildcardKeepsPackageValid(pkg: string)
    requires pkg != "" && pkg[0] != '/'
    ensures ValidPackageName(pkg + "/...") <==> ValidPackageName(pkg)
  {
    var whole := pkg + "/...";
    assert whole[|whole| - 1] == '.' && whole[0] == pkg[0];
    assert ContainsAny(whole, FORBIDDEN_IN_PACKAGE) <==> ContainsAny(pkg, FORBIDDEN_IN_PACKAGE) by {
      if i :| 0 <= i < |pkg| && pkg[i] in FORBIDDEN_IN_PACKAGE {
        assert whole[i] in FORBIDDEN_IN_PACKAGE;
      }
      assert forall i :: |pkg| <= i < |whole| ==> whole[i] == '/' || whole[i] == '.';
    }
    if pkg[|pkg| - 1] == '/' {
      assert SlashesAt(whole, |pkg| - 1);
    } else {
      assert forall j: nat :: SlashesAt(whole, j) <==> SlashesAt(pkg, j);
      assert IndexOfSlashes(whole) == -1 <==> IndexOfSlashes(pkg) == -1 by {
        if IndexOfSlashes(whole) != -1 {
          assert SlashesAt(pkg, IndexOfSlashes(whole));
        }
        if IndexOfSlashes(pkg) != -1 {
          assert SlashesAt(whole, IndexOfSlashes(pkg));
        }
      }
    }
  }

  /** A label that starts with exactly two slashes is read by the absolute branch. */
  lemma AbsoluteBranch(s: string, currentPath: string, subrepo: string)
    requires |s| >= 3 && s[0] == '/' && s[1] == '/' && s[2] != '/'
    ensures ParseParts(s, currentPath, subrepo) == ParseAbsolute(s, subrepo)
  {
    assert s[2] == s[..3][2];
  }

  /** The in-repo part of an ordinary label reads back exactly when its two names are valid. */
  lemma OrdinaryRoundTrip(l: Label, subrepo: string)
    requires l.name != ALL_SUBPACKAGES
    ensures var p := ParseAbsolute(PrintInRepo(l), subrepo);
            if ValidPackageName(l.pkg) && ValidTargetName(l.name) then p == Label(l.pkg, l.name, subrepo)
            else p == INVALID
  {
    FirstColon(l.pkg, l.name);
    if ':' in l.pkg {
      // The name is then cut at the package's own colon, and so contains one itself.
      var s, i := "//" + l.pkg + ":" + l.name, IndexOf(l.pkg, ':');
      assert s[2 + i + 1..][|l.pkg| - i - 1] == ':';
      if ValidTargetName(s[2 + i + 1..]) { ValidNameHasNone(s[2 + i + 1..], ':'); }
      if ValidPackageName(l.pkg) { ValidPackageHasNoColon(l.pkg); }
    }
  }

  /** Where a printed label is cut. */
  lemma FirstColon(pkg: string, name: string)
    ensures var s := "//" + pkg + ":" + name;
            && s[2 + |pkg|] == ':' && s[2..2 + |pkg|] == pkg && s[2 + |pkg| + 1..] == name
            && IndexOf(s, ':') == 2 + if ':' in pkg then IndexOf(pkg, ':') else |pkg|
  {
    Cut("//", pkg, ":", name);
    ColonAfterSlashes("//" + pkg + ":" + name, pkg);
  }

  lemma Cut(a: string, b: string, mark: string, c: string)
    requires |mark| == 1
    ensures var s := a + b + mark + c;
            && |s| == |a| + |b| + 1 + |c| && (forall i :: 0 <= i < |a| ==> s[i] == a[i])
            && s[|a|..|a| + |b|] == b && s[|a| + |b|] == mark[0] && s[|a| + |b| + 1..] == c
  {
  }

  lemma ColonAfterSlashes(s: string, pkg: string)
    requires |s| > 2 + |pkg| && s[0] == s[1] == '/' && s[2..2 + |pkg|] == pkg && s[2 + |pkg|] == ':'
    ensures IndexOf(s, ':') == 2 + if ':' in pkg then IndexOf(pkg, ':') else |pkg|
  {
    assert forall j :: 2 <= j < 2 + |pkg| ==> s[j] == s[2..2 + |pkg|][j - 2];
    var i := IndexOf(pkg, ':');
    if ':' in pkg {
      assert s[2 + i] == ':';
    }
  }

  /** The root form of the wildcard label. */
  lemma RootWildcardRoundTrip(subrepo: string)
    ensures ParseAbsolute("//...", subrepo) == Label("", ALL_SUBPACKAGES, "")
  {
    var s := "//...";
    assert s[2..] == "..." && s[2..|s| - 3] == "";
    assert forall j: nat :: !SlashesAt("...", j);
    assert IndexOfSlashes("...") == -1;
    assert HasSuffix(s, "/...") by { assert s[1..] == "/..."; }
  }

  /** The wildcard form of a package reads back exactly when the package is valid. */
  lemma WildcardRoundTrip(pkg: string, subrepo: string)
    requires pkg != "" && pkg[0] != '/'
    ensures var p := ParseAbsolute("//" + pkg + "/...", subrepo);
            if ValidPackageName(pkg) then p == Label(pkg, ALL_SUBPACKAGES, "") else p == INVALID
  {
    var s := "//" + pkg + "/...";
    if ':' in pkg {
      var i := IndexOf(pkg, ':');
      assert forall j :: 2 <= j < 2 + |pkg| ==> s[j] == pkg[j - 2];
      assert s[2 + i] == ':' && IndexOf(s, ':') == 2 + i;
      var name := s[2 + i + 1..];
      assert name[|name| - 4] == '/';
      if ValidTargetName(name) { ValidNameHasNone(name, '/'); }
      if ValidPackageName(pkg) { ValidPackageHasNoColon(pkg); }
    } else {
      assert forall i :: 0 <= i < |s| ==> s[i] == '/' || s[i] == '.' || s[i] in pkg;
      assert HasSuffix(s, "/...") by { assert s[|s| - 4..] == "/..."; }
      assert s[2..|s| - 3] == pkg + "/";
      WildcardKeepsPackageValid(pkg);
      assert s[2..] == pkg + "/...";
      assert (pkg + "/")[..|pkg|] == pkg;
      assert ValidPackageName(pkg) ==> TrimRightSlashes(pkg + "/") == TrimRightSlashes(pkg) == pkg;
    }
  }

  lemma WildcardIsValidName()
    ensures ValidTargetName(ALL_SUBPACKAGES)
  {
    assert |BUILD_DIR_SUFFIX| == 7 && |TEST_DIR_SUFFIX| == 6;
  }

  lemma InRepoRoundTrip(l: Label, currentPath: string, subrepo: string)
    requires l.pkg == "" || l.pkg[0] != '/'
    ensures var p := ParseParts(PrintInRepo(l), currentPath, subrepo);
            if ValidPackageName(l.pkg) && ValidTargetName(l.name) then
              p == Label(l.pkg, l.name, if l.name == ALL_SUBPACKAGES then "" else subrepo)
            else p == INVALID
  {
    var s := PrintInRepo(l);
    AbsoluteBranch(s, currentPath, subrepo);
    if l.name == ALL_SUBPACKAGES {
      WildcardIsValidName();
      if l.pkg == "" {
        RootWildcardRoundTrip(subrepo);
      } else {
        WildcardRoundTrip(l.pkg, subrepo);
      }
    } else {
      OrdinaryRoundTrip(l, subrepo);
    }
  }

  /** Parsed from outside any package, a package name never starts with a slash. */
  lemma {:induction false} ParsedPackageHasNoLeadingSlash(target: string, subrepo: string)
    ensures var p := ParseParts(target, "", subrepo).pkg; p == "" || p[0] != '/'
    decreases |target|, 0
  {
    if |target| >= 2 && target[0] == '@' {
      SubrepoPackageHasNoLeadingSlash(target[1..]);
    } else if |target| >= 2 && HasPrefix(target, "///") {
      SubrepoPackageHasNoLeadingSlash(target[3..]);
    }
  }

  lemma {:induction false} SubrepoPackageHasNoLeadingSlash(target: string)
    ensures var p := ParseSubrepoParts(target, "").pkg; p == "" || p[0] != '/'
    decreases |target|, 1
  {
    var slashes := IndexOfSlashes(target);
    var idx := if slashes != -1 then slashes else IndexOf(target, ':');
    if idx != -1 {
      ParsedPackageHasNoLeadingSlash(target[idx..], "");
    }
  }

  /** The end of a subrepo is found again exactly when the subrepo is valid. */
  lemma SubrepoEndIsFound(subrepo: string, rest: string)
    requires SlashesAt(rest, 0)
    ensures var i := IndexOfSlashes(subrepo + rest);
            0 <= i <= |subrepo| && (':' !in subrepo ==> (i == |subrepo| <==> ValidSubrepo(subrepo)))
  {
    var s := subrepo + rest;
    assert SlashesAt(s, |subrepo|);
    assert forall j: nat :: j + 1 < |subrepo| ==> (SlashesAt(subrepo, j) <==> SlashesAt(s, j));
    var own := IndexOfSlashes(subrepo);
    assert own != -1 ==> SlashesAt(s, own);
    assert subrepo != "" && subrepo[|subrepo| - 1] == '/' ==> SlashesAt(s, |subrepo| - 1);
  }

  /** What the subrepo branch makes of a subrepo followed by an absolute label. */
  lemma SubrepoBranch(subrepo: string, rest: string, currentPath: string)
    requires SlashesAt(rest, 0)
    ensures var p := ParseSubrepoParts(subrepo + rest, currentPath);
            if ValidSubrepo(subrepo) then p == ParseParts(rest, currentPath, "").(subrepo := subrepo)
            else p == INVALID || p.subrepo != subrepo
  {
    SubrepoEndIsFound(subrepo, rest);
    var s := subrepo + rest;
    var idx := IndexOfSlashes(s);
    if idx == |subrepo| {
      assert s[..idx] == subrepo && s[idx..] == rest;
    }
  }

  lemma TripleSlashBranch(tail: string, currentPath: string, context: string)
    ensures ParseParts("///" + tail, currentPath, context) == ParseSubrepoParts(tail, currentPath)
  {
    var s := "///" + tail;
    assert s[3..] == tail && s[..3] == "///";
  }

  /** A label in a subrepo reads back through the subrepo branch of the parser. */
  lemma SubrepoRoundTrip(l: Label, currentPath: string, context: string)
    requires l.subrepo != "" && (l.pkg == "" || l.pkg[0] != '/')
    ensures var p := ParseParts(Print(l), currentPath, context);
            if Printable(l) then p == l else p.name == "" || p != l
  {
    TripleSlashBranch(l.subrepo + PrintInRepo(l), currentPath, context);
    SubrepoBranch(l.subrepo, PrintInRepo(l), currentPath);
    InRepoRoundTrip(l, currentPath, "");
  }

  /** A label of the host repo takes the surrounding subrepo, unless it is a "..." form. */
  lemma HostRoundTrip(l: Label, currentPath: string, context: string)
    requires l.subrepo == "" && Printable(l)
    ensures TryParse(Print(l), currentPath, context)
            == Some(l.(subrepo := if l.name == ALL_SUBPACKAGES then "" else context))
  {
    InRepoRoundTrip(l, currentPath, context);
  }

  /** Printed labels of subrepos mean the same wherever they are read. */
  lemma SubrepoLabelsAreAbsolute(l: Label, currentPath: string, context: string)
    requires l.subrepo != "" && Printable(l)
    ensures TryParse(Print(l), currentPath, context) == Some(l)
  {
    SubrepoRoundTrip(l, currentPath, context);
  }

  lemma SpecialsDoNotParse(l: Label)
    requires l == Label("", "", "") || l == ORIGINAL_TARGET
    ensures TryParse(Print(l), "", "") == None
  {
    assert l == ORIGINAL_TARGET ==> Print(l)[0] == 'c';
  }

  /** Printing a label and parsing it again gives the same label exactly for the printable ones. */
  lemma RoundTrip(l: Label)
    ensures TryParse(Print(l), "", "") == Some(l) <==> Printable(l)
  {
    if l == Label("", "", "") || l == ORIGINAL_TARGET {
      SpecialsDoNotParse(l);
    } else if l.pkg != "" && l.pkg[0] == '/' {
      ParsedPackageHasNoLeadingSlash(Print(l), "");
    } else if l.subrepo != "" {
      SubrepoRoundTrip(l, "", "");
    } else {
      InRepoRoundTrip(l, "", "");
    }
  }

  /** A label that does not read back. */
  lemma SomeLabelsDoNotReadBack()
    ensures var l := Label("p", "t", "a//b"); TryParse(Print(l), "", "") != Some(l)
  {
    RoundTrip(Label("p", "t", "a//b"));
    assert SlashesAt("a//b", 1);
  }

  /** Two printable labels with the same printed form are the same label. */
  lemma PrintIsInjective(a: Label, b: Label)
    requires Printable(a) && Printable(b) && Print(a) == Print(b)
    ensures a == b
  {
    RoundTrip(a);
    RoundTrip(b);
  }
}

/** Searching in strings. */
module Strings {

  predicate HasPrefix(s: string, prefix: string) {
    |prefix| <= |s| && s[..|prefix|] == prefix
  }

  predicate HasSuffix(s: string, suffix: string) {
    |suffix| <= |s| && s[|s| - |suffix|..] == suffix
  }

  /** The first index of `c`, or -1. */
  function IndexOf(s: string, c: char): (i: int)
    ensures -1 <= i < |s|
    ensures i >= 0 ==> s[i] == c
    ensures forall j :: 0 <= j < |s| && s[j] == c ==> 0 <= i <= j
  {
    if s == [] then -1
    else if s[0] == c then 0
    else
      var rest := IndexOf(s[1..], c);
      assert forall j :: 0 < j < |s| ==> s[j] == s[1..][j - 1];
      if rest == -1 then -1 else rest + 1
  }

  /** The last index of `c`, or -1. */
  function LastIndexOf(s: string, c: char): (i: int)
    ensures -1 <= i < |s|
    ensures i >= 0 ==> s[i] == c
    ensures forall j :: 0 <= j < |s| && s[j] == c ==> j <= i
  {
    if s == [] then -1
    else if s[|s| - 1] == c then |s| - 1
    else LastIndexOf(s[..|s| - 1], c)
  }

  predicate SlashesAt(s: string, i: nat) {
    i + 1 < |s| && s[i] == '/' && s[i + 1] == '/'
  }

  /** The first index of "//", or -1. */
  function IndexOfSlashes(s: string): (i: int)
    ensures -1 <= i < |s|
    ensures i >= 0 ==> SlashesAt(s, i)
    ensures forall j: nat :: SlashesAt(s, j) ==> 0 <= i <= j
  {
    if |s| < 2 then -1
    else if SlashesAt(s, 0) then 0
    else
      var rest := IndexOfSlashes(s[1..]);
      assert forall j: nat :: SlashesAt(s, j) ==> j > 0 && SlashesAt(s[1..], j - 1);
      if rest == -1 then -1 else rest + 1
  }

  /** Drops every trailing slash. */
  function TrimRightSlashes(s: string): (r: string)
    ensures r <= s
    ensures r != [] ==> r[|r| - 1] != '/'
  {
    if s != [] && s[|s| - 1] == '/' then TrimRightSlashes(s[..|s| - 1]) else s
  }

  predicate ContainsAny(s: string, chars: string) {
    exists i :: 0 <= i < |s| && s[i] in chars
  }
}

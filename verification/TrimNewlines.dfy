/**
 The last touch to an exported BUILD file: runs of blank lines are cut down, in place.
 */
module TrimNewlines {
  import opened Trimmer

  const NEWLINE: Byte := 10

  /** The number of newlines at the end. */
  function Run(s: seq<Byte>): nat {
    if s == [] || s[|s| - 1] != NEWLINE then 0 else 1 + Run(s[..|s| - 1])
  }

  /** The bytes without the third and any further newline of a run. */
  function Collapsed(s: seq<Byte>): seq<Byte> {
    if s == [] then []
    else Collapsed(s[..|s| - 1]) + if Run(s) > 2 then [] else [s[|s| - 1]]
  }

  /** Compacts a buffer, from which surrounding white space was trimmed before, and ends it with a newline. */
  method Compact(trimmed: array<Byte>) returns (out: seq<Byte>)
    modifies trimmed
    ensures out == Collapsed(old(trimmed[..])) + if trimmed.Length > 0 then [NEWLINE] else []
  {
    ghost var before := trimmed[..];
    var pointer, newlines := 0, 0;
    for i := 0 to trimmed.Length
      invariant 0 <= pointer <= i && newlines == Run(before[..i])
      invariant trimmed[..pointer] == Collapsed(before[..i]) && trimmed[i..] == before[i..]
    {
      var val := trimmed[i];
      assert val == trimmed[i..][0] == before[i] && before[..i + 1][..i] == before[..i];
      assert trimmed[i + 1..] == trimmed[i..][1..] == before[i..][1..] == before[i + 1..];
      if val == NEWLINE {
        newlines := newlines + 1;
        if newlines > 2 {
          continue;
        }
      } else {
        newlines := 0;
      }
      trimmed[pointer] := val;
      assert trimmed[..pointer + 1] == trimmed[..pointer] + [val];
      pointer := pointer + 1;
    }
    assert before[..trimmed.Length] == before;
    FirstIsKept(before);
    out := trimmed[..pointer];
    if |out| > 0 {
      out := out + [NEWLINE];
    }
  }

  lemma {:induction false} FirstIsKept(s: seq<Byte>)
    ensures Collapsed(s) == [] <==> s == []
  {
    if |s| > 1 {
      FirstIsKept(s[..|s| - 1]);
    } else if |s| == 1 {
      assert Run(s[..0]) == 0;
    }
  }

  ghost predicate NoBlankRuns(s: seq<Byte>) {
    forall i :: 0 <= i < |s| - 2 ==> !(s[i] == NEWLINE && s[i + 1] == NEWLINE && s[i + 2] == NEWLINE)
  }

  lemma {:induction false} RunAtEnd(s: seq<Byte>)
    ensures Run(s) <= |s| && forall i :: |s| - Run(s) <= i < |s| ==> s[i] == NEWLINE
    ensures Run(s) < |s| ==> s[|s| - 1 - Run(s)] != NEWLINE
  {
    if s != [] && s[|s| - 1] == NEWLINE {
      RunAtEnd(s[..|s| - 1]);
    }
  }

  lemma LongRunIsBlank(s: seq<Byte>)
    requires Run(s) > 2
    ensures !NoBlankRuns(s)
  {
    RunAtEnd(s);
    var i := |s| - 3;
    assert s[i] == NEWLINE && s[i + 1] == NEWLINE && s[i + 2] == NEWLINE;
  }

  lemma ShortRunIsNotBlank(s: seq<Byte>, b: Byte)
    requires NoBlankRuns(s) && Run(s + [b]) <= 2
    ensures NoBlankRuns(s + [b])
  {
    var t := s + [b];
    RunAtEnd(t);
    forall i | 0 <= i < |t| - 2
      ensures !(t[i] == NEWLINE && t[i + 1] == NEWLINE && t[i + 2] == NEWLINE)
    {
      if i < |s| - 2 {
        assert !(s[i] == NEWLINE && s[i + 1] == NEWLINE && s[i + 2] == NEWLINE);
      }
    }
  }

  /** The collapsed bytes end in the same run, up to two newlines. */
  lemma {:induction false} RunOfCollapsed(s: seq<Byte>)
    ensures Run(Collapsed(s)) == if Run(s) > 2 then 2 else Run(s)
  {
    if s != [] {
      var front := s[..|s| - 1];
      RunOfCollapsed(front);
      if Run(s) > 2 {
        assert Collapsed(s) == Collapsed(front);
      } else {
        assert Collapsed(s)[..|Collapsed(s)| - 1] == Collapsed(front);
      }
    }
  }

  lemma {:induction false} CollapsedHasNoBlankRuns(s: seq<Byte>)
    ensures NoBlankRuns(Collapsed(s))
  {
    if s != [] {
      var front := s[..|s| - 1];
      CollapsedHasNoBlankRuns(front);
      if Run(s) <= 2 {
        RunOfCollapsed(s);
        ShortRunIsNotBlank(Collapsed(front), s[|s| - 1]);
      } else {
        assert Collapsed(s) == Collapsed(front);
      }
    }
  }

  /** A file is left as it is exactly if it has no three newlines in a row. */
  lemma {:induction false} UnchangedIffNoBlankRuns(s: seq<Byte>)
    ensures Collapsed(s) == s <==> NoBlankRuns(s)
  {
    CollapsedHasNoBlankRuns(s);
    if NoBlankRuns(s) && s != [] {
      var front := s[..|s| - 1];
      assert NoBlankRuns(front) by {
        assert forall i :: 0 <= i < |front| ==> front[i] == s[i];
      }
      UnchangedIffNoBlankRuns(front);
      if Run(s) > 2 {
        LongRunIsBlank(s);
        assert false;
      }
    }
  }

  lemma CollapsingTwiceIsOnce(s: seq<Byte>)
    ensures Collapsed(Collapsed(s)) == Collapsed(s)
  {
    CollapsedHasNoBlankRuns(s);
    UnchangedIffNoBlankRuns(Collapsed(s));
  }

  /** What is not a newline stays, in order. */
  ghost function Visible(s: seq<Byte>): seq<Byte> {
    if s == [] then [] else Visible(s[..|s| - 1]) + if s[|s| - 1] == NEWLINE then [] else [s[|s| - 1]]
  }

  lemma {:induction false} OnlyNewlinesGo(s: seq<Byte>)
    ensures Visible(Collapsed(s)) == Visible(s)
  {
    if s != [] {
      var front := s[..|s| - 1];
      OnlyNewlinesGo(front);
      if Run(s) > 2 {
        assert Collapsed(s) == Collapsed(front);
      } else {
        assert Collapsed(s)[..|Collapsed(s)| - 1] == Collapsed(front);
      }
    }
  }
}

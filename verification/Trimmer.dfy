/**
 Trimming a BUILD file to the statements an export needs. The output is assembled from byte ranges of
 the original and a few inserted texts; the functions say which pieces make up the output, the class
 writes them.
 */
module Trimmer {
  import opened BuildLabels
  import opened PackageMetadata

  newtype Byte = x: int | 0 <= x < 256

  function Bytes(s: string): seq<Byte> {
    seq(|s|, i requires 0 <= i < |s| => (s[i] as int % 256) as Byte)
  }

  const PASS := Bytes("pass  # Trimmed during export")

  // ---------------------------------------------------------------- statements

  datatype Statement = Statement(pos: int, end: int, kind: Kind)

  datatype Kind =
    | If(clauses: seq<Clause>)
    | For(body: seq<Statement>)
    | Subinclude
    | Plain

  /** One branch of an `if`: its header and its statements. The branches are in order, the `else` last. */
  datatype Clause = Clause(headerStart: int, headerEnd: int, body: seq<Statement>)

  /** What the trimmer knows about the package and about the export; `format` prints a subinclude call. */
  datatype Context = Context(info: Info, exported: set<Label>, required: seq<Label>, format: seq<Label> -> string)

  function Id(s: Statement): Stmt {
    Stmt(s.pos, s.end)
  }

  predicate Interpreted(t: Context, body: seq<Statement>) {
    body != [] && Id(body[0]) in t.info.statements
  }

  function TargetsOf(t: Context, s: Statement): seq<Label> {
    MetadataOf(t.info, Id(s)).targets
  }

  predicate AnyExported(t: Context, s: Statement) {
    exists l :: l in TargetsOf(t, s) && l in t.exported
  }

  function Available(t: Context, s: Statement): seq<Label> {
    if MetadataOf(t.info, Id(s)).isSubinclude then MetadataOf(t.info, Id(s)).subincludes else []
  }

  function Filtered(labels: seq<Label>, required: seq<Label>): seq<Label> {
    if labels == [] then []
    else (if labels[0] in required then [labels[0]] else []) + Filtered(labels[1..], required)
  }

  // ---------------------------------------------------------------- the output, piece by piece

  datatype Piece = Range(from: int, to: int) | Text(text: seq<Byte>)

  function Render(origin: seq<Byte>, pieces: seq<Piece>): seq<Byte> {
    if pieces == [] then []
    else
      (match pieces[0]
       case Text(text) => text
       case Range(a, b) => if a < 0 || a > b || b > |origin| then [] else origin[a..b]) +
      Render(origin, pieces[1..])
  }

  /** What lies between two statements, such as comments. */
  function Gap(cursor: int, pos: int): seq<Piece> {
    if cursor < pos then [Range(cursor, pos)] else []
  }

  function Walk(t: Context, stmts: seq<Statement>, cursor: int, end: int): (pieces: seq<Piece>)
    ensures pieces != []
    decreases stmts, 0
  {
    if stmts == [] then [Range(cursor, end)]
    else Gap(cursor, stmts[0].pos) + StatementPieces(t, stmts[0]) + Walk(t, stmts[1..], stmts[0].end, end)
  }

  function Block(t: Context, stmts: seq<Statement>, start: int, end: int): seq<Piece>
    decreases stmts, 1
  {
    Walk(t, stmts, start, end) + if Written(t, stmts) then [] else [Text(PASS)]
  }

  function StatementPieces(t: Context, s: Statement): seq<Piece>
    decreases s
  {
    match s.kind
    case If(clauses) => ClausePieces(t, clauses, s.end)
    case For(body) => if body == [] then [] else [Range(s.pos, body[0].pos)] + Block(t, body, body[0].pos, s.end)
    case Subinclude => MinimalSubinclude(t, s)
    case Plain => if TargetsOf(t, s) != [] && !AnyExported(t, s) then [] else [Range(s.pos, s.end)]
  }

  function ClausePieces(t: Context, clauses: seq<Clause>, end: int): seq<Piece>
    decreases clauses
  {
    if clauses == [] then []
    else
      var c := clauses[0];
      [Range(c.headerStart, c.headerEnd)] + ClauseBlock(t, c.body, c.headerEnd, ClauseEnd(clauses, end)) +
      ClausePieces(t, clauses[1..], end)
  }

  function ClauseBlock(t: Context, body: seq<Statement>, start: int, end: int): seq<Piece>
    decreases body, 2
  {
    if Interpreted(t, body) then Block(t, body, start, end) else PassBlock(body, start, end, false)
  }

  function ClauseEnd(clauses: seq<Clause>, end: int): int {
    if |clauses| > 1 then clauses[1].headerStart else end
  }

  function PassBlock(stmts: seq<Statement>, cursor: int, end: int, written: bool): seq<Piece> {
    if stmts == [] then [Range(cursor, end)]
    else Gap(cursor, stmts[0].pos) + (if written then [] else [Text(PASS)]) + PassBlock(stmts[1..], stmts[0].end, end, true)
  }

  function MinimalSubinclude(t: Context, s: Statement): seq<Piece> {
    var filtered := Filtered(Available(t, s), t.required);
    if filtered == [] then [Text([])]
    else if |filtered| == |Available(t, s)| then [Range(s.pos, s.end)]
    else [Text(Bytes(t.format(filtered)))]
  }

  /** Whether something is written for a statement. */
  predicate Writes(t: Context, s: Statement) {
    match s.kind
    case If(_) => true
    case For(body) => body != []
    case Subinclude => true
    case Plain => TargetsOf(t, s) == [] || AnyExported(t, s)
  }

  predicate Written(t: Context, stmts: seq<Statement>) {
    stmts != [] && (Written(t, stmts[..|stmts| - 1]) || Writes(t, stmts[|stmts| - 1]))
  }

  // ---------------------------------------------------------------- the trimmer

  class Trimmer {
    const origin: seq<Byte>
    const context: Context
    var bytes: seq<Byte>
    ghost var pieces: seq<Piece>

    ghost predicate Valid()
      reads this
    {
      bytes == Render(origin, pieces)
    }

    constructor (origin: seq<Byte>, context: Context)
      ensures Valid() && this.origin == origin && this.context == context && pieces == []
    {
      this.origin, this.context, bytes, pieces := origin, context, [], [];
    }

    method Copy(start: int, end: int)
      requires Valid()
      modifies this
      ensures Valid() && pieces == old(pieces) + [Range(start, end)]
    {
      RenderConcat(origin, pieces, [Range(start, end)]);
      pieces := pieces + [Range(start, end)];
      if start < 0 || start > end || end > |origin| {
        return;
      }
      bytes := bytes + origin[start..end];
    }

    method Write(text: seq<Byte>)
      requires Valid()
      modifies this
      ensures Valid() && pieces == old(pieces) + [Text(text)]
    {
      RenderConcat(origin, pieces, [Text(text)]);
      bytes, pieces := bytes + text, pieces + [Text(text)];
    }

    /** The file as a whole. */
    method TrimPackage(stmts: seq<Statement>)
      requires Valid() && pieces == []
      modifies this
      ensures bytes == Render(origin, Block(context, stmts, 0, |origin|))
    {
      var _ := TrimBlock(stmts, 0, |origin|);
      assert pieces == Block(context, stmts, 0, |origin|);
    }

    /** Copies what lies between two statements. */
    method CopyGap(cursor: int, pos: int)
      requires Valid()
      modifies this
      ensures Valid() && pieces == old(pieces) + Gap(cursor, pos)
    {
      if cursor < pos {
        Copy(cursor, pos);
      }
    }

    /** Drops the statements of a block that are not needed. */
    method TrimBlock(stmts: seq<Statement>, start: int, end: int) returns (written: bool)
      requires Valid()
      modifies this
      ensures Valid() && pieces == old(pieces) + Block(context, stmts, start, end)
      ensures written == Written(context, stmts)
      decreases stmts, 2
    {
      written := WalkFile(stmts, start, end);
      if !written {
        Write(PASS);
      }
    }

    /** Visits the statements of a block, with what lies between them. */
    method WalkFile(stmts: seq<Statement>, start: int, end: int) returns (written: bool)
      requires Valid()
      modifies this
      ensures Valid() && pieces == old(pieces) + Walk(context, stmts, start, end)
      ensures written == Written(context, stmts)
      decreases stmts, 1
    {
      written := false;
      var cursor := start;
      for i := 0 to |stmts|
        invariant Valid() && written == Written(context, stmts[..i])
        invariant pieces + Walk(context, stmts[i..], cursor, end) == old(pieces) + Walk(context, stmts, start, end)
      {
        WalkStep(context, stmts, i, cursor, end, pieces);
        OneMoreWritten(context, stmts, i);
        var wrote := TrimNext(cursor, stmts[i]);
        written := written || wrote;
        cursor := stmts[i].end;
      }
      Copy(cursor, end);
      assert stmts[..|stmts|] == stmts;
    }

    /** The next statement with what comes before it. */
    method TrimNext(cursor: int, s: Statement) returns (wrote: bool)
      requires Valid()
      modifies this
      ensures Valid() && pieces == old(pieces) + Gap(cursor, s.pos) + StatementPieces(context, s)
      ensures wrote == Writes(context, s)
      decreases s, 2
    {
      CopyGap(cursor, s.pos);
      wrote := TrimStatement(s);
    }

    /** Returns whether something was written for the statement. */
    method TrimStatement(s: Statement) returns (wrote: bool)
      requires Valid()
      modifies this
      ensures Valid() && pieces == old(pieces) + StatementPieces(context, s)
      ensures wrote == Writes(context, s)
      decreases s, 1
    {
      match s.kind
      case If(clauses) =>
        wrote := TrimIf(s);
      case For(body) =>
        wrote := TrimFor(s);
      case Subinclude =>
        TrimSubinclude(s);
        wrote := true;
      case Plain =>
        var targets := TargetsOf(context, s);
        wrote := targets == [] || exists l :: l in targets && l in context.exported;
        if wrote {
          Copy(s.pos, s.end);
        }
    }

    /** Keeps every branch of an `if`, with its contents if the branch was interpreted. */
    method TrimIf(s: Statement) returns (wrote: bool)
      requires Valid() && s.kind.If?
      modifies this
      ensures Valid() && pieces == old(pieces) + StatementPieces(context, s) && wrote
      decreases s, 0
    {
      var clauses := s.kind.clauses;
      for i := 0 to |clauses|
        invariant Valid()
        invariant pieces + ClausePieces(context, clauses[i..], s.end) ==
                  old(pieces) + ClausePieces(context, clauses, s.end)
      {
        var c := clauses[i];
        var end := if i + 1 < |clauses| then clauses[i + 1].headerStart else s.end;
        ClauseStep(context, clauses, i, s.end, pieces);
        Copy(c.headerStart, c.headerEnd);
        TrimClause(c.body, c.headerEnd, end);
      }
      wrote := true;
    }

    method TrimClause(body: seq<Statement>, start: int, end: int)
      requires Valid()
      modifies this
      ensures Valid() && pieces == old(pieces) + ClauseBlock(context, body, start, end)
      decreases body, 3
    {
      if Interpreted(context, body) {
        var _ := TrimBlock(body, start, end);
      } else {
        KeepOnlyGaps(body, start, end);
      }
    }

    method TrimFor(s: Statement) returns (wrote: bool)
      requires Valid() && s.kind.For?
      modifies this
      ensures Valid() && pieces == old(pieces) + StatementPieces(context, s)
      ensures wrote == Writes(context, s)
      decreases s, 0
    {
      var body := s.kind.body;
      if body == [] {
        return false;
      }
      Copy(s.pos, body[0].pos);
      var _ := TrimBlock(body, body[0].pos, s.end);
      wrote := true;
    }

    /** The block of a branch that was not interpreted: a single `pass` instead of the statements. */
    method KeepOnlyGaps(stmts: seq<Statement>, start: int, end: int)
      requires Valid()
      modifies this
      ensures Valid() && pieces == old(pieces) + PassBlock(stmts, start, end, false)
    {
      var passWritten := false;
      var cursor := start;
      for i := 0 to |stmts|
        invariant Valid()
        invariant pieces + PassBlock(stmts[i..], cursor, end, passWritten) ==
                  old(pieces) + PassBlock(stmts, start, end, false)
      {
        var s := stmts[i];
        assert stmts[i..][1..] == stmts[i + 1..];
        ThreeMore(pieces, Gap(cursor, s.pos), if passWritten then [] else [Text(PASS)],
                  PassBlock(stmts[i + 1..], s.end, end, true));
        CopyGap(cursor, s.pos);
        if !passWritten {
          passWritten := true;
          Write(PASS);
        }
        cursor := s.end;
      }
      Copy(cursor, end);
    }

    /** A subinclude keeps the labels the package requires. */
    method TrimSubinclude(s: Statement)
      requires Valid()
      modifies this
      ensures Valid() && pieces == old(pieces) + MinimalSubinclude(context, s)
    {
      var available := Available(context, s);
      var filtered := [];
      for i := 0 to |available|
        invariant filtered + Filtered(available[i..], context.required) == Filtered(available, context.required)
      {
        assert available[i..][1..] == available[i + 1..];
        if available[i] in context.required {
          filtered := filtered + [available[i]];
        }
      }
      assert filtered == Filtered(available, context.required);
      if filtered == [] {
        Write([]);
      } else if |available| == |filtered| {
        Copy(s.pos, s.end);
      } else {
        Write(Bytes(context.format(filtered)));
      }
    }
  }

  lemma ThreeMore(done: seq<Piece>, a: seq<Piece>, b: seq<Piece>, rest: seq<Piece>)
    ensures done + (a + b + rest) == (done + a + b) + rest
  {
  }

  lemma WalkStep(t: Context, stmts: seq<Statement>, i: nat, cursor: int, end: int, done: seq<Piece>)
    requires i < |stmts|
    ensures done + Walk(t, stmts[i..], cursor, end) ==
            done + Gap(cursor, stmts[i].pos) + StatementPieces(t, stmts[i]) + Walk(t, stmts[i + 1..], stmts[i].end, end)
  {
    assert stmts[i..][1..] == stmts[i + 1..];
    ThreeMore(done, Gap(cursor, stmts[i].pos), StatementPieces(t, stmts[i]), Walk(t, stmts[i + 1..], stmts[i].end, end));
  }

  lemma ClauseStep(t: Context, clauses: seq<Clause>, i: nat, end: int, done: seq<Piece>)
    requires i < |clauses|
    ensures var c := clauses[i];
            done + ClausePieces(t, clauses[i..], end) ==
            done + [Range(c.headerStart, c.headerEnd)] +
            ClauseBlock(t, c.body, c.headerEnd, if i + 1 < |clauses| then clauses[i + 1].headerStart else end) +
            ClausePieces(t, clauses[i + 1..], end)
  {
    var c := clauses[i];
    assert clauses[i..][1..] == clauses[i + 1..];
    ThreeMore(done, [Range(c.headerStart, c.headerEnd)],
              ClauseBlock(t, c.body, c.headerEnd, ClauseEnd(clauses[i..], end)), ClausePieces(t, clauses[i + 1..], end));
  }

  lemma OneMoreWritten(t: Context, stmts: seq<Statement>, i: nat)
    requires i < |stmts|
    ensures Written(t, stmts[..i + 1]) <==> Written(t, stmts[..i]) || Writes(t, stmts[i])
  {
    assert stmts[..i + 1][..i] == stmts[..i];
  }

  lemma {:induction false} RenderConcat(origin: seq<Byte>, p: seq<Piece>, q: seq<Piece>)
    ensures Render(origin, p + q) == Render(origin, p) + Render(origin, q)
  {
    if p == [] {
      assert p + q == q;
    } else {
      assert (p + q)[0] == p[0] && (p + q)[1..] == p[1..] + q;
      RenderConcat(origin, p[1..], q);
    }
  }
}

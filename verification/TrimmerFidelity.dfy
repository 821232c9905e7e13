/**
 What trimming does to the bytes of a BUILD file, provided the statements are properly nested:
 bytes are copied in order and never twice, a file is reproduced exactly if and only if there is
 nothing to trim in it, and a target-producing statement keeps all of its bytes or none.
 */
module TrimmerFidelity {
  import opened BuildLabels
  import opened PackageMetadata
  import opened Trimmer

  // ---------------------------------------------------------------- positions

  /** The statements lie between `start` and `end`, one after the other, each around its own parts. */
  ghost predicate WellPlaced(stmts: seq<Statement>, start: int, end: int) {
    if stmts == [] then start <= end
    else start <= stmts[0].pos && StatementPlaced(stmts[0]) && WellPlaced(stmts[1..], stmts[0].end, end)
  }

  ghost predicate StatementPlaced(s: Statement) {
    s.pos < s.end &&
    match s.kind
    case If(clauses) => clauses != [] && clauses[0].headerStart == s.pos && ClausesPlaced(clauses, s.end)
    case For(body) => WellPlaced(body, s.pos, s.end)
    case Subinclude => true
    case Plain => true
  }

  ghost predicate ClausesPlaced(clauses: seq<Clause>, end: int) {
    clauses != [] ==>
      && clauses[0].headerStart <= clauses[0].headerEnd
      && WellPlaced(clauses[0].body, clauses[0].headerEnd, ClauseEnd(clauses, end))
      && ClausesPlaced(clauses[1..], end)
  }

  // ---------------------------------------------------------------- in order, never twice

  /** The ranges follow each other between `a` and `b` without overlap. */
  ghost predicate Ordered(pieces: seq<Piece>, a: int, b: int) {
    if pieces == [] then a <= b
    else
      match pieces[0]
      case Text(_) => Ordered(pieces[1..], a, b)
      case Range(x, y) => a <= x <= y && Ordered(pieces[1..], y, b)
  }

  lemma {:induction false} OrderedConcat(p: seq<Piece>, q: seq<Piece>, a: int, m: int, b: int)
    requires Ordered(p, a, m) && Ordered(q, m, b)
    ensures Ordered(p + q, a, b)
  {
    if p == [] {
      assert p + q == q;
      OrderedFromEarlier(q, a, m, b);
    } else {
      assert (p + q)[0] == p[0] && (p + q)[1..] == p[1..] + q;
      OrderedConcat(p[1..], q, if p[0].Range? then p[0].to else a, m, b);
    }
  }

  lemma {:induction false} OrderedFromEarlier(p: seq<Piece>, a: int, m: int, b: int)
    requires a <= m && Ordered(p, m, b)
    ensures Ordered(p, a, b)
  {
    if p != [] && p[0].Text? {
      OrderedFromEarlier(p[1..], a, m, b);
    }
  }

  lemma {:induction false} OrderedWalk(t: Context, stmts: seq<Statement>, cursor: int, end: int)
    requires WellPlaced(stmts, cursor, end)
    ensures Ordered(Walk(t, stmts, cursor, end), cursor, end)
    decreases stmts, 0
  {
    if stmts != [] {
      var s, rest := stmts[0], stmts[1..];
      OrderedStatement(t, s);
      OrderedWalk(t, rest, s.end, end);
      OrderedConcat(Gap(cursor, s.pos), StatementPieces(t, s), cursor, s.pos, s.end);
      OrderedConcat(Gap(cursor, s.pos) + StatementPieces(t, s), Walk(t, rest, s.end, end), cursor, s.end, end);
    }
  }

  lemma {:induction false} OrderedBlock(t: Context, stmts: seq<Statement>, start: int, end: int)
    requires WellPlaced(stmts, start, end)
    ensures Ordered(Block(t, stmts, start, end), start, end)
    decreases stmts, 1
  {
    OrderedWalk(t, stmts, start, end);
    OrderedConcat(Walk(t, stmts, start, end), if Written(t, stmts) then [] else [Text(PASS)], start, end, end);
  }

  lemma {:induction false} OrderedStatement(t: Context, s: Statement)
    requires StatementPlaced(s)
    ensures Ordered(StatementPieces(t, s), s.pos, s.end)
    decreases s
  {
    match s.kind
    case If(clauses) =>
      OrderedClauses(t, clauses, s.end);
    case For(body) =>
      if body != [] {
        OrderedBlock(t, body, body[0].pos, s.end);
        OrderedConcat([Range(s.pos, body[0].pos)], Block(t, body, body[0].pos, s.end), s.pos, body[0].pos, s.end);
      }
    case Subinclude =>
    case Plain =>
  }

  lemma {:induction false} OrderedClauses(t: Context, clauses: seq<Clause>, end: int)
    requires clauses != [] && ClausesPlaced(clauses, end)
    ensures Ordered(ClausePieces(t, clauses, end), clauses[0].headerStart, end)
    decreases clauses
  {
    var c, next, rest := clauses[0], ClauseEnd(clauses, end), clauses[1..];
    var header, block := [Range(c.headerStart, c.headerEnd)], ClauseBlock(t, c.body, c.headerEnd, next);
    if Interpreted(t, c.body) {
      OrderedBlock(t, c.body, c.headerEnd, next);
    } else {
      OrderedPass(c.body, c.headerEnd, next, false);
    }
    if rest != [] {
      OrderedClauses(t, rest, end);
    }
    OrderedConcat(header, block, c.headerStart, c.headerEnd, next);
    OrderedConcat(header + block, ClausePieces(t, rest, end), c.headerStart, next, end);
  }

  lemma {:induction false} OrderedPass(stmts: seq<Statement>, cursor: int, end: int, written: bool)
    requires WellPlaced(stmts, cursor, end)
    ensures Ordered(PassBlock(stmts, cursor, end, written), cursor, end)
  {
    if stmts != [] {
      var s, rest := stmts[0], stmts[1..];
      var pass: seq<Piece> := if written then [] else [Text(PASS)];
      OrderedPass(rest, s.end, end, true);
      OrderedFromEarlier(PassBlock(rest, s.end, end, true), s.pos, s.end, end);
      OrderedConcat(Gap(cursor, s.pos), pass, cursor, s.pos, s.pos);
      OrderedConcat(Gap(cursor, s.pos) + pass, PassBlock(rest, s.end, end, true), cursor, s.pos, end);
    }
  }

  /** Of any two ranges the earlier one ends before the later one starts, and all are inside the bounds. */
  lemma {:induction false} OrderedIsDisjoint(pieces: seq<Piece>, a: int, b: int, i: nat, j: nat)
    requires Ordered(pieces, a, b) && i < j < |pieces| && pieces[i].Range? && pieces[j].Range?
    ensures a <= pieces[i].from <= pieces[i].to <= pieces[j].from <= pieces[j].to <= b
  {
    var next := if pieces[0].Range? then pieces[0].to else a;
    if i == 0 {
      OrderedBounds(pieces[1..], next, b, j - 1);
    } else {
      OrderedIsDisjoint(pieces[1..], next, b, i - 1, j - 1);
    }
  }

  lemma {:induction false} OrderedBounds(pieces: seq<Piece>, a: int, b: int, i: nat)
    requires Ordered(pieces, a, b) && i < |pieces| && pieces[i].Range?
    ensures a <= pieces[i].from <= pieces[i].to <= b
  {
    if i > 0 {
      OrderedBounds(pieces[1..], if pieces[0].Range? then pieces[0].to else a, b, i - 1);
    } else {
      OrderedEnds(pieces[1..], pieces[0].to, b);
    }
  }

  lemma {:induction false} OrderedEnds(pieces: seq<Piece>, a: int, b: int)
    requires Ordered(pieces, a, b)
    ensures a <= b
  {
    if pieces != [] {
      OrderedEnds(pieces[1..], if pieces[0].Range? then pieces[0].to else a, b);
    }
  }

  /** No byte of the file is copied twice, and later output comes from later in the file. */
  lemma NoByteIsCopiedTwice(t: Context, stmts: seq<Statement>, length: nat, i: nat, j: nat)
    requires WellPlaced(stmts, 0, length)
    requires i < j < |Block(t, stmts, 0, length)|
    requires Block(t, stmts, 0, length)[i].Range? && Block(t, stmts, 0, length)[j].Range?
    ensures var pieces := Block(t, stmts, 0, length);
            0 <= pieces[i].from <= pieces[i].to <= pieces[j].from <= pieces[j].to <= length
  {
    OrderedBlock(t, stmts, 0, length);
    OrderedIsDisjoint(Block(t, stmts, 0, length), 0, length, i, j);
  }

  // ---------------------------------------------------------------- nothing to trim

  /** The pieces are ranges that cover everything from `a` to `b`. */
  ghost predicate Tiles(pieces: seq<Piece>, a: int, b: int) {
    if pieces == [] then a == b
    else pieces[0].Range? && pieces[0].from == a <= pieces[0].to && Tiles(pieces[1..], pieces[0].to, b)
  }

  /** The first statement of the block was recorded, so the block was run. */
  ghost predicate WasInterpreted(t: Context, body: seq<Statement>) {
    body != [] && Stmt(body[0].pos, body[0].end) in t.info.statements
  }

  /** The labels recorded for a subinclude statement. */
  ghost function Subincluded(t: Context, s: Statement): seq<Label> {
    if Stmt(s.pos, s.end) in t.info.statements && t.info.statements[Stmt(s.pos, s.end)].isSubinclude then
      t.info.statements[Stmt(s.pos, s.end)].subincludes
    else []
  }

  /** The statement produced no target, or one that is exported. */
  ghost predicate IsWanted(t: Context, s: Statement) {
    Stmt(s.pos, s.end) in t.info.statements && t.info.statements[Stmt(s.pos, s.end)].targets != [] ==>
      exists l :: l in t.info.statements[Stmt(s.pos, s.end)].targets && l in t.exported
  }

  /** There is nothing to trim in a statement, a block, a branch. */
  ghost predicate Untouched(t: Context, s: Statement)
    decreases s
  {
    match s.kind
    case If(clauses) => ClausesUntouched(t, clauses)
    case For(body) => body != [] && AllUntouched(t, body)
    case Subinclude => Subincluded(t, s) != [] && forall l :: l in Subincluded(t, s) ==> l in t.required
    case Plain => IsWanted(t, s)
  }

  ghost predicate AllUntouched(t: Context, stmts: seq<Statement>)
    decreases stmts
  {
    stmts != [] ==> Untouched(t, stmts[0]) && AllUntouched(t, stmts[1..])
  }

  ghost predicate ClausesUntouched(t: Context, clauses: seq<Clause>)
    decreases clauses
  {
    clauses != [] ==>
      && (clauses[0].body == [] || (WasInterpreted(t, clauses[0].body) && AllUntouched(t, clauses[0].body)))
      && ClausesUntouched(t, clauses[1..])
  }

  lemma {:induction false} TilesConcat(p: seq<Piece>, q: seq<Piece>, a: int, m: int, b: int)
    requires Ordered(p, a, m) && Ordered(q, m, b) && q != []
    ensures Tiles(p + q, a, b) <==> Tiles(p, a, m) && Tiles(q, m, b)
  {
    if p == [] {
      assert p + q == q;
    } else {
      assert (p + q)[0] == p[0] && (p + q)[1..] == p[1..] + q;
      if p[0].Range? {
        TilesConcat(p[1..], q, p[0].to, m, b);
      }
    }
  }

  lemma TilesAfterGap(q: seq<Piece>, cursor: int, pos: int, b: int)
    requires cursor <= pos
    ensures Tiles(Gap(cursor, pos) + q, cursor, b) <==> Tiles(q, pos, b)
  {
    if cursor < pos {
      assert (Gap(cursor, pos) + q)[1..] == q;
    } else {
      assert Gap(cursor, pos) + q == q;
    }
  }

  lemma {:induction false} TextNeverTiles(p: seq<Piece>, text: seq<Byte>, q: seq<Piece>, a: int, b: int)
    ensures !Tiles(p + [Text(text)] + q, a, b)
  {
    var all := p + [Text(text)] + q;
    if p == [] {
      assert all[0] == Text(text);
    } else if p[0].Range? {
      assert all[0] == p[0] && all[1..] == p[1..] + [Text(text)] + q;
      TextNeverTiles(p[1..], text, q, p[0].to, b);
    }
  }

  lemma {:induction false} WalkTiles(t: Context, stmts: seq<Statement>, cursor: int, end: int)
    requires WellPlaced(stmts, cursor, end)
    ensures Tiles(Walk(t, stmts, cursor, end), cursor, end) <==> AllUntouched(t, stmts)
    decreases stmts, 0
  {
    if stmts != [] {
      var s, rest := stmts[0], stmts[1..];
      var gap, own, after := Gap(cursor, s.pos), StatementPieces(t, s), Walk(t, rest, s.end, end);
      OrderedStatement(t, s);
      OrderedWalk(t, rest, s.end, end);
      OrderedConcat(own, after, s.pos, s.end, end);
      TilesAfterGap(own + after, cursor, s.pos, end);
      assert gap + own + after == gap + (own + after);
      TilesConcat(own, after, s.pos, s.end, end);
      StatementTiles(t, s);
      WalkTiles(t, rest, s.end, end);
    }
  }

  lemma {:induction false} BlockTiles(t: Context, stmts: seq<Statement>, start: int, end: int)
    requires WellPlaced(stmts, start, end)
    ensures Tiles(Block(t, stmts, start, end), start, end) <==> stmts != [] && AllUntouched(t, stmts)
    decreases stmts, 1
  {
    WalkTiles(t, stmts, start, end);
    if Written(t, stmts) {
      assert Block(t, stmts, start, end) == Walk(t, stmts, start, end);
    } else {
      assert Block(t, stmts, start, end) == Walk(t, stmts, start, end) + [Text(PASS)] + [];
      TextNeverTiles(Walk(t, stmts, start, end), PASS, [], start, end);
      if stmts != [] && AllUntouched(t, stmts) {
        LastUntouched(t, stmts);
      }
    }
  }

  lemma {:induction false} LastUntouched(t: Context, stmts: seq<Statement>)
    requires stmts != [] && AllUntouched(t, stmts)
    ensures Untouched(t, stmts[|stmts| - 1])
  {
    if |stmts| > 1 {
      LastUntouched(t, stmts[1..]);
    }
  }

  lemma {:induction false} StatementTiles(t: Context, s: Statement)
    requires StatementPlaced(s)
    ensures Tiles(StatementPieces(t, s), s.pos, s.end) <==> Untouched(t, s)
    decreases s
  {
    match s.kind
    case If(clauses) =>
      ClausesTile(t, clauses, s.end);
    case For(body) =>
      if body != [] {
        BlockTiles(t, body, body[0].pos, s.end);
        var header, block := [Range(s.pos, body[0].pos)], Block(t, body, body[0].pos, s.end);
        assert (header + block)[1..] == block;
      }
    case Subinclude =>
      FilteredLength(Available(t, s), t.required);
    case Plain =>
  }

  lemma {:induction false} FilteredLength(labels: seq<Label>, required: seq<Label>)
    ensures |Filtered(labels, required)| <= |labels|
    ensures |Filtered(labels, required)| == |labels| <==> forall l :: l in labels ==> l in required
  {
    if labels != [] {
      FilteredLength(labels[1..], required);
      assert forall l :: l in labels <==> l == labels[0] || l in labels[1..];
    }
  }

  lemma {:induction false} ClausesTile(t: Context, clauses: seq<Clause>, end: int)
    requires clauses != [] && ClausesPlaced(clauses, end)
    ensures Tiles(ClausePieces(t, clauses, end), clauses[0].headerStart, end) <==> ClausesUntouched(t, clauses)
    decreases clauses
  {
    var c, next, rest := clauses[0], ClauseEnd(clauses, end), clauses[1..];
    var header, block, after := [Range(c.headerStart, c.headerEnd)], ClauseBlock(t, c.body, c.headerEnd, next),
                                ClausePieces(t, rest, end);
    if Interpreted(t, c.body) {
      OrderedBlock(t, c.body, c.headerEnd, next);
      BlockTiles(t, c.body, c.headerEnd, next);
    } else {
      OrderedPass(c.body, c.headerEnd, next, false);
      PassTiles(c.body, c.headerEnd, next);
    }
    assert (header + block + after)[1..] == block + after;
    if rest == [] {
      assert block + after == block;
    } else {
      OrderedClauses(t, rest, end);
      ClausesTile(t, rest, end);
      TilesConcat(block, after, c.headerEnd, next, end);
    }
  }

  lemma PassTiles(stmts: seq<Statement>, start: int, end: int)
    requires WellPlaced(stmts, start, end)
    ensures Tiles(PassBlock(stmts, start, end, false), start, end) <==> stmts == []
  {
    if stmts != [] {
      TextNeverTiles(Gap(start, stmts[0].pos), PASS, PassBlock(stmts[1..], stmts[0].end, end, true), start, end);
    }
  }

  lemma {:induction false} RenderTiles(origin: seq<Byte>, pieces: seq<Piece>, a: int, b: int)
    requires 0 <= a && b <= |origin| && Tiles(pieces, a, b)
    ensures a <= b && Render(origin, pieces) == origin[a..b]
  {
    if pieces != [] {
      RenderTiles(origin, pieces[1..], pieces[0].to, b);
    }
  }

  /** A file is copied from end to end, with nothing left out or inserted, exactly if it has a statement and nothing
      in it is to be trimmed; and then the output is the file. */
  lemma UntouchedFileIsReproduced(t: Context, stmts: seq<Statement>, origin: seq<Byte>)
    requires WellPlaced(stmts, 0, |origin|)
    ensures var pieces := Block(t, stmts, 0, |origin|);
            && (Tiles(pieces, 0, |origin|) <==> stmts != [] && AllUntouched(t, stmts))
            && (stmts != [] && AllUntouched(t, stmts) ==> Render(origin, pieces) == origin)
  {
    BlockTiles(t, stmts, 0, |origin|);
    if Tiles(Block(t, stmts, 0, |origin|), 0, |origin|) {
      RenderTiles(origin, Block(t, stmts, 0, |origin|), 0, |origin|);
    }
  }

  // ---------------------------------------------------------------- which statements survive

  /** The statement is visited while the block is trimmed: it is in the block itself, in a loop, or in a branch that
      was interpreted. */
  ghost predicate Visited(t: Context, stmts: seq<Statement>, s: Statement)
    decreases stmts
  {
    stmts != [] && (stmts[0] == s || VisitedWithin(t, stmts[0], s) || Visited(t, stmts[1..], s))
  }

  ghost predicate VisitedWithin(t: Context, outer: Statement, s: Statement)
    decreases outer
  {
    match outer.kind
    case If(clauses) => VisitedInClauses(t, clauses, s)
    case For(body) => Visited(t, body, s)
    case Subinclude => false
    case Plain => false
  }

  ghost predicate VisitedInClauses(t: Context, clauses: seq<Clause>, s: Statement)
    decreases clauses
  {
    clauses != [] &&
    ((WasInterpreted(t, clauses[0].body) && Visited(t, clauses[0].body, s)) || VisitedInClauses(t, clauses[1..], s))
  }

  /** Some range copies the byte at offset `i`. */
  ghost predicate Copies(pieces: seq<Piece>, i: int) {
    exists r :: r in pieces && r.Range? && r.from <= i < r.to
  }

  lemma OrderedCopies(pieces: seq<Piece>, a: int, b: int, i: int)
    requires Ordered(pieces, a, b) && Copies(pieces, i)
    ensures a <= i < b
  {
    var k: nat :| k < |pieces| && pieces[k].Range? && pieces[k].from <= i < pieces[k].to;
    OrderedBounds(pieces, a, b, k);
  }

  /** A byte past the middle comes from the second part, a byte before it from the first. */
  lemma CopiesConcat(p: seq<Piece>, q: seq<Piece>, a: int, m: int, b: int, i: int)
    requires Ordered(p, a, m) && Ordered(q, m, b)
    ensures i >= m ==> (Copies(p + q, i) <==> Copies(q, i))
    ensures i < m ==> (Copies(p + q, i) <==> Copies(p, i))
  {
    assert forall r :: r in p + q <==> r in p || r in q;
    assert Copies(p + q, i) <==> Copies(p, i) || Copies(q, i);
    if Copies(p, i) {
      OrderedCopies(p, a, m, i);
    }
    if Copies(q, i) {
      OrderedCopies(q, m, b, i);
    }
  }

  lemma {:induction false} WalkCopies(t: Context, stmts: seq<Statement>, cursor: int, end: int, s: Statement, i: int)
    requires WellPlaced(stmts, cursor, end) && Visited(t, stmts, s) && s.pos <= i < s.end
    ensures cursor <= s.pos && s.end <= end
    ensures Copies(Walk(t, stmts, cursor, end), i) <==> Copies(StatementPieces(t, s), i)
    decreases stmts, 0
  {
    var first, rest := stmts[0], stmts[1..];
    var gap, own, after := Gap(cursor, first.pos), StatementPieces(t, first), Walk(t, rest, first.end, end);
    OrderedStatement(t, first);
    OrderedWalk(t, rest, first.end, end);
    OrderedEnds(after, first.end, end);
    OrderedConcat(gap, own, cursor, first.pos, first.end);
    if stmts[0] == s || VisitedWithin(t, first, s) {
      if stmts[0] != s {
        StatementCopies(t, first, s, i);
      }
      CopiesConcat(gap + own, after, cursor, first.end, end, i);
      CopiesConcat(gap, own, cursor, first.pos, first.end, i);
    } else {
      WalkCopies(t, rest, first.end, end, s, i);
      CopiesConcat(gap + own, after, cursor, first.end, end, i);
    }
  }

  lemma {:induction false} BlockCopies(t: Context, stmts: seq<Statement>, start: int, end: int, s: Statement, i: int)
    requires WellPlaced(stmts, start, end) && Visited(t, stmts, s) && s.pos <= i < s.end
    ensures start <= s.pos && s.end <= end
    ensures Copies(Block(t, stmts, start, end), i) <==> Copies(StatementPieces(t, s), i)
    decreases stmts, 1
  {
    OrderedWalk(t, stmts, start, end);
    WalkCopies(t, stmts, start, end, s, i);
    CopiesConcat(Walk(t, stmts, start, end), if Written(t, stmts) then [] else [Text(PASS)], start, end, end, i);
  }

  lemma {:induction false} StatementCopies(t: Context, outer: Statement, s: Statement, i: int)
    requires StatementPlaced(outer) && VisitedWithin(t, outer, s) && s.pos <= i < s.end
    ensures outer.pos <= s.pos && s.end <= outer.end
    ensures Copies(StatementPieces(t, outer), i) <==> Copies(StatementPieces(t, s), i)
    decreases outer
  {
    match outer.kind
    case If(clauses) =>
      ClausesCopy(t, clauses, outer.end, s, i);
    case For(body) =>
      var from := body[0].pos;
      OrderedBlock(t, body, from, outer.end);
      BlockCopies(t, body, from, outer.end, s, i);
      CopiesConcat([Range(outer.pos, from)], Block(t, body, from, outer.end), outer.pos, from, outer.end, i);
  }

  lemma {:induction false} ClausesCopy(t: Context, clauses: seq<Clause>, end: int, s: Statement, i: int)
    requires ClausesPlaced(clauses, end) && VisitedInClauses(t, clauses, s) && s.pos <= i < s.end
    ensures clauses[0].headerStart <= s.pos && s.end <= end
    ensures Copies(ClausePieces(t, clauses, end), i) <==> Copies(StatementPieces(t, s), i)
    decreases clauses
  {
    var c, next, rest := clauses[0], ClauseEnd(clauses, end), clauses[1..];
    var header, block, after := [Range(c.headerStart, c.headerEnd)], ClauseBlock(t, c.body, c.headerEnd, next),
                                ClausePieces(t, rest, end);
    if Interpreted(t, c.body) {
      OrderedBlock(t, c.body, c.headerEnd, next);
    } else {
      OrderedPass(c.body, c.headerEnd, next, false);
    }
    OrderedEnds(block, c.headerEnd, next);
    if rest != [] {
      OrderedClauses(t, rest, end);
      OrderedEnds(after, next, end);
    }
    OrderedConcat(header, block, c.headerStart, c.headerEnd, next);
    if Interpreted(t, c.body) && Visited(t, c.body, s) {
      BlockCopies(t, c.body, c.headerEnd, next, s, i);
      CopiesConcat(header, block, c.headerStart, c.headerEnd, next, i);
    } else {
      ClausesCopy(t, rest, end, s, i);
    }
    CopiesConcat(header + block, after, c.headerStart, next, end, i);
  }

  /** Of a plain statement that is visited all bytes are kept if it produced no target or one that is exported, else
      none. */
  lemma ProducersAreKeptWhole(t: Context, stmts: seq<Statement>, length: nat, s: Statement, i: int)
    requires WellPlaced(stmts, 0, length) && Visited(t, stmts, s) && s.pos <= i < s.end && s.kind.Plain?
    ensures Copies(Block(t, stmts, 0, length), i) <==> IsWanted(t, s)
  {
    BlockCopies(t, stmts, 0, length, s, i);
    assert Range(s.pos, s.end) in [Range(s.pos, s.end)];
  }

  // ---------------------------------------------------------------- exactly which bytes are copied

  /** Whether the byte at offset `i` is to be kept: what lies outside all statements is, and what lies in one depends on
      the statement. */
  ghost predicate Kept(t: Context, stmts: seq<Statement>, i: int)
    decreases stmts
  {
    stmts != [] ==>
      if stmts[0].pos <= i < stmts[0].end then KeptInside(t, stmts[0], i) else Kept(t, stmts[1..], i)
  }

  ghost predicate KeptInside(t: Context, s: Statement, i: int)
    decreases s
  {
    match s.kind
    case If(clauses) => KeptInClauses(t, clauses, s.end, i)
    case For(body) => body != [] && (i < body[0].pos || Kept(t, body, i))
    case Subinclude => Subincluded(t, s) != [] && forall l :: l in Subincluded(t, s) ==> l in t.required
    case Plain => IsWanted(t, s)
  }

  /** Headers are kept; so is an interpreted branch, as a block, and of any other branch what lies between its statements. */
  ghost predicate KeptInClauses(t: Context, clauses: seq<Clause>, end: int, i: int)
    decreases clauses
  {
    clauses != [] &&
    var c := clauses[0];
    if |clauses| > 1 && clauses[1].headerStart <= i then KeptInClauses(t, clauses[1..], end, i)
    else i < c.headerEnd || if WasInterpreted(t, c.body) then Kept(t, c.body, i) else Outside(c.body, i)
  }

  ghost predicate Outside(stmts: seq<Statement>, i: int) {
    forall k :: 0 <= k < |stmts| ==> !(stmts[k].pos <= i < stmts[k].end)
  }

  lemma CopiesRange(a: int, b: int, i: int)
    ensures Copies([Range(a, b)], i) <==> a <= i < b
  {
    if a <= i < b {
      assert Range(a, b) in [Range(a, b)];
    }
  }

  lemma GapCopies(q: seq<Piece>, cursor: int, pos: int, end: int, i: int)
    requires cursor <= pos && Ordered(q, pos, end)
    ensures Ordered(Gap(cursor, pos), cursor, pos)
    ensures i >= pos ==> (Copies(Gap(cursor, pos) + q, i) <==> Copies(q, i))
    ensures cursor <= i < pos ==> Copies(Gap(cursor, pos) + q, i)
  {
    CopiesConcat(Gap(cursor, pos), q, cursor, pos, end, i);
    CopiesRange(cursor, pos, i);
  }

  lemma {:induction false} BytesOfWalk(t: Context, stmts: seq<Statement>, cursor: int, end: int, i: int)
    requires WellPlaced(stmts, cursor, end) && cursor <= i < end
    ensures Copies(Walk(t, stmts, cursor, end), i) <==> Kept(t, stmts, i)
    decreases stmts, 0
  {
    if stmts == [] {
      CopiesRange(cursor, end, i);
    } else {
      var s, rest := stmts[0], stmts[1..];
      var own, after := StatementPieces(t, s), Walk(t, rest, s.end, end);
      OrderedStatement(t, s);
      OrderedWalk(t, rest, s.end, end);
      OrderedConcat(own, after, s.pos, s.end, end);
      OrderedEnds(after, s.end, end);
      assert Gap(cursor, s.pos) + own + after == Gap(cursor, s.pos) + (own + after);
      GapCopies(own + after, cursor, s.pos, end, i);
      CopiesConcat(own, after, s.pos, s.end, end, i);
      if s.pos <= i < s.end {
        BytesOfStatement(t, s, i);
      } else if s.end <= i {
        BytesOfWalk(t, rest, s.end, end, i);
      } else {
        BeforeAllIsKept(t, stmts, cursor, end, i);
      }
    }
  }

  /** What comes before the first statement is outside all of them. */
  lemma {:induction false} BeforeAllIsKept(t: Context, stmts: seq<Statement>, cursor: int, end: int, i: int)
    requires WellPlaced(stmts, cursor, end) && (stmts != [] ==> i < stmts[0].pos)
    ensures Kept(t, stmts, i) && Outside(stmts, i)
  {
    if stmts != [] {
      BeforeAllIsKept(t, stmts[1..], stmts[0].end, end, i);
      assert forall k :: 0 < k < |stmts| ==> stmts[k] == stmts[1..][k - 1];
    }
  }

  lemma {:induction false} BytesOfBlock(t: Context, stmts: seq<Statement>, start: int, end: int, i: int)
    requires WellPlaced(stmts, start, end) && start <= i < end
    ensures Copies(Block(t, stmts, start, end), i) <==> Kept(t, stmts, i)
    decreases stmts, 1
  {
    OrderedWalk(t, stmts, start, end);
    BytesOfWalk(t, stmts, start, end, i);
    CopiesConcat(Walk(t, stmts, start, end), if Written(t, stmts) then [] else [Text(PASS)], start, end, end, i);
  }

  lemma {:induction false} BytesOfStatement(t: Context, s: Statement, i: int)
    requires StatementPlaced(s) && s.pos <= i < s.end
    ensures Copies(StatementPieces(t, s), i) <==> KeptInside(t, s, i)
    decreases s
  {
    CopiesRange(s.pos, s.end, i);
    match s.kind
    case If(clauses) =>
      BytesOfClauses(t, clauses, s.end, i);
    case For(body) =>
      if body != [] {
        var from := body[0].pos;
        OrderedBlock(t, body, from, s.end);
        CopiesConcat([Range(s.pos, from)], Block(t, body, from, s.end), s.pos, from, s.end, i);
        CopiesRange(s.pos, from, i);
        if from <= i {
          BytesOfBlock(t, body, from, s.end, i);
        }
      }
    case Subinclude =>
      FilteredLength(Available(t, s), t.required);
    case Plain =>
  }

  lemma {:induction false} BytesOfClauses(t: Context, clauses: seq<Clause>, end: int, i: int)
    requires clauses != [] && ClausesPlaced(clauses, end) && clauses[0].headerStart <= i < end
    ensures Copies(ClausePieces(t, clauses, end), i) <==> KeptInClauses(t, clauses, end, i)
    decreases clauses
  {
    var c, next, rest := clauses[0], ClauseEnd(clauses, end), clauses[1..];
    var header, block, after := [Range(c.headerStart, c.headerEnd)], ClauseBlock(t, c.body, c.headerEnd, next),
                                ClausePieces(t, rest, end);
    OrderedClauseBlock(t, c.body, c.headerEnd, next);
    OrderedEnds(block, c.headerEnd, next);
    if rest != [] {
      OrderedClauses(t, rest, end);
      OrderedEnds(after, next, end);
    }
    OrderedConcat(header, block, c.headerStart, c.headerEnd, next);
    CopiesConcat(header + block, after, c.headerStart, next, end, i);
    CopiesConcat(header, block, c.headerStart, c.headerEnd, next, i);
    CopiesRange(c.headerStart, c.headerEnd, i);
    if next <= i {
      BytesOfClauses(t, rest, end, i);
    } else if c.headerEnd <= i {
      if Interpreted(t, c.body) {
        BytesOfBlock(t, c.body, c.headerEnd, next, i);
      } else {
        BytesOfPass(t, c.body, c.headerEnd, next, false, i);
      }
    }
  }

  lemma OrderedClauseBlock(t: Context, body: seq<Statement>, start: int, end: int)
    requires WellPlaced(body, start, end)
    ensures Ordered(ClauseBlock(t, body, start, end), start, end)
  {
    if Interpreted(t, body) {
      OrderedBlock(t, body, start, end);
    } else {
      OrderedPass(body, start, end, false);
    }
  }

  lemma {:induction false} BytesOfPass(t: Context, stmts: seq<Statement>, cursor: int, end: int, written: bool, i: int)
    requires WellPlaced(stmts, cursor, end) && cursor <= i < end
    ensures Copies(PassBlock(stmts, cursor, end, written), i) <==> Outside(stmts, i)
    decreases stmts
  {
    if stmts == [] {
      CopiesRange(cursor, end, i);
    } else {
      var s, rest := stmts[0], stmts[1..];
      var pass: seq<Piece> := if written then [] else [Text(PASS)];
      var after := PassBlock(rest, s.end, end, true);
      OrderedPass(rest, s.end, end, true);
      OrderedConcat(pass, after, s.pos, s.end, end);
      assert Gap(cursor, s.pos) + pass + after == Gap(cursor, s.pos) + (pass + after);
      GapCopies(pass + after, cursor, s.pos, end, i);
      CopiesConcat(pass, after, s.pos, s.end, end, i);
      assert forall k :: 0 < k < |stmts| ==> stmts[k] == rest[k - 1];
      if s.end <= i {
        BytesOfPass(t, rest, s.end, end, true, i);
      } else if i < s.pos {
        BeforeAllIsKept(t, stmts, cursor, end, i);
      }
    }
  }

  /** The output contains exactly the bytes of the original that are to be kept. Together with the order of the ranges
      this says what is left of the original. */
  lemma ExactlyTheKeptBytesAreCopied(t: Context, stmts: seq<Statement>, length: nat, i: nat)
    requires WellPlaced(stmts, 0, length) && i < length
    ensures Copies(Block(t, stmts, 0, length), i) <==> Kept(t, stmts, i)
  {
    BytesOfBlock(t, stmts, 0, length, i);
  }

  // ---------------------------------------------------------------- what is written instead

  /** How many of the labels are required. */
  ghost function Count(labels: seq<Label>, required: seq<Label>): nat {
    if labels == [] then 0
    else Count(labels[..|labels| - 1], required) + if labels[|labels| - 1] in required then 1 else 0
  }

  /** `ls` are the labels of the list that are required, in the order of the list: each of them stands behind those
      required before it. */
  ghost predicate Selects(ls: seq<Label>, labels: seq<Label>, required: seq<Label>) {
    && |ls| == Count(labels, required)
    && forall i :: 0 <= i < |labels| && labels[i] in required ==>
         Count(labels[..i], required) < |ls| && ls[Count(labels[..i], required)] == labels[i]
  }

  lemma {:induction false} FilteredSnoc(labels: seq<Label>, required: seq<Label>)
    requires labels != []
    ensures Filtered(labels, required) ==
            Filtered(labels[..|labels| - 1], required) + if labels[|labels| - 1] in required then [labels[|labels| - 1]] else []
  {
    if |labels| > 1 {
      var front := labels[..|labels| - 1];
      FilteredSnoc(labels[1..], required);
      assert labels[1..][..|labels| - 2] == front[1..];
    }
  }

  lemma {:induction false} FilteredSelects(labels: seq<Label>, required: seq<Label>)
    ensures Selects(Filtered(labels, required), labels, required)
  {
    if labels != [] {
      var front := labels[..|labels| - 1];
      FilteredSelects(front, required);
      FilteredSnoc(labels, required);
      forall i | 0 <= i < |front|
        ensures labels[..i] == front[..i]
      {
      }
    }
  }

  lemma {:induction false} FilteredMember(labels: seq<Label>, required: seq<Label>)
    ensures forall l :: l in Filtered(labels, required) <==> l in labels && l in required
  {
    if labels != [] {
      FilteredMember(labels[1..], required);
      assert labels == [labels[0]] + labels[1..];
    }
  }

  ghost predicate NoneRequired(labels: seq<Label>, required: seq<Label>) {
    forall l :: l in labels ==> l !in required
  }

  ghost predicate AllRequired(labels: seq<Label>, required: seq<Label>) {
    forall l :: l in labels ==> l in required
  }

  /** What is to be written for a subinclude statement: nothing if none of its labels is required, the call as it is if
      all are, else a call with exactly those that are, in the same order. */
  ghost predicate IsTrimmedSubinclude(t: Context, s: Statement, own: seq<Piece>, origin: seq<Byte>) {
    var labels := Subincluded(t, s);
    if NoneRequired(labels, t.required) then Render(origin, own) == []
    else if AllRequired(labels, t.required) then own == [Range(s.pos, s.end)]
    else exists ls :: Selects(ls, labels, t.required) && own == [Text(Bytes(t.format(ls)))]
  }

  lemma FilteredCases(labels: seq<Label>, required: seq<Label>)
    ensures Filtered(labels, required) == [] <==> NoneRequired(labels, required)
    ensures |Filtered(labels, required)| == |labels| <==> AllRequired(labels, required)
  {
    FilteredLength(labels, required);
    FilteredMember(labels, required);
    var ls := Filtered(labels, required);
    if !NoneRequired(labels, required) {
      var l :| l in labels && l in required;
      assert l in ls;
    } else {
      assert forall l :: l !in ls;
    }
  }

  lemma SubincludesKeepWhatIsRequired(t: Context, s: Statement, origin: seq<Byte>)
    requires s.kind.Subinclude?
    ensures IsTrimmedSubinclude(t, s, StatementPieces(t, s), origin)
  {
    var labels := Subincluded(t, s);
    assert Available(t, s) == labels;
    FilteredCases(labels, t.required);
    FilteredSelects(labels, t.required);
    if NoneRequired(labels, t.required) {
      assert StatementPieces(t, s) == [Text([])] && [Text([])][1..] == [];
    }
  }

  lemma Regroup(a: seq<Piece>, b: seq<Piece>, x: seq<Piece>, c: seq<Piece>, d: seq<Piece>)
    ensures a + (b + x + c) + d == (a + b) + x + (c + d)
  {
  }

  /** Where a visited statement's pieces are in the output. */
  lemma {:induction false} VisitedIsInWalk(t: Context, stmts: seq<Statement>, cursor: int, end: int, s: Statement)
    returns (before: seq<Piece>, after: seq<Piece>)
    requires Visited(t, stmts, s)
    ensures Walk(t, stmts, cursor, end) == before + StatementPieces(t, s) + after
    decreases stmts, 0
  {
    var first, rest := stmts[0], stmts[1..];
    var gap, own, tail := Gap(cursor, first.pos), StatementPieces(t, first), Walk(t, rest, first.end, end);
    if first == s {
      before, after := gap, tail;
    } else if VisitedWithin(t, first, s) {
      var b, a := VisitedIsInStatement(t, first, s);
      before, after := gap + b, a + tail;
      Regroup(gap, b, StatementPieces(t, s), a, tail);
    } else {
      var b, a := VisitedIsInWalk(t, rest, first.end, end, s);
      before, after := gap + own + b, a + [];
      Regroup(gap + own, b, StatementPieces(t, s), a, []);
    }
  }

  lemma {:induction false} VisitedIsInBlock(t: Context, stmts: seq<Statement>, start: int, end: int, s: Statement)
    returns (before: seq<Piece>, after: seq<Piece>)
    requires Visited(t, stmts, s)
    ensures Block(t, stmts, start, end) == before + StatementPieces(t, s) + after
    decreases stmts, 1
  {
    var b, a := VisitedIsInWalk(t, stmts, start, end, s);
    var pass := if Written(t, stmts) then [] else [Text(PASS)];
    before, after := [] + b, a + pass;
    Regroup([], b, StatementPieces(t, s), a, pass);
  }

  lemma {:induction false} VisitedIsInStatement(t: Context, outer: Statement, s: Statement)
    returns (before: seq<Piece>, after: seq<Piece>)
    requires VisitedWithin(t, outer, s)
    ensures StatementPieces(t, outer) == before + StatementPieces(t, s) + after
    decreases outer
  {
    match outer.kind
    case If(clauses) =>
      before, after := VisitedIsInClauses(t, clauses, outer.end, s);
    case For(body) =>
      var header := [Range(outer.pos, body[0].pos)];
      var b, a := VisitedIsInBlock(t, body, body[0].pos, outer.end, s);
      before, after := header + b, a + [];
      Regroup(header, b, StatementPieces(t, s), a, []);
  }

  lemma {:induction false} VisitedIsInClauses(t: Context, clauses: seq<Clause>, end: int, s: Statement)
    returns (before: seq<Piece>, after: seq<Piece>)
    requires VisitedInClauses(t, clauses, s)
    ensures ClausePieces(t, clauses, end) == before + StatementPieces(t, s) + after
    decreases clauses
  {
    var c, next, rest := clauses[0], ClauseEnd(clauses, end), clauses[1..];
    var header, block, tail := [Range(c.headerStart, c.headerEnd)], ClauseBlock(t, c.body, c.headerEnd, next),
                               ClausePieces(t, rest, end);
    if WasInterpreted(t, c.body) && Visited(t, c.body, s) {
      var b, a := VisitedIsInBlock(t, c.body, c.headerEnd, next, s);
      before, after := header + b, a + tail;
      Regroup(header, b, StatementPieces(t, s), a, tail);
    } else {
      var b, a := VisitedIsInClauses(t, rest, end, s);
      before, after := header + block + b, a + [];
      Regroup(header + block, b, StatementPieces(t, s), a, []);
    }
  }

  /** In the trimmed file a visited subinclude stands where it stood, with exactly the labels that are required. */
  lemma TrimmedSubincludes(t: Context, stmts: seq<Statement>, origin: seq<Byte>, s: Statement)
    returns (before: seq<Piece>, own: seq<Piece>, after: seq<Piece>)
    requires Visited(t, stmts, s) && s.kind.Subinclude?
    ensures Block(t, stmts, 0, |origin|) == before + own + after
    ensures IsTrimmedSubinclude(t, s, own, origin)
  {
    before, after := VisitedIsInBlock(t, stmts, 0, |origin|, s);
    own := StatementPieces(t, s);
    SubincludesKeepWhatIsRequired(t, s, origin);
  }

  /** Nothing is written for the statement. */
  ghost predicate IsDropped(t: Context, s: Statement) {
    (s.kind.For? && s.kind.body == []) || (s.kind.Plain? && !IsWanted(t, s))
  }

  lemma {:induction false} WrittenUnlessAllDropped(t: Context, stmts: seq<Statement>)
    ensures Written(t, stmts) <==> exists k :: 0 <= k < |stmts| && !IsDropped(t, stmts[k])
  {
    if stmts != [] {
      var n := |stmts| - 1;
      WrittenUnlessAllDropped(t, stmts[..n]);
      assert Writes(t, stmts[n]) <==> !IsDropped(t, stmts[n]);
      if k :| 0 <= k < |stmts[..n]| && !IsDropped(t, stmts[..n][k]) {
        assert !IsDropped(t, stmts[k]);
      }
      if k :| 0 <= k < |stmts| && !IsDropped(t, stmts[k]) {
        assert k < n ==> !IsDropped(t, stmts[..n][k]);
      }
    }
  }

  /** A block of which all statements are dropped ends with a `pass`; no other block gets one of its own. */
  lemma EmptiedBlocksGetPass(t: Context, stmts: seq<Statement>, start: int, end: int)
    ensures if forall k :: 0 <= k < |stmts| ==> IsDropped(t, stmts[k]) then
              Block(t, stmts, start, end) == Walk(t, stmts, start, end) + [Text(Bytes("pass  # Trimmed during export"))]
            else Block(t, stmts, start, end) == Walk(t, stmts, start, end)
  {
    WrittenUnlessAllDropped(t, stmts);
    assert Walk(t, stmts, start, end) + [] == Walk(t, stmts, start, end);
  }

  /** The texts among the pieces. */
  ghost function Texts(pieces: seq<Piece>): seq<seq<Byte>> {
    if pieces == [] then [] else (if pieces[0].Text? then [pieces[0].text] else []) + Texts(pieces[1..])
  }

  lemma {:induction false} TextsConcat(p: seq<Piece>, q: seq<Piece>)
    ensures Texts(p + q) == Texts(p) + Texts(q)
  {
    if p == [] {
      assert p + q == q;
    } else {
      assert (p + q)[0] == p[0] && (p + q)[1..] == p[1..] + q;
      TextsConcat(p[1..], q);
    }
  }

  /** In place of the statements of a branch that was not interpreted there is one `pass`. */
  lemma {:induction false} PassedBlocksGetOnePass(stmts: seq<Statement>, cursor: int, end: int, written: bool)
    ensures Texts(PassBlock(stmts, cursor, end, written)) ==
            if stmts == [] || written then [] else [Bytes("pass  # Trimmed during export")]
  {
    if stmts != [] {
      var gap, after := Gap(cursor, stmts[0].pos), PassBlock(stmts[1..], stmts[0].end, end, true);
      var pass: seq<Piece> := if written then [] else [Text(PASS)];
      PassedBlocksGetOnePass(stmts[1..], stmts[0].end, end, true);
      TextsConcat(gap + pass, after);
      TextsConcat(gap, pass);
    }
  }
}

/** Copying and cutting whole lines (cut_text and copy_text with CUT_FROM_CURSOR
    off and without a mark): as many copies as cuts gather the same text. */
module CopyCut {
  import opened Chars
  import opened Lines
  import opened EditModel
  import opened Options

  function CutTimes(c: Config, s: State, k: nat): State
    requires ValidState(s)
    decreases k
  {
    if k == 0 then s
    else
      var s' := CutText(c, s, None);
      if ValidState(s') then CutTimes(c, s', k - 1) else s'
  }

  function CopyTimes(c: Config, s: State, k: nat): State
    requires ValidState(s)
    decreases k
  {
    if k == 0 then s
    else
      var s' := CopyText(c, s, None);
      if ValidState(s') then CopyTimes(c, s', k - 1) else s'
  }

  /** The cursor is on an empty last line. */
  predicate AtEmptyEnd(s: State)
    requires ValidState(s)
  {
    s.row == |s.lines| - 1 && s.lines[s.row] == []
  }

  /** The text of a line that is taken: with its newline, unless it is the last. */
  function Piece(l: Line, bottom: bool): Text {
    if bottom then [l] else [l, []]
  }

  function Onto(prior: Option<Text>, piece: Text): Text {
    if prior.None? then piece else Join(prior.value, piece)
  }

  /** One cut of a whole line. */
  lemma CutOne(c: Config, s: State)
    requires ValidState(s) && Finished(c.noNewlines, s.lines) && !s.cutFromCursor && !AtEmptyEnd(s)
    ensures var s' := CutText(c, s, None);
            var bottom := s.row == |s.lines| - 1;
            var prior := if s.last == CUT && s.keep && |s.stack| > 0 then s.cutbuffer else None;
            && ValidState(s') && s'.row == s.row && s'.x == 0
            && s'.lines == (if bottom then s.lines[s.row := []] else s.lines[..s.row] + s.lines[s.row + 1..])
            && Finished(c.noNewlines, s'.lines)
            && s'.cutbuffer == Some(Onto(prior, Piece(s.lines[s.row], bottom)))
            && s'.keep && s'.last == CUT && |s'.stack| > 0 && !s'.cutFromCursor
  {
    hide *;
    var s1 := Begun(s);
    CutIs(c, s);
    BegunIs(s);
    EmptyEndSame(s, s1);
    SnipOne(c, s1);
    NotedKeeps(c, Snip(c, s1, None, false, false));
  }

  function Begun(s: State): State
    requires ValidState(s)
  {
    if s.last != CUT || !s.keep || |s.stack| == 0 then AddUndo(s.(keep := false), CUT, None) else s
  }

  lemma BegunIs(s: State)
    requires ValidState(s)
    ensures var s1 := Begun(s);
            && ValidState(s1) && s1.lines == s.lines && s1.row == s.row && s1.x == s.x && s1.last == CUT
            && s1.cutFromCursor == s.cutFromCursor && s1.cutbuffer == s.cutbuffer && |s1.stack| > 0
            && s1.applied <= |s1.stack|
            && (s1.keep <==> s.last == CUT && s.keep && |s.stack| > 0)
  {
    hide AddUndo;
    StartedCut(s);
  }

  lemma CutIs(c: Config, s: State)
    requires ValidState(s)
    ensures AtEmptyEnd(s) ==> CutText(c, s, None) == s || s.cutFromCursor
    ensures !AtEmptyEnd(s) && !s.cutFromCursor ==>
              && ValidState(Begun(s)) && |Snip(c, Begun(s), None, false, false).stack| > 0
              && CutText(c, s, None) == UpdateCut(c, Snip(c, Begun(s), None, false, false))
  {
    hide AddUndo, Snip, UpdateCut;
  }

  lemma NotedKeeps(c: Config, s: State)
    requires |s.stack| > 0
    ensures var s' := UpdateCut(c, s);
            && s' == s.(stack := s'.stack) && |s'.stack| == |s.stack|
            && (s.applied <= |s.stack| && s.row < |s.lines| && s.x == 0 ==> ValidState(s'))
  {
    hide CutNoted;
  }

  lemma EmptyEndSame(s: State, s1: State)
    requires ValidState(s) && ValidState(s1) && s1.lines == s.lines && s1.row == s.row
    ensures AtEmptyEnd(s) <==> AtEmptyEnd(s1)
    ensures s.row < |s.lines|
  {
  }

  lemma StartedCut(s: State)
    requires ValidState(s)
    ensures var s1 := AddUndo(s.(keep := false), CUT, None);
            && s1.lines == s.lines && s1.row == s.row && s1.x == s.x && !s1.keep && s1.last == CUT
            && s1.cutFromCursor == s.cutFromCursor && s1.cutbuffer == s.cutbuffer && |s1.stack| == s1.applied > 0
  {
    hide NewItem;
    assert NewItem(s.(keep := false), CUT, None).kind == CUT by { CutKind(s.(keep := false)); }
  }

  lemma CutKind(s: State)
    requires ValidState(s)
    ensures NewItem(s, CUT, None).kind == CUT
  {
  }

  lemma SnipOne(c: Config, s: State)
    requires ValidState(s) && Finished(c.noNewlines, s.lines) && !s.cutFromCursor && !AtEmptyEnd(s)
    requires s.last == CUT
    ensures var s' := Snip(c, s, None, false, false);
            var bottom := s.row == |s.lines| - 1;
            var prior := if s.keep then s.cutbuffer else None;
            && s'.row == s.row && s'.x == 0
            && s'.lines == (if bottom then s.lines[s.row := []] else s.lines[..s.row] + s.lines[s.row + 1..])
            && Finished(c.noNewlines, s'.lines)
            && s'.cutbuffer == Some(Onto(prior, Piece(s.lines[s.row], bottom)))
            && s'.keep && s'.last == CUT && s'.stack == s.stack && s'.applied == s.applied && !s'.cutFromCursor
  {
    hide *;
    SnipIs(c, s);
    var s0 := if s.keep then s else s.(cutbuffer := None);
    EmptyEndSame(s, s0);
    LineTaken(c, s0);
  }

  /** The region of a whole line. */
  function LineRegion(t: Text, r: nat): (Pos, Pos)
    requires r < |t|
  {
    (Pos(r, 0), if r == |t| - 1 then Pos(r, |t[r]|) else Pos(r + 1, 0))
  }

  lemma SnipIs(c: Config, s: State)
    requires ValidState(s) && !s.cutFromCursor && s.last == CUT
    ensures var s0 := if s.keep then s else s.(cutbuffer := None);
            var (p, q) := LineRegion(s.lines, s.row);
            && ValidState(s0) && ValidPos(s.lines, p) && ValidPos(s.lines, q) && Before(p, q)
            && Snip(c, s, None, false, false) == TakeOut(c, s0, p, q).(keep := true, modified := true)
  {
    hide TakeOut;
  }

  lemma LineTaken(c: Config, s: State)
    requires ValidState(s) && Finished(c.noNewlines, s.lines) && !AtEmptyEnd(s)
    ensures var (p, q) := LineRegion(s.lines, s.row);
            && ValidPos(s.lines, p) && ValidPos(s.lines, q) && Before(p, q)
            && var s' := TakeOut(c, s, p, q);
            var bottom := s.row == |s.lines| - 1;
            && s'.row == s.row && s'.x == 0
            && s'.lines == (if bottom then s.lines[s.row := []] else s.lines[..s.row] + s.lines[s.row + 1..])
            && Finished(c.noNewlines, s'.lines)
            && s'.cutbuffer == Some(Onto(s.cutbuffer, Piece(s.lines[s.row], bottom)))
            && s'.last == s.last && s'.stack == s.stack && s'.applied == s.applied
            && s'.cutFromCursor == s.cutFromCursor
  {
    hide Join, Segment, Head, Rest, Piece, Characters, Extracted, Finished;
    ExtractedLine(c, s.lines, s.row);
  }

  lemma ExtractedLine(c: Config, t: Text, r: nat)
    requires r < |t| && Finished(c.noNewlines, t) && !(r == |t| - 1 && t[r] == [])
    ensures var (p, q) := LineRegion(t, r);
            var bottom := r == |t| - 1;
            && ValidPos(t, p) && ValidPos(t, q) && Before(p, q) && p != q
            && Segment(t, p, q) == Piece(t[r], bottom)
            && Extracted(c.noNewlines, t, p, q) == (if bottom then t[r := []] else t[..r] + t[r + 1..])
            && Finished(c.noNewlines, Extracted(c.noNewlines, t, p, q))
  {
    Region(t, r);
    hide Join, Segment, Head, Rest, Piece;
  }

  lemma Region(t: Text, r: nat)
    requires r < |t|
    ensures var bottom := r == |t| - 1;
            var (p, q) := (Pos(r, 0), if bottom then Pos(r, |t[r]|) else Pos(r + 1, 0));
            && Segment(t, p, q) == Piece(t[r], bottom)
            && Join(Head(t, p), Rest(t, q)) == (if bottom then t[r := []] else t[..r] + t[r + 1..])
  {
    assert t[r][..0] == [];
    if r < |t| - 1 {
      assert t[r + 1] == [] + t[r + 1][0..];
      assert t[r][0..] == t[r] && t[r + 1][..0] == [] && t[r + 1..r + 1] == [];
      assert t[r + 1..] == [t[r + 1]] + t[r + 2..];
    } else {
      assert t[r][0..|t[r]|] == t[r] && t[r][|t[r]|..] == [] && [] + t[r][|t[r]|..] == [];
    }
  }

  /** How a piece joins what was copied before: where the newline of the piece is,
      the last line of the earlier text stays last. */
  function Over(prior: Option<Text>, piece: Text): Text {
    if prior.None? then piece
    else if Last(piece) == [] then
      prior.value[..|prior.value| - 1] + piece[..|piece| - 1] + [Last(prior.value)]
    else prior.value[..|prior.value| - 1] + piece
  }

  /** What a cut goes on with, and a copy. */
  function CutPrior(s: State): Option<Text> {
    if s.last == CUT && s.keep && |s.stack| > 0 then s.cutbuffer else None
  }

  function CopyPrior(s: State): Option<Text> {
    if s.last == COPY && s.keep then s.cutbuffer else None
  }

  /** The last line was copied already. */
  predicate AtCopiedEnd(s: State)
    requires ValidState(s)
  {
    s.row == |s.lines| - 1 && s.x == |s.lines[s.row]| && CopyPrior(s).Some?
  }

  /** One copy of a whole line. */
  lemma CopyOne(c: Config, s: State)
    requires ValidState(s) && Finished(c.noNewlines, s.lines) && !s.cutFromCursor
    ensures var s' := CopyText(c, s, None);
            var bottom := s.row == |s.lines| - 1;
            && ValidState(s') && s'.lines == s.lines && s'.size == s.size && s'.stack == s.stack
            && s'.modified == s.modified && !s'.cutFromCursor
            && if AtEmptyEnd(s) then s' == s.(cutbuffer := CopyPrior(s), keep := s.last == COPY && s.keep)
               else if AtCopiedEnd(s) then s' == s
               else
                 && s'.cutbuffer == Some(Over(CopyPrior(s), Piece(s.lines[s.row], bottom)))
                 && s'.keep && s'.last == COPY
                 && (if bottom then s'.row == s.row && s'.x == |s.lines[s.row]| else s'.row == s.row + 1 && s'.x == 0)
  {
    var line := s.lines[s.row];
    assert line[0..] == line && [line, []][..1] == [line];
    if CopyPrior(s).Some? {
      var front := CopyPrior(s).value[..|CopyPrior(s).value| - 1];
      assert front + [line] + [Last(CopyPrior(s).value)] == front + [line, Last(CopyPrior(s).value)];
    }
  }

  // ----- Any number of cuts, any number of copies ---------------------------------------------

  /** The next k lines from row r on, with their newlines; as many as there are. */
  function Taken(t: Text, r: nat, k: nat): Text
    requires r < |t| && k > 0
  {
    if r + k >= |t| && Last(t) != [] then t[r..]
    else t[r..if r + k < |t| then r + k else |t| - 1] + [[]]
  }

  lemma TakenOne(t: Text, r: nat)
    requires r < |t| && !(r == |t| - 1 && t[r] == [])
    ensures Taken(t, r, 1) == Piece(t[r], r == |t| - 1)
  {
  }

  lemma TakenBottom(t: Text, k: nat)
    requires Last(t) != [] && k > 0
    ensures Taken(t, |t| - 1, k) == [Last(t)]
  {
  }

  /** Only an empty line is left below. */
  lemma TakenAll(t: Text, r: nat, k: nat)
    requires r == |t| - 2 && Last(t) == [] && k > 0
    ensures Taken(t, r, k) == [t[r], []]
  {
  }

  lemma TakenMore(t: Text, r: nat, k: nat)
    requires r + 1 < |t| && k > 1
    ensures Taken(t, r, k) == [t[r]] + Taken(t, r + 1, k - 1)
  {
    var most := if r + k < |t| then r + k else |t| - 1;
    assert t[r..] == [t[r]] + t[r + 1..];
    assert t[r..most] + [[]] == [t[r]] + (t[r + 1..most] + [[]]);
  }

  /** The lines below are the same without line r. */
  lemma TakenBelow(t: Text, r: nat, k: nat)
    requires r + 1 < |t| && k > 0
    ensures var u: Text := t[..r] + t[r + 1..]; r < |u| && Taken(u, r, k) == Taken(t, r + 1, k)
  {
    var u: Text := t[..r] + t[r + 1..];
    assert Last(u) == Last(t) && u[r..] == t[r + 1..];
    var most := if r + k < |u| then r + k else |u| - 1;
    assert u[r..most] == t[r + 1..most + 1];
  }

  lemma JoinMore(prior: Option<Text>, l: Line, rest: Text)
    ensures Onto(Some(Onto(prior, [l, []])), rest) == Onto(prior, [l] + rest)
  {
    var piece: Text := [l, []];
    JoinPiece(l, rest);
    if prior.Some? {
      JoinAssociative(prior.value, piece, rest);
    }
    hide Join;
  }

  lemma JoinPiece(l: Line, rest: Text)
    ensures Join([l, []], rest) == [l] + rest
  {
    assert [l, []][..1] == [l] && [] + rest[0] == rest[0];
    assert rest == [rest[0]] + rest[1..];
  }

  lemma OverMore(prior: Option<Text>, l: Line, rest: Text)
    ensures Over(Some(Over(prior, [l, []])), rest) == Over(prior, [l] + rest)
  {
    assert [l, []][..1] == [l] && ([l] + rest)[..|rest|] == [l] + rest[..|rest| - 1];
    assert rest == rest[..|rest| - 1] + [Last(rest)];
    if prior.Some? {
      var (front, last) := (prior.value[..|prior.value| - 1], Last(prior.value));
      assert (front + [l] + [last])[..|front| + 1] == front + [l];
    }
  }

  lemma {:induction false} CutsNothing(c: Config, s: State, k: nat)
    requires ValidState(s) && !s.cutFromCursor && AtEmptyEnd(s)
    ensures CutTimes(c, s, k) == s
    decreases k
  {
    hide CutText;
    CutIs(c, s);
    if k > 0 {
      CutsNothing(c, s, k - 1);
    }
  }

  /** Cutting k times gathers the next k lines. */
  lemma {:induction false} CutsGather(c: Config, s: State, k: nat)
    requires ValidState(s) && Finished(c.noNewlines, s.lines) && !s.cutFromCursor && !AtEmptyEnd(s) && k > 0
    ensures CutTimes(c, s, k).cutbuffer == Some(Onto(CutPrior(s), Taken(s.lines, s.row, k)))
    decreases k
  {
    hide CutText, Taken, Onto, Finished;
    CutOne(c, s);
    var (s', t, r) := (CutText(c, s, None), s.lines, s.row);
    if k == 1 {
      TakenOne(t, r);
    } else if r == |t| - 1 {
      CutsNothing(c, s', k - 1);
      TakenBottom(t, k);
    } else if AtEmptyEnd(s') {
      CutsNothing(c, s', k - 1);
      TakenAll(t, r, k);
    } else {
      CutsGather(c, s', k - 1);
      TakenMore(t, r, k);
      TakenBelow(t, r, k - 1);
      JoinMore(CutPrior(s), t[r], Taken(t, r + 1, k - 1));
    }
  }

  /** Copying at the end of the text changes nothing any more. */
  lemma {:induction false} CopiesNothing(c: Config, s: State, k: nat)
    requires ValidState(s) && Finished(c.noNewlines, s.lines) && !s.cutFromCursor
    requires AtEmptyEnd(s) || AtCopiedEnd(s)
    ensures var b := CopyTimes(c, s, k);
            && b.lines == s.lines && b.size == s.size && b.stack == s.stack && b.modified == s.modified
            && (if k == 0 || AtCopiedEnd(s) then b == s else b.cutbuffer == CopyPrior(s))
    decreases k
  {
    hide CopyText, Finished;
    CopyOne(c, s);
    if k > 0 {
      CopiesNothing(c, CopyText(c, s, None), k - 1);
    }
  }

  /** Copying k times gathers the next k lines too, and leaves the buffer alone. */
  lemma {:induction false} CopiesGather(c: Config, s: State, k: nat)
    requires ValidState(s) && Finished(c.noNewlines, s.lines) && !s.cutFromCursor
    requires !AtEmptyEnd(s) && !AtCopiedEnd(s) && k > 0
    ensures var b := CopyTimes(c, s, k);
            && b.lines == s.lines && b.size == s.size && b.stack == s.stack && b.modified == s.modified
            && b.cutbuffer == Some(Over(CopyPrior(s), Taken(s.lines, s.row, k)))
    decreases k
  {
    hide CopyText, Taken, Over, Finished;
    CopyOne(c, s);
    var (s', t, r) := (CopyText(c, s, None), s.lines, s.row);
    if k == 1 {
      TakenOne(t, r);
    } else if r == |t| - 1 {
      CopiesNothing(c, s', k - 1);
      TakenBottom(t, k);
    } else if AtEmptyEnd(s') {
      CopiesNothing(c, s', k - 1);
      TakenAll(t, r, k);
    } else {
      CopiesGather(c, s', k - 1);
      TakenMore(t, r, k);
      OverMore(CopyPrior(s), t[r], Taken(t, r + 1, k - 1));
    }
  }

  // ----- As many copies as cuts ------------------------------------------------------------

  /** When k copies gather what k cuts would.  Neither goes on with an earlier text
      that matters; only on an empty last line, where nothing is taken, a copy must
      go on, as it would empty the cutbuffer otherwise. */
  predicate SameGathered(s: State, k: nat)
    requires ValidState(s)
  {
    || s.cutbuffer.None?
    || if AtEmptyEnd(s) then CopyPrior(s).Some?
       else if CutPrior(s).Some? then s.cutbuffer.value == EMPTY
       else if AtCopiedEnd(s) then s.cutbuffer.value == [s.lines[s.row]]
       else if CopyPrior(s).Some? then
         s.cutbuffer.value == EMPTY || (|s.cutbuffer.value| == 1 && s.row + k >= |s.lines| && Last(s.lines) != [])
       else true
  }

  /** From any state, k copies leave the buffer as it was, and leave in the cutbuffer
      what k cuts would exactly under this condition. */
  lemma CopiesAsCuts(c: Config, s: State, k: nat)
    requires ValidState(s) && Finished(c.noNewlines, s.lines) && !s.cutFromCursor
    ensures var (a, b) := (CutTimes(c, s, k), CopyTimes(c, s, k));
            && b.lines == s.lines && b.size == s.size && b.stack == s.stack && b.modified == s.modified
            && (a.cutbuffer == b.cutbuffer <==> k == 0 || SameGathered(s, k))
  {
    if k > 0 {
      AsManyCopies(c, s, k);
    }
  }

  lemma AsManyCopies(c: Config, s: State, k: nat)
    requires ValidState(s) && Finished(c.noNewlines, s.lines) && !s.cutFromCursor && k > 0
    ensures var (a, b) := (CutTimes(c, s, k), CopyTimes(c, s, k));
            && b.lines == s.lines && b.size == s.size && b.stack == s.stack && b.modified == s.modified
            && (a.cutbuffer == b.cutbuffer <==> SameGathered(s, k))
  {
    hide CutTimes, CopyTimes, Finished, Onto, Over, Taken, SameGathered, CutPrior, CopyPrior, AtEmptyEnd, AtCopiedEnd;
    if AtEmptyEnd(s) {
      CutsNothing(c, s, k);
      CopiesNothing(c, s, k);
      NothingGathered(s, k);
    } else {
      CutsGather(c, s, k);
      if AtCopiedEnd(s) {
        CopiesNothing(c, s, k);
      } else {
        CopiesGather(c, s, k);
      }
      SomethingGathered(s, k);
    }
  }

  lemma NothingGathered(s: State, k: nat)
    requires ValidState(s) && AtEmptyEnd(s)
    ensures AtCopiedEnd(s) ==> SameGathered(s, k)
    ensures !AtCopiedEnd(s) ==> (s.cutbuffer == CopyPrior(s) <==> SameGathered(s, k))
  {
  }

  lemma SomethingGathered(s: State, k: nat)
    requires ValidState(s) && !AtEmptyEnd(s) && k > 0
    ensures var taken := Taken(s.lines, s.row, k);
            Some(Onto(CutPrior(s), taken)) == (if AtCopiedEnd(s) then s.cutbuffer else Some(Over(CopyPrior(s), taken)))
            <==> SameGathered(s, k)
  {
    hide Onto, Over, Taken;
    var taken := Taken(s.lines, s.row, k);
    Prior(s, taken);
    TakenLast(s.lines, s.row, k);
    if AtCopiedEnd(s) {
      TakenBottom(s.lines, k);
    }
  }

  lemma TakenLast(t: Text, r: nat, k: nat)
    requires r < |t| && k > 0
    ensures Last(Taken(t, r, k)) != [] <==> r + k >= |t| && Last(t) != []
  {
  }

  /** When an earlier text makes no difference. */
  lemma Prior(s: State, taken: Text)
    ensures Onto(None, taken) == taken && Over(None, taken) == taken
    ensures s.cutbuffer.Some? ==> (Onto(s.cutbuffer, taken) == taken <==> s.cutbuffer.value == EMPTY)
    ensures s.cutbuffer.Some? ==>
              (Over(s.cutbuffer, taken) == taken <==>
                s.cutbuffer.value == EMPTY || (|s.cutbuffer.value| == 1 && Last(taken) != []))
  {
    if s.cutbuffer.Some? {
      var v := s.cutbuffer.value;
      if |v| == 1 {
        assert v[..0] == [];
        assert taken == taken[..|taken| - 1] + [Last(taken)];
        assert Join(v, taken)[0] == v[0] + taken[0];
        JoinUnit(taken);
      }
    }
  }

  /** For example, after any cut of a line the next cut adds to it, but a copy does
      not. */
  lemma CutGoesOn(c: Config, s: State)
    requires ValidState(s) && Finished(c.noNewlines, s.lines) && !s.cutFromCursor && !AtEmptyEnd(s)
    ensures var s1 := CutText(c, s, None);
            && ValidState(s1)
            && (!AtEmptyEnd(s1) ==> CutTimes(c, s1, 1).cutbuffer != CopyTimes(c, s1, 1).cutbuffer)
  {
    hide CutText, CutTimes, CopyTimes;
    CutOne(c, s);
    var s1 := CutText(c, s, None);
    if !AtEmptyEnd(s1) {
      CopiesAsCuts(c, s1, 1);
      var bottom := s.row == |s.lines| - 1;
      assert Piece(s.lines[s.row], bottom) != EMPTY;
      OntoNotEmpty(CutPrior(s), Piece(s.lines[s.row], bottom));
    }
  }

  lemma OntoNotEmpty(prior: Option<Text>, piece: Text)
    requires piece != EMPTY
    ensures Onto(prior, piece) != EMPTY
  {
    if prior.Some? && |prior.value| == 1 && |piece| == 1 {
      assert piece == [piece[0]];
      assert Onto(prior, piece)[0] == prior.value[0] + piece[0];
    }
  }

  /** And on the empty last line a copy empties the cutbuffer, unless it goes on
      copying; a cut leaves it. */
  lemma CopyEmpties(c: Config, s: State)
    requires ValidState(s) && Finished(c.noNewlines, s.lines) && !s.cutFromCursor && AtEmptyEnd(s)
    ensures CutTimes(c, s, 1).cutbuffer == s.cutbuffer
    ensures CopyTimes(c, s, 1).cutbuffer == CopyPrior(s)
  {
    hide CutTimes, CopyTimes;
    CutsNothing(c, s, 1);
    CopiesNothing(c, s, 1);
  }

  /** As in a buffer of one line, copied, with the cursor then moved to the end. */
  lemma CopyEmptiesThere(c: Config)
    requires !c.noNewlines
    ensures var s := Opened([[97], []], 2);
            && ValidState(s)
            && var s1 := CopyText(c, s, None).(row := 1, x := 0, keep := false);
            && ValidState(s1)
            && CutTimes(c, s1, 1).cutbuffer == Some([[97], []]) && CopyTimes(c, s1, 1).cutbuffer == None
  {
    var s := Opened([[97], []], 2);
    CopyOne(c, s);
    var s1 := CopyText(c, s, None).(row := 1, x := 0, keep := false);
    hide CutTimes, CopyTimes, CopyText;
    CopyEmpties(c, s1);
  }
}

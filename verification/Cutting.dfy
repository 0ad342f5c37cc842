/** What cutting, zapping and copying take, and what they leave: from a mark, from the
    cursor to the end of the line or of the file, once and any number of times. */
module Cutting {
  import opened Chars
  import opened Lines
  import opened EditModel
  import opened Cuts
  import opened CopyCut
  import opened Options

  // ----- What one cut takes --------------------------------------------------------------

  /** What was gathered before, when this cut or zap goes on with it. */
  function Gathered(s: State, kind: Kind, mark: Option<Pos>): Option<Text> {
    if mark.None? && s.last == kind && s.keep && |s.stack| > 0 then
      if kind == ZAP then Top(s).cut else s.cutbuffer
    else None
  }

  /** The region from p to q has gone out of the text, and the cursor is in its place. */
  predicate TookOut(c: Config, s: State, s': State, p: Pos, q: Pos)
    requires ValidPos(s.lines, p) && ValidPos(s.lines, q)
  {
    && s'.lines == WithMagic(c.noNewlines, Join(Head(s.lines, p), Rest(s.lines, q)))
    && Cursor(s') == p && s'.modified && s'.cutFromCursor == s.cutFromCursor
  }

  /** The state in which a cut or a zap calls do_snip. */
  function Readied(s: State, kind: Kind, mark: Option<Pos>): (r: State)
    requires ValidState(s) && (mark.Some? ==> ValidPos(s.lines, mark.value)) && (kind == CUT || kind == ZAP)
    ensures ValidState(r) && r.lines == s.lines && |r.stack| > 0
  {
    if s.last != kind || !s.keep || |s.stack| == 0 then ToSnip(s, kind, mark)
    else if kind == ZAP then s.(cutbuffer := Top(s).cut)
    else s
  }

  lemma ReadiedIs(s: State, kind: Kind, mark: Option<Pos>)
    requires ValidState(s) && (mark.Some? ==> ValidPos(s.lines, mark.value) && !s.keep)
    requires kind == CUT || kind == ZAP
    ensures var s1 := Readied(s, kind, mark);
            && ValidState(s1) && s1.lines == s.lines && Cursor(s1) == Cursor(s) && s1.last == kind && |s1.stack| > 0
            && s1.cutFromCursor == s.cutFromCursor
            && SnipRegion(s1, mark, false) == SnipRegion(s, mark, false)
            && (kind == ZAP ==> s1.cutbuffer == Gathered(s, ZAP, mark))
            && (kind == CUT ==> (if s1.keep && mark.None? then s1.cutbuffer else None) == Gathered(s, CUT, mark))
  {
    hide SnipRegion, ToSnip, NewItem;
    ToSnipFields(s, kind, mark);
    ToSnipRegion(s, kind, mark);
    SameRegion(s, Readied(s, kind, mark), mark, false);
  }

  lemma SnipStep(c: Config, s: State, kind: Kind, mark: Option<Pos>)
    requires ValidState(s) && (mark.Some? ==> ValidPos(s.lines, mark.value))
    requires IsCuttable(c, s, s.cutFromCursor && mark.None?, mark)
    ensures |Snip(c, Readied(s, CUT, mark), mark, false, false).stack| > 0
    ensures CutText(c, s, mark) == UpdateCut(c, Snip(c, Readied(s, CUT, mark), mark, false, false))
    ensures |Snip(c, Readied(s, ZAP, mark), mark, false, true).stack| > 0
    ensures ZapText(c, s, mark) ==
            UpdateCut(c, Snip(c, Readied(s, ZAP, mark), mark, false, true)).(cutbuffer := s.cutbuffer)
  {
    hide AddUndo, Snip, UpdateCut, IsCuttable;
  }

  /** A cut takes its region out and gathers it. */
  lemma CutTakes(c: Config, s: State, mark: Option<Pos>)
    requires ValidState(s) && (mark.Some? ==> ValidPos(s.lines, mark.value) && !s.keep)
    requires IsCuttable(c, s, s.cutFromCursor && mark.None?, mark)
    ensures var (p, q) := SnipRegion(s, mark, false);
            var s' := CutText(c, s, mark);
            && p != q && TookOut(c, s, s', p, q)
            && s'.cutbuffer == Some(Onto(Gathered(s, CUT, mark), Segment(s.lines, p, q)))
            && s'.keep == mark.None? && s'.last == CUT && |s'.stack| > 0 && s'.applied <= |s'.stack|
  {
    hide SnipRegion, IsCuttable, Segment, Head, Rest, Join, Characters, WithMagic, CutText, Readied, Snip, UpdateCut,
      Gathered, CutNoted;
    CuttableRegion(c, s, mark);
    var s1 := Readied(s, CUT, mark);
    ReadiedIs(s, CUT, mark);
    SnipStep(c, s, CUT, mark);
    SnipFields(c, s1, mark, false, false);
    NotedKeeps(c, Snip(c, s1, mark, false, false));
  }

  /** A zap takes the same region out; it leaves the cutbuffer alone and gathers in its
      undo item. */
  lemma ZapTakes(c: Config, s: State, mark: Option<Pos>)
    requires ValidState(s) && (mark.Some? ==> ValidPos(s.lines, mark.value) && !s.keep)
    requires IsCuttable(c, s, s.cutFromCursor && mark.None?, mark)
    ensures var (p, q) := SnipRegion(s, mark, false);
            var s' := ZapText(c, s, mark);
            && p != q && TookOut(c, s, s', p, q) && s'.cutbuffer == s.cutbuffer
            && |s'.stack| > 0 && Top(s').cut == Some(Onto(Gathered(s, ZAP, mark), Segment(s.lines, p, q)))
            && s'.keep == mark.None? && s'.last == ZAP
  {
    hide SnipRegion, IsCuttable, Segment, Head, Rest, Join, Characters, WithMagic, ZapText, Readied, Snip, UpdateCut,
      Gathered, CutNoted;
    CuttableRegion(c, s, mark);
    var s1 := Readied(s, ZAP, mark);
    ReadiedIs(s, ZAP, mark);
    SnipStep(c, s, ZAP, mark);
    SnipFields(c, s1, mark, false, true);
    var s2 := Snip(c, s1, mark, false, true);
    UpdateCutFields(c, s2);
    CutNotedBasics(c, s2, Top(s2).(newsize := s2.size), s2.cutbuffer.value);
  }

  // ----- Said row by row -------------------------------------------------------------------

  /** What a cut and a zap leave alike: the text, the cursor and what was taken. */
  predicate Takes(c: Config, s: State, mark: Option<Pos>, t: Text, at: Pos, taken: Text)
    requires ValidState(s) && (mark.Some? ==> ValidPos(s.lines, mark.value))
  {
    var (a, b) := (CutText(c, s, mark), ZapText(c, s, mark));
    && a.lines == b.lines == t && Cursor(a) == Cursor(b) == at
    && a.cutbuffer == Some(Onto(Gathered(s, CUT, mark), taken))
    && b.cutbuffer == s.cutbuffer && |b.stack| > 0 && Top(b).cut == Some(Onto(Gathered(s, ZAP, mark), taken))
  }

  lemma TakesRegion(c: Config, s: State, mark: Option<Pos>)
    requires ValidState(s) && (mark.Some? ==> ValidPos(s.lines, mark.value) && !s.keep)
    requires IsCuttable(c, s, s.cutFromCursor && mark.None?, mark)
    ensures var (p, q) := SnipRegion(s, mark, false);
            p != q && Takes(c, s, mark, Extracted(c.noNewlines, s.lines, p, q), p, Segment(s.lines, p, q))
  {
    hide SnipRegion, IsCuttable, Segment, Head, Rest, Join, WithMagic, CutText, ZapText, Gathered;
    CutTakes(c, s, mark);
    ZapTakes(c, s, mark);
  }

  /** Cutting from the cursor inside a line takes the rest of that line only. */
  lemma CutRestOfLine(c: Config, s: State)
    requires ValidState(s) && Finished(c.noNewlines, s.lines) && s.cutFromCursor && s.x < |s.lines[s.row]|
    ensures var line := s.lines[s.row];
            Takes(c, s, None, s.lines[s.row := line[..s.x]], Cursor(s), [line[s.x..]])
  {
    hide Takes, Segment, Extracted, Finished;
    TakesRegion(c, s, None);
    RestTaken(c.noNewlines, s.lines, s.row, s.x);
  }

  lemma RestTaken(n: bool, t: Text, row: nat, x: nat)
    requires row < |t| && x < |t[row]| && Finished(n, t)
    ensures var (p, q) := (Pos(row, x), Pos(row, |t[row]|));
            && Segment(t, p, q) == [t[row][x..]]
            && Extracted(n, t, p, q) == t[row := t[row][..x]]
  {
    assert t[row][x..|t[row]|] == t[row][x..] && t[row][..x] + t[row][|t[row]|..] == t[row][..x];
    assert Join(Head(t, Pos(row, x)), Rest(t, Pos(row, |t[row]|))) == t[row := t[row][..x]];
  }

  /** At the end of a line that is not the last it takes the newline only: the next line
      joins.  Not before the magic line, unless the line is empty. */
  lemma CutNewline(c: Config, s: State)
    requires ValidState(s) && Finished(c.noNewlines, s.lines) && s.cutFromCursor
    requires s.x == |s.lines[s.row]| && s.row < |s.lines| - 1
    requires s.x == 0 || c.noNewlines || s.row + 1 < |s.lines| - 1
    ensures var t: Text := s.lines[..s.row] + [s.lines[s.row] + s.lines[s.row + 1]] + s.lines[s.row + 2..];
            Takes(c, s, None, t, Cursor(s), [[], []])
  {
    hide Takes, Segment, Extracted, Finished;
    TakesRegion(c, s, None);
    NewlineTaken(c.noNewlines, s.lines, s.row);
  }

  lemma NewlineTaken(n: bool, t: Text, row: nat)
    requires row + 1 < |t| && Finished(n, t) && (t[row] == [] || n || row + 1 < |t| - 1)
    ensures var (p, q) := (Pos(row, |t[row]|), Pos(row + 1, 0));
            && Segment(t, p, q) == [[], []]
            && Extracted(n, t, p, q) == t[..row] + [t[row] + t[row + 1]] + t[row + 2..]
  {
    assert t[row][|t[row]|..] == [] && t[row + 1][..0] == [] && t[row + 1][0..] == t[row + 1];
    assert t[row][..|t[row]|] == t[row] && t[row + 1..row + 1] == [];
    assert t[row + 1..][1..] == t[row + 2..];
    assert row + 1 == |t| - 1 ==> t[row] + t[row + 1] == if t[row] == [] then t[row + 1] else t[row] + t[row + 1];
  }

  /** And elsewhere it does nothing: at the end of the file and before the magic line. */
  lemma CutNothing(c: Config, s: State)
    requires ValidState(s) && s.cutFromCursor && s.x == |s.lines[s.row]|
    requires s.row == |s.lines| - 1 || (s.x > 0 && !c.noNewlines && s.row + 1 == |s.lines| - 1)
    ensures CutText(c, s, None) == s && ZapText(c, s, None) == s
  {
    NotCut(c, s, None);
  }

  /** With a mark, what is between the mark and the cursor is taken, whichever is first;
      the cursor goes to where that was. */
  lemma CutMarked(c: Config, s: State, mark: Pos)
    requires ValidState(s) && ValidPos(s.lines, mark) && !s.keep
    ensures mark == Cursor(s) ==> CutText(c, s, Some(mark)) == s && ZapText(c, s, Some(mark)) == s
    ensures mark != Cursor(s) && Before(mark, Cursor(s)) ==>
              Takes(c, s, Some(mark), WithMagic(c.noNewlines, Join(Head(s.lines, mark), Rest(s.lines, Cursor(s)))),
                    mark, Segment(s.lines, mark, Cursor(s)))
    ensures mark != Cursor(s) && Before(Cursor(s), mark) ==>
              Takes(c, s, Some(mark), WithMagic(c.noNewlines, Join(Head(s.lines, Cursor(s)), Rest(s.lines, mark))),
                    Cursor(s), Segment(s.lines, Cursor(s), mark))
  {
    hide Takes, Segment, Head, Rest, Join, WithMagic, CutText, ZapText;
    if mark == Cursor(s) {
      NotCut(c, s, Some(mark));
    } else {
      TakesRegion(c, s, Some(mark));
    }
  }

  /** Cutting to the end of the file leaves what is before the cursor, and a magic line
      where that is needed; all the rest is in the cutbuffer.  At the end of the file and
      before the magic line it does nothing. */
  lemma CutToEndTakes(c: Config, s: State)
    requires ValidState(s)
    ensures var (s', last) := (CutTillEof(c, s), |s.lines| - 1);
            if s.x == |s.lines[s.row]| && (s.row == last || (s.x > 0 && !c.noNewlines && s.row + 1 == last)) then
              s' == s
            else
              && s'.lines == WithMagic(c.noNewlines, Head(s.lines, Cursor(s))) && Cursor(s') == Cursor(s)
              && s'.cutbuffer == Some(Rest(s.lines, Cursor(s)))
  {
    hide Segment, Head, Rest, Join, WithMagic, FirstCut, CutTillEof, ValidState, End;
    var (t, p) := (s.lines, Cursor(s));
    FirstCutIs(c, s, None);
    RegionToEnd(s);
    if p != End(t) {
      FirstCutFields(c, s, CUT_TO_EOF, None);
      hide SnipRegion;
      AllToEnd(t, p);
      JoinUnit(Head(t, p));
    }
  }

  lemma RegionToEnd(s: State)
    requires ValidState(s)
    ensures SnipRegion(s, None, true) == (Cursor(s), End(s.lines)) && ValidPos(s.lines, Cursor(s))
    ensures Cursor(s) == End(s.lines) <==> s.x == |s.lines[s.row]| && s.row == |s.lines| - 1
  {
  }

  lemma AllToEnd(t: Text, p: Pos)
    requires ValidPos(t, p)
    ensures Before(p, End(t)) && Segment(t, p, End(t)) == Rest(t, p) && Rest(t, End(t)) == EMPTY
  {
    var l := Last(t);
    assert l[|l|..] == [] && l[..|l|] == l;
    if p.row < |t| - 1 {
      assert t[p.row + 1..|t| - 1] + [l] == t[p.row + 1..];
    } else {
      assert l[p.x..|l|] == l[p.x..];
    }
  }

  // ----- Any number of cuts and copies from the cursor ------------------------------------------

  /** Where one more cut or copy from q on gets to: the end of the line, or the start of
      the next; not beyond the bound. */
  function NextStop(t: Text, q: Pos, bound: Pos): Pos {
    if q == bound || q.row >= |t| then q
    else if q.x < |t[q.row]| then Pos(q.row, |t[q.row]|)
    else Pos(q.row + 1, 0)
  }

  function Stops(t: Text, q: Pos, bound: Pos, k: nat): Pos
    decreases k
  {
    if k == 0 then q else Stops(t, NextStop(t, q, bound), bound, k - 1)
  }

  /** Cuts from inside or behind a line stop before the magic line; all others, and
      copies, only at the end of the text. */
  function Bound(c: Config, t: Text, p: Pos): Pos {
    if p.x > 0 && !c.noNewlines && |t| > 1 then Pos(|t| - 2, |t[|t| - 2]|) else End(t)
  }

  /** All between p and q is cut from t, behind what was gathered before. */
  predicate CutSoFar(c: Config, s: State, t: Text, p: Pos, q: Pos, prior: Option<Text>)
    requires ValidState(s)
  {
    && ValidPos(t, p) && ValidPos(t, q) && Before(p, q) && Before(q, Bound(c, t, p))
    && s.cutFromCursor && Cursor(s) == p && s.lines == Join(Head(t, p), Rest(t, q))
    && Gathered(s, CUT, None) == (if p == q then prior else Some(Onto(prior, Segment(t, p, q))))
    && (p != q ==> s.cutbuffer == Gathered(s, CUT, None))
  }

  /** The row of the cursor and the rows below it, once all up to q is cut. */
  lemma RowsSoFar(t: Text, p: Pos, q: Pos)
    requires ValidPos(t, p) && ValidPos(t, q) && Before(p, q)
    ensures var u := Join(Head(t, p), Rest(t, q));
            && |u| == p.row + |t| - q.row
            && u[..p.row] == t[..p.row] && u[p.row] == t[p.row][..p.x] + t[q.row][q.x..]
            && u[p.row + 1..] == t[q.row + 1..]
            && u[p.row][p.x..] == t[q.row][q.x..] && u[p.row][..p.x] == t[p.row][..p.x]
  {
  }

  /** What is taken next comes behind what is taken so far. */
  lemma TakenOn(t: Text, p: Pos, q: Pos, next: Pos, prior: Option<Text>)
    requires ValidPos(t, p) && ValidPos(t, q) && ValidPos(t, next) && Before(p, q) && Before(q, next)
    ensures Before(p, next)
    ensures Onto(if p == q then prior else Some(Onto(prior, Segment(t, p, q))), Segment(t, q, next)) ==
            Onto(prior, Segment(t, p, next))
  {
    SplitRegion(t, p, q);
    SplitRegion(t, p, next);
    SplitRegion(t, q, next);
    SegmentsJoin(t, p, q, next);
    hide Join, Head, Rest, Segment;
    if prior.Some? {
      JoinAssociative(prior.value, Segment(t, p, q), Segment(t, q, next));
    }
  }

  lemma SegmentsJoin(t: Text, p: Pos, q: Pos, next: Pos)
    requires ValidPos(t, p) && ValidPos(t, q) && ValidPos(t, next) && Before(p, q) && Before(q, next)
    ensures Before(p, next) && Join(Segment(t, p, q), Segment(t, q, next)) == Segment(t, p, next)
  {
    var (h, v) := (Head(t, next), Pos(q.row - p.row, if p.row == q.row then q.x - p.x else q.x));
    if p.row == q.row {
      assert t[q.row][p.x..q.x] + t[q.row][q.x..] == t[q.row][p.x..];
      if q.row == next.row {
        assert t[q.row][p.x..q.x] + t[q.row][q.x..next.x] == t[q.row][p.x..next.x];
      }
    } else if q.row == next.row {
      assert t[q.row][..q.x] + t[q.row][q.x..next.x] == t[q.row][..next.x];
    } else {
      assert t[q.row][..q.x] + t[q.row][q.x..] == t[q.row];
      assert t[p.row + 1..next.row] == t[p.row + 1..q.row] + [t[q.row]] + t[q.row + 1..next.row];
    }
  }

  lemma CutStep(c: Config, s: State, t: Text, p: Pos, q: Pos, next: Pos, prior: Option<Text>)
    requires ValidState(s) && CutSoFar(c, s, t, p, q, prior)
    requires IsCuttable(c, s, true, None)
    requires ValidPos(t, next) && Before(q, next) && q != next && Before(next, Bound(c, t, p))
    requires CutText(c, s, None).lines == Join(Head(t, p), Rest(t, next)) && Cursor(CutText(c, s, None)) == p
    requires CutText(c, s, None).cutbuffer == Some(Onto(Gathered(s, CUT, None), Segment(t, q, next)))
    ensures var s' := CutText(c, s, None); ValidState(s') && CutSoFar(c, s', t, p, next, prior)
  {
    hide CutText, SnipRegion, Segment, Onto, Join, Head, Rest, IsCuttable, Bound;
    CutTakes(c, s, None);
    TakenOn(t, p, q, next, prior);
    RowsSoFar(t, p, next);
  }

  /** A text is its rows. */
  lemma Rows(t: Text, r: nat)
    requires r < |t|
    ensures t == t[..r] + [t[r]] + t[r + 1..]
  {
  }

  lemma RestSoFar(t: Text, p: Pos, q: Pos)
    requires ValidPos(t, p) && ValidPos(t, q) && Before(p, q) && q.x < |t[q.row]|
    ensures var (u, next) := (Join(Head(t, p), Rest(t, q)), Pos(q.row, |t[q.row]|));
            && p.row < |u| && p.x < |u[p.row]|
            && u[p.row := u[p.row][..p.x]] == Join(Head(t, p), Rest(t, next))
            && Segment(t, q, next) == [u[p.row][p.x..]]
  {
    WholeRest(t[q.row], q.x, t[p.row][..p.x]);
    RowsSoFar(t, p, q);
    RowsSoFar(t, p, Pos(q.row, |t[q.row]|));
    var (u, v) := (Join(Head(t, p), Rest(t, q)), Join(Head(t, p), Rest(t, Pos(q.row, |t[q.row]|))));
    hide Join, Head, Rest;
    assert v[p.row] == u[p.row][..p.x];
    assert Segment(t, q, Pos(q.row, |t[q.row]|)) == [u[p.row][p.x..]];
    hide Segment;
    SameButRow(u, v, p.row);
  }

  lemma WholeRest(l: Line, x: nat, a: Line)
    requires x <= |l|
    ensures l[x..|l|] == l[x..] && a + l[|l|..] == a
  {
  }

  lemma SameButRow(u: Text, v: Text, r: nat)
    requires r < |u| && r < |v| && u[..r] == v[..r] && u[r + 1..] == v[r + 1..]
    ensures u[r := v[r]] == v
  {
    Rows(v, r);
    Rows(u[r := v[r]], r);
  }

  lemma NewlineSoFar(t: Text, p: Pos, q: Pos)
    requires ValidPos(t, p) && ValidPos(t, q) && Before(p, q) && q.x == |t[q.row]| && q.row + 1 < |t|
    ensures var (u, next) := (Join(Head(t, p), Rest(t, q)), Pos(q.row + 1, 0));
            && p.row + 1 < |u| && |u[p.row]| == p.x
            && u[..p.row] + [u[p.row] + u[p.row + 1]] + u[p.row + 2..] == Join(Head(t, p), Rest(t, next))
            && Segment(t, q, next) == [[], []]
  {
    var (u, v) := (Join(Head(t, p), Rest(t, q)), Join(Head(t, p), Rest(t, Pos(q.row + 1, 0))));
    RowsSoFar(t, p, q);
    RowsSoFar(t, p, Pos(q.row + 1, 0));
    hide Join, Head, Rest;
    assert t[q.row][q.x..] == [] && t[q.row + 1..q.row + 1] == [] && t[q.row + 1][..0] == [];
    RowBelow(u, p.row, t, q.row);
    assert v[p.row] == u[p.row] + u[p.row + 1];
    Rows(v, p.row);
  }

  lemma RowBelow(u: Text, i: nat, t: Text, j: nat)
    requires i + 1 < |u| && j + 1 < |t| && u[i + 1..] == t[j + 1..]
    ensures u[i + 1] == t[j + 1] && u[i + 2..] == t[j + 2..]
  {
    assert u[i + 1..][0] == t[j + 1..][0];
    assert u[i + 1..][1..] == u[i + 2..] && t[j + 1..][1..] == t[j + 2..];
  }

  lemma BoundIsEnd(c: Config, t: Text, p: Pos, q: Pos)
    requires ValidPos(t, p) && ValidPos(t, q) && Before(p, q) && Before(q, Bound(c, t, p))
    ensures q == Bound(c, t, p) <==> q.x == |t[q.row]| &&
                                     (q.row == |t| - 1 || (p.x > 0 && !c.noNewlines && q.row + 1 == |t| - 1))
    ensures q != Bound(c, t, p) && q.x < |t[q.row]| ==> Before(Pos(q.row, |t[q.row]|), Bound(c, t, p))
    ensures q != Bound(c, t, p) && q.x == |t[q.row]| ==> Before(Pos(q.row + 1, 0), Bound(c, t, p))
  {
  }

  lemma SoFar(c: Config, s: State, t: Text, p: Pos, q: Pos, prior: Option<Text>)
    requires ValidState(s) && Finished(c.noNewlines, t) && CutSoFar(c, s, t, p, q, prior)
    ensures ValidPos(t, p) && ValidPos(t, q) && Before(p, q) && Before(q, Bound(c, t, p))
    ensures s.cutFromCursor && Cursor(s) == p == Pos(s.row, s.x) && s.lines == Join(Head(t, p), Rest(t, q))
    ensures |s.lines| - 1 - s.row == |t| - 1 - q.row && Finished(c.noNewlines, s.lines)
    ensures |s.lines[s.row]| == s.x + |t[q.row]| - q.x
  {
    RowsSoFar(t, p, q);
  }

  lemma RestOn(c: Config, s: State, t: Text, p: Pos, q: Pos, prior: Option<Text>)
    requires ValidState(s) && Finished(c.noNewlines, t) && CutSoFar(c, s, t, p, q, prior)
    requires q != Bound(c, t, p) && q.x < |t[q.row]|
    ensures var s' := CutText(c, s, None);
            ValidState(s') && CutSoFar(c, s', t, p, Pos(q.row, |t[q.row]|), prior)
  {
    hide CutText, CutSoFar, Segment, Gathered, Onto, Join, Head, Rest, Bound, Finished, IsCuttable, ValidState;
    SoFar(c, s, t, p, q, prior);
    BoundIsEnd(c, t, p, q);
    IsMore(c, s);
    RestSoFar(t, p, q);
    CutRestOfLine(c, s);
    CutStep(c, s, t, p, q, Pos(q.row, |t[q.row]|), prior);
  }

  lemma NewlineOn(c: Config, s: State, t: Text, p: Pos, q: Pos, prior: Option<Text>)
    requires ValidState(s) && Finished(c.noNewlines, t) && CutSoFar(c, s, t, p, q, prior)
    requires q != Bound(c, t, p) && q.x == |t[q.row]|
    ensures var s' := CutText(c, s, None);
            ValidState(s') && CutSoFar(c, s', t, p, Pos(q.row + 1, 0), prior)
  {
    hide CutText, CutSoFar, Segment, Gathered, Onto, Join, Head, Rest, Bound, Finished, IsCuttable, ValidState;
    SoFar(c, s, t, p, q, prior);
    BoundIsEnd(c, t, p, q);
    IsMore(c, s);
    NewlineSoFar(t, p, q);
    CutNewline(c, s);
    CutStep(c, s, t, p, q, Pos(q.row + 1, 0), prior);
  }

  /** One more cut takes what is up to the next stop. */
  lemma CutToStop(c: Config, s: State, t: Text, p: Pos, q: Pos, prior: Option<Text>)
    requires ValidState(s) && Finished(c.noNewlines, t) && CutSoFar(c, s, t, p, q, prior)
    ensures var s' := CutText(c, s, None);
            && ValidState(s') && CutSoFar(c, s', t, p, NextStop(t, q, Bound(c, t, p)), prior)
            && (q == Bound(c, t, p) ==> s' == s)
  {
    hide CutText, CutSoFar, Bound, Finished, ValidState;
    SoFar(c, s, t, p, q, prior);
    BoundIsEnd(c, t, p, q);
    if q == Bound(c, t, p) {
      CutNothing(c, s);
    } else if q.x < |t[q.row]| {
      RestOn(c, s, t, p, q, prior);
    } else {
      NewlineOn(c, s, t, p, q, prior);
    }
  }

  lemma IsMore(c: Config, s: State)
    requires ValidState(s)
    requires !(s.x == |s.lines[s.row]| &&
               (s.row == |s.lines| - 1 || (s.x > 0 && !c.noNewlines && s.row + 1 == |s.lines| - 1)))
    ensures IsCuttable(c, s, true, None)
  {
  }

  lemma {:induction false} CutsToStop(c: Config, s: State, t: Text, p: Pos, q: Pos, prior: Option<Text>, k: nat)
    requires ValidState(s) && Finished(c.noNewlines, t) && CutSoFar(c, s, t, p, q, prior)
    ensures var s' := CutTimes(c, s, k);
            && ValidState(s') && CutSoFar(c, s', t, p, Stops(t, q, Bound(c, t, p), k), prior)
    decreases k
  {
    hide CutText, CutSoFar, Bound, Finished;
    if k > 0 {
      CutToStop(c, s, t, p, q, prior);
      CutsToStop(c, CutText(c, s, None), t, p, NextStop(t, q, Bound(c, t, p)), prior, k - 1);
    }
  }

  /** Cutting k times from the cursor takes what is between the cursor and the k-th stop:
      the rest of the line, its newline, the next line, and so on. */
  lemma CutsFromCursor(c: Config, s: State, k: nat)
    requires ValidState(s) && Finished(c.noNewlines, s.lines) && s.cutFromCursor
    ensures var (t, p, s') := (s.lines, Cursor(s), CutTimes(c, s, k));
            var q := Stops(t, p, Bound(c, t, p), k);
            && ValidPos(t, q) && Before(p, q)
            && s'.lines == Join(Head(t, p), Rest(t, q)) && Cursor(s') == p
            && (p != q ==> s'.cutbuffer == Some(Onto(Gathered(s, CUT, None), Segment(t, p, q))))
  {
    var (t, p) := (s.lines, Cursor(s));
    SplitAt(t, p);
    hide Join, Head, Rest, Segment, CutTimes, Stops;
    assert CutSoFar(c, s, t, p, p, Gathered(s, CUT, None));
    CutsToStop(c, s, t, p, p, Gathered(s, CUT, None), k);
  }

  /** All cuts after the first go into its undo item. */
  lemma CutsAreOneItem(c: Config, s: State, k: nat)
    requires ValidState(s) && k > 0
    ensures CutTimes(c, s, k).nextId == CutText(c, s, None).nextId
    ensures CutText(c, s, None) == s || CutText(c, s, None).nextId <= s.nextId + 1
  {
    hide CutText;
    FirstOfCuts(c, s);
    var s1 := CutText(c, s, None);
    if s1 == s {
      StillNothing(c, s, k);
    } else if ValidState(s1) {
      FurtherCuts(c, s1, k - 1);
    }
  }

  lemma {:induction false} StillNothing(c: Config, s: State, k: nat)
    requires ValidState(s) && CutText(c, s, None) == s
    ensures CutTimes(c, s, k) == s
    decreases k
  {
    if k > 0 {
      StillNothing(c, s, k - 1);
    }
  }

  lemma {:induction false} FurtherCuts(c: Config, s: State, k: nat)
    requires ValidState(s) && s.last == CUT && s.keep && |s.stack| > 0
    ensures CutTimes(c, s, k).nextId == s.nextId
    decreases k
  {
    hide CutText;
    if k > 0 {
      FirstOfCuts(c, s);
      var s1 := CutText(c, s, None);
      if ValidState(s1) {
        FurtherCuts(c, s1, k - 1);
      }
    }
  }

  lemma FirstOfCuts(c: Config, s: State)
    requires ValidState(s)
    ensures var s1 := CutText(c, s, None);
            s1 == s || (s1.last == CUT && s1.keep && |s1.stack| > 0 &&
                        s1.nextId == s.nextId + if s.last == CUT && s.keep && |s.stack| > 0 then 0 else 1)
  {
    if IsCuttable(c, s, s.cutFromCursor, None) {
      hide SnipRegion, IsCuttable, Segment, Head, Rest, Join, Characters, Extracted, CutText, ToSnip, Snip, UpdateCut,
        CutNoted, NewItem;
      CuttableRegion(c, s, None);
      var s1 := Readied(s, CUT, None);
      ReadiedIs(s, CUT, None);
      ToSnipFields(s, CUT, None);
      SnipStep(c, s, CUT, None);
      SnipFields(c, s1, None, false, false);
      NotedKeeps(c, Snip(c, s1, None, false, false));
    } else {
      NotCut(c, s, None);
    }
  }

  /** All up to q is copied from t, where the copying began at p. */
  predicate CopiedSoFar(s: State, t: Text, p: Pos, q: Pos)
    requires ValidState(s)
  {
    && ValidPos(t, p) && ValidPos(t, q) && Before(p, q) && s.cutFromCursor && Cursor(s) == q && s.lines == t
    && (p != q ==> q.x == 0 || q.x == |t[q.row]|)
    && CopyPrior(s) == (if p == q then None else Some(Segment(t, p, q)))
    && (p != q ==> s.cutbuffer == CopyPrior(s))
  }

  /** One copy from the cursor. */
  lemma CopyRest(c: Config, s: State)
    requires ValidState(s) && s.cutFromCursor
    ensures var (s', line, was) := (CopyText(c, s, None), s.lines[s.row], CopyPrior(s));
            && s'.lines == s.lines && s'.stack == s.stack && s'.applied == s.applied && s'.cutFromCursor
            && if Cursor(s) == End(s.lines) then s' == s.(cutbuffer := was, keep := was.Some? || s'.keep)
               else
                 && s'.keep && s'.last == COPY
                 && Cursor(s') == NextStop(s.lines, Cursor(s), End(s.lines))
                 && s'.cutbuffer == Some(
                      if s.x == |line| then (if was.None? then [[], []] else was.value + [[]])
                      else if was.None? then [line[s.x..]]
                      else was.value[..|was.value| - 1] + [line[s.x..]])
  {
    var line := s.lines[s.row];
    assert s.x == |line| ==> line[s.x..] == [];
  }

  lemma CopyToStop(c: Config, s: State, t: Text, p: Pos, q: Pos)
    requires ValidState(s) && CopiedSoFar(s, t, p, q)
    ensures var s' := CopyText(c, s, None);
            && ValidState(s') && CopiedSoFar(s', t, p, NextStop(t, q, End(t))) && s'.stack == s.stack
  {
    hide Segment, CopyText;
    CopyRest(c, s);
    if q != End(t) {
      CopiedOn(t, p, q, NextStop(t, q, End(t)));
    }
  }

  /** How a copy goes on: it replaces the last line, or adds an empty one. */
  lemma CopiedOn(t: Text, p: Pos, q: Pos, next: Pos)
    requires ValidPos(t, p) && ValidPos(t, q) && Before(p, q) && q != End(t) && next == NextStop(t, q, End(t))
    requires p != q ==> q.x == 0 || q.x == |t[q.row]|
    ensures ValidPos(t, next) && Before(p, next) && p != next
    ensures var (line, was) := (t[q.row], Segment(t, p, q));
            Segment(t, p, next) ==
            if q.x == |line| then (if p == q then [[], []] else was + [[]])
            else if p == q then [line[q.x..]]
            else was[..|was| - 1] + [line[q.x..]]
  {
    var line := t[q.row];
    if q.x == |line| {
      assert t[q.row + 1][..0] == [];
      if p.row == q.row {
        assert line[p.x..|line|] == line[p.x..] && t[p.row + 1..q.row + 1] == [];
      } else {
        assert line[..|line|] == line && t[p.row + 1..q.row + 1] == t[p.row + 1..q.row] + [line];
      }
    } else {
      assert line[q.x..|line|] == line[q.x..];
      if p.row < q.row {
        assert line[..|line|] == line == line[0..];
      }
    }
  }

  lemma {:induction false} CopiesToStop(c: Config, s: State, t: Text, p: Pos, q: Pos, k: nat)
    requires ValidState(s) && CopiedSoFar(s, t, p, q)
    ensures var s' := CopyTimes(c, s, k);
            ValidState(s') && CopiedSoFar(s', t, p, Stops(t, q, End(t), k)) && s'.stack == s.stack
    decreases k
  {
    hide CopyText, CopiedSoFar;
    if k > 0 {
      CopyToStop(c, s, t, p, q);
      CopiesToStop(c, CopyText(c, s, None), t, p, NextStop(t, q, End(t)), k - 1);
    }
  }

  /** Copying k times from the cursor gathers the same, goes along to the stops, and
      leaves the text alone. */
  lemma CopiesFromCursor(c: Config, s: State, k: nat)
    requires ValidState(s) && s.cutFromCursor && CopyPrior(s).None?
    ensures var (t, p, s') := (s.lines, Cursor(s), CopyTimes(c, s, k));
            var q := Stops(t, p, End(t), k);
            && ValidPos(t, q) && Before(p, q) && s'.lines == t && s'.stack == s.stack && Cursor(s') == q
            && (p != q ==> s'.cutbuffer == Some(Segment(t, p, q)))
  {
    hide CopyTimes, Segment, Stops;
    CopiesToStop(c, s, s.lines, Cursor(s), Cursor(s), k);
  }

  /** Copying a marked region puts it into the cutbuffer, and changes nothing else. */
  lemma CopyMarked(c: Config, s: State, mark: Pos)
    requires ValidState(s) && ValidPos(s.lines, mark)
    ensures var s' := CopyText(c, s, Some(mark));
            && s'.lines == s.lines && s'.stack == s.stack && Cursor(s') == Cursor(s)
            && (mark == Cursor(s) ==> s'.cutbuffer == None)
            && (mark != Cursor(s) && Before(mark, Cursor(s)) ==>
                s'.cutbuffer == Some(Segment(s.lines, mark, Cursor(s))))
            && (mark != Cursor(s) && Before(Cursor(s), mark) ==>
                s'.cutbuffer == Some(Segment(s.lines, Cursor(s), mark)))
  {
  }
}

/** The loop of do_replace_loop on the linked buffer, with an undo item for every
    replacement. */
module ReplaceAll {
  import opened Chars
  import opened Lines
  import EM = EditModel
  import opened Search
  import opened Replacing
  import opened Editor
  import opened Options

  /** Undoing n times gives the text. */
  predicate GivesBack(c: EM.Config, s: EM.State, n: nat, t: Text)
    decreases n
  {
    if n == 0 then s.lines == t else EM.CanDoUndo(c, s) && GivesBack(c, EM.DoUndo(c, s), n - 1, t)
  }

  /** The same text and the same items to undo. */
  predicate SameBehind(s: EM.State, s': EM.State) {
    && s'.lines == s.lines && s'.applied == s.applied <= |s.stack| && s'.applied <= |s'.stack|
    && forall k | 0 <= k < s.applied :: s'.stack[k] == s.stack[k]
  }

  lemma {:induction false} BehindGivesBack(c: EM.Config, s: EM.State, s': EM.State, n: nat, t: Text)
    requires GivesBack(c, s, n, t) && SameBehind(s, s')
    ensures GivesBack(c, s', n, t)
    decreases n
  {
    hide EM.CanUndo, EM.UndoItem;
    if n > 0 {
      BehindGivesBack(c, EM.DoUndo(c, s), EM.DoUndo(c, s'), n - 1, t);
    }
  }

  /** A replacement, undone, leaves the text and the items that were there before. */
  lemma UndoneReplacement(c: EM.Config, s: EM.State, len: nat, answer: Line)
    requires EM.ValidState(s) && s.x + len <= |s.lines[s.row]| && s.applied <= |s.stack|
    ensures var s' := EM.Replace(s, len, answer);
            EM.CanDoUndo(c, s') && SameBehind(s, EM.DoUndo(c, s'))
  {
    var line := s.lines[s.row];
    var altered := line[..s.x] + answer + line[s.x + len..];
    assert s.lines[s.row := altered][s.row := line] == s.lines;
  }

  lemma ReplacedGivesBack(c: EM.Config, s: EM.State, len: nat, answer: Line, n: nat, t: Text)
    requires EM.ValidState(s) && s.x + len <= |s.lines[s.row]| && s.applied <= |s.stack| && GivesBack(c, s, n, t)
    ensures GivesBack(c, EM.Replace(s, len, answer), n + 1, t)
  {
    hide EM.Replace, EM.DoUndo, EM.CanDoUndo;
    UndoneReplacement(c, s, len, answer);
    BehindGivesBack(c, s, EM.DoUndo(c, EM.Replace(s, len, answer)), n, t);
  }

  /** What one replacement does to the state. */
  lemma ReplaceIs(s: EM.State, needle: Line, answer: Line)
    requires EM.ValidState(s) && s.x + |needle| <= |s.lines[s.row]|
    ensures var s' := EM.Replace(s, |needle|, answer);
            && s'.lines == s.lines[s.row := ReplacedLine(s.lines[s.row], s.x, needle, answer)]
            && s'.row == s.row && s'.x == s.x + |answer| && 0 < s'.applied == |s'.stack|
            && (s.applied <= |s.stack| ==> s'.applied == s.applied + 1)
  {
  }

  /** The cursor goes to what was found. */
  lemma Found(c: EM.Config, s: EM.State, p: Pos, needle: Line, n: nat, t: Text)
    requires p.row < |s.lines| && p.x + |needle| <= |s.lines[p.row]| && s.applied <= |s.stack|
    requires GivesBack(c, s, n, t)
    ensures var s' := s.(row := p.row, x := p.x);
            && EM.ValidState(s') && s'.x + |needle| <= |s'.lines[s'.row]| && s'.applied <= |s'.stack|
            && GivesBack(c, s', n, t)
  {
    BehindGivesBack(c, s, s.(row := p.row, x := p.x), n, t);
  }

  /** How far the replacing has come: the text, the number of replacements, and that
      as many items give the first text back. */
  predicate Underway(c: EM.Config, t: Text, s: EM.State, needle: Line, answer: Line, n: nat, applied: nat)
    requires |needle| > 0
  {
    && Progress(t, s.lines, s.row, s.x, needle, answer) && Counted(t, s.lines, s.row, s.x, needle, n)
    && s.applied == applied + n <= |s.stack| && GivesBack(c, s, n, t)
  }

  lemma Begin(c: EM.Config, s: EM.State, needle: Line, answer: Line)
    requires EM.ValidState(s) && s.row == 0 && s.x == 0 && |needle| > 0 && s.applied <= |s.stack|
    ensures Underway(c, s.lines, s, needle, answer, 0, s.applied)
  {
    Start(s.lines, needle, answer);
  }

  lemma InText(c: EM.Config, t: Text, s: EM.State, needle: Line, answer: Line, n: nat, applied: nat)
    requires |needle| > 0 && Underway(c, t, s, needle, answer, n, applied)
    ensures |s.lines| == |t| && s.row < |t| && s.x <= |s.lines[s.row]|
  {
  }

  /** What is left to do: the lines below, and the rest of the line. */
  function LinesLeft(t: Text, s: EM.State): int {
    |t| - s.row
  }

  function RestLeft(s: EM.State): int {
    if s.row < |s.lines| then |s.lines[s.row]| - s.x else 0
  }

  lemma NextOne(c: EM.Config, t: Text, s: EM.State, needle: Line, answer: Line, n: nat, applied: nat,
                p: Pos, circle: bool)
    requires |needle| > 0 && Underway(c, t, s, needle, answer, n, applied)
    requires Searched(s, needle, Some(p), circle)
    ensures !circle && p.row < |s.lines|
    ensures var s1 := s.(row := p.row, x := p.x);
            && EM.ValidState(s1) && s1.x + |needle| <= |s1.lines[s1.row]|
            && var s2 := EM.Replace(s1, |needle|, answer);
            && Underway(c, t, s2, needle, answer, n + 1, applied)
            && 0 <= LinesLeft(t, s2) && 0 <= RestLeft(s2)
            && (LinesLeft(t, s2) < LinesLeft(t, s)
                || (LinesLeft(t, s2) == LinesLeft(t, s) && RestLeft(s2) < RestLeft(s)))
  {
    hide Progress, Counted, GivesBack, EM.Replace, ReplacedLine, Searched;
    ProgressIn(t, s, needle, answer);
    FoundOrNot(t, s, needle, answer, n, Some(p), circle);
    Found(c, s, p, needle, n, t);
    var s1 := s.(row := p.row, x := p.x);
    ReplacedGivesBack(c, s1, |needle|, answer, n, t);
    ReplaceIs(s1, needle, answer);
  }

  lemma ProgressIn(t: Text, s: EM.State, needle: Line, answer: Line)
    requires |needle| > 0 && Progress(t, s.lines, s.row, s.x, needle, answer)
    ensures |s.lines| == |t| && s.row < |t| && s.x <= |s.lines[s.row]|
  {
  }

  lemma NoneLeft(c: EM.Config, t: Text, s: EM.State, needle: Line, answer: Line, n: nat, applied: nat, circle: bool)
    requires |needle| > 0 && Underway(c, t, s, needle, answer, n, applied)
    requires Searched(s, needle, None, circle)
    ensures |s.lines| == |t| && forall i | 0 <= i < |t| :: s.lines[i] == Substituted(t[i], needle, answer)
    ensures n == AllHits(t, needle) && s.applied == applied + n && GivesBack(c, s, n, t)
  {
    hide Progress, Counted, GivesBack, Searched;
    ProgressIn(t, s, needle, answer);
    FoundOrNot(t, s, needle, answer, n, None, circle);
  }

  /** What the search has found from the cursor on, forward, not skipping anything. */
  predicate Searched(s: EM.State, needle: Line, found: Option<Pos>, circle: bool) {
    && s.row < |s.lines| && s.x <= |s.lines[s.row]|
    && var turns := Turns(FORWARD, |s.lines|, s.row, 0);
       match found
       case None => forall i | 0 <= i < turns :: Scan(FORWARD, s.lines, needle, s.row, s.x, false, i) == None
       case Some(p) =>
         exists i | 0 <= i <= turns ::
           && (forall j | 0 <= j < i :: Scan(FORWARD, s.lines, needle, s.row, s.x, false, j) == None)
           && Scan(FORWARD, s.lines, needle, s.row, s.x, false, i) == Some(p.x)
           && p.row == RowAt(FORWARD, |s.lines|, s.row, i)
           && (i == turns ==> Within(FORWARD, p.x, 0)) && circle == (i == turns)
  }

  /** findnextstr, from the cursor on. */
  method FindNext(e: Editor, needle: Line) returns (found: Option<Pos>, circle: bool)
    requires e.Valid() && e.State().row < |e.State().lines| && |needle| > 0
    requires e.State().x <= |e.State().lines[e.State().row]|
    ensures Searched(e.State(), needle, found, circle)
  {
    hide Editor.State, Editor.Valid, Scan, Turns, RowAt, Within;
    e.Fields();
    var r := e.file.ReadLines();
    assert r == e.State().lines;
    var row, x := e.Where();
    found, circle := FindNextStr(FORWARD, r, needle, row, x, false, 0, 0, false);
  }

  /** What the search says: the replacing is done, or it goes on further ahead. */
  lemma FoundOrNot(t: Text, s: EM.State, needle: Line, answer: Line, n: nat, found: Option<Pos>, circle: bool)
    requires |needle| > 0
    requires Progress(t, s.lines, s.row, s.x, needle, answer) && Counted(t, s.lines, s.row, s.x, needle, n)
    requires Searched(s, needle, found, circle)
    ensures found.None? ==>
              && |s.lines| == |t| && (forall i | 0 <= i < |t| :: s.lines[i] == Substituted(t[i], needle, answer))
              && n == AllHits(t, needle)
    ensures found.Some? ==>
              var p := found.value;
              && !circle && s.row <= p.row < |t| == |s.lines| && p.x + |needle| <= |s.lines[p.row]|
              && var r: Text := s.lines[p.row := ReplacedLine(s.lines[p.row], p.x, needle, answer)];
              && p.x + |answer| <= |r[p.row]|
              && Progress(t, r, p.row, p.x + |answer|, needle, answer)
              && Counted(t, r, p.row, p.x + |answer|, needle, n + 1)
              && (p.row == s.row ==> |r[p.row]| - (p.x + |answer|) < |s.lines[s.row]| - s.x)
  {
    hide First, Occurs, Substituted, Hits, AllHits, Scan, Cat, Front, Back, RowAt, Hit, Counted;
    ProgressIn(t, s, needle, answer);
    if found.None? {
      Finish(t, s.lines, s.row, s.x, needle, answer, n);
    } else {
      GoOn(t, s.lines, s.row, s.x, needle, answer, found.value, n);
    }
  }

  /** do_replace_loop, begun at the first position, before which no replacement can
      lie that would move it.  It ends, even when the answer contains the needle,
      and every line has been rewritten by leftmost non-overlapping substitution.
      The number is None when nothing was found; undoing as many times gives the
      first text back. */
  method DoReplaceLoop(e: Editor, needle: Line, answer: Line) returns (numreplaced: Option<nat>)
    requires e.Valid() && EM.ValidState(e.State()) && e.State().row == 0 && e.State().x == 0 && |needle| > 0
    modifies e, e.file, e.file.nodes
    ensures e.Valid() && |e.State().lines| == |old(e.State().lines)|
    ensures forall i | 0 <= i < |old(e.State().lines)| ::
              e.State().lines[i] == Substituted(old(e.State().lines)[i], needle, answer)
    ensures var n := AllHits(old(e.State().lines), needle);
            && numreplaced == (if n == 0 then None else Some(n))
            && e.State().applied == old(e.State().applied) + n
            && GivesBack(e.c, e.State(), n, old(e.State().lines))
  {
    hide *;
    numreplaced := None;
    ghost var (t, applied) := (e.State().lines, e.State().applied);
    ghost var n: nat := 0;
    e.Fields();
    Begin(e.c, e.State(), needle, answer);
    while true
      invariant e.Valid() && e.file.nodes == old(e.file.nodes)
      invariant Underway(e.c, t, e.State(), needle, answer, n, applied)
      invariant numreplaced == if n == 0 then None else Some(n)
      decreases LinesLeft(t, e.State()), RestLeft(e.State())
    {
      ghost var s := e.State();
      InText(e.c, t, s, needle, answer, n, applied);
      var found, circle := FindNext(e, needle);
      if found.None? {
        NoneLeft(e.c, t, s, needle, answer, n, applied, circle);
        break;
      }
      NextOne(e.c, t, s, needle, answer, n, applied, found.value, circle);
      e.GoTo(found.value.row, found.value.x);
      e.ReplaceMatch(|needle|, answer);
      numreplaced := Some(if numreplaced.None? then 1 else numreplaced.value + 1);
      n := n + 1;
    }
  }
}

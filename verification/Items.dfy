/** For each kind of undo item: recorded with the right fields, it stands for the
    step from the text before the edit to the text after it. */
module Items {
  import opened Chars
  import opened Lines
  import opened EditModel
  import opened History
  import opened Options

  lemma AddApplied(m: Mode, i: Item, pre: Text, post: Text)
    requires i.kind == ADD && i.tailRow == i.headRow < |pre| && i.tailX == i.headX + |i.str|
    requires i.headX <= |pre[i.headRow]|
    requires i.includedLastLine <==> i.headRow == |pre| - 1
    requires post == pre[i.headRow := InsertIn(pre[i.headRow], i.headX, i.str)] +
                     if i.includedLastLine && !m.config.noNewlines then [[]] else []
    requires OkPos(m, pre, Pos(i.headRow, i.headX)) && OkPos(m, post, Pos(i.tailRow, i.tailX))
    ensures Applied(m, i, pre, post)
  {
    AddUndone(m.config.noNewlines, i, pre, post);
    AddRedone(m.config.noNewlines, i, pre, post);
    hide UndoItem, RedoItem, CanUndo, CanRedo, Boundary, InsertIn;
  }

  lemma AddUndone(n: bool, i: Item, pre: Text, post: Text)
    requires i.kind == ADD && i.tailRow == i.headRow < |pre| && i.headX <= |pre[i.headRow]|
    requires i.includedLastLine <==> i.headRow == |pre| - 1
    requires post == pre[i.headRow := InsertIn(pre[i.headRow], i.headX, i.str)] +
                     if i.includedLastLine && !n then [[]] else []
    ensures CanUndo(n, i, post) && UndoItem(n, i, post) == Effect(pre, i.headRow, i.headX, i)
  {
    var (r, x) := (i.headRow, i.headX);
    var l := InsertIn(pre[r], x, i.str);
    assert l[..x] + l[x + |i.str|..] == pre[r];
    var t1 := if i.includedLastLine && !n then RemoveMagic(post) else post;
    assert t1 == pre[r := l];
    assert pre[r := l][r := pre[r]] == pre;
  }

  lemma AddRedone(n: bool, i: Item, pre: Text, post: Text)
    requires i.kind == ADD && i.tailRow == i.headRow < |pre| && i.headX <= |pre[i.headRow]|
    requires i.tailX == i.headX + |i.str|
    requires post == pre[i.headRow := InsertIn(pre[i.headRow], i.headX, i.str)] +
                     if i.includedLastLine && !n then [[]] else []
    ensures CanRedo(n, i, pre) && RedoItem(n, i, pre) == Effect(post, i.tailRow, i.tailX, i)
  {
    var t2: Text := if i.includedLastLine && !n then pre + [[]] else pre;
    assert t2[i.headRow := InsertIn(pre[i.headRow], i.headX, i.str)] == post;
  }

  lemma EnterApplied(m: Mode, i: Item, pre: Text, post: Text, x: nat)
    requires i.kind == ENTER && i.tailRow == i.headRow < |pre|
    requires i.headX <= x <= |pre[i.headRow]|
    requires post == BreakRow(pre, i.headRow, i.headX, i.str)
    requires i.tailX <= |i.str|
    requires i.headX == 0 ==> i.str == pre[i.headRow] && i.tailX == x
    requires i.headX > 0 ==> i.headX == x && i.str[i.tailX..] == pre[i.headRow][x..]
    requires OkPos(m, pre, Pos(i.headRow, x)) && OkPos(m, post, Pos(i.headRow + 1, i.tailX))
    ensures Applied(m, i, pre, post)
  {
    EnterUndone(i, pre, x);
    hide BreakRow, MergeRow, Boundary;
  }

  lemma EnterUndone(i: Item, pre: Text, x: nat)
    requires i.headRow < |pre| && i.headX <= x <= |pre[i.headRow]| && i.tailX <= |i.str|
    requires i.headX == 0 ==> i.str == pre[i.headRow]
    requires i.headX > 0 ==> i.headX == x && i.str[i.tailX..] == pre[i.headRow][x..]
    ensures var post := BreakRow(pre, i.headRow, i.headX, i.str);
            && |post| == |pre| + 1
            && MergeRow(post, i.headRow, i.str[if i.headX == 0 then 0 else i.tailX..]) == pre
  {
    var r := i.headRow;
    var regain := i.str[if i.headX == 0 then 0 else i.tailX..];
    assert pre[r][..i.headX] + regain == pre[r];
    assert MergeRow(BreakRow(pre, r, i.headX, i.str), r, regain) == pre;
  }

  lemma DeleteApplied(m: Mode, i: Item, pre: Text, post: Text)
    requires i.kind == BACK || i.kind == DEL
    requires i.tailRow == i.headRow < |pre| && i.headX + |i.str| <= |pre[i.headRow]|
    requires i.str == pre[i.headRow][i.headX..i.headX + |i.str|]
    requires post == pre[i.headRow := DeleteFrom(pre[i.headRow], i.headX, |i.str|)]
    requires OkPos(m, pre, Pos(i.tailRow, i.tailX)) && OkPos(m, post, Pos(i.headRow, i.headX))
    ensures Applied(m, i, pre, post)
  {
    DeletePutBack(pre, i.headRow, i.headX, |i.str|);
    hide InsertIn, DeleteFrom, Boundary;
  }

  lemma DeletePutBack(pre: Text, r: nat, x: nat, n: nat)
    requires r < |pre| && x + n <= |pre[r]|
    ensures var post: Text := pre[r := DeleteFrom(pre[r], x, n)];
            && |post[r]| == |pre[r]| - n
            && post[r := InsertIn(post[r], x, pre[r][x..x + n])] == pre
  {
    var l := DeleteFrom(pre[r], x, n);
    assert InsertIn(l, x, pre[r][x..x + n]) == pre[r];
    assert pre[r := l][r := pre[r]] == pre;
  }

  lemma JoinApplied(m: Mode, i: Item, pre: Text, post: Text)
    requires i.kind == JOIN && !(i.backspaceAtEof && !m.config.noNewlines)
    requires i.tailRow + 1 < |pre| && i.tailX == |pre[i.tailRow]| && i.str == pre[i.tailRow + 1]
    requires post == MergeRow(pre, i.tailRow, i.str)
    requires OkPos(m, pre, Pos(i.headRow, i.headX)) && OkPos(m, post, Pos(i.tailRow, i.tailX))
    ensures Applied(m, i, pre, post)
  {
    var r := i.tailRow;
    assert (pre[r] + i.str)[..i.tailX] == pre[r];
    assert BreakRow(post, r, i.tailX, i.str) == pre;
  }

  /** A backspace before the magic line deletes nothing, and neither undo nor
      redo changes the text. */
  lemma NoJoinApplied(m: Mode, i: Item, t: Text)
    requires i.kind == JOIN && i.backspaceAtEof && !m.config.noNewlines
    requires i.tailRow < |t| && i.tailX <= |t[i.tailRow]|
    requires OkPos(m, t, Pos(i.tailRow, i.tailX))
    ensures Applied(m, i, t, t)
  {
  }

  lemma ReplaceApplied(m: Mode, i: Item, pre: Text, post: Text)
    requires i.kind == REPLACE && i.tailRow < |pre| && i.str == pre[i.tailRow]
    requires |post| == |pre| && post == pre[i.tailRow := post[i.tailRow]]
    requires OkPos(m, pre, Pos(i.headRow, i.headX)) && OkPos(m, post, Pos(i.headRow, i.headX))
    ensures Applied(m, i, pre, post)
  {
    assert post[i.tailRow := i.str] == pre;
    assert pre[i.tailRow := post[i.tailRow]] == post;
  }

  lemma UnindentIndent(t: Text, top: nat, indents: seq<Line>)
    requires top + |indents| <= |t|
    ensures Indented(IndentRows(t, top, indents), top, indents)
    ensures UnindentRows(IndentRows(t, top, indents), top, indents) == t
  {
    var u := IndentRows(t, top, indents);
    forall k | 0 <= k < |indents|
      ensures |indents[k]| <= |u[top + k]|
    {
      assert u[top + k] == indents[k] + t[top + k];
    }
  }

  lemma IndentUnindent(t: Text, top: nat, indents: seq<Line>)
    requires Indented(t, top, indents)
    requires forall k | 0 <= k < |indents| :: indents[k] <= t[top + k]
    ensures IndentRows(UnindentRows(t, top, indents), top, indents) == t
  {
    forall j | top <= j < top + |indents|
      ensures indents[j - top] + t[j][|indents[j - top]|..] == t[j]
    {
      assert indents[j - top] <= t[top + (j - top)];
    }
  }

  lemma IndentApplied(m: Mode, i: Item, pre: Text, post: Text)
    requires i.kind == INDENT && i.topRow + |i.indents| <= |pre|
    requires post == IndentRows(pre, i.topRow, i.indents)
    requires OkPos(m, pre, Pos(i.headRow, i.headX))
    requires OkPos(m, post, Pos(i.headRow, ShiftRight(i.headRow, i.headX, i.topRow, i.indents)))
    ensures Applied(m, i, pre, post)
  {
    UnindentIndent(pre, i.topRow, i.indents);
    IndentSteps(m.config.noNewlines, i, pre);
    IndentSteps(m.config.noNewlines, i, post);
    hide IndentRows, UnindentRows, Indented, ShiftRight, Boundary, UndoItem, RedoItem, CanUndo, CanRedo;
  }

  /** What undoing and redoing the two kinds of indentation items does. */
  lemma IndentSteps(n: bool, i: Item, t: Text)
    ensures i.kind == INDENT ==>
              && (CanUndo(n, i, t) <==> Indented(t, i.topRow, i.indents))
              && (CanRedo(n, i, t) <==> i.topRow + |i.indents| <= |t|)
    ensures i.kind == UNINDENT ==>
              && (CanRedo(n, i, t) <==> Indented(t, i.topRow, i.indents))
              && (CanUndo(n, i, t) <==> i.topRow + |i.indents| <= |t|)
    ensures i.headRow < |t| && i.kind == INDENT && CanUndo(n, i, t) ==>
              UndoItem(n, i, t) == Effect(UnindentRows(t, i.topRow, i.indents), i.headRow, i.headX, i)
    ensures i.headRow < |t| && i.kind == INDENT && CanRedo(n, i, t) ==>
              RedoItem(n, i, t) == Effect(IndentRows(t, i.topRow, i.indents), i.headRow,
                                          ShiftRight(i.headRow, i.headX, i.topRow, i.indents), i)
    ensures i.headRow < |t| && i.kind == UNINDENT && CanUndo(n, i, t) ==>
              UndoItem(n, i, t) == Effect(IndentRows(t, i.topRow, i.indents), i.headRow, i.headX, i)
    ensures i.headRow < |t| && i.kind == UNINDENT && CanRedo(n, i, t) ==>
              RedoItem(n, i, t) == Effect(UnindentRows(t, i.topRow, i.indents), i.headRow,
                                          ShiftLeft(i.headRow, i.headX, i.topRow, i.indents), i)
  {
    hide IndentRows, UnindentRows, Indented, ShiftRight, ShiftLeft;
  }

  lemma UnindentApplied(m: Mode, i: Item, pre: Text, post: Text)
    requires i.kind == UNINDENT && Indented(pre, i.topRow, i.indents)
    requires forall k | 0 <= k < |i.indents| :: i.indents[k] <= pre[i.topRow + k]
    requires post == UnindentRows(pre, i.topRow, i.indents)
    requires OkPos(m, pre, Pos(i.headRow, i.headX))
    requires OkPos(m, post, Pos(i.headRow, ShiftLeft(i.headRow, i.headX, i.topRow, i.indents)))
    ensures Applied(m, i, pre, post)
  {
    IndentUnindent(pre, i.topRow, i.indents);
    IndentSteps(m.config.noNewlines, i, pre);
    IndentSteps(m.config.noNewlines, i, post);
    assert i.topRow + |i.indents| <= |post|;
    hide IndentRows, UnindentRows, Indented, ShiftLeft, Boundary, UndoItem, RedoItem, CanUndo, CanRedo;
  }

  // ----- Cut, zap, paste, insert ----------------------------------------------------

  /** Undoing a cut of s from between a and b puts s back, and takes away the
      magic line that the cut may have needed; redoing it cuts s again. */
  lemma CutApplied(m: Mode, i: Item, a: Text, s: Text, b: Text)
    requires i.kind == CUT || i.kind == ZAP || i.kind == CUT_TO_EOF
    requires CutThere(m, i, a, s, b)
    ensures Applied(m, i, Join(Join(a, s), b), WithMagic(m.config.noNewlines, Join(a, b)))
  {
    hide UndoCut, RedoCut, CutThere, CursorAfterPutBack, WithMagic, Join, OkPos, CanPutBack, CanTakeAway, End, EndAfter;
    CutPutBack(m, i, a, s, b);
    CutAgain(m, i, a, s, b);
  }

  function CursorAfterPutBack(i: Item, a: Text, s: Text): Pos {
    if i.cursorAtHead then Pos(i.headRow, i.headX) else EndAfter(End(a), s)
  }

  predicate CutThere(m: Mode, i: Item, a: Text, s: Text, b: Text) {
    && i.cut == Some(s) && CutHead(i) == End(a)
    && Pos(i.tailRow, i.tailX) == EndAfter(End(a), s) != End(a)
    && OkText(m, Join(Join(a, s), b))
    && (i.includedLastLine ==> |b| == 1)
    && (!m.config.noNewlines && Last(Join(a, b)) != [] ==> i.includedLastLine)
    && OkPos(m, Join(Join(a, s), b), CursorAfterPutBack(i, a, s))
    && OkPos(m, WithMagic(m.config.noNewlines, Join(a, b)), End(a))
  }

  lemma CutPutBack(m: Mode, i: Item, a: Text, s: Text, b: Text)
    requires CutThere(m, i, a, s, b)
    ensures var (pre, post) := (Join(Join(a, s), b), WithMagic(m.config.noNewlines, Join(a, b)));
            var c := CursorAfterPutBack(i, a, s);
            && OkPos(m, pre, c) && CanPutBack(i, post)
            && UndoCut(m.config.noNewlines, i, post) == Effect(pre, c.row, c.x, i)
  {
    var (p, n) := (End(a), m.config.noNewlines);
    var (pre, post) := (Join(Join(a, s), b), WithMagic(n, Join(a, b)));
    CutPlace(m, i, a, s, b);
    GraftBeforeExtra(n, a, s, b);
    hide Join, EndAfter, End, OkText, OkPos, UndoCut, Grafted;
    PutBackSteps(n, i, post, p, EndAfter(p, s), pre, post != Join(a, b));
  }

  /** The steps of undo_cut, when the graft gives `pre`, with or without one
      empty line more. */
  lemma PutBackSteps(noNewlines: bool, i: Item, post: Text, p: Pos, q: Pos, pre: Text, extra: bool)
    requires i.cut.Some? && ValidPos(post, p) && CutHead(i) == p && Goto(post, p.row, p.x) == p
    requires q == EndAfter(p, i.cut.value) && q.row < |pre|
    requires Grafted(noNewlines, post, p, i.cut.value) == pre + if extra then [[]] else []
    requires i.includedLastLine ==> q.row == |pre| - 1
    requires i.cursorAtHead ==> i.headRow < |pre|
    requires extra ==> i.includedLastLine && !noNewlines && Last(pre) == []
    ensures CanPutBack(i, post)
    ensures UndoCut(noNewlines, i, post) ==
            if i.cursorAtHead then Effect(pre, i.headRow, i.headX, i) else Effect(pre, q.row, q.x, i)
  {
    RemoveAdded(pre);
    hide Grafted, EndAfter, RemoveMagic;
    if !extra {
      assert pre + [] == pre;
    } else {
      assert (pre + [[]])[|pre + [[]]| - 2] == [];
    }
  }

  lemma RemoveAdded(t: Text)
    ensures RemoveMagic(t + [[]]) == t
  {
  }

  /** Where the cursor goes before and after the cut text is put back. */
  lemma CutPlace(m: Mode, i: Item, a: Text, s: Text, b: Text)
    requires CutThere(m, i, a, s, b)
    ensures var (pre, post) := (Join(Join(a, s), b), WithMagic(m.config.noNewlines, Join(a, b)));
            var (p, q) := (End(a), EndAfter(End(a), s));
            && Goto(post, p.row, p.x) == p && q.row < |pre| && ValidPos(post, p)
            && (i.includedLastLine ==> q.row == |pre| - 1)
            && (i.cursorAtHead ==> i.headRow < |pre|)
            && (post != Join(a, b) ==> i.includedLastLine && !m.config.noNewlines && Last(pre) == [])
  {
    EndOfJoin(a, s);
  }

  lemma CutAgain(m: Mode, i: Item, a: Text, s: Text, b: Text)
    requires CutThere(m, i, a, s, b)
    ensures var (pre, post) := (Join(Join(a, s), b), WithMagic(m.config.noNewlines, Join(a, b)));
            && OkPos(m, post, End(a)) && CanTakeAway(i, pre)
            && RedoCut(m.config.noNewlines, i, pre) == Effect(post, End(a).row, End(a).x, i)
  {
    var q := EndAfter(End(a), s);
    SegmentOfJoin(a, s, b);
    assert Goto(Join(Join(a, s), b), q.row, q.x) == q;
  }

  /** A paste or an insertion of s between a and b. */
  predicate PutThere(m: Mode, i: Item, a: Text, s: Text, b: Text) {
    var (p, n) := (End(a), m.config.noNewlines);
    && CutHead(i) == p && Pos(i.tailRow, i.tailX) == EndAfter(p, s)
    && !i.wholeLine && !i.cursorAtHead
    && (i.includedLastLine <==> |b| == 1)
    && OkText(m, Join(a, b)) && OkPos(m, Join(a, b), p)
    && OkPos(m, WithMagic(n, Join(Join(a, s), b)), EndAfter(p, s))
  }

  /** Taking a grafted text away leaves what was there, without the magic line
      that the graft may have needed. */
  lemma TakenAway(m: Mode, i: Item, a: Text, s: Text, b: Text)
    requires PutThere(m, i, a, s, b)
    ensures var post := WithMagic(m.config.noNewlines, Join(Join(a, s), b));
            && OkPos(m, Join(a, b), End(a)) && CanTakeAway(i, post)
            && DropMagic(m.config.noNewlines, RedoCut(m.config.noNewlines, i, post)) ==
               Effect(Join(a, b), End(a).row, End(a).x, i)
            && (s != EMPTY ==> End(a) != EndAfter(End(a), s) && Segment(post, End(a), EndAfter(End(a), s)) == s)
            && (s == EMPTY ==> EndAfter(End(a), s) == End(a) && post == Join(a, b))
  {
    if s == EMPTY {
      var q := EndAfter(End(a), s);
      SplitJoin(a, b);
      JoinUnit(a);
      assert Goto(Join(a, b), q.row, q.x) == q == End(a);
    } else {
      TakenAwayText(m, i, a, s, b);
    }
  }

  lemma TakenAwayText(m: Mode, i: Item, a: Text, s: Text, b: Text)
    requires PutThere(m, i, a, s, b) && s != EMPTY
    ensures var (pre, post) := (Join(a, b), WithMagic(m.config.noNewlines, Join(Join(a, s), b)));
            var (p, q) := (End(a), EndAfter(End(a), s));
            && CanTakeAway(i, post) && p != q && Segment(post, p, q) == s
            && DropMagic(m.config.noNewlines, RedoCut(m.config.noNewlines, i, post)) == Effect(pre, p.row, p.x, i)
  {
    var (p, n) := (End(a), m.config.noNewlines);
    var q := EndAfter(p, s);
    PutAgain(m, i, a, s, b);
    MagicMeansLast(m, i, a, s, b);
    TailInPlace(m, i, a, s, b);
    SplitJoin(a, b);
    assert CutHead(i) == p;
    hide *;
    PasteThenCut(n, Join(a, b), p, s);
    SegmentOfJoin(a, s, b);
    TakeSteps(n, i, Grafted(n, Join(a, b), p, s), p, q, Join(a, b),
              !n && Last(Join(Join(Head(Join(a, b), p), s), Rest(Join(a, b), p))) != []);
  }

  /** The steps of undoing a paste, when cutting it gives `pre`, with or without
      one empty line more. */
  lemma TakeSteps(noNewlines: bool, i: Item, post: Text, p: Pos, q: Pos, pre: Text, extra: bool)
    requires CutHead(i) == p && Goto(post, i.tailRow, i.tailX) == q
    requires ValidPos(post, p) && ValidPos(post, q) && Before(p, q)
    requires Extracted(noNewlines, post, p, q) == if extra then pre + [[]] else pre
    requires i.includedLastLine <==> p.row == |pre| - 1
    requires p.row < |pre| && (extra ==> i.includedLastLine && !noNewlines)
    ensures CanTakeAway(i, post)
    ensures DropMagic(noNewlines, RedoCut(noNewlines, i, post)) == Effect(pre, p.row, p.x, i)
  {
    RemoveAdded(pre);
    hide Extracted, RemoveMagic;
  }

  /** A paste needs a magic line only when it is on the last row. */
  lemma MagicMeansLast(m: Mode, i: Item, a: Text, s: Text, b: Text)
    requires PutThere(m, i, a, s, b)
    ensures !m.config.noNewlines && Last(Join(Join(a, s), b)) != [] ==> i.includedLastLine
    ensures End(a).row < |Join(a, b)| && (i.includedLastLine <==> End(a).row == |Join(a, b)| - 1)
    ensures Finished(m.config.noNewlines, Join(a, b))
  {
  }

  lemma TailInPlace(m: Mode, i: Item, a: Text, s: Text, b: Text)
    requires PutThere(m, i, a, s, b)
    ensures var post := WithMagic(m.config.noNewlines, Join(Join(a, s), b));
            Goto(post, i.tailRow, i.tailX) == EndAfter(End(a), s)
  {
    EndOfJoin(a, s);
  }

  /** Grafting the text again gives what was there after it, and no magic line
      is taken away. */
  lemma PutAgain(m: Mode, i: Item, a: Text, s: Text, b: Text)
    requires PutThere(m, i, a, s, b)
    ensures var (pre, p, n) := (Join(a, b), End(a), m.config.noNewlines);
            var (post, q) := (WithMagic(n, Join(Join(a, s), b)), EndAfter(p, s));
            && OkPos(m, post, q) && Goto(pre, p.row, p.x) == p && ValidPos(pre, p)
            && Grafted(n, pre, p, s) == post
            && CanPutBack(i, pre)
            && (i.cut == Some(s) ==> UndoCut(n, i, pre) == Effect(post, q.row, q.x, i))
  {
    SplitJoin(a, b);
    EndOfJoin(a, s);
    var whole := Join(Join(a, s), b);
    if i.includedLastLine && !m.config.noNewlines {
      assert Last(whole) == Last(Join(a, s)) + b[0];
    }
  }

  lemma PasteApplied(m: Mode, i: Item, a: Text, s: Text, b: Text)
    requires i.kind == PASTE && i.cut == Some(s)
    requires PutThere(m, i, a, s, b)
    ensures Applied(m, i, Join(a, b), WithMagic(m.config.noNewlines, Join(Join(a, s), b)))
  {
    hide DropMagic, RedoCut, UndoCut, PutThere, WithMagic, Join, OkPos, CanPutBack, CanTakeAway, End, EndAfter,
      Segment, Grafted;
    TakenAway(m, i, a, s, b);
    PutAgain(m, i, a, s, b);
  }

  lemma InsertApplied(m: Mode, i: Item, a: Text, s: Text, b: Text)
    requires i.kind == INSERT && i.cut == None
    requires PutThere(m, i, a, s, b)
    ensures Applied(m, i, Join(a, b), WithMagic(m.config.noNewlines, Join(Join(a, s), b)))
  {
    hide DropMagic, RedoCut, UndoCut, WithMagic, Join, OkPos, CanPutBack, CanTakeAway, End, EndAfter, Segment, Grafted;
    TakenAway(m, i, a, s, b);
    var post := WithMagic(m.config.noNewlines, Join(Join(a, s), b));
    var j := i.(cut := if s == EMPTY then None else Some(s));
    assert PutThere(m, j, a, s, b);
    TailInPlace(m, i, a, s, b);
    assert UndoItem(m.config.noNewlines, i, post).item == j;
    PutAgain(m, j, a, s, b);
  }
}

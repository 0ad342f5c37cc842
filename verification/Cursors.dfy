/** The places that undo items note: where an operation started and where it left the
    cursor, and that undoing and redoing the item go there. */
module Cursors {
  import opened Chars
  import opened Lines
  import opened EditModel
  import opened History
  import opened Edits
  import opened Cuts
  import opened Indents
  import opened Runs
  import opened Options

  /** Where the cursor was before the step that the item stands for, and after it:
      what the item's fields say about it. */
  function ComesFrom(i: Item): Pos {
    match i.kind
    case BACK => Pos(i.tailRow, i.tailX)
    case DEL => Pos(i.tailRow, i.tailX)
    case ENTER => Pos(i.headRow, if i.headX > 0 then i.headX else i.tailX)
    case CUT => CutFrom(i)
    case ZAP => CutFrom(i)
    case CUT_TO_EOF => CutFrom(i)
    case _ => Pos(i.headRow, i.headX)
  }

  function CutFrom(i: Item): Pos {
    if i.cursorAtHead || i.cut.None? then Pos(i.headRow, i.headX) else EndAfter(CutHead(i), i.cut.value)
  }

  function GoesTo(i: Item): Pos {
    match i.kind
    case BACK => Pos(i.headRow, i.headX)
    case DEL => Pos(i.headRow, i.headX)
    case ENTER => Pos(i.headRow + 1, i.tailX)
    case CUT => CutHead(i)
    case ZAP => CutHead(i)
    case CUT_TO_EOF => CutHead(i)
    case INDENT => Pos(i.headRow, ShiftRight(i.headRow, i.headX, i.topRow, i.indents))
    case UNINDENT => Pos(i.headRow, ShiftLeft(i.headRow, i.headX, i.topRow, i.indents))
    case PASTE => if i.cut.None? then Pos(i.headRow, i.headX) else EndAfter(CutHead(i), i.cut.value)
    case _ => Pos(i.tailRow, i.tailX)
  }

  predicate IsCut(k: Kind) {
    k == CUT || k == ZAP || k == CUT_TO_EOF
  }

  /** The kinds of items there are, with what each always has; `rows` is the number of
      rows before the step. */
  predicate Proper(i: Item, rows: nat) {
    && i.kind !in {COPY, OTHER}
    && (IsCut(i.kind) ==> i.cut.Some?)
    && (i.kind == PASTE ==> i.cut.Some? && !i.cursorAtHead && !i.wholeLine)
    && (i.kind == INSERT ==> !i.wholeLine && Before(Pos(i.headRow, i.headX), Pos(i.tailRow, i.tailX)))
    && (i.kind == JOIN && i.backspaceAtEof ==> i.headX == 0 && i.headRow + 1 == rows)
  }

  /** An item whose places are in the texts before and after its step. */
  predicate InTexts(i: Item, pre: Text, post: Text) {
    && Proper(i, |pre|)
    && (i.kind != BACK && i.kind != DEL ==> ValidPos(pre, ComesFrom(i)))
    && (i.kind != REPLACE ==> ValidPos(post, GoesTo(i)))
  }

  /** Undoing an item puts the cursor where it came from. */
  lemma UndoGoesBack(m: Mode, i: Item, pre: Text, post: Text)
    requires Applied(m, i, pre, post) && InTexts(i, pre, post)
    ensures var e := UndoItem(m.config.noNewlines, i, post); Pos(e.row, e.x) == ComesFrom(i)
  {
    UndoneItem(m, i, pre, post);
    if IsCut(i.kind) || i.kind == PASTE || i.kind == INSERT {
      UndoneCut(m.config.noNewlines, i, pre, post);
    } else {
      UndonePlain(m.config.noNewlines, i, pre, post);
    }
    hide UndoItem, CanUndo, InTexts;
  }

  lemma UndoneItem(m: Mode, i: Item, pre: Text, post: Text)
    requires Applied(m, i, pre, post)
    ensures var n := m.config.noNewlines; CanUndo(n, i, post) && UndoItem(n, i, post).lines == pre
  {
    hide UndoItem, RedoItem, CanUndo, CanRedo, OkPos;
  }

  lemma UndoneCut(n: bool, i: Item, pre: Text, post: Text)
    requires CanUndo(n, i, post) && UndoItem(n, i, post).lines == pre && InTexts(i, pre, post)
    requires IsCut(i.kind) || i.kind == PASTE || i.kind == INSERT
    ensures var e := UndoItem(n, i, post); Pos(e.row, e.x) == ComesFrom(i)
  {
    hide Join, Head, Rest, Segment, Extracted, Grafted, EndAfter, Before, RemoveMagic;
  }

  lemma UndonePlain(n: bool, i: Item, pre: Text, post: Text)
    requires CanUndo(n, i, post) && UndoItem(n, i, post).lines == pre && InTexts(i, pre, post)
    requires !IsCut(i.kind) && i.kind != PASTE && i.kind != INSERT
    ensures var e := UndoItem(n, i, post); Pos(e.row, e.x) == ComesFrom(i)
  {
    hide UndoCut, RemoveMagic, GoesTo;
  }

  /** Redoing it puts the cursor where it went. */
  lemma RedoGoesOn(m: Mode, i: Item, pre: Text, post: Text)
    requires Applied(m, i, pre, post) && InTexts(i, pre, post)
    ensures var n := m.config.noNewlines;
            var e := RedoItem(n, UndoItem(n, i, post).item, pre);
            Pos(e.row, e.x) == if i.kind == REPLACE then Pos(i.headRow, i.headX) else GoesTo(i)
  {
    hide OkPos, Join, Head, Rest, Segment, Extracted, Grafted, EndAfter, Before;
    RedoneItem(m, i, pre, post);
    if i.kind == INSERT {
      RedoneInsertion(m, i, pre, post);
    } else if i.kind == PASTE || IsCut(i.kind) {
      RedoneCut(m.config.noNewlines, i, pre);
    } else {
      RedonePlain(m.config.noNewlines, i, pre, post);
    }
  }

  lemma RedoneItem(m: Mode, i: Item, pre: Text, post: Text)
    requires Applied(m, i, pre, post)
    ensures var n := m.config.noNewlines;
            && CanUndo(n, i, post)
            && var u := UndoItem(n, i, post).item;
            && CanRedo(n, u, pre) && SameMarks(u, i) && RedoItem(n, u, pre).lines == post
            && (i.kind != REPLACE && i.kind != INSERT ==> u == i)
  {
    hide UndoItem, RedoItem, CanUndo, CanRedo, OkPos;
  }

  lemma RedonePlain(n: bool, i: Item, pre: Text, post: Text)
    requires CanUndo(n, i, post)
    requires var u := UndoItem(n, i, post).item;
             && CanRedo(n, u, pre) && SameMarks(u, i) && RedoItem(n, u, pre).lines == post
    requires i.kind != REPLACE ==> ValidPos(post, GoesTo(i))
    requires i.kind != BACK && i.kind != DEL ==> ValidPos(pre, ComesFrom(i))
    requires i.kind !in {COPY, OTHER, INSERT, PASTE} && !IsCut(i.kind)
    ensures var e := RedoItem(n, UndoItem(n, i, post).item, pre);
            Pos(e.row, e.x) == if i.kind == REPLACE then Pos(i.headRow, i.headX) else GoesTo(i)
  {
    hide UndoItem, CanUndo;
  }

  lemma RedoneCut(n: bool, i: Item, pre: Text)
    requires CanRedo(n, i, pre) && ValidPos(pre, ComesFrom(i))
    requires i.kind == PASTE || IsCut(i.kind)
    requires i.cut.Some? && (i.kind == PASTE ==> !i.cursorAtHead && !i.wholeLine)
    ensures var e := RedoItem(n, i, pre); Pos(e.row, e.x) == GoesTo(i)
  {
    hide Join, Head, Rest, Segment, Extracted, Grafted, EndAfter;
  }

  lemma RedoneInsertion(m: Mode, i: Item, pre: Text, post: Text)
    requires Applied(m, i, pre, post) && i.kind == INSERT && !i.wholeLine
    requires ValidPos(pre, ComesFrom(i)) && ValidPos(post, GoesTo(i))
    requires Before(Pos(i.headRow, i.headX), Pos(i.tailRow, i.tailX))
    ensures var n := m.config.noNewlines;
            var e := RedoItem(n, UndoItem(n, i, post).item, pre);
            Pos(e.row, e.x) == GoesTo(i)
  {
    var (p, q) := (Pos(i.headRow, i.headX), Pos(i.tailRow, i.tailX));
    RedoneItem(m, i, pre, post);
    InsertionUndone(m.config.noNewlines, i, post);
    if p != q {
      SplitRegion(post, p, q);
    }
    InsertionRedone(m.config.noNewlines, i, if p == q then None else Some(Segment(post, p, q)), pre);
    hide Applied, CanUndo, UndoItem, CanRedo, RedoItem, Join, Head, Rest, Segment, EndAfter, Before;
  }

  lemma InsertionRedone(n: bool, i: Item, cut: Option<Text>, pre: Text)
    requires CanRedo(n, i.(cut := cut), pre) && i.kind == INSERT && !i.wholeLine
    requires ValidPos(pre, Pos(i.headRow, i.headX))
    ensures var (p, e) := (Pos(i.headRow, i.headX), RedoItem(n, i.(cut := cut), pre));
            Pos(e.row, e.x) == if cut.Some? then EndAfter(p, cut.value) else p
  {
    hide Grafted, EndAfter;
  }

  lemma InsertionUndone(n: bool, i: Item, post: Text)
    requires CanUndo(n, i, post) && i.kind == INSERT && !i.wholeLine && ValidPos(post, Pos(i.tailRow, i.tailX))
    ensures var (p, q) := (Pos(i.headRow, i.headX), Pos(i.tailRow, i.tailX));
            && ValidPos(post, p) && Before(p, q)
            && UndoItem(n, i, post).item == i.(cut := if p == q then None else Some(Segment(post, p, q)))
  {
    hide Segment, Extracted;
  }

  // ----- What a step does to the items --------------------------------------------------

  /** Where an operation starts: at the match that is replaced, behind the character
      that a backspace deletes, and else at the cursor. */
  function Start(op: Op, s: State): Pos {
    if op.ReplaceAt? then Pos(op.row, op.x)
    else if op.Backspace? && ValidState(s) && s.x > 0 then
      Pos(s.row, StepRight(s.lines[s.row], StepLeft(s.lines[s.row], s.x)))
    else Cursor(s)
  }

  /** That is the cursor, when the cursor is between characters. */
  lemma StartIsCursor(op: Op, s: State)
    requires ValidState(s) && Boundary(s.lines[s.row], s.x) && !op.ReplaceAt?
    ensures Start(op, s) == Cursor(s)
  {
    hide Boundary, StepLeft, StepRight;
    if s.x > 0 {
      StepLeftIsPredecessor(s.lines[s.row], s.x);
    }
  }

  /** A new item, for a step that started at the given place. */
  predicate MakesItem(s: State, s': State, at: Pos) {
    && s'.nextId == s.nextId + 1 && s'.saved == s.saved
    && s.applied <= |s.stack| && |s'.stack| == s'.applied == s.applied + 1
    && (forall k | 0 <= k < s.applied :: s'.stack[k] == s.stack[k].(newsize := s'.stack[k].newsize))
    && MadeItem(Top(s'), at, Cursor(s'), |s.lines|)
  }

  predicate MadeItem(i: Item, from: Pos, to: Pos, rows: nat) {
    ComesFrom(i) == from && (i.kind != REPLACE ==> GoesTo(i) == to) && Proper(i, rows)
  }

  /** An edit extends the newest item. */
  predicate Extends(s: State, s': State) {
    |s.stack| > 0 && s'.nextId == s.nextId && s'.stack != s.stack
  }

  /** It is a deletion that takes what is now at the place of the earlier ones. */
  predicate InPlace(s: State, s': State) {
    Extends(s, s') && Top(s).kind in {BACK, DEL} && Cursor(s') == Pos(Top(s).headRow, Top(s).headX)
  }

  /** The newest item has grown; only a deletion in place changes where it comes from. */
  predicate GrowsItem(s: State, s': State) {
    && s'.nextId == s.nextId && s'.saved == s.saved && s'.applied == s.applied == |s.stack| == |s'.stack| > 0
    && s'.stack == s.stack[|s.stack| - 1 := Top(s')]
    && var (u, i) := (Top(s), Top(s'));
    && i.id == u.id && i.kind == u.kind && i.kind in {ADD, BACK, DEL, CUT, ZAP}
    && GoesTo(i) == Cursor(s') && (IsCut(i.kind) ==> i.cut.Some?)
    && ComesFrom(i) == if InPlace(s, s') then Cursor(s') else ComesFrom(u)
  }

  predicate LeavesItems(s: State, s': State) {
    && s'.nextId == s.nextId && s'.saved == s.saved
    && s'.stack == s.stack && s'.applied == s.applied && s'.lines == s.lines
  }

  /** An edit does one of these, and does not put the Modified flag off. */
  predicate Traced(s: State, s': State, at: Pos) {
    (MakesItem(s, s', at) || GrowsItem(s, s') || LeavesItems(s, s')) && (s.modified ==> s'.modified)
  }

  lemma InjectTraced(c: Config, s: State, burst: Line)
    requires ValidState(s) && (s.last == ADD && |s.stack| > 0 ==> s.applied == |s.stack| && Top(s).kind == ADD)
    ensures Traced(s, Inject(c, s, burst), Cursor(s))
  {
    InjectBuffer(c, s, burst);
    if ContinuesTyping(s) {
      TypingGrows(c, s, burst);
    } else {
      InjectNewItem(c, s, burst);
      AddMade(s, burst, Inject(c, s, burst));
    }
    hide Inject, InsertIn, Count, MadeItem, GrowsItem, NewItem;
  }

  lemma AddMade(s: State, burst: Line, s': State)
    requires ValidState(s) && |s'.stack| > 0 && s'.row == s.row && s'.x == s.x + |burst|
    requires Top(s') == NewItem(s, ADD, None).(newsize := s'.size, str := burst, tailX := s.x + |burst|)
    ensures MadeItem(Top(s'), Cursor(s), Cursor(s'), |s.lines|)
  {
  }

  lemma TypingGrows(c: Config, s: State, burst: Line)
    requires ValidState(s) && ContinuesTyping(s) && s.applied == |s.stack| && Top(s).kind == ADD
    ensures GrowsItem(s, Inject(c, s, burst))
  {
    hide InsertIn, Count;
  }

  lemma EnterTraced(c: Config, s: State, autoindent: bool)
    requires ValidState(s)
    ensures Traced(s, Enter(c, s, autoindent), Cursor(s))
  {
    hide IndentLengthFrom, BreakRow;
    assert MakesItem(s, Enter(c, s, autoindent), Cursor(s));
  }

  lemma ReplaceTraced(s: State, len: nat, answer: Line)
    requires ValidState(s) && s.x + len <= |s.lines[s.row]|
    ensures Traced(s, Replace(s, len, answer), Cursor(s))
  {
    hide Count;
    assert MakesItem(s, Replace(s, len, answer), Cursor(s));
  }

  /** Where a deletion starts: a backspace starts behind what it deletes. */
  function Behind(s: State, action: Kind): Pos
    requires ValidState(s)
  {
    var line := s.lines[s.row];
    if action == DEL then Cursor(s)
    else if s.x < |line| then Pos(s.row, StepRight(line, s.x))
    else Pos(s.row + 1, 0)
  }

  lemma ExpungeTraced(c: Config, s: State, action: Kind)
    requires ValidState(s) && (action == BACK || action == DEL)
    requires s.last == action && |s.stack| > 0 ==>
               s.applied == |s.stack| && Top(s).kind == action && Top(s).tailRow == Top(s).headRow
    ensures Traced(s, Expunge(c, s, action), Behind(s, action))
  {
    hide CharLength, DeleteFrom, MergeRow, Erase, UpdateDeletion, AddUndo, Traced, Behind;
    if s.x < |s.lines[s.row]| {
      if action != s.last || |s.stack| == 0 || s.row != Top(s).headRow {
        FirstErased(s, s, action);
      } else {
        Extended(s);
      }
    } else if s.row != |s.lines| - 1 && (!MagicAhead(c, s) || action == BACK) {
      JoinedItem(c, s, action);
    } else {
      LeftAlone(s, Behind(s, action));
    }
  }

  lemma LeftAlone(s: State, at: Pos)
    ensures Traced(s, s, at)
  {
  }

  /** s1 is s, but for what update_undo has noted in the newest item. */
  lemma FirstErased(s: State, s1: State, action: Kind)
    requires ValidState(s) && (action == BACK || action == DEL) && s.x < |s.lines[s.row]|
    requires s1 == s || (s.applied == |s.stack| > 0 && s1 == SetTop(s, Top(s).(newsize := s.size)))
    ensures ValidState(s1) && Traced(s, Erase(AddUndo(s1, action, None)), Behind(s, action))
  {
    EraseFields(s1, action);
    var s' := Erase(AddUndo(s1, action, None));
    DeletionMade(s, action, Top(s'), Cursor(s'));
    hide StepRight, Erase, AddUndo, MadeItem, Behind, DeleteFrom;
    Below(s, s1, s');
    hide SetTop, ValidPos;
    assert MakesItem(s, s', Behind(s, action));
  }

  lemma Below(s: State, s1: State, s': State)
    requires s1 == s || (s.applied == |s.stack| > 0 && s1 == SetTop(s, Top(s).(newsize := s.size)))
    requires s.applied <= |s.stack| && |s'.stack| > 0 && s'.stack == s1.stack[..s1.applied] + [Top(s')]
    ensures |s'.stack| == s.applied + 1
    ensures forall k | 0 <= k < s.applied :: s'.stack[k] == s.stack[k].(newsize := s'.stack[k].newsize)
  {
  }

  lemma DeletionMade(s: State, action: Kind, i: Item, to: Pos)
    requires ValidState(s) && (action == BACK || action == DEL) && s.x < |s.lines[s.row]|
    requires i.kind == action && i.headRow == i.tailRow == s.row && i.headX == s.x && to == Cursor(s)
    requires i.tailX == if action == BACK then StepRight(s.lines[s.row], s.x) else s.x
    ensures MadeItem(i, Behind(s, action), to, |s.lines|)
  {
    hide StepRight;
  }

  lemma Extended(s: State)
    requires ValidState(s) && s.x < |s.lines[s.row]| && |s.stack| > 0 && s.applied == |s.stack|
    requires Top(s).kind in {BACK, DEL} && Top(s).tailRow == Top(s).headRow == s.row && s.last == Top(s).kind
    ensures Traced(s, Erase(UpdateDeletion(s)), Behind(s, Top(s).kind))
  {
    if s.x == Top(s).headX || s.x + CharLength(s.lines[s.row], s.x) == Top(s).headX {
      GrownDeletion(s);
    } else {
      hide Erase, Traced, NewItem, CharLength, Behind;
      var s1 := SetTop(s, Top(s).(newsize := s.size));
      assert UpdateDeletion(s) == AddUndo(s1, s.last, None);
      FirstErased(s, s1, s.last);
    }
  }

  lemma GrownDeletion(s: State)
    requires ValidState(s) && s.x < |s.lines[s.row]| && |s.stack| > 0 && s.applied == |s.stack|
    requires Top(s).kind in {BACK, DEL} && Top(s).tailRow == Top(s).headRow == s.row
    requires s.x == Top(s).headX || s.x + CharLength(s.lines[s.row], s.x) == Top(s).headX
    ensures GrowsItem(s, Erase(UpdateDeletion(s)))
  {
    var s' := Erase(UpdateDeletion(s));
    ErasedFields(s);
    hide CharLength, DeleteFrom, Erase, UpdateDeletion;
    assert CharLength(s.lines[s.row], s.x) > 0;
    assert Top(s').newsize != Top(s).newsize || |Top(s').str| > |Top(s).str|;
  }

  lemma JoinedItem(c: Config, s: State, action: Kind)
    requires ValidState(s) && (action == BACK || action == DEL)
    requires s.x == |s.lines[s.row]| && s.row + 1 < |s.lines| && (!MagicAhead(c, s) || action == BACK)
    ensures Traced(s, Expunge(c, s, action), Behind(s, action))
  {
    hide Expunge, Behind, MadeItem, NewItem;
    JoinedStack(c, s, action);
    var s' := Expunge(c, s, action);
    JoinMade(s, action, Top(s').newsize);
    assert MakesItem(s, s', Behind(s, action));
  }

  lemma JoinedStack(c: Config, s: State, action: Kind)
    requires ValidState(s) && (action == BACK || action == DEL)
    requires s.x == |s.lines[s.row]| && s.row + 1 < |s.lines| && (!MagicAhead(c, s) || action == BACK)
    ensures var s' := Expunge(c, s, action);
            && |s'.stack| > 0 && s'.stack == s.stack[..s.applied] + [Top(s')] && s'.applied == s.applied + 1
            && s'.nextId == s.nextId + 1 && s'.saved == s.saved && Cursor(s') == Cursor(s)
            && Top(s') == NewItem(s, action, None).(newsize := Top(s').newsize) && (s.modified ==> s'.modified)
  {
    hide MergeRow, NewItem;
  }

  lemma JoinMade(s: State, action: Kind, size: int)
    requires ValidState(s) && (action == BACK || action == DEL)
    requires s.x == |s.lines[s.row]| && s.row + 1 < |s.lines|
    ensures var i := NewItem(s, action, None).(newsize := size);
            MadeItem(i, Behind(s, action), Cursor(s), |s.lines|)
  {
  }

  /** A backspace starts behind what it deletes. */
  lemma BackspaceTraced(c: Config, s: State)
    requires ValidState(s)
    requires s.last == BACK && |s.stack| > 0 ==>
               s.applied == |s.stack| && Top(s).kind == BACK && Top(s).tailRow == Top(s).headRow
    ensures Traced(s, EditModel.Backspace(c, s), Start(Op.Backspace, s))
  {
    hide Expunge, Traced, StepRight;
    if s.x > 0 {
      var s1 := s.(x := StepLeft(s.lines[s.row], s.x));
      ExpungeTraced(c, s1, BACK);
      TracedFrom(s1, s, Expunge(c, s1, BACK), Start(Op.Backspace, s));
    } else if s.row > 0 {
      var s1 := s.(row := s.row - 1, x := |s.lines[s.row - 1]|);
      ExpungeTraced(c, s1, BACK);
      TracedFrom(s1, s, Expunge(c, s1, BACK), Start(Op.Backspace, s));
    } else {
      LeftAlone(s, Start(Op.Backspace, s));
    }
  }

  /** Moving the cursor first, or letting go of the cutbuffer, makes no difference. */
  lemma TracedFrom(s1: State, s: State, s': State, at: Pos)
    requires Traced(s1, s', at)
    requires s1.nextId == s.nextId && s1.stack == s.stack && s1.applied == s.applied && s1.lines == s.lines
    requires s1.saved == s.saved && s1.modified == s.modified
    ensures Traced(s, s', at)
  {
    hide MadeItem, GoesTo, ComesFrom;
  }

  lemma PutTraced(c: Config, s: State, kind: Kind, t: Text)
    requires ValidState(s) && (kind == PASTE || kind == INSERT) && (kind == PASTE ==> s.cutbuffer == Some(t))
    ensures MakesItem(s, UpdatePaste(PutIn(c, AddUndo(s, kind, None), t)), Cursor(s))
  {
    PutFields(c, s, kind, t);
    hide Head, Rest, Join, Characters, Grafted, PutIn, AddUndo, UpdatePaste, NewItem, MadeItem, EndAfter;
    var s' := UpdatePaste(PutIn(c, AddUndo(s, kind, None), t));
    PutMade(s, kind, t, Top(s'));
    assert MakesItem(s, s', Cursor(s));
  }

  lemma PutMade(s: State, kind: Kind, t: Text, i: Item)
    requires ValidState(s) && (kind == PASTE || kind == INSERT) && (kind == PASTE ==> s.cutbuffer == Some(t))
    requires i.kind == kind && !i.wholeLine && !i.cursorAtHead && CutHead(i) == Cursor(s)
    requires Pos(i.tailRow, i.tailX) == EndAfter(Cursor(s), t) && i.cut == if kind == PASTE then s.cutbuffer else None
    ensures MadeItem(i, Cursor(s), EndAfter(Cursor(s), t), |s.lines|)
  {
  }

  lemma PasteTraced(c: Config, s: State)
    requires ValidState(s)
    ensures Traced(s, PasteText(c, s), Cursor(s))
  {
    hide PutIn, AddUndo, UpdatePaste, MadeItem;
    if s.cutbuffer.Some? {
      PutTraced(c, s, PASTE, s.cutbuffer.value);
    }
  }

  lemma InsertTraced(c: Config, s: State, t: Text)
    requires ValidState(s)
    ensures Traced(s, InsertText(c, s, t), Cursor(s))
  {
    hide PutIn, AddUndo, UpdatePaste, MadeItem;
    PutTraced(c, s, INSERT, t);
  }

  lemma IndentTraced(s: State, top: nat, bot: nat, indentation: Line)
    requires ValidState(s) && top <= bot < |s.lines|
    ensures Traced(s, Indent(s, top, bot, indentation), Cursor(s))
  {
    hide IndentRows, TotalLength, SkipEmpty;
    var s' := Indent(s, top, bot, indentation);
    if SkipEmpty(s.lines, top, bot) != bot + 1 {
      assert MakesItem(s, s', Cursor(s));
    }
  }

  lemma UnindentTraced(c: Config, s: State, top: nat, bot: nat)
    requires ValidState(s) && top <= bot < |s.lines|
    ensures Traced(s, Unindent(c, s, top, bot), Cursor(s))
  {
    hide UnindentRows, TotalLength, SkipUnindentable, Whites;
    var s' := Unindent(c, s, top, bot);
    if SkipUnindentable(c, s.lines, top, bot) != bot + 1 {
      assert MakesItem(s, s', Cursor(s));
    }
  }

  lemma FirstCutTraced(c: Config, s: State, kind: Kind, mark: Option<Pos>)
    requires ValidState(s) && IsCut(kind) && (mark.Some? ==> ValidPos(s.lines, mark.value) && kind != CUT_TO_EOF)
    requires var (p, q) := SnipRegion(s, mark, kind == CUT_TO_EOF); p != q
    ensures var s' := FirstCut(c, s, kind, mark); MakesItem(s, s', Cursor(s)) && s'.modified
  {
    hide MadeItem, FirstCut, Segment, Extracted, Join, Head, Rest, Characters, EndAfter, NewItem, CutNoted,
      SnipRegion;
    FirstCutFields(c, s, kind, mark);
    var (p, q) := SnipRegion(s, mark, kind == CUT_TO_EOF);
    var s' := FirstCut(c, s, kind, mark);
    SplitRegion(s.lines, p, q);
    CutItemTraced(c, s, s', kind, mark, Segment(s.lines, p, q));
  }

  lemma CutItemTraced(c: Config, s: State, s': State, kind: Kind, mark: Option<Pos>, taken: Text)
    requires ValidState(s) && IsCut(kind) && (mark.Some? ==> ValidPos(s.lines, mark.value) && kind != CUT_TO_EOF)
    requires var (p, q) := SnipRegion(s, mark, kind == CUT_TO_EOF); EndAfter(p, taken) == q && p == Cursor(s') != q
    ensures MadeItem(CutNoted(c, s', NewItem(s, kind, mark).(newsize := s'.size), taken),
                     Cursor(s), Cursor(s'), |s.lines|)
  {
    hide EndAfter, Finished;
  }

  lemma CutTraced(m: Mode, s: State, h: History, mark: Option<Pos>)
    requires Inv(m, s, h) && ValidState(s)
    requires mark.Some? ==> OkPos(m, s.lines, mark.value) && !s.keep
    ensures Traced(s, CutText(m.config, s, mark), Cursor(s))
    ensures Traced(s, ZapText(m.config, s, mark), Cursor(s))
  {
    hide Inv, IsCuttable, Running, Applied, FirstCut, NextCut, Track, OkText, SnipRegion, CutText, ZapText,
      MadeItem, GrowsItem, LeavesItems, MakesItem;
    Present(m, s, h);
    if IsCuttable(m.config, s, s.cutFromCursor && mark.None?, mark) {
      CuttableRegion(m.config, s, mark);
      FirstCutIs(m.config, s, mark);
      if s.last != CUT || !s.keep {
        FirstCutTraced(m.config, s, CUT, mark);
      } else {
        NextCutIs(m.config, s);
        NextCutTraced(m, s, h, CUT);
      }
      if s.last != ZAP || !s.keep {
        FirstCutTraced(m.config, s, ZAP, mark);
      } else {
        NextCutIs(m.config, s);
        NextCutTraced(m, s, h, ZAP);
      }
    } else {
      NotCut(m.config, s, mark);
      LeftAlone(s, Cursor(s));
    }
  }

  lemma NextCutTraced(m: Mode, s: State, h: History, kind: Kind)
    requires Inv(m, s, h) && ValidState(s) && |s.stack| > 0
    requires (kind == CUT || kind == ZAP) && s.last == kind && s.keep
    requires IsCuttable(m.config, s, s.cutFromCursor, None)
    ensures var s' := NextCut(m.config, s, kind); GrowsItem(s, s') && s'.modified
  {
    hide Inv, Applied, Running, OkText, NextCut, Extracted, Segment, Join, Head, Rest, Characters,
      CutNoted, SnipRegion, IsCuttable, GrowsItem;
    Present(m, s, h);
    var (p, q) := SnipRegion(s, None, false);
    var (u, pre) := (Top(s), h.snaps[h.pos - 1].lines);
    RunningCut(m, s, u, pre);
    TakenShape(m, s);
    NextCutFields(m.config, s, kind, u.cut.value);
    NextCutParts(m, s, u, pre);
    RunningHead(m, s, u, pre);
    GrownCut(m.config, s, NextCut(m.config, s, kind), Join(u.cut.value, Segment(s.lines, p, q)));
  }

  lemma RunningHead(m: Mode, s: State, u: Item, pre: Text)
    requires Running(m, s, u, pre)
    ensures u.cursorAtHead && u.cut.Some?
  {
  }

  lemma GrownCut(c: Config, s: State, s': State, cut: Text)
    requires |s.stack| > 0 && (Top(s).kind == CUT || Top(s).kind == ZAP) && Top(s).cursorAtHead && |s'.stack| > 0
    requires s'.stack == s.stack[|s.stack| - 1 := Top(s')] && s'.applied == s.applied == |s.stack| == |s'.stack|
    requires s'.nextId == s.nextId && s'.saved == s.saved && CutHead(Top(s)) == Cursor(s')
    requires Top(s') == CutNoted(c, s', Top(s).(newsize := s'.size), cut)
    ensures GrowsItem(s, s')
  {
  }

  lemma CutTillEofTraced(c: Config, s: State)
    requires ValidState(s)
    ensures Traced(s, CutTillEof(c, s), Cursor(s))
  {
    hide FirstCut, MakesItem, GrowsItem, LeavesItems, Snip, UpdateCut, AddUndo;
    FirstCutIs(c, s, None);
    if s.x == |s.lines[s.row]| && (s.row == |s.lines| - 1 || MagicAhead(c, s)) {
      LeftAlone(s, Cursor(s));
    } else {
      FirstCutTraced(c, s, CUT_TO_EOF, None);
    }
  }

  // ----- A step of a run ------------------------------------------------------------------

  lemma StepTraced(m: Mode, s: State, h: History, op: Op)
    requires Inv(m, s, h) && Allowed(m, s, op) && Possible(m.config, s, op) && IsEdit(op)
    ensures Traced(s, Step(m.config, s, op), Start(op, s))
  {
    hide *;
    Present(m, s, h);
    var s0 := s.(keep := false);
    FreeKeeps(m, s, h, s.cutFromCursor);
    if op.Cut? || op.Zap? {
      CutStepTraced(m, s, h, op);
    } else if op.Move? || op.ToggleCutFromCursor? || op.Copy? {
      StillTraced(m.config, s, op);
    } else if op.ReplaceAt? {
      ReplaceStepTraced(m.config, s, op);
    } else {
      ReadyItem(m, s, h);
      EditTraced(m.config, s, s0, op);
      TracedFrom(s0, s, Step(m.config, s, op), Start(op, s));
    }
  }

  /** What is known of the newest item when the last action may be extended. */
  lemma ReadyItem(m: Mode, s: State, h: History)
    requires Inv(m, s, h)
    ensures s.last in {ADD, BACK, DEL} ==>
              && s.applied == |s.stack| > 0 && Top(s).kind == s.last
              && (s.last != ADD ==> Top(s).tailRow == Top(s).headRow)
  {
    hide ItemsStand, SavedStands, SnapsFine, OkText, OkSize, OkPos, Running;
  }

  lemma CutStepTraced(m: Mode, s: State, h: History, op: Op)
    requires Inv(m, s, h) && Allowed(m, s, op) && Possible(m.config, s, op) && (op.Cut? || op.Zap?)
    ensures Traced(s, Step(m.config, s, op), Start(op, s))
  {
    hide Inv, CutText, ZapText, OkPos, IsCuttable, Traced;
    Present(m, s, h);
    FreeKeeps(m, s, h, s.cutFromCursor);
    var s0 := if op.mark.Some? then s.(keep := false) else s;
    CutTraced(m, s0, h, op.mark);
    TracedFrom(s0, s, Step(m.config, s, op), Cursor(s));
  }

  lemma StillTraced(c: Config, s: State, op: Op)
    requires Possible(c, s, op) && (op.Move? || op.ToggleCutFromCursor? || op.Copy?)
    ensures Traced(s, Step(c, s, op), Start(op, s))
  {
  }

  lemma ReplaceStepTraced(c: Config, s: State, op: Op)
    requires Possible(c, s, op) && op.ReplaceAt?
    ensures Traced(s, Step(c, s, op), Start(op, s))
  {
    hide Replace, Traced;
    var s1 := s.(keep := false, row := op.row, x := op.x);
    ReplaceTraced(s1, op.len, op.answer);
    TracedFrom(s1, s, Step(c, s, op), Start(op, s));
  }

  lemma EditTraced(c: Config, s: State, s0: State, op: Op)
    requires Possible(c, s, op) && IsEdit(op) && s0 == s.(keep := false)
    requires !op.Cut? && !op.Zap? && !op.Move? && !op.ToggleCutFromCursor? && !op.Copy? && !op.ReplaceAt?
    requires s.last in {ADD, BACK, DEL} ==>
               && s.applied == |s.stack| > 0 && Top(s).kind == s.last
               && (s.last != ADD ==> Top(s).tailRow == Top(s).headRow)
    ensures Traced(s0, Step(c, s, op), Start(op, s))
  {
    hide Traced, Inject, Enter, Expunge, EditModel.Backspace, CutTillEof, PasteText, InsertText, Indent, Unindent,
      Encoded, StepLeft, StepRight;
    if op.Type? {
      InjectTraced(c, s0, Encoded(op.burst));
    } else if op.BreakLine? {
      EnterTraced(c, s0, op.autoindent);
    } else if op.Delete? {
      ExpungeTraced(c, s0, DEL);
    } else if op.Backspace? {
      BackspaceTraced(c, s0);
    } else if op.CutToEnd? {
      CutTillEofTraced(c, s0);
    } else if op.Paste? {
      PasteTraced(c, s0);
    } else if op.InsertFile? {
      InsertTraced(c, s0, op.text);
    } else if op.IndentRegion? {
      IndentTraced(s0, op.top, op.bot, op.indentation);
    } else {
      UnindentTraced(c, s0, op.top, op.bot);
    }
  }
}

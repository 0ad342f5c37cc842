/** A history of whole-text snapshots, and what it means for the stack of undo
    items to stand for one. */
module History {
  import opened Chars
  import opened Lines
  import opened EditModel
  import opened Options

  /** What a statement is about: any bytes, or well-formed UTF-8 only (utf8);
      the text only, or its recorded size as well (sized). */
  datatype Mode = Mode(config: Config, utf8: bool, sized: bool)

  datatype Snap = Snap(lines: Text, size: int)

  /** Snapshots of the buffer, oldest first; the position of the present one;
      and the text that was last loaded or saved. */
  datatype History = History(snaps: seq<Snap>, pos: nat, saved: Text)

  predicate OkPos(m: Mode, t: Text, p: Pos) {
    ValidPos(t, p) && (m.utf8 ==> Boundary(t[p.row], p.x))
  }

  predicate OkText(m: Mode, t: Text) {
    Finished(m.config.noNewlines, t) && (m.utf8 ==> AllWellFormed(t))
  }

  predicate OkSize(m: Mode, t: Text, size: int) {
    m.utf8 && m.sized ==> size == Characters(t)
  }

  function SnapOf(s: State): Snap {
    Snap(s.lines, s.size)
  }

  // ----- Items stand for pairs of snapshots ----------------------------------------

  /** Undoing and redoing leave an item alone, but for the line that a replacement
      keeps and the text that an insertion does. */
  predicate SameMarks(j: Item, i: Item) {
    j == i.(str := if i.kind == REPLACE then j.str else i.str, cut := if i.kind == INSERT then j.cut else i.cut)
  }

  /** Item i can be undone in `post`, which gives `pre`, and the item is then
      ready to be redone in `pre`, which gives `post` and the same item again. */
  predicate Applied(m: Mode, i: Item, pre: Text, post: Text) {
    var n := m.config.noNewlines;
    && CanUndo(n, i, post)
    && var u := UndoItem(n, i, post);
    && u.lines == pre && OkPos(m, pre, Pos(u.row, u.x))
    && SameMarks(u.item, i)
    && CanRedo(n, u.item, pre)
    && var r := RedoItem(n, u.item, pre);
    && r.lines == post && OkPos(m, post, Pos(r.row, r.x)) && r.item == i
  }

  /** Item i is what undoing an applied item has left. */
  predicate Undone(m: Mode, i: Item, pre: Text, post: Text) {
    var n := m.config.noNewlines;
    && CanRedo(n, i, pre)
    && var j := RedoItem(n, i, pre).item;
    && Applied(m, j, pre, post) && UndoItem(n, j, post).item == i
  }

  // ----- The invariant ----------------------------------------------------------------

  predicate Mergeable(k: Kind) {
    k == ADD || k == BACK || k == DEL || k == CUT || k == ZAP
  }

  /** A cut or zap that the next cut or zap may extend: the cursor is where the
      cut was made, and putting the cut text back there gives the text before. */
  predicate Running(m: Mode, s: State, u: Item, pre: Text) {
    var p := CutHead(u);
    && u.cut.Some? && !u.markWasSet && !u.includedLastLine && u.cursorAtHead
    && u.wholeLine == !s.cutFromCursor
    && s.row == u.headRow && (s.cutFromCursor ==> s.x == u.headX)
    && OkPos(m, s.lines, p)
    && OkPos(m, pre, Pos(u.headRow, u.headX))
    && pre == Join(Join(Head(s.lines, p), u.cut.value), Rest(s.lines, p))
    && Pos(u.tailRow, u.tailX) == EndAfter(p, u.cut.value) != p
    && (u.wholeLine ==> u.tailX == 0 || (s.row == |s.lines| - 1 && s.lines[s.row] == []))
  }

  /** When the last action may be extended, its item is on top and fits. */
  predicate Ready(m: Mode, s: State, h: History) {
    Mergeable(s.last) ==>
      && s.applied == |s.stack| > 0
      && var u := Top(s);
      && u.kind == s.last && u.id != s.saved
      && (u.kind == ADD ==>
          && u.tailRow == u.headRow && u.tailX == u.headX + |u.str|
          && |h.snaps| == |s.stack| + 1
          && (u.includedLastLine <==> u.headRow == |h.snaps[|s.stack| - 1].lines| - 1))
      && (u.kind == BACK || u.kind == DEL ==> u.tailRow == u.headRow)
      && (u.kind == CUT && s.keep ==> s.cutbuffer == u.cut)
      && ((u.kind == CUT || u.kind == ZAP) && s.keep ==>
          |h.snaps| == |s.stack| + 1 && Running(m, s, u, h.snaps[|s.stack| - 1].lines))
  }

  predicate IdsDistinct(s: State) {
    && (forall k | 0 <= k < |s.stack| :: 0 < s.stack[k].id < s.nextId)
    && (forall j, k | 0 <= j < k < |s.stack| :: s.stack[j].id < s.stack[k].id)
    && s.saved < s.nextId
  }

  predicate ItemsStand(m: Mode, s: State, h: History) {
    && |h.snaps| == |s.stack| + 1 && h.pos == s.applied <= |s.stack|
    && (forall k | 0 <= k < s.applied ::
          Applied(m, s.stack[k], h.snaps[k].lines, h.snaps[k + 1].lines))
    && (forall k | s.applied <= k < |s.stack| ::
          Undone(m, s.stack[k], h.snaps[k].lines, h.snaps[k + 1].lines))
    && (m.sized ==> forall k | 0 <= k < |s.stack| ::
          s.stack[k].wassize == h.snaps[k].size && SizeAfter(s.stack[k], h.snaps[k], h.snaps[k + 1]))
  }

  /** An item notes the size after its step; but one of a replacement still has the
      size before it. */
  predicate SizeAfter(i: Item, a: Snap, b: Snap) {
    if i.kind != REPLACE then i.newsize == b.size
    else
      && i.newsize == a.size
      && i.tailRow < |a.lines| && i.tailRow < |b.lines|
      && b.size == a.size + Count(b.lines[i.tailRow]) - Count(a.lines[i.tailRow])
  }

  predicate SnapsFine(m: Mode, h: History) {
    forall k | 0 <= k < |h.snaps| :: OkText(m, h.snaps[k].lines) && OkSize(m, h.snaps[k].lines, h.snaps[k].size)
  }

  /** The Modified flag and the saved point speak of the same text. */
  predicate SavedStands(s: State, h: History) {
    && (!s.modified ==> s.lines == h.saved)
    && (forall k | 0 <= k <= |s.stack| && k < |h.snaps| ::
          IdAt(s.stack, k) == s.saved ==> h.snaps[k].lines == h.saved)
  }

  predicate Inv(m: Mode, s: State, h: History) {
    && ItemsStand(m, s, h)
    && h.snaps[h.pos].lines == s.lines && (m.sized ==> h.snaps[h.pos].size == s.size)
    && SnapsFine(m, h)
    && OkPos(m, s.lines, Cursor(s))
    && (m.utf8 && s.cutbuffer.Some? ==> AllWellFormed(s.cutbuffer.value))
    && IdsDistinct(s)
    && SavedStands(s, h)
    && Ready(m, s, h)
  }

  /** What the invariant says about the present state. */
  lemma Present(m: Mode, s: State, h: History)
    requires Inv(m, s, h)
    ensures ValidState(s) && OkBuffer(m, s)
    ensures OkText(m, s.lines) && OkSize(m, s.lines, s.size) && OkPos(m, s.lines, Cursor(s))
    ensures m.utf8 && s.cutbuffer.Some? ==> AllWellFormed(s.cutbuffer.value)
    ensures h.pos == s.applied <= |s.stack| && |h.snaps| == |s.stack| + 1 && h.snaps[h.pos].lines == s.lines
    ensures s.saved < s.nextId
    ensures Ready(m, s, h)
    ensures Mergeable(s.last) ==>
              && h.pos == |s.stack| > 0 && Top(s).id != s.saved
              && Applied(m, Top(s), h.snaps[h.pos - 1].lines, s.lines)
              && OkText(m, h.snaps[h.pos - 1].lines)
  {
    hide Applied, Undone, Running, OkText, AllWellFormed, Characters;
    assert OkText(m, h.snaps[h.pos].lines);
  }

  // ----- Steps of a snapshot history -----------------------------------------------------

  function Recorded(h: History, snap: Snap): History
    requires h.pos < |h.snaps|
  {
    h.(snaps := h.snaps[..h.pos + 1] + [snap], pos := h.pos + 1)
  }

  function Amended(h: History, snap: Snap): History
    requires h.pos < |h.snaps|
  {
    h.(snaps := h.snaps[h.pos := snap])
  }

  /** How a history follows an edit: a new item records a new snapshot; without
      one the newest snapshot changes with the buffer. */
  function Track(s: State, s': State, h: History): History
    requires h.pos < |h.snaps|
  {
    if s'.nextId > s.nextId then Recorded(h, SnapOf(s')) else Amended(h, SnapOf(s'))
  }

  /** An edit makes one new item, dropping the undone ones; or it extends the
      newest item; or it changes no text. */
  predicate Shape(s: State, s': State) {
    if s'.nextId == s.nextId + 1 then
      && s.applied <= |s.stack| && s'.applied == s.applied + 1 == |s'.stack|
      && (forall k | 0 <= k < s.applied :: s'.stack[k].id == s.stack[k].id)
      && s'.stack[s.applied].id == s.nextId
    else
      && s'.nextId == s.nextId && s'.applied == s.applied && |s'.stack| == |s.stack|
      && (forall k | 0 <= k < |s.stack| :: s'.stack[k].id == s.stack[k].id)
      && ((s'.lines == s.lines && s'.size == s.size) || s.applied == |s.stack| > 0)
  }

  /** The edit that made s' of s keeps the invariant, and h follows it. */
  predicate Kept(m: Mode, s: State, s': State, h: History) {
    h.pos < |h.snaps| && Inv(m, s', Track(s, s', h)) && Shape(s, s')
  }

  lemma OpenedInv(m: Mode, t: Text, size: int)
    requires OkText(m, t) && OkSize(m, t, size)
    ensures Inv(m, Opened(t, size), History([Snap(t, size)], 0, t))
  {
    EndIsBoundary(t[0]);
  }

  /** Item i is new on top of the stack, with the sizes before and after. */
  predicate NewOnTop(m: Mode, s: State, s': State, i: Item) {
    && s.applied <= |s.stack|
    && s'.stack == s.stack[..s.applied] + [i] && s'.applied == s.applied + 1
    && i.id == s.nextId && s'.nextId == s.nextId + 1 && s'.saved == s.saved
    && i.wassize == s.size && (m.sized ==> SizeAfter(i, SnapOf(s), SnapOf(s')))
  }

  /** The text, its size and the cursor are as they should be. */
  predicate OkBuffer(m: Mode, s: State) {
    OkText(m, s.lines) && OkSize(m, s.lines, s.size) && OkPos(m, s.lines, Cursor(s))
  }

  lemma BufferParts(m: Mode, s: State)
    requires OkBuffer(m, s)
    ensures OkText(m, s.lines) && OkSize(m, s.lines, s.size) && OkPos(m, s.lines, Cursor(s))
    ensures Cursor(s) == Pos(s.row, s.x)
  {
  }

  lemma PutTogether(m: Mode, s: State, s': State, i: Item)
    requires OkText(m, s'.lines) && OkSize(m, s'.lines, s'.size) && OkPos(m, s'.lines, Cursor(s'))
    requires ValidState(s) && s'.stack == s.stack[..s.applied] + [i] && s'.applied == s.applied + 1
    requires i.id == s.nextId && s'.nextId == s.nextId + 1 && s'.saved == s.saved
    requires i.kind != REPLACE && i.wassize == s.size && i.newsize == s'.size
    ensures OkBuffer(m, s') && NewOnTop(m, s, s', i)
  {
  }

  /** An edit that puts an applied item on the stack keeps the invariant. */
  lemma RecordKeeps(m: Mode, s: State, h: History, s': State, i: Item)
    requires Inv(m, s, h)
    requires NewOnTop(m, s, s', i) && Applied(m, i, s.lines, s'.lines) && OkBuffer(m, s')
    requires m.utf8 && s'.cutbuffer.Some? ==> AllWellFormed(s'.cutbuffer.value)
    requires !s'.modified ==> !s.modified && s'.lines == s.lines
    requires h.pos < |h.snaps| && Ready(m, s', Recorded(h, SnapOf(s')))
    ensures Kept(m, s, s', h)
  {
    hide Applied, Undone, Ready, OkText, OkSize, OkPos, AllWellFormed, ItemsStand, SnapsFine, SavedStands, IdsDistinct;
    InvItems(m, s, h);
    ItemsRecorded(m, s, h, s', i);
    SnapsRecorded(m, h, SnapOf(s'));
    SavedRecorded(m, s, h, s', i);
  }

  /** The bounds that hold in every state of the invariant. */
  lemma InvItems(m: Mode, s: State, h: History)
    requires Inv(m, s, h)
    ensures |h.snaps| == |s.stack| + 1 && h.pos == s.applied <= |s.stack|
  {
    hide Applied, Undone, Ready, OkText, OkSize, OkPos, AllWellFormed, SnapsFine, SavedStands, IdsDistinct;
  }

  lemma ItemsRecorded(m: Mode, s: State, h: History, s': State, i: Item)
    requires ItemsStand(m, s, h) && h.snaps[h.pos].lines == s.lines && (m.sized ==> h.snaps[h.pos].size == s.size)
    requires s'.stack == s.stack[..s.applied] + [i] && s'.applied == s.applied + 1
    requires Applied(m, i, s.lines, s'.lines)
    requires m.sized ==> i.wassize == s.size && SizeAfter(i, SnapOf(s), SnapOf(s'))
    ensures ItemsStand(m, s', Recorded(h, SnapOf(s')))
  {
    hide Applied, Undone;
    var h' := Recorded(h, SnapOf(s'));
    forall k | 0 <= k < |s'.stack|
      ensures Applied(m, s'.stack[k], h'.snaps[k].lines, h'.snaps[k + 1].lines)
    {
    }
  }

  lemma SnapsRecorded(m: Mode, h: History, snap: Snap)
    requires SnapsFine(m, h) && h.pos < |h.snaps| && OkText(m, snap.lines) && OkSize(m, snap.lines, snap.size)
    ensures SnapsFine(m, Recorded(h, snap)) && SnapsFine(m, Amended(h, snap))
  {
    hide OkText, OkSize;
  }

  lemma SavedRecorded(m: Mode, s: State, h: History, s': State, i: Item)
    requires SavedStands(s, h) && IdsDistinct(s) && |h.snaps| == |s.stack| + 1 && h.pos == s.applied <= |s.stack|
    requires s'.stack == s.stack[..s.applied] + [i] && s'.applied == s.applied + 1
    requires i.id == s.nextId && s'.nextId == s.nextId + 1 && s'.saved == s.saved
    requires !s'.modified ==> !s.modified && s'.lines == s.lines
    ensures SavedStands(s', Recorded(h, SnapOf(s'))) && IdsDistinct(s')
  {
    var h' := Recorded(h, SnapOf(s'));
    forall k | 0 <= k <= |s'.stack| && IdAt(s'.stack, k) == s'.saved
      ensures h'.snaps[k].lines == h'.saved
    {
      assert k <= s.applied && IdAt(s.stack, k) == s.saved;
    }
  }

  /** The same for an edit that the next one cannot extend. */
  lemma RecordPlainKeeps(m: Mode, s: State, h: History, s': State, i: Item)
    requires Inv(m, s, h)
    requires NewOnTop(m, s, s', i) && Applied(m, i, s.lines, s'.lines) && OkBuffer(m, s')
    requires s'.cutbuffer == s.cutbuffer && !Mergeable(s'.last)
    requires !s'.modified ==> !s.modified && s'.lines == s.lines
    ensures Kept(m, s, s', h)
  {
    hide *;
    Present(m, s, h);
    NothingRunning(m, s', Recorded(h, SnapOf(s')));
    RecordKeeps(m, s, h, s', i);
  }

  lemma NothingRunning(m: Mode, s: State, h: History)
    requires !Mergeable(s.last)
    ensures Ready(m, s, h)
  {
  }

  /** An edit that extends the item on top keeps the invariant. */
  lemma AmendKeeps(m: Mode, s: State, h: History, s': State, i: Item)
    requires Inv(m, s, h)
    requires s.applied == |s.stack| > 0 && Top(s).id != s.saved
    requires s'.stack == s.stack[|s.stack| - 1 := i] && s'.applied == s.applied
    requires i.id == Top(s).id && i.wassize == Top(s).wassize
    requires s'.nextId == s.nextId && s'.saved == s.saved
    requires 0 < h.pos < |h.snaps| && Applied(m, i, h.snaps[h.pos - 1].lines, s'.lines)
    requires OkBuffer(m, s')
    requires m.sized ==> i.kind != REPLACE && i.newsize == s'.size
    requires m.utf8 && s'.cutbuffer.Some? ==> AllWellFormed(s'.cutbuffer.value)
    requires s'.modified
    requires Ready(m, s', Amended(h, SnapOf(s')))
    ensures Kept(m, s, s', h)
  {
    hide Applied, Undone, Ready, OkText, OkSize, OkPos, AllWellFormed, ItemsStand, SnapsFine, SavedStands, IdsDistinct;
    InvItems(m, s, h);
    ItemsAmended(m, s, h, s', i);
    SnapsRecorded(m, h, SnapOf(s'));
    SavedAmended(m, s, h, s', i);
  }

  lemma ItemsAmended(m: Mode, s: State, h: History, s': State, i: Item)
    requires ItemsStand(m, s, h) && s.applied == |s.stack| > 0
    requires s'.stack == s.stack[|s.stack| - 1 := i] && s'.applied == s.applied
    requires Applied(m, i, h.snaps[h.pos - 1].lines, s'.lines)
    requires i.wassize == Top(s).wassize && (m.sized ==> i.kind != REPLACE && i.newsize == s'.size)
    ensures ItemsStand(m, s', Amended(h, SnapOf(s')))
  {
    hide Applied, Undone;
  }

  lemma SavedAmended(m: Mode, s: State, h: History, s': State, i: Item)
    requires SavedStands(s, h) && IdsDistinct(s) && |h.snaps| == |s.stack| + 1
    requires h.pos == s.applied == |s.stack| > 0 && Top(s).id != s.saved
    requires s'.stack == s.stack[|s.stack| - 1 := i] && i.id == Top(s).id
    requires s'.nextId == s.nextId && s'.saved == s.saved && s'.modified
    ensures SavedStands(s', Amended(h, SnapOf(s'))) && IdsDistinct(s')
  {
    forall k | 0 <= k <= |s'.stack| && IdAt(s'.stack, k) == s'.saved
      ensures Amended(h, SnapOf(s')).snaps[k].lines == h.saved
    {
      assert k < |s.stack| && IdAt(s.stack, k) == s.saved;
    }
  }

  lemma TrackStill(m: Mode, s: State, h: History, s': State)
    requires Inv(m, s, h) && s'.lines == s.lines && s'.size == s.size && s'.nextId == s.nextId
    ensures h.pos < |h.snaps| && Track(s, s', h) == Amended(h, SnapOf(s'))
    ensures m.sized ==> Track(s, s', h) == h
  {
    Present(m, s, h);
    hide ItemsStand, SnapsFine, OkPos, AllWellFormed, IdsDistinct, SavedStands, Ready;
    assert m.sized ==> h.snaps[h.pos := SnapOf(s')] == h.snaps;
  }

  /** A step that leaves text and items alone keeps the invariant. */
  lemma StillKeeps(m: Mode, s: State, h: History, s': State)
    requires Inv(m, s, h)
    requires s'.stack == s.stack && s'.applied == s.applied && s'.lines == s.lines && s'.size == s.size
    requires s'.nextId == s.nextId && s'.saved == s.saved
    requires OkPos(m, s'.lines, Cursor(s'))
    requires m.utf8 && s'.cutbuffer.Some? ==> AllWellFormed(s'.cutbuffer.value)
    requires s.modified ==> s'.modified
    requires s'.last == s.last || !Mergeable(s'.last)
    requires (s'.last == CUT || s'.last == ZAP) && s'.keep ==>
               s.keep && s'.cutFromCursor == s.cutFromCursor && Cursor(s') == Cursor(s) && s'.cutbuffer == s.cutbuffer
    ensures Kept(m, s, s', h)
    ensures m.sized ==> Track(s, s', h) == h
  {
    hide Inv, Track, Shape, Amended, OkPos, AllWellFormed;
    TrackStill(m, s, h, s');
    StillInv(m, s, h, s');
    Present(m, s, h);
    StillShape(s, s');
  }

  lemma StillShape(s: State, s': State)
    requires s'.stack == s.stack && s'.applied == s.applied <= |s.stack| && s'.nextId == s.nextId
    requires s'.lines == s.lines && s'.size == s.size
    ensures Shape(s, s')
  {
  }

  lemma StillInv(m: Mode, s: State, h: History, s': State)
    requires Inv(m, s, h)
    requires s'.stack == s.stack && s'.applied == s.applied && s'.lines == s.lines && s'.size == s.size
    requires s'.nextId == s.nextId && s'.saved == s.saved
    requires OkPos(m, s'.lines, Cursor(s'))
    requires m.utf8 && s'.cutbuffer.Some? ==> AllWellFormed(s'.cutbuffer.value)
    requires s.modified ==> s'.modified
    requires s'.last == s.last || !Mergeable(s'.last)
    requires (s'.last == CUT || s'.last == ZAP) && s'.keep ==>
               s.keep && s'.cutFromCursor == s.cutFromCursor && Cursor(s') == Cursor(s) && s'.cutbuffer == s.cutbuffer
    ensures h.pos < |h.snaps| && Inv(m, s', Amended(h, SnapOf(s')))
  {
    Present(m, s, h);
    hide SizeAfter, Applied, Undone, OkText, OkSize, OkPos, AllWellFormed, ItemsStand, SnapsFine, SavedStands,
      IdsDistinct, Ready;
    SnapsRecorded(m, h, SnapOf(s'));
    ItemsStill(m, s, h, s');
    SavedStill(m, s, h, s');
    ReadyStill(m, s, h, s');
  }

  lemma ItemsStill(m: Mode, s: State, h: History, s': State)
    requires ItemsStand(m, s, h) && h.snaps[h.pos].lines == s.lines && (m.sized ==> h.snaps[h.pos].size == s.size)
    requires s'.stack == s.stack && s'.applied == s.applied && s'.lines == s.lines && s'.size == s.size
    ensures ItemsStand(m, s', Amended(h, SnapOf(s')))
  {
    hide Applied, Undone;
    var h' := Amended(h, SnapOf(s'));
    assert forall k | 0 <= k < |h.snaps| :: h'.snaps[k].lines == h.snaps[k].lines;
  }

  lemma SavedStill(m: Mode, s: State, h: History, s': State)
    requires SavedStands(s, h) && IdsDistinct(s) && h.pos < |h.snaps| && h.snaps[h.pos].lines == s.lines
    requires s'.stack == s.stack && s'.lines == s.lines
    requires s'.nextId == s.nextId && s'.saved == s.saved && (s.modified ==> s'.modified)
    ensures SavedStands(s', Amended(h, SnapOf(s'))) && IdsDistinct(s')
  {
    var h' := Amended(h, SnapOf(s'));
    assert forall k | 0 <= k < |h.snaps| :: h'.snaps[k].lines == h.snaps[k].lines;
  }

  lemma ReadyStill(m: Mode, s: State, h: History, s': State)
    requires Ready(m, s, h) && h.pos < |h.snaps| && h.snaps[h.pos].lines == s.lines
    requires s'.stack == s.stack && s'.applied == s.applied && s'.lines == s.lines && s'.saved == s.saved
    requires s'.last == s.last || !Mergeable(s'.last)
    requires (s'.last == CUT || s'.last == ZAP) && s'.keep ==>
               s.keep && s'.cutFromCursor == s.cutFromCursor && Cursor(s') == Cursor(s) && s'.cutbuffer == s.cutbuffer
    ensures Ready(m, s', Amended(h, SnapOf(s'))) && Ready(m, s', h)
  {
    hide OkPos, Join, Head, Rest, EndAfter;
    var h' := Amended(h, SnapOf(s'));
    assert forall k | 0 <= k < |h.snaps| :: h'.snaps[k].lines == h.snaps[k].lines;
  }

  // ----- Undo, redo and saving are steps of the snapshot history --------------------------

  lemma UndoOne(m: Mode, i: Item, pre: Text, post: Text)
    requires Applied(m, i, pre, post)
    ensures var n := m.config.noNewlines;
            && CanUndo(n, i, post)
            && var e := UndoItem(n, i, post);
            && e.lines == pre && OkPos(m, pre, Pos(e.row, e.x))
            && Undone(m, e.item, pre, post)
            && SameMarks(e.item, i)
  {
    hide UndoItem, RedoItem, CanUndo, CanRedo, OkPos;
  }

  lemma RedoOne(m: Mode, i: Item, pre: Text, post: Text)
    requires Undone(m, i, pre, post)
    ensures var n := m.config.noNewlines;
            && CanRedo(n, i, pre)
            && var e := RedoItem(n, i, pre);
            && e.lines == post && OkPos(m, post, Pos(e.row, e.x))
            && Applied(m, e.item, pre, post)
            && SameMarks(e.item, i)
  {
    hide UndoItem, RedoItem, CanUndo, CanRedo, OkPos;
  }

  /** The one redo that does not set the Modified flag changes no text. */
  lemma RedoOfNothing(noNewlines: bool, i: Item, t: Text)
    ensures CanRedo(noNewlines, i, t) && i.kind == INSERT && i.cut.None? ==>
              RedoItem(noNewlines, i, t).lines == t
  {
  }

  /** One item has changed its place between the applied and the undone ones. */
  lemma ItemsMoved(m: Mode, s: State, h: History, s': State, at: nat, i: Item)
    requires ItemsStand(m, s, h) && at < |s.stack| && s'.stack == s.stack[at := i]
    requires SameMarks(i, s.stack[at])
    requires || (s.applied == at + 1 && s'.applied == at && Undone(m, i, h.snaps[at].lines, h.snaps[at + 1].lines))
             || (s.applied == at && s'.applied == at + 1 && Applied(m, i, h.snaps[at].lines, h.snaps[at + 1].lines))
    ensures ItemsStand(m, s', h.(pos := s'.applied))
  {
    hide Applied, Undone;
  }

  lemma SavedMoved(s: State, h: History, s': State, at: nat, i: Item)
    requires SavedStands(s, h) && IdsDistinct(s) && |h.snaps| == |s.stack| + 1 && s'.applied <= |s.stack|
    requires at < |s.stack| && s'.stack == s.stack[at := i] && i.id == s.stack[at].id
    requires s'.nextId == s.nextId && s'.saved == s.saved && s'.lines == h.snaps[s'.applied].lines
    requires !s'.modified ==> IdAt(s.stack, s'.applied) == s.saved || (!s.modified && s'.lines == s.lines)
    ensures SavedStands(s', h.(pos := s'.applied)) && IdsDistinct(s')
  {
    assert forall k | 0 <= k <= |s.stack| :: IdAt(s'.stack, k) == IdAt(s.stack, k);
  }

  /** An undo or redo of the item at `at` that fits the invariant's pair of
      snapshots takes the invariant to the other snapshot. */
  lemma MovedInv(m: Mode, s: State, h: History, s': State, at: nat, i: Item)
    requires Inv(m, s, h) && at < |s.stack| && |h.snaps| == |s.stack| + 1
    requires s'.stack == s.stack[at := i]
    requires SameMarks(i, s.stack[at])
    requires || (s.applied == at + 1 && s'.applied == at && Undone(m, i, h.snaps[at].lines, h.snaps[at + 1].lines))
             || (s.applied == at && s'.applied == at + 1 && Applied(m, i, h.snaps[at].lines, h.snaps[at + 1].lines))
    requires s'.lines == h.snaps[s'.applied].lines && (m.sized ==> s'.size == h.snaps[s'.applied].size)
    requires OkPos(m, s'.lines, Cursor(s')) && s'.cutbuffer == s.cutbuffer && !Mergeable(s'.last)
    requires s'.nextId == s.nextId && s'.saved == s.saved
    requires !s'.modified ==> IdAt(s.stack, s'.applied) == s.saved || (!s.modified && s'.lines == s.lines)
    ensures Inv(m, s', h.(pos := s'.applied))
  {
    hide ItemsStand, OkPos, SavedStands, IdsDistinct, Ready, OkText, OkSize, Applied, Undone;
    ItemsMoved(m, s, h, s', at, i);
    SavedMoved(s, h, s', at, i);
    NothingRunning(m, s', h.(pos := s'.applied));
  }

  /** The fields that do_undo changes. */
  lemma UndoFields(c: Config, s: State)
    requires s.applied <= |s.stack| && s.applied > 0 && CanUndo(c.noNewlines, s.stack[s.applied - 1], s.lines)
    ensures CanDoUndo(c, s)
    ensures var (u, s') := (s.stack[s.applied - 1], DoUndo(c, s));
            var e := UndoItem(c.noNewlines, u, s.lines);
            && s'.applied == s.applied - 1 && s'.stack == s.stack[s.applied - 1 := e.item]
            && s'.lines == e.lines && Cursor(s') == Pos(e.row, e.x) && s'.size == u.wassize
            && !Mergeable(s'.last) && s'.cutbuffer == s.cutbuffer
            && s'.nextId == s.nextId && s'.saved == s.saved
            && (!s'.modified ==> IdAt(s.stack, s'.applied) == s.saved)
  {
    hide UndoItem, CanUndo;
  }

  /** The fields that do_redo changes. */
  lemma RedoFields(c: Config, s: State)
    requires s.applied <= |s.stack| && s.applied < |s.stack| && CanRedo(c.noNewlines, s.stack[s.applied], s.lines)
    ensures CanDoRedo(c, s)
    ensures var (u, s') := (s.stack[s.applied], DoRedo(c, s));
            var e := RedoItem(c.noNewlines, u, s.lines);
            && s'.applied == s.applied + 1 && s'.stack == s.stack[s.applied := e.item]
            && s'.lines == e.lines && Cursor(s') == Pos(e.row, e.x) && s'.size == u.newsize
            && !Mergeable(s'.last) && s'.cutbuffer == s.cutbuffer
            && s'.nextId == s.nextId && s'.saved == s.saved
            && (!s'.modified ==> IdAt(s.stack, s'.applied) == s.saved || (!s.modified && s'.lines == s.lines))
  {
    RedoOfNothing(c.noNewlines, s.stack[s.applied], s.lines);
    hide RedoItem, CanRedo;
  }

  /** What the invariant says about the item that is undone or redone next. */
  lemma NextItems(m: Mode, s: State, h: History)
    requires Inv(m, s, h)
    ensures h.snaps != [] && h.pos < |h.snaps| && h.snaps[h.pos].lines == s.lines
    ensures s.applied > 0 ==>
              && Applied(m, s.stack[s.applied - 1], h.snaps[s.applied - 1].lines, s.lines)
              && (m.sized ==> s.stack[s.applied - 1].wassize == h.snaps[s.applied - 1].size)
    ensures s.applied < |s.stack| ==>
              && Undone(m, s.stack[s.applied], s.lines, h.snaps[s.applied + 1].lines)
              && (m.sized ==> SizeAfter(s.stack[s.applied], h.snaps[s.applied], h.snaps[s.applied + 1]))
    ensures m.sized ==> h.snaps[h.pos].size == s.size
    ensures |h.snaps| == |s.stack| + 1 && h.pos == s.applied <= |s.stack|
  {
    hide Applied, Undone, OkText, OkSize, OkPos, Ready, SavedStands, IdsDistinct;
  }

  /** do_undo steps back to the previous snapshot, or does nothing at the oldest. */
  lemma UndoStep(m: Mode, s: State, h: History)
    requires Inv(m, s, h)
    ensures s.applied > 0 ==> CanDoUndo(m.config, s)
    ensures h.pos < |h.snaps|
    ensures var s' := DoUndo(m.config, s);
            var h' := h.(pos := if h.pos == 0 then 0 else h.pos - 1);
            && Inv(m, s', h')
            && s'.lines == h.snaps[h'.pos].lines && (m.sized ==> s'.size == h.snaps[h'.pos].size)
    ensures SameItems(s, DoUndo(m.config, s))
  {
    hide *;
    NextItems(m, s, h);
    if s.applied > 0 {
      UndoOne(m, s.stack[s.applied - 1], h.snaps[s.applied - 1].lines, s.lines);
      UndoFields(m.config, s);
      var s' := DoUndo(m.config, s);
      MovedInv(m, s, h, s', s'.applied, s'.stack[s'.applied]);
      OneReplaced(s, s', s'.applied, s'.stack[s'.applied]);
    } else {
      NothingLeft(m.config, s);
      assert h.(pos := 0) == h;
    }
  }

  /** Redoing the item in the text keeps the number of characters, or it is not the
      redoing of a replacement. */
  predicate RedoCounts(i: Item, t: Text) {
    i.kind == REPLACE && i.tailRow < |t| ==> Count(i.str) == Count(t[i.tailRow])
  }

  lemma RedoneSize(m: Mode, i: Item, a: Snap, b: Snap)
    requires Undone(m, i, a.lines, b.lines) && SizeAfter(i, a, b) && RedoCounts(i, a.lines)
    ensures i.newsize == b.size
  {
    hide Applied, Count;
  }

  /** do_redo steps forward to the next snapshot, or does nothing at the newest; the
      size is right too, unless it redoes a replacement that changes the number of
      characters. */
  lemma RedoStep(m: Mode, s: State, h: History)
    requires Inv(m, s, h)
    requires m.sized && s.applied < |s.stack| ==> RedoCounts(s.stack[s.applied], s.lines)
    ensures s.applied < |s.stack| ==> CanDoRedo(m.config, s)
    ensures h.pos < |h.snaps|
    ensures var s' := DoRedo(m.config, s);
            var h' := h.(pos := if h.pos == |h.snaps| - 1 then h.pos else h.pos + 1);
            && Inv(m, s', h')
            && s'.lines == h.snaps[h'.pos].lines && (m.sized ==> s'.size == h.snaps[h'.pos].size)
    ensures SameItems(s, DoRedo(m.config, s))
  {
    hide *;
    NextItems(m, s, h);
    if s.applied < |s.stack| {
      RedoOne(m, s.stack[s.applied], s.lines, h.snaps[s.applied + 1].lines);
      RedoFields(m.config, s);
      if m.sized {
        RedoneSize(m, s.stack[s.applied], h.snaps[s.applied], h.snaps[s.applied + 1]);
      }
      var s' := DoRedo(m.config, s);
      MovedInv(m, s, h, s', s.applied, s'.stack[s.applied]);
      OneReplaced(s, s', s.applied, s'.stack[s.applied]);
    } else {
      NothingLeft(m.config, s);
    }
  }

  /** The same items, but for what undoing and redoing change in them. */
  predicate SameItems(s: State, s': State) {
    && s'.nextId == s.nextId && |s'.stack| == |s.stack|
    && forall k | 0 <= k < |s.stack| :: SameMarks(s'.stack[k], s.stack[k])
  }

  lemma OneReplaced(s: State, s': State, at: nat, i: Item)
    requires at < |s.stack| && s'.stack == s.stack[at := i] && SameMarks(i, s.stack[at]) && s'.nextId == s.nextId
    ensures SameItems(s, s')
  {
  }

  lemma NothingLeft(c: Config, s: State)
    ensures SameItems(s, s)
    ensures s.applied == 0 ==> DoUndo(c, s) == s
    ensures s.applied >= |s.stack| ==> DoRedo(c, s) == s
  {
  }

  lemma SaveStep(m: Mode, s: State, h: History)
    requires Inv(m, s, h)
    ensures Inv(m, Saved(s), h.(saved := s.lines))
  {
    hide Applied, Undone, Running, OkText, OkSize, OkPos, SizeAfter;
    var s' := Saved(s);
    assert forall k | 0 <= k <= |s.stack| && IdAt(s.stack, k) == s'.saved :: k == s.applied;
  }
}

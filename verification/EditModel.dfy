/** Undo items and the editing operations that record them (text.c, cut.c,
    nano.c, files.c), on the values of the buffer.

    Rows count from zero: the line with number n is row n - 1. */
module EditModel {
  import opened Chars
  import opened Lines
  import opened Options

  datatype Kind =
    | ADD | ENTER | BACK | DEL | JOIN | REPLACE | INDENT | UNINDENT
    | ZAP | CUT | CUT_TO_EOF | COPY | PASTE | INSERT | OTHER

  /** One undo item (undostruct).  The id stands for the item's address; an
      address is never used for two items. */
  datatype Item = Item(
    id: nat,
    kind: Kind,
    backspaceAtEof: bool,
    includedLastLine: bool,
    wholeLine: bool,
    markWasSet: bool,
    cursorAtHead: bool,
    headRow: nat,
    headX: nat,
    tailRow: nat,
    tailX: nat,
    str: Line,
    wassize: int,
    newsize: int,
    topRow: nat,
    indents: seq<Line>,
    cut: Option<Text>)

  /** Settings that hold for a whole run: the flag NO_NEWLINES, the tab size,
      and which wide characters the locale calls blank (iswblank). */
  datatype Config = Config(noNewlines: bool, tabSize: nat, wideBlank: int -> bool)

  /** What undoing or redoing an item leaves: the text, the cursor and the item. */
  datatype Effect = Effect(lines: Text, row: nat, x: nat, item: Item)

  // ----- Small steps on the text -------------------------------------------------

  /** Where goto_line_posx puts the cursor. */
  function Goto(t: Text, row: nat, x: nat): Pos {
    Pos(if row < |t| - 1 then row else |t| - 1, x)
  }

  function RemoveMagic(t: Text): Text {
    if Last(t) == [] && |t| > 1 then t[..|t| - 1] else t
  }

  function InsertIn(l: Line, x: nat, s: Line): Line
    requires x <= |l|
  {
    l[..x] + s + l[x..]
  }

  function DeleteFrom(l: Line, x: nat, n: nat): Line
    requires x + n <= |l|
  {
    l[..x] + l[x + n..]
  }

  function BreakRow(t: Text, row: nat, x: nat, below: Line): Text
    requires row < |t| && x <= |t[row]|
  {
    t[..row] + [t[row][..x], below] + t[row + 1..]
  }

  function MergeRow(t: Text, row: nat, s: Line): Text
    requires row + 1 < |t|
  {
    t[..row] + [t[row] + s] + t[row + 2..]
  }

  /** indent_a_line on each row from `top` on. */
  function IndentRows(t: Text, top: nat, indents: seq<Line>): (r: Text)
    ensures |r| == |t|
  {
    seq(|t|, i requires 0 <= i < |t| =>
      if top <= i < top + |indents| then indents[i - top] + t[i] else t[i])
  }

  predicate Indented(t: Text, top: nat, indents: seq<Line>) {
    && top + |indents| <= |t|
    && forall k | 0 <= k < |indents| :: |indents[k]| <= |t[top + k]|
  }

  /** unindent_a_line on each row from `top` on. */
  function UnindentRows(t: Text, top: nat, indents: seq<Line>): (r: Text)
    requires Indented(t, top, indents)
    ensures |r| == |t|
  {
    seq(|t|, i requires 0 <= i < |t| =>
      if top <= i < top + |indents| then t[i][|indents[i - top]|..] else t[i])
  }

  /** How indent_a_line moves a cursor that is on the given row. */
  function ShiftRight(row: nat, x: nat, top: nat, indents: seq<Line>): nat {
    if top <= row < top + |indents| && x > 0 then x + |indents[row - top]| else x
  }

  /** compensate_leftward. */
  function ShiftLeft(row: nat, x: nat, top: nat, indents: seq<Line>): nat {
    if top <= row < top + |indents| then
      if x < |indents[row - top]| then 0 else x - |indents[row - top]|
    else x
  }

  // ----- undo_cut and redo_cut -----------------------------------------------------

  function CutHead(i: Item): Pos {
    Pos(i.headRow, if i.wholeLine then 0 else i.headX)
  }

  predicate CanPutBack(i: Item, t: Text) {
    ValidPos(t, Goto(t, CutHead(i).row, CutHead(i).x))
  }

  function UndoCut(noNewlines: bool, i: Item, t: Text): Effect
    requires CanPutBack(i, t)
  {
    var p := Goto(t, CutHead(i).row, CutHead(i).x);
    var t1 := if i.cut.Some? then Grafted(noNewlines, t, p, i.cut.value) else t;
    var c := if i.cut.Some? then EndAfter(p, i.cut.value) else p;
    var t2 := if i.includedLastLine && !noNewlines && c.row != |t1| - 1 && |t1| > 1 && t1[|t1| - 2] == []
              then RemoveMagic(t1) else t1;
    var c2 := if i.cursorAtHead then Goto(t2, i.headRow, i.headX) else c;
    Effect(t2, c2.row, c2.x, i)
  }

  predicate CanTakeAway(i: Item, t: Text) {
    var (p, q) := (CutHead(i), Goto(t, i.tailRow, i.tailX));
    ValidPos(t, p) && ValidPos(t, q) && Before(p, q)
  }

  function RedoCut(noNewlines: bool, i: Item, t: Text): Effect
    requires CanTakeAway(i, t)
  {
    var (p, q) := (CutHead(i), Goto(t, i.tailRow, i.tailX));
    Effect(Extracted(noNewlines, t, p, q), p.row, p.x, i)
  }

  /** The check that undoing a paste or an insertion makes afterwards. */
  function DropMagic(noNewlines: bool, e: Effect): Effect {
    if e.item.includedLastLine && !noNewlines && e.row != |e.lines| - 1 then
      e.(lines := RemoveMagic(e.lines))
    else e
  }

  // ----- do_undo and do_redo on one item ----------------------------------------------

  predicate CanUndo(noNewlines: bool, i: Item, t: Text) {
    match i.kind
    case ADD =>
      var t1 := if i.includedLastLine && !noNewlines then RemoveMagic(t) else t;
      i.tailRow < |t1| && i.headX + |i.str| <= |t1[i.tailRow]|
    case ENTER =>
      i.tailRow + 1 < |t| && (i.headX == 0 || i.tailX <= |i.str|)
    case BACK => i.tailRow < |t| && i.headX <= |t[i.tailRow]|
    case DEL => i.tailRow < |t| && i.headX <= |t[i.tailRow]|
    case JOIN => i.tailRow < |t| && i.tailX <= |t[i.tailRow]|
    case REPLACE => i.tailRow < |t|
    case INDENT => Indented(t, i.topRow, i.indents)
    case UNINDENT => i.topRow + |i.indents| <= |t|
    case PASTE => CanTakeAway(i, t)
    case INSERT => i.tailRow < |t| && CanTakeAway(i, t)
    case _ => CanPutBack(i, t)
  }

  function UndoItem(noNewlines: bool, i: Item, t: Text): Effect
    requires CanUndo(noNewlines, i, t)
  {
    match i.kind
    case ADD =>
      var t1 := if i.includedLastLine && !noNewlines then RemoveMagic(t) else t;
      var t2 := t1[i.tailRow := DeleteFrom(t1[i.tailRow], i.headX, |i.str|)];
      var c := Goto(t2, i.headRow, i.headX);
      Effect(t2, c.row, c.x, i)
    case ENTER =>
      var originalX := if i.headX == 0 then i.tailX else i.headX;
      var regainFrom := if i.headX == 0 then 0 else i.tailX;
      var t1 := MergeRow(t, i.tailRow, i.str[regainFrom..]);
      var c := Goto(t1, i.headRow, originalX);
      Effect(t1, c.row, c.x, i)
    case BACK => UndoDelete(i, t)
    case DEL => UndoDelete(i, t)
    case JOIN =>
      if i.backspaceAtEof && !noNewlines then
        Effect(t, |t| - 1, 0, i)
      else
        var t1 := BreakRow(t, i.tailRow, i.tailX, i.str);
        var c := Goto(t1, i.headRow, i.headX);
        Effect(t1, c.row, c.x, i)
    case REPLACE => SwapLine(i, t)
    case INDENT =>
      var c := Goto(t, i.headRow, i.headX);
      Effect(UnindentRows(t, i.topRow, i.indents), c.row, c.x, i)
    case UNINDENT =>
      var c := Goto(t, i.headRow, i.headX);
      Effect(IndentRows(t, i.topRow, i.indents), c.row, c.x, i)
    case PASTE => DropMagic(noNewlines, RedoCut(noNewlines, i, t))
    case INSERT =>
      var (p, q) := (CutHead(i), Goto(t, i.tailRow, i.tailX));
      var taken := if p == q then None else Some(Segment(t, p, q));
      DropMagic(noNewlines, RedoCut(noNewlines, i, t)).(item := i.(cut := taken))
    case _ => UndoCut(noNewlines, i, t)
  }

  function UndoDelete(i: Item, t: Text): Effect
    requires i.tailRow < |t| && i.headX <= |t[i.tailRow]|
  {
    var t1 := t[i.tailRow := InsertIn(t[i.tailRow], i.headX, i.str)];
    var c := Goto(t1, i.tailRow, i.tailX);
    Effect(t1, c.row, c.x, i)
  }

  function SwapLine(i: Item, t: Text): Effect
    requires i.tailRow < |t|
  {
    var c := Goto(t, i.headRow, i.headX);
    Effect(t[i.tailRow := i.str], c.row, c.x, i.(str := t[i.tailRow]))
  }

  predicate CanRedo(noNewlines: bool, i: Item, t: Text) {
    match i.kind
    case ADD => i.tailRow < |t| && i.headX <= |t[i.tailRow]|
    case ENTER => i.tailRow < |t| && i.headX <= |t[i.tailRow]|
    case BACK => i.tailRow < |t| && i.headX + |i.str| <= |t[i.tailRow]|
    case DEL => i.tailRow < |t| && i.headX + |i.str| <= |t[i.tailRow]|
    case JOIN => (i.backspaceAtEof && !noNewlines) || i.tailRow + 1 < |t|
    case REPLACE => i.tailRow < |t|
    case INDENT => i.topRow + |i.indents| <= |t|
    case UNINDENT => Indented(t, i.topRow, i.indents)
    case PASTE => CanPutBack(i, t)
    case INSERT => CanPutBack(i, t)
    case _ => CanTakeAway(i, t)
  }

  function RedoItem(noNewlines: bool, i: Item, t: Text): Effect
    requires CanRedo(noNewlines, i, t)
  {
    match i.kind
    case ADD =>
      var t1: Text := if i.includedLastLine && !noNewlines then t + [[]] else t;
      var t2 := t1[i.tailRow := InsertIn(t1[i.tailRow], i.headX, i.str)];
      var c := Goto(t2, i.tailRow, i.tailX);
      Effect(t2, c.row, c.x, i)
    case ENTER =>
      var t1 := BreakRow(t, i.tailRow, i.headX, i.str);
      var c := Goto(t1, i.headRow + 1, i.tailX);
      Effect(t1, c.row, c.x, i)
    case BACK => RedoDelete(i, t)
    case DEL => RedoDelete(i, t)
    case JOIN =>
      if i.backspaceAtEof && !noNewlines then
        var c := Goto(t, i.tailRow, i.tailX);
        Effect(t, c.row, c.x, i)
      else
        var t1 := MergeRow(t, i.tailRow, i.str);
        var c := Goto(t1, i.tailRow, i.tailX);
        Effect(t1, c.row, c.x, i)
    case REPLACE => SwapLine(i, t)
    case INDENT =>
      var c := Goto(t, i.headRow, i.headX);
      Effect(IndentRows(t, i.topRow, i.indents), c.row, ShiftRight(c.row, c.x, i.topRow, i.indents), i)
    case UNINDENT =>
      var c := Goto(t, i.headRow, i.headX);
      Effect(UnindentRows(t, i.topRow, i.indents), c.row, ShiftLeft(c.row, c.x, i.topRow, i.indents), i)
    case PASTE => UndoCut(noNewlines, i, t)
    case INSERT =>
      var p := Goto(t, i.headRow, CutHead(i).x);
      if i.cut.Some? then
        var c := EndAfter(p, i.cut.value);
        Effect(Grafted(noNewlines, t, p, i.cut.value), c.row, c.x, i.(cut := None))
      else
        Effect(t, p.row, p.x, i)
    case _ => RedoCut(noNewlines, i, t)
  }

  function RedoDelete(i: Item, t: Text): Effect
    requires i.tailRow < |t| && i.headX + |i.str| <= |t[i.tailRow]|
  {
    var t1 := t[i.tailRow := DeleteFrom(t[i.tailRow], i.headX, |i.str|)];
    var c := Goto(t1, i.headRow, i.headX);
    Effect(t1, c.row, c.x, i)
  }

  // ----- The editor's state ---------------------------------------------------------

  /** The fields of the open buffer that editing uses, with the cutbuffer.
      `applied` counts the items from the bottom of the undo stack up to and
      including current_undo, and `saved` is the id of the item that last_saved
      points at; an id of 0 stands for NULL. */
  datatype State = State(
    lines: Text,
    row: nat,
    x: nat,
    size: int,
    stack: seq<Item>,
    applied: nat,
    nextId: nat,
    saved: nat,
    last: Kind,
    modified: bool,
    cutbuffer: Option<Text>,
    keep: bool,
    cutFromCursor: bool)

  predicate ValidState(s: State) {
    && ValidPos(s.lines, Pos(s.row, s.x))
    && s.applied <= |s.stack|
  }

  function Cursor(s: State): Pos {
    Pos(s.row, s.x)
  }

  function IdAt(stack: seq<Item>, k: nat): nat
    requires k <= |stack|
  {
    if k == 0 then 0 else stack[k - 1].id
  }

  function Top(s: State): Item
    requires |s.stack| > 0
  {
    s.stack[|s.stack| - 1]
  }

  function SetTop(s: State, i: Item): State
    requires |s.stack| > 0
  {
    s.(stack := s.stack[|s.stack| - 1 := i])
  }

  /** A new buffer holding the given text (make_new_buffer, then reading). */
  function Opened(t: Text, size: int): State {
    State(t, 0, 0, size, [], 0, 1, 0, OTHER, false, None, false, false)
  }

  // ----- add_undo -------------------------------------------------------------------

  /** The item that add_undo makes. */
  function NewItem(s: State, action: Kind, mark: Option<Pos>): Item
    requires ValidState(s)
    requires mark.Some? ==> ValidPos(s.lines, mark.value)
  {
    var line := s.lines[s.row];
    var bottom := s.row == |s.lines| - 1;
    var i := Item(s.nextId, action, false, false, false, false, false,
                  s.row, s.x, s.row, s.x, [], s.size, s.size, 0, [], None);
    match action
    case ADD => i.(includedLastLine := bottom)
    case BACK => DeletionItem(s, i.(backspaceAtEof := s.row + 1 == |s.lines| - 1 && line != []))
    case DEL => DeletionItem(s, i)
    case REPLACE => i.(str := line)
    case CUT_TO_EOF => i.(includedLastLine := true, cursorAtHead := true)
    case CUT => CutItem(s, i, mark)
    case ZAP => CutItem(s, i, mark)
    case PASTE => i.(cut := s.cutbuffer, includedLastLine := bottom)
    case INSERT => i.(includedLastLine := bottom)
    case _ => i
  }

  function DeletionItem(s: State, i: Item): Item
    requires ValidState(s)
  {
    var line := s.lines[s.row];
    if s.x < |line| then
      var n := CharLength(line, s.x);
      i.(str := line[s.x..s.x + n], tailX := if i.kind == BACK then s.x + n else s.x)
    else
      var j := i.(kind := JOIN);
      if s.row + 1 < |s.lines| then
        var k := j.(str := s.lines[s.row + 1]);
        if i.kind == BACK then k.(headRow := s.row + 1, headX := 0) else k
      else j
  }

  function CutItem(s: State, i: Item, mark: Option<Pos>): Item {
    match mark
    case Some(m) =>
      var j := if Before(m, Cursor(s))
               then i.(headRow := m.row, headX := m.x, markWasSet := true)
               else i.(tailRow := m.row, tailX := m.x, markWasSet := true, cursorAtHead := true);
      j.(includedLastLine := j.tailRow == |s.lines| - 1)
    case None =>
      if s.cutFromCursor then i.(cursorAtHead := true)
      else i.(wholeLine := true, cursorAtHead := true, tailX := 0)
  }

  /** add_undo: drop the undone items and put the new item on top. */
  function AddUndo(s: State, action: Kind, mark: Option<Pos>): (r: State)
    requires ValidState(s)
    requires mark.Some? ==> ValidPos(s.lines, mark.value)
    ensures ValidState(r) && r.lines == s.lines && r.row == s.row && r.x == s.x
    ensures |r.stack| == r.applied == s.applied + 1
  {
    var i := NewItem(s, action, mark);
    s.(stack := s.stack[..s.applied] + [i], applied := s.applied + 1, nextId := s.nextId + 1,
       last := if i.kind == JOIN then JOIN else action)
  }

  // ----- inject -----------------------------------------------------------------------

  type Raw = b: int | 0 <= b <= 255

  /** A typed NUL byte is stored as a newline. */
  function EncodedByte(b: Raw): Byte {
    if b == 0 then 10 else b
  }

  function Encoded(burst: seq<Raw>): (r: Line)
    ensures |r| == |burst|
  {
    seq(|burst|, k requires 0 <= k < |burst| => EncodedByte(burst[k]))
  }

  predicate ContinuesTyping(s: State) {
    s.last == ADD && |s.stack| > 0 && Top(s).tailRow == s.row && Top(s).tailX == s.x
  }

  function Inject(c: Config, s: State, burst: Line): State
    requires ValidState(s)
  {
    var s1 := if ContinuesTyping(s) then s else AddUndo(s, ADD, None);
    var t1: Text := s.lines[s.row := InsertIn(s.lines[s.row], s.x, burst)];
    var magic := s.row == |s.lines| - 1 && !c.noNewlines;
    var s2 := s1.(lines := if magic then t1 + [[]] else t1,
                  x := s.x + |burst|,
                  size := s.size + Count(burst) + if magic then 1 else 0,
                  modified := true);
    UpdateAdd(s2)
  }

  /** update_undo for an addition. */
  function UpdateAdd(s: State): State
    requires |s.stack| > 0 && ValidPos(s.lines, Cursor(s))
  {
    var u := Top(s);
    var str := if u.headX <= s.x then s.lines[s.row][u.headX..s.x] else [];
    SetTop(s, u.(newsize := s.size, str := str, tailX := s.x))
  }

  // ----- do_enter -----------------------------------------------------------------------

  predicate Blank(c: Config, l: Line, i: nat) {
    if At(l, i) < 0x80 then At(l, i) == 32 || At(l, i) == 9
    else MbToWide(l, i).Wide? && c.wideBlank(MbToWide(l, i).value)
  }

  function IndentLengthFrom(c: Config, l: Line, i: nat): (n: nat)
    requires i <= |l|
    ensures i <= n <= |l|
    decreases |l| - i
  {
    if i < |l| && Blank(c, l, i) then IndentLengthFrom(c, l, StepRight(l, i)) else i
  }

  function Enter(c: Config, s: State, autoindent: bool): State
    requires ValidState(s)
  {
    var line := s.lines[s.row];
    var indent := IndentLengthFrom(c, line, 0);
    var extra := if !autoindent then 0 else if indent > s.x then s.x else indent;
    var allblanks := autoindent && indent == s.x;
    var keepX := if allblanks then 0 else s.x;
    var below := line[..extra] + line[s.x..];
    var s1 := AddUndo(s.(lines := s.lines[s.row := line[..keepX]], x := keepX), ENTER, None);
    var s2 := s1.(lines := BreakRow(s.lines, s.row, keepX, below), row := s.row + 1, x := extra,
                  size := s.size + 1 + if autoindent && !allblanks then extra else 0,
                  modified := true);
    SetTop(s2, Top(s2).(newsize := s2.size, str := below, tailX := extra))
  }

  // ----- expunge, do_delete, do_backspace -------------------------------------------------

  predicate MagicAhead(c: Config, s: State) {
    s.row + 1 == |s.lines| - 1 && s.x != 0 && !c.noNewlines
  }

  function Expunge(c: Config, s: State, action: Kind): State
    requires ValidState(s) && (action == BACK || action == DEL)
  {
    var line := s.lines[s.row];
    if s.x < |line| then
      if action != s.last || |s.stack| == 0 || s.row != Top(s).headRow then Erase(AddUndo(s, action, None))
      else Erase(UpdateDeletion(s))
    else if s.row != |s.lines| - 1 then
      if MagicAhead(c, s) then
        if action == BACK then AddUndo(s, BACK, None) else s
      else
        var s1 := AddUndo(s, action, None);
        var s2 := s1.(lines := MergeRow(s.lines, s.row, s.lines[s.row + 1]),
                      size := s.size - 1, modified := true);
        SetTop(s2, Top(s2).(newsize := s2.size))
    else s
  }

  /** The character at the cursor is taken out, once the undo item is there. */
  function Erase(s: State): State
    requires ValidState(s) && s.x < |s.lines[s.row]| && |s.stack| > 0
  {
    var line := s.lines[s.row];
    var s1 := s.(lines := s.lines[s.row := DeleteFrom(line, s.x, CharLength(line, s.x))],
                 size := s.size - 1, modified := true);
    SetTop(s1, Top(s1).(newsize := s1.size))
  }

  /** update_undo for a deletion, before the character is taken out. */
  function UpdateDeletion(s: State): (r: State)
    requires ValidState(s) && |s.stack| > 0
    ensures |r.stack| > 0 && ValidState(r) && r.lines == s.lines && r.row == s.row && r.x == s.x
  {
    var line := s.lines[s.row];
    var n := CharLength(line, s.x);
    var u := Top(s).(newsize := s.size);
    var gone := if s.x < |line| then line[s.x..s.x + n] else [];
    if s.x == u.headX then
      SetTop(s, u.(str := u.str + gone, tailX := s.x))
    else if s.x + n == u.headX then
      SetTop(s, u.(str := gone + u.str, headX := s.x))
    else
      AddUndo(SetTop(s, u), u.kind, None)
  }

  function Backspace(c: Config, s: State): State
    requires ValidState(s)
  {
    if s.x > 0 then Expunge(c, s.(x := StepLeft(s.lines[s.row], s.x)), BACK)
    else if s.row > 0 then Expunge(c, s.(row := s.row - 1, x := |s.lines[s.row - 1]|), BACK)
    else s
  }

  // ----- Cutting ------------------------------------------------------------------------------

  /** extract_segment on the state. */
  function TakeOut(c: Config, s: State, p: Pos, q: Pos): State
    requires ValidPos(s.lines, p) && ValidPos(s.lines, q) && Before(p, q)
  {
    if p == q then s else
    var taken := Segment(s.lines, p, q);
    var t := Extracted(c.noNewlines, s.lines, p, q);
    var magic := t != Join(Head(s.lines, p), Rest(s.lines, q));
    s.(lines := t, row := p.row, x := p.x,
       size := s.size - Characters(taken) + if magic then 1 else 0,
       cutbuffer := Some(if s.cutbuffer.Some? then Join(s.cutbuffer.value, taken) else taken))
  }

  predicate IsCuttable(c: Config, s: State, testCliff: bool, mark: Option<Pos>)
    requires ValidState(s)
  {
    var from := if testCliff then s.x else 0;
    var line := s.lines[s.row];
    !(|| (s.row == |s.lines| - 1 && from == |line| && mark == None)
      || mark == Some(Cursor(s))
      || (from > 0 && !c.noNewlines && from == |line| && s.row + 1 == |s.lines| - 1))
  }

  /** The region that do_snip takes. */
  function SnipRegion(s: State, mark: Option<Pos>, untilEof: bool): (r: (Pos, Pos))
    requires ValidState(s) && (mark.Some? ==> ValidPos(s.lines, mark.value))
    ensures ValidPos(s.lines, r.0) && ValidPos(s.lines, r.1) && Before(r.0, r.1)
  {
    var line := s.lines[s.row];
    var bottom := s.row == |s.lines| - 1;
    if untilEof then (Cursor(s), End(s.lines))
    else if mark.Some? then
      if Before(mark.value, Cursor(s)) then (mark.value, Cursor(s)) else (Cursor(s), mark.value)
    else if s.cutFromCursor then
      if s.x < |line| then (Cursor(s), Pos(s.row, |line|))
      else if !bottom then (Cursor(s), Pos(s.row + 1, 0))
      else (Cursor(s), Cursor(s))
    else if !bottom then (Pos(s.row, 0), Pos(s.row + 1, 0))
    else (Pos(s.row, 0), Pos(s.row, |line|))
  }

  function Snip(c: Config, s: State, mark: Option<Pos>, untilEof: bool, append: bool): (r: State)
    requires ValidState(s) && (mark.Some? ==> ValidPos(s.lines, mark.value))
    ensures r.stack == s.stack
  {
    var keep := s.keep && s.last != COPY;
    var anew := (mark.Some? || untilEof || !keep) && !append;
    var (p, q) := SnipRegion(s, mark, untilEof);
    TakeOut(c, if anew then s.(cutbuffer := None) else s, p, q)
      .(keep := mark.None? && !untilEof, modified := true)
  }

  /** update_undo for a cut or a zap: note what was cut and where it ended. */
  function UpdateCut(c: Config, s: State): State
    requires |s.stack| > 0
  {
    var u := Top(s).(newsize := s.size);
    if s.cutbuffer.None? then SetTop(s, if u.kind == ZAP then u.(cut := None) else u)
    else SetTop(s, CutNoted(c, s, u, s.cutbuffer.value))
  }

  function CutNoted(c: Config, s: State, u: Item, cut: Text): Item {
    var v := u.(cut := Some(cut));
    if u.markWasSet then v else
    v.(tailRow := u.headRow + |cut| - 1,
       tailX := if s.cutFromCursor || u.kind == CUT_TO_EOF then
                  |Last(cut)| + if |cut| == 1 then u.headX else 0
                else if s.row == |s.lines| - 1 && c.noNewlines then |Last(cut)|
                else u.tailX)
  }

  function CutText(c: Config, s: State, mark: Option<Pos>): State
    requires ValidState(s) && (mark.Some? ==> ValidPos(s.lines, mark.value))
  {
    if !IsCuttable(c, s, s.cutFromCursor && mark.None?, mark) then s else
    var s1 := if s.last != CUT || !s.keep || |s.stack| == 0 then AddUndo(s.(keep := false), CUT, mark) else s;
    UpdateCut(c, Snip(c, s1, mark, false, false))
  }

  function ZapText(c: Config, s: State, mark: Option<Pos>): State
    requires ValidState(s) && (mark.Some? ==> ValidPos(s.lines, mark.value))
  {
    if !IsCuttable(c, s, s.cutFromCursor && mark.None?, mark) then s else
    var s1 := if s.last != ZAP || !s.keep || |s.stack| == 0 then AddUndo(s, ZAP, mark) else s;
    var s2 := Snip(c, s1.(cutbuffer := Top(s1).cut), mark, false, true);
    UpdateCut(c, s2).(cutbuffer := s.cutbuffer)
  }

  function CutTillEof(c: Config, s: State): State
    requires ValidState(s)
  {
    if s.x == |s.lines[s.row]| && (s.row == |s.lines| - 1 || MagicAhead(c, s)) then s else
    UpdateCut(c, Snip(c, AddUndo(s, CUT_TO_EOF, None), None, true, false))
  }

  // ----- Copying, pasting, inserting -------------------------------------------------------------

  /** ingraft_buffer on the state. */
  function PutIn(c: Config, s: State, t: Text): (r: State)
    requires ValidState(s)
    ensures r.stack == s.stack
  {
    var p := Cursor(s);
    var joined := Join(Join(Head(s.lines, p), t), Rest(s.lines, p));
    var r := Grafted(c.noNewlines, s.lines, p, t);
    var e := EndAfter(p, t);
    s.(lines := r, row := e.row, x := e.x,
       size := s.size + Characters(t) + if r != joined then 1 else 0)
  }

  /** update_undo for a paste or an insertion. */
  function UpdatePaste(s: State): State
    requires |s.stack| > 0
  {
    SetTop(s, Top(s).(newsize := s.size, tailRow := s.row, tailX := s.x))
  }

  function PasteText(c: Config, s: State): State
    requires ValidState(s)
  {
    if s.cutbuffer.None? then s else
    UpdatePaste(PutIn(c, AddUndo(s, PASTE, None), s.cutbuffer.value)).(modified := true)
  }

  function InsertText(c: Config, s: State, t: Text): State
    requires ValidState(s)
  {
    var s1 := UpdatePaste(PutIn(c, AddUndo(s, INSERT, None), t));
    s1.(modified := s.modified || Cursor(s1) != Cursor(s))
  }

  /** copy_text: the marked region, the whole line, or what is right of the
      cursor goes into the cutbuffer or after what is there. */
  function CopyText(c: Config, s: State, mark: Option<Pos>): State
    requires ValidState(s) && (mark.Some? ==> ValidPos(s.lines, mark.value))
  {
    var line := s.lines[s.row];
    var atEol := s.x == |line|;
    var bottom := s.row == |s.lines| - 1;
    var keep := s.keep && mark.None? && s.last == COPY;
    var prior := if keep then s.cutbuffer else None;
    if mark.Some? then
      var (p, q) := if Before(mark.value, Cursor(s)) then (mark.value, Cursor(s)) else (Cursor(s), mark.value);
      s.(last := OTHER, keep := false,
         cutbuffer := if p == q then None else Some(Segment(s.lines, p, q)))
    else if bottom && atEol && (s.cutFromCursor || s.x == 0 || prior.Some?) then
      s.(cutbuffer := prior, keep := keep)
    else
      var addition := line[if s.cutFromCursor then s.x else 0..];
      var sansNewline := if s.cutFromCursor then !atEol else c.noNewlines && bottom;
      var copied: Text :=
        if sansNewline then
          if prior.None? then [addition] else prior.value[..|prior.value| - 1] + [addition]
        else if prior.None? then [addition, []]
        else if s.cutFromCursor then prior.value + [addition]
        else prior.value[..|prior.value| - 1] + [addition, Last(prior.value)];
      var moves := (!s.cutFromCursor || atEol) && !bottom;
      s.(cutbuffer := Some(copied), keep := true, last := COPY,
         row := if moves then s.row + 1 else s.row,
         x := if moves then 0 else |line|)
  }

  // ----- Indenting ---------------------------------------------------------------------------------

  function LengthOfWhiteFrom(l: Line, i: nat, tabSize: nat): (n: nat)
    requires i <= |l|
    ensures n <= |l|
    decreases |l| - i
  {
    if i == |l| then i
    else if l[i] == 9 then i + 1
    else if l[i] != 32 then i
    else if i + 1 == tabSize then tabSize
    else LengthOfWhiteFrom(l, i + 1, tabSize)
  }

  function LengthOfWhite(c: Config, l: Line): (n: nat)
    ensures n <= |l|
  {
    LengthOfWhiteFrom(l, 0, c.tabSize)
  }

  function SkipEmpty(t: Text, top: nat, bot: nat): (r: nat)
    requires top <= bot + 1 && bot < |t|
    ensures top <= r <= bot + 1 && (r <= bot ==> t[r] != [])
    ensures forall k | top <= k < r :: t[k] == []
    decreases bot + 1 - top
  {
    if top <= bot && t[top] == [] then SkipEmpty(t, top + 1, bot) else top
  }

  function SkipUnindentable(c: Config, t: Text, top: nat, bot: nat): (r: nat)
    requires top <= bot + 1 && bot < |t|
    ensures top <= r <= bot + 1 && (r <= bot ==> LengthOfWhite(c, t[r]) > 0)
    ensures forall k | top <= k < r :: LengthOfWhite(c, t[k]) == 0
    decreases bot + 1 - top
  {
    if top <= bot && LengthOfWhite(c, t[top]) == 0 then SkipUnindentable(c, t, top + 1, bot) else top
  }

  function TotalLength(ls: seq<Line>): nat {
    if |ls| == 0 then 0 else |ls[0]| + TotalLength(ls[1..])
  }

  /** What do_indent puts before each row from `top` to `bot`. */
  function Indentations(t: Text, top: nat, bot: nat, indentation: Line): (r: seq<Line>)
    requires top <= bot < |t|
    ensures |r| == bot + 1 - top
  {
    seq(bot + 1 - top, k requires 0 <= k < bot + 1 - top => if t[top + k] == [] then [] else indentation)
  }

  function White(c: Config, l: Line): (w: Line)
    ensures |w| <= |l|
  {
    l[..LengthOfWhite(c, l)]
  }

  function Whites(c: Config, t: Text, top: nat, bot: nat): (r: seq<Line>)
    requires top <= bot < |t|
    ensures |r| == bot + 1 - top
    ensures forall k | 0 <= k < |r| :: |r[k]| <= |t[top + k]|
  {
    var r := seq(bot + 1 - top, k requires 0 <= k < bot + 1 - top => White(c, t[top + k]));
    assert forall k | 0 <= k < |r| :: r[k] == White(c, t[top + k]);
    r
  }

  function Indent(s: State, top: nat, bot: nat, indentation: Line): State
    requires ValidState(s) && top <= bot < |s.lines|
  {
    var first := SkipEmpty(s.lines, top, bot);
    if first == bot + 1 then s else
    var indents := Indentations(s.lines, first, bot, indentation);
    var s1 := AddUndo(s, INDENT, None);
    var s2 := s1.(lines := IndentRows(s.lines, first, indents),
                  x := ShiftRight(s.row, s.x, first, indents),
                  size := s.size + TotalLength(indents), modified := true);
    SetTop(s2, Top(s2).(topRow := first, indents := indents, newsize := s2.size))
  }

  function Unindent(c: Config, s: State, top: nat, bot: nat): State
    requires ValidState(s) && top <= bot < |s.lines|
  {
    var first := SkipUnindentable(c, s.lines, top, bot);
    if first == bot + 1 then s else
    var indents := Whites(c, s.lines, first, bot);
    var s1 := AddUndo(s, UNINDENT, None);
    var s2 := s1.(lines := UnindentRows(s.lines, first, indents),
                  x := ShiftLeft(s.row, s.x, first, indents),
                  size := s.size - TotalLength(indents), modified := true);
    SetTop(s2, Top(s2).(topRow := first, indents := indents, newsize := s2.size))
  }

  // ----- Replacing one match (the body of do_replace_loop) ----------------------------------------

  function Replace(s: State, len: nat, answer: Line): State
    requires ValidState(s) && s.x + len <= |s.lines[s.row]|
  {
    var line := s.lines[s.row];
    var altered := line[..s.x] + answer + line[s.x + len..];
    AddUndo(s, REPLACE, None)
      .(lines := s.lines[s.row := altered], x := s.x + |answer|,
        size := s.size + Count(altered) - Count(line), modified := true)
  }

  // ----- do_undo, do_redo, saving -------------------------------------------------------------------

  predicate CanDoUndo(c: Config, s: State) {
    0 < s.applied <= |s.stack| && CanUndo(c.noNewlines, s.stack[s.applied - 1], s.lines)
  }

  function DoUndo(c: Config, s: State): State
    requires s.applied > 0 ==> CanDoUndo(c, s)
  {
    if s.applied == 0 then s else
    var u := s.stack[s.applied - 1];
    var e := UndoItem(c.noNewlines, u, s.lines);
    s.(lines := e.lines, row := e.row, x := e.x, size := u.wassize,
       stack := s.stack[s.applied - 1 := e.item], applied := s.applied - 1, last := OTHER,
       modified := IdAt(s.stack, s.applied - 1) != s.saved)
  }

  predicate CanDoRedo(c: Config, s: State) {
    s.applied < |s.stack| && CanRedo(c.noNewlines, s.stack[s.applied], s.lines)
  }

  function DoRedo(c: Config, s: State): State
    requires s.applied < |s.stack| ==> CanDoRedo(c, s)
  {
    if s.applied >= |s.stack| then s else
    var u := s.stack[s.applied];
    var e := RedoItem(c.noNewlines, u, s.lines);
    var suppress := u.kind == INSERT && u.cut.None?;
    s.(lines := e.lines, row := e.row, x := e.x, size := u.newsize,
       stack := s.stack[s.applied := e.item], applied := s.applied + 1, last := OTHER,
       modified := u.id != s.saved && (s.modified || !suppress))
  }

  /** The bookkeeping of write_file for a whole buffer. */
  function Saved(s: State): State
    requires s.applied <= |s.stack|
  {
    s.(saved := IdAt(s.stack, s.applied), last := OTHER, modified := false)
  }
}

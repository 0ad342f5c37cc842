/** Whole runs of the editor: the undo stack behaves as a history of snapshots of
    the text, and the Modified flag can be trusted. */
module Runs {
  import opened Chars
  import opened Lines
  import opened EditModel
  import opened History
  import opened Edits
  import opened Cuts
  import opened Indents
  import opened Options

  /** What a user can do.  `Delete` and `Backspace` stand for one call of
      expunge; a mark that is on is given with the command that uses it. */
  datatype Op =
    | Move(row: nat, x: nat)
    | Type(burst: seq<Raw>)
    | BreakLine(autoindent: bool)
    | Delete
    | Backspace
    | Cut(mark: Option<Pos>)
    | Zap(mark: Option<Pos>)
    | CutToEnd
    | Copy(mark: Option<Pos>)
    | Paste
    | InsertFile(text: Text)
    | IndentRegion(top: nat, bot: nat, indentation: Line)
    | UnindentRegion(top: nat, bot: nat)
    | ReplaceAt(row: nat, x: nat, len: nat, answer: Line)
    | Undo
    | Redo
    | Save
    | ToggleCutFromCursor

  /** The positions and texts that come with an operation are proper ones for the
      present buffer and for what the mode speaks about. */
  predicate Allowed(m: Mode, s: State, op: Op) {
    match op
    case Move(row, x) => OkPos(m, s.lines, Pos(row, x))
    case Type(burst) => m.utf8 ==> WellFormed(Encoded(burst))
    case BreakLine(autoindent) =>
      m.utf8 && m.sized && autoindent && ValidPos(s.lines, Cursor(s)) ==> CountedIndent(m.config, s.lines[s.row], s.x)
    case Cut(mark) => mark.Some? ==> OkPos(m, s.lines, mark.value)
    case Zap(mark) => mark.Some? ==> OkPos(m, s.lines, mark.value)
    case Copy(mark) => mark.Some? ==> OkPos(m, s.lines, mark.value)
    case InsertFile(text) => m.utf8 ==> AllWellFormed(text)
    case IndentRegion(top, bot, indentation) =>
      && top <= bot < |s.lines|
      && (m.utf8 ==> WellFormed(indentation) && (m.sized ==> Count(indentation) == |indentation|))
    case UnindentRegion(top, bot) => top <= bot < |s.lines|
    case ReplaceAt(row, x, len, answer) =>
      && OkPos(m, s.lines, Pos(row, x)) && OkPos(m, s.lines, Pos(row, x + len))
      && (row < |s.lines| - 1 || s.lines[row] != [])
      && (m.utf8 ==> WellFormed(answer))
    case Redo => m.sized && s.applied < |s.stack| ==> RedoCounts(s.stack[s.applied], s.lines)
    case _ => true
  }

  /** The operation finds every line and position it relies on. */
  predicate Possible(c: Config, s: State, op: Op) {
    && ValidState(s)
    && match op
       case Cut(mark) => mark.Some? ==> ValidPos(s.lines, mark.value)
       case Zap(mark) => mark.Some? ==> ValidPos(s.lines, mark.value)
       case Copy(mark) => mark.Some? ==> ValidPos(s.lines, mark.value)
       case IndentRegion(top, bot, _) => top <= bot < |s.lines|
       case UnindentRegion(top, bot) => top <= bot < |s.lines|
       case ReplaceAt(row, x, len, _) => ValidPos(s.lines, Pos(row, x)) && ValidPos(s.lines, Pos(row, x + len))
       case Undo => s.applied > 0 ==> CanDoUndo(c, s)
       case Redo => s.applied < |s.stack| ==> CanDoRedo(c, s)
       case _ => true
  }

  /** One operation.  Every command but cutting, zapping and copying lets go of
      the cutbuffer; setting a mark does so too. */
  function Step(c: Config, s: State, op: Op): State
    requires Possible(c, s, op)
  {
    var free := s.(keep := false);
    match op
    case Move(row, x) => free.(row := row, x := x)
    case Type(burst) => Inject(c, free, Encoded(burst))
    case BreakLine(autoindent) => Enter(c, free, autoindent)
    case Delete => Expunge(c, free, DEL)
    case Backspace => EditModel.Backspace(c, free)
    case Cut(mark) => CutText(c, if mark.Some? then free else s, mark)
    case Zap(mark) => ZapText(c, if mark.Some? then free else s, mark)
    case CutToEnd => CutTillEof(c, free)
    case Copy(mark) => CopyText(c, s, mark)
    case Paste => PasteText(c, free)
    case InsertFile(text) => InsertText(c, free, text)
    case IndentRegion(top, bot, indentation) => Indent(free, top, bot, indentation)
    case UnindentRegion(top, bot) => Unindent(c, free, top, bot)
    case ReplaceAt(row, x, len, answer) => Replace(free.(row := row, x := x), len, answer)
    case Undo => DoUndo(c, free)
    case Redo => DoRedo(c, free)
    case Save => Saved(free)
    case ToggleCutFromCursor => free.(cutFromCursor := !s.cutFromCursor)
  }

  /** How the history of snapshots follows. */
  function Follow(s: State, op: Op, s': State, h: History): History
    requires h.pos < |h.snaps|
  {
    match op
    case Undo => h.(pos := if h.pos == 0 then 0 else h.pos - 1)
    case Redo => h.(pos := if h.pos == |h.snaps| - 1 then h.pos else h.pos + 1)
    case Save => h.(saved := s.lines)
    case _ => Track(s, s', h)
  }

  /** Letting go of the cutbuffer is no change of text. */
  lemma FreeKeeps(m: Mode, s: State, h: History, cutFromCursor: bool)
    requires Inv(m, s, h)
    ensures Inv(m, s.(keep := false, cutFromCursor := cutFromCursor), h)
  {
    hide Applied, Undone, OkText, OkSize, OkPos, ItemsStand, SavedStands, IdsDistinct, Running, AllWellFormed;
    ItemsFree(m, s, h, cutFromCursor);
  }

  lemma ItemsFree(m: Mode, s: State, h: History, cutFromCursor: bool)
    ensures var s' := s.(keep := false, cutFromCursor := cutFromCursor);
            && (ItemsStand(m, s, h) ==> ItemsStand(m, s', h))
            && (SavedStands(s, h) ==> SavedStands(s', h))
            && (IdsDistinct(s) ==> IdsDistinct(s'))
  {
    hide Applied, Undone;
  }

  /** What an edit keeps does not depend on the cursor or the cutbuffer's state. */
  lemma SameKept(m: Mode, s: State, s0: State, s': State, h: History)
    requires Kept(m, s0, s', h)
    requires s0.nextId == s.nextId && s0.applied == s.applied && s0.stack == s.stack
    requires s0.lines == s.lines && s0.size == s.size
    ensures Kept(m, s, s', h)
  {
    hide Inv;
  }

  /** Every allowed operation finds what it relies on: the lines and positions in
      undo items are always there. */
  lemma StepPossible(m: Mode, s: State, h: History, op: Op)
    requires Inv(m, s, h) && Allowed(m, s, op)
    ensures Possible(m.config, s, op) && h.pos < |h.snaps|
  {
    hide Inv, AllWellFormed, WellFormed, CanUndo, CanRedo, Characters, Boundary, OkText, OkSize, OkBuffer, Ready;
    Present(m, s, h);
    if op.Undo? { UndoStep(m, s, h); }
    if op.Redo? { RedoStep(m, s, h); }
  }

  predicate IsEdit(op: Op) {
    !op.Undo? && !op.Redo? && !op.Save?
  }

  /** Every allowed operation keeps the invariant; edits keep the items that are
      applied, and add at most one. */
  lemma StepKeeps(m: Mode, s: State, h: History, op: Op)
    requires Inv(m, s, h) && Allowed(m, s, op)
    ensures Possible(m.config, s, op) && h.pos < |h.snaps|
    ensures var s' := Step(m.config, s, op);
            && Inv(m, s', Follow(s, op, s', h))
            && (if IsEdit(op) then Shape(s, s') else SameItems(s, s'))
  {
    StepPossible(m, s, h, op);
    if !IsEdit(op) {
      StepBack(m, s, h, op);
    } else {
      StepEdit(m, s, h, op);
      KeptParts(m, s, Step(m.config, s, op), h);
    }
  }

  lemma KeptParts(m: Mode, s: State, s': State, h: History)
    requires Kept(m, s, s', h)
    ensures h.pos < |h.snaps| && Inv(m, s', Track(s, s', h)) && Shape(s, s')
  {
  }

  lemma StepBack(m: Mode, s: State, h: History, op: Op)
    requires Inv(m, s, h) && Allowed(m, s, op) && Possible(m.config, s, op) && h.pos < |h.snaps|
    requires !IsEdit(op)
    ensures var s' := Step(m.config, s, op); Inv(m, s', Follow(s, op, s', h)) && SameItems(s, s')
  {
    hide *;
    InvItems(m, s, h);
    FreeKeeps(m, s, h, s.cutFromCursor);
    var s0 := s.(keep := false);
    StepIs(m, s, h, op);
    if op.Undo? {
      UndoStep(m, s0, h);
    } else if op.Redo? {
      RedoStep(m, s0, h);
    } else {
      SaveStep(m, s0, h);
    }
    FreeItems(s, s0, Step(m.config, s, op));
  }

  /** What undoing, redoing and saving are made of. */
  lemma StepIs(m: Mode, s: State, h: History, op: Op)
    requires Allowed(m, s, op) && Possible(m.config, s, op) && h.pos < |h.snaps| && !IsEdit(op)
    requires s.applied <= |s.stack|
    ensures var (c, s0, s') := (m.config, s.(keep := false), Step(m.config, s, op));
            && (op.Undo? && (s0.applied > 0 ==> CanDoUndo(c, s0)) ==>
                && s' == DoUndo(c, s0) && Follow(s, op, s', h) == h.(pos := if h.pos == 0 then 0 else h.pos - 1))
            && (op.Redo? && (s0.applied < |s0.stack| ==> CanDoRedo(c, s0)) ==>
                && s' == DoRedo(c, s0)
                && Follow(s, op, s', h) == h.(pos := if h.pos == |h.snaps| - 1 then h.pos else h.pos + 1))
            && (op.Redo? && m.sized && s0.applied < |s0.stack| ==> RedoCounts(s0.stack[s0.applied], s0.lines))
            && (!op.Undo? && !op.Redo? ==>
                && s' == Saved(s0) && s'.stack == s0.stack && s'.nextId == s0.nextId
                && Follow(s, op, s', h) == h.(saved := s0.lines))
  {
    hide DoUndo, DoRedo, CanUndo, CanRedo, OkPos, AllWellFormed, WellFormed, CountedIndent, RedoCounts;
  }

  lemma FreeItems(s: State, s0: State, s': State)
    requires s0.stack == s.stack && s0.nextId == s.nextId
    ensures SameItems(s0, s') ==> SameItems(s, s')
    ensures s'.stack == s0.stack && s'.nextId == s0.nextId ==> SameItems(s, s')
  {
  }

  lemma StepEdit(m: Mode, s: State, h: History, op: Op)
    requires Inv(m, s, h) && Allowed(m, s, op) && Possible(m.config, s, op) && IsEdit(op)
    ensures Kept(m, s, Step(m.config, s, op), h)
  {
    if op.Move? || op.ToggleCutFromCursor? || op.Copy? {
      StepStill(m, s, h, op);
    } else if op.Cut? || op.Zap? {
      StepCut(m, s, h, op);
    } else if op.ReplaceAt? {
      StepReplace(m, s, h, op.row, op.x, op.len, op.answer);
    } else {
      StepChange(m, s, h, op);
    }
  }

  lemma StepStill(m: Mode, s: State, h: History, op: Op)
    requires Inv(m, s, h) && Allowed(m, s, op) && Possible(m.config, s, op)
    requires op.Move? || op.ToggleCutFromCursor? || op.Copy?
    ensures Kept(m, s, Step(m.config, s, op), h)
  {
    hide Inv, Kept, CopyText, OkPos, AllWellFormed;
    Present(m, s, h);
    if op.Copy? {
      CopyKeeps(m, s, h, op.mark);
    } else {
      var s' := Step(m.config, s, op);
      assert op.Move? ==> Cursor(s') == Pos(op.row, op.x);
      assert op.ToggleCutFromCursor? ==> Cursor(s') == Cursor(s);
      StillKeeps(m, s, h, s');
    }
  }

  lemma StepCut(m: Mode, s: State, h: History, op: Op)
    requires Inv(m, s, h) && Allowed(m, s, op) && Possible(m.config, s, op)
    requires op.Cut? || op.Zap?
    ensures Kept(m, s, Step(m.config, s, op), h)
  {
    hide Inv, Kept, CutText, ZapText, OkPos, IsCuttable;
    Present(m, s, h);
    FreeKeeps(m, s, h, s.cutFromCursor);
    var s0 := if op.mark.Some? then s.(keep := false) else s;
    CutKeeps(m, s0, h, op.mark);
    SameKept(m, s, s0, Step(m.config, s, op), h);
  }

  lemma StepChange(m: Mode, s: State, h: History, op: Op)
    requires Inv(m, s, h) && Allowed(m, s, op) && Possible(m.config, s, op) && IsEdit(op)
    requires !op.Cut? && !op.Zap? && !op.Move? && !op.ToggleCutFromCursor? && !op.Copy? && !op.ReplaceAt?
    ensures Kept(m, s, Step(m.config, s, op), h)
  {
    hide Inv, Kept, Inject, Enter, Expunge, EditModel.Backspace, CutTillEof, PasteText, InsertText, Indent, Unindent,
      Replace, CountedIndent, AllWellFormed, WellFormed, Boundary, Encoded;
    Present(m, s, h);
    FreeKeeps(m, s, h, s.cutFromCursor);
    var s0 := s.(keep := false);
    if op.Type? {
      InjectKeeps(m, s0, h, Encoded(op.burst));
    } else if op.BreakLine? {
      EnterKeeps(m, s0, h, op.autoindent);
    } else if op.Delete? {
      ExpungeKeeps(m, s0, h, DEL);
    } else if op.Backspace? {
      BackspaceKeeps(m, s0, h);
    } else if op.CutToEnd? {
      CutTillEofKeeps(m, s0, h);
    } else if op.Paste? {
      PasteKeeps(m, s0, h);
    } else if op.InsertFile? {
      InsertKeeps(m, s0, h, op.text);
    } else if op.IndentRegion? {
      IndentKeeps(m, s0, h, op.top, op.bot, op.indentation);
    } else {
      UnindentKeeps(m, s0, h, op.top, op.bot);
    }
    SameKept(m, s, s0, Step(m.config, s, op), h);
  }

  lemma StepReplace(m: Mode, s: State, h: History, row: nat, x: nat, len: nat, answer: Line)
    requires Inv(m, s, h) && Allowed(m, s, ReplaceAt(row, x, len, answer))
    requires Possible(m.config, s, ReplaceAt(row, x, len, answer))
    ensures Kept(m, s, Step(m.config, s, ReplaceAt(row, x, len, answer)), h)
  {
    hide Inv, Kept, WellFormed, Reaches, Replace;
    FreeKeeps(m, s, h, s.cutFromCursor);
    var s0 := s.(keep := false);
    MovedKeeps(m, s0, h, row, x);
    var s1 := s0.(row := row, x := x);
    ReplaceKeeps(m, s1, h, len, answer);
    SameKept(m, s, s1, Replace(s1, len, answer), h);
  }

  // ----- Runs ---------------------------------------------------------------------------

  /** A run: each state comes from the one before by an allowed operation. */
  predicate Run(m: Mode, states: seq<State>, ops: seq<Op>) {
    && |states| == |ops| + 1
    && forall k | 0 <= k < |ops| ::
         && Allowed(m, states[k], ops[k]) && Possible(m.config, states[k], ops[k])
         && states[k + 1] == Step(m.config, states[k], ops[k])
  }

  /** A run from a buffer that has just been opened. */
  predicate RunFrom(m: Mode, t: Text, size: int, states: seq<State>, ops: seq<Op>) {
    Run(m, states, ops) && states[0] == Opened(t, size) && OkText(m, t) && OkSize(m, t, size)
  }

  /** The history after k operations of a run. */
  function HistoryAfter(states: seq<State>, ops: seq<Op>, k: nat): History
    requires |states| == |ops| + 1 && k <= |ops|
  {
    if k == 0 then History([SnapOf(states[0])], 0, states[0].lines)
    else
      var h := HistoryAfter(states, ops, k - 1);
      if h.pos < |h.snaps| then Follow(states[k - 1], ops[k - 1], states[k], h) else h
  }

  lemma {:induction false} RunKeeps(m: Mode, t: Text, size: int, states: seq<State>, ops: seq<Op>, k: nat)
    requires RunFrom(m, t, size, states, ops) && k <= |ops|
    ensures Inv(m, states[k], HistoryAfter(states, ops, k))
  {
    hide Inv, Allowed, Possible, Step, Follow, OkText, OkSize;
    if k == 0 {
      OpenedInv(m, t, size);
    } else {
      RunKeeps(m, t, size, states, ops, k - 1);
      StepKeeps(m, states[k - 1], HistoryAfter(states, ops, k - 1), ops[k - 1]);
    }
  }

  /** A run never gets stuck: whatever is allowed next is possible. */
  lemma RunGoesOn(m: Mode, t: Text, size: int, states: seq<State>, ops: seq<Op>, op: Op)
    requires RunFrom(m, t, size, states, ops) && Allowed(m, states[|ops|], op)
    ensures Possible(m.config, states[|ops|], op)
    ensures RunFrom(m, t, size, states + [Step(m.config, states[|ops|], op)], ops + [op])
  {
    hide Inv, Allowed, Possible, Step, OkText, OkSize;
    RunKeeps(m, t, size, states, ops, |ops|);
    StepPossible(m, states[|ops|], HistoryAfter(states, ops, |ops|), op);
  }

  // ----- Undo and redo are steps through the snapshots ----------------------------------------

  /** The same operation, k times (as long as it is possible). */
  function Times(c: Config, s: State, op: Op, k: nat): State
    decreases k
  {
    if k == 0 || !Possible(c, s, op) then s else Times(c, Step(c, s, op), op, k - 1)
  }

  lemma TimesSteps(m: Mode, s: State, h: History, k: nat)
    requires h.pos < |h.snaps|
    ensures Allowed(m, s, Undo) && (!m.sized ==> Allowed(m, s, Redo))
    ensures k == 0 ==> Times(m.config, s, Undo, k) == s && Times(m.config, s, Redo, k) == s
    ensures h.(pos := h.pos) == h
    ensures k > 0 && Possible(m.config, s, Undo) ==>
              && Times(m.config, s, Undo, k) == Times(m.config, Step(m.config, s, Undo), Undo, k - 1)
              && (h.pos > 0 ==> Follow(s, Undo, Step(m.config, s, Undo), h) == h.(pos := h.pos - 1))
    ensures k > 0 && Possible(m.config, s, Redo) ==>
              && Times(m.config, s, Redo, k) == Times(m.config, Step(m.config, s, Redo), Redo, k - 1)
              && (h.pos < |h.snaps| - 1 ==> Follow(s, Redo, Step(m.config, s, Redo), h) == h.(pos := h.pos + 1))
  {
    hide Possible, Step;
  }

  lemma {:induction false} UndoTimes(m: Mode, s: State, h: History, k: nat)
    requires Inv(m, s, h) && k <= h.pos
    ensures h.pos < |h.snaps|
    ensures var s' := Times(m.config, s, Undo, k);
            && Inv(m, s', h.(pos := h.pos - k)) && SameItems(s, s')
            && s'.lines == h.snaps[h.pos - k].lines && (m.sized ==> s'.size == h.snaps[h.pos - k].size)
    decreases k
  {
    hide *;
    NextItems(m, s, h);
    TimesSteps(m, s, h, k);
    NoStep(s);
    if k > 0 {
      StepKeeps(m, s, h, Undo);
      var s1 := Step(m.config, s, Undo);
      IsNoEdit();
      UndoTimes(m, s1, h.(pos := h.pos - 1), k - 1);
      TwoSteps(s, s1, Times(m.config, s, Undo, k));
    }
  }

  lemma NoStep(s: State)
    ensures SameItems(s, s)
  {
  }

  lemma TwoSteps(s: State, s1: State, s2: State)
    requires SameItems(s, s1) && SameItems(s1, s2)
    ensures SameItems(s, s2)
  {
  }

  lemma IsNoEdit()
    ensures !IsEdit(Undo) && !IsEdit(Redo)
  {
  }

  /** Redoing brings the text forward; the size is what the item redone last notes. */
  lemma {:induction false} RedoTimes(m: Mode, s: State, h: History, k: nat)
    requires Inv(m, s, h) && h.pos + k < |h.snaps| && !m.sized
    ensures h.pos == s.applied && |h.snaps| == |s.stack| + 1
    ensures var s' := Times(m.config, s, Redo, k);
            && Inv(m, s', h.(pos := h.pos + k))
            && s'.lines == h.snaps[h.pos + k].lines
            && s'.size == if k == 0 then s.size else s.stack[h.pos + k - 1].newsize
    decreases k
  {
    hide *;
    NextItems(m, s, h);
    TimesSteps(m, s, h, k);
    if k > 0 {
      StepKeeps(m, s, h, Redo);
      var s1 := Step(m.config, s, Redo);
      IsNoEdit();
      RedoSize(m.config, s);
      RedoTimes(m, s1, h.(pos := h.pos + 1), k - 1);
      SameNoted(s, s1);
    }
  }

  lemma SameNoted(s: State, s': State)
    requires SameItems(s, s')
    ensures |s'.stack| == |s.stack|
    ensures forall i | 0 <= i < |s.stack| ::
              s'.stack[i].newsize == s.stack[i].newsize && s'.stack[i].wassize == s.stack[i].wassize
              && s'.stack[i].kind == s.stack[i].kind
  {
  }

  lemma RedoSize(c: Config, s: State)
    requires Possible(c, s, Redo) && s.applied < |s.stack|
    ensures Step(c, s, Redo).size == s.stack[s.applied].newsize
  {
    hide CanRedo, RedoItem;
  }

  /** Snapshot `snap` is the text and the size of the state in which the item
      with the given id was made: the t-th state of the run. */
  predicate MadeAt(m: Mode, states: seq<State>, n: nat, t: nat, id: nat, snap: Snap) {
    && t < n < |states|
    && states[t].nextId == id && states[t + 1].nextId == id + 1
    && states[t].lines == snap.lines && (m.sized ==> states[t].size == snap.size)
  }

  /** Each item after a step is new, with the present text as the snapshot below
      it, or it was there before, with the same snapshot. */
  lemma ItemSource(m: Mode, s: State, h: History, op: Op, i: nat)
    requires Inv(m, s, h) && Allowed(m, s, op) && Possible(m.config, s, op)
    requires i < |Step(m.config, s, op).stack|
    ensures var s' := Step(m.config, s, op);
            h.pos < |h.snaps| && |h.snaps| == |s.stack| + 1
            && var h' := Follow(s, op, s', h);
            && |h'.snaps| == |s'.stack| + 1
            && if s'.nextId == s.nextId + 1 && i == s.applied then
                 && s'.stack[i].id == s.nextId && h'.snaps[i].lines == s.lines
                 && (m.sized ==> h'.snaps[i].size == s.size)
               else
                 && i < |s.stack| && s'.stack[i].id == s.stack[i].id && h'.snaps[i].lines == h.snaps[i].lines
                 && (m.sized ==> h'.snaps[i].size == h.snaps[i].size)
  {
    hide Inv, Allowed, Possible, Step, Shape, SameItems, Follow;
    var s' := Step(m.config, s, op);
    StepKeeps(m, s, h, op);
    NextItems(m, s, h);
    NextItems(m, s', Follow(s, op, s', h));
    if IsEdit(op) {
      EditSource(m, s, h, op, s', i);
    } else {
      BackSource(s, h, op, s', i);
    }
  }

  lemma BackSource(s: State, h: History, op: Op, s': State, i: nat)
    requires !IsEdit(op) && SameItems(s, s') && i < |s'.stack|
    requires |h.snaps| == |s.stack| + 1 && h.pos < |h.snaps|
    ensures var h' := Follow(s, op, s', h);
            i < |s.stack| && s'.stack[i].id == s.stack[i].id && |h'.snaps| == |h.snaps| && h'.snaps[i] == h.snaps[i]
  {
  }

  lemma EditSource(m: Mode, s: State, h: History, op: Op, s': State, i: nat)
    requires IsEdit(op) && Shape(s, s') && i < |s'.stack|
    requires |h.snaps| == |s.stack| + 1 && h.pos == s.applied <= |s.stack|
    requires h.snaps[h.pos].lines == s.lines && (m.sized ==> h.snaps[h.pos].size == s.size)
    requires |Follow(s, op, s', h).snaps| == |s'.stack| + 1
    ensures var h' := Follow(s, op, s', h);
            if s'.nextId == s.nextId + 1 && i == s.applied then
              && s'.stack[i].id == s.nextId && h'.snaps[i].lines == s.lines
              && (m.sized ==> h'.snaps[i].size == s.size)
            else
              && i < |s.stack| && s'.stack[i].id == s.stack[i].id && h'.snaps[i].lines == h.snaps[i].lines
              && (m.sized ==> h'.snaps[i].size == h.snaps[i].size)
  {
  }

  /** One step back along a run: an item is new, or it has the same snapshot as
      before the step. */
  lemma SnapshotSource(m: Mode, t: Text, size: int, states: seq<State>, ops: seq<Op>, k: nat, i: nat)
    requires RunFrom(m, t, size, states, ops) && 0 < k <= |ops| && i < |states[k].stack|
    ensures var (s, s') := (states[k - 1], states[k]);
            var (h, h') := (HistoryAfter(states, ops, k - 1), HistoryAfter(states, ops, k));
            && |h.snaps| == |s.stack| + 1 && |h'.snaps| == |s'.stack| + 1
            && if s'.nextId == s.nextId + 1 && i == s.applied then
                 MadeAt(m, states, k, k - 1, s'.stack[i].id, h'.snaps[i])
               else
                 && i < |s.stack| && s'.stack[i].id == s.stack[i].id && h'.snaps[i].lines == h.snaps[i].lines
                 && (m.sized ==> h'.snaps[i].size == h.snaps[i].size)
  {
    hide Inv, Allowed, Possible, Step, OkText, OkSize, Follow;
    RunKeeps(m, t, size, states, ops, k - 1);
    ItemSource(m, states[k - 1], HistoryAfter(states, ops, k - 1), ops[k - 1], i);
  }

  lemma MadeBefore(m: Mode, states: seq<State>, n: nat, t: nat, id: nat, snap: Snap, n': nat, snap': Snap)
    requires MadeAt(m, states, n, t, id, snap) && n <= n' < |states|
    requires snap'.lines == snap.lines && (m.sized ==> snap'.size == snap.size)
    ensures MadeAt(m, states, n', t, id, snap')
  {
  }

  /** Below each item lies the snapshot of the moment it was made. */
  lemma {:induction false} SnapshotsAreStates(
      m: Mode, t: Text, size: int, states: seq<State>, ops: seq<Op>, k: nat, i: nat) returns (at: nat)
    requires RunFrom(m, t, size, states, ops) && k <= |ops| && i < |states[k].stack|
    ensures var h := HistoryAfter(states, ops, k);
            |h.snaps| == |states[k].stack| + 1 && MadeAt(m, states, k, at, states[k].stack[i].id, h.snaps[i])
    decreases k
  {
    hide *;
    RunBounds(m, t, size, states, ops);
    SnapshotSource(m, t, size, states, ops, k, i);
    if states[k].nextId == states[k - 1].nextId + 1 && i == states[k - 1].applied {
      at := k - 1;
    } else {
      at := SnapshotsAreStates(m, t, size, states, ops, k - 1, i);
      MadeBefore(m, states, k - 1, at, states[k].stack[i].id,
                 HistoryAfter(states, ops, k - 1).snaps[i], k, HistoryAfter(states, ops, k).snaps[i]);
    }
  }

  lemma RunBounds(m: Mode, t: Text, size: int, states: seq<State>, ops: seq<Op>)
    requires RunFrom(m, t, size, states, ops)
    ensures |states| == |ops| + 1 && states[0].stack == []
  {
    hide Allowed, Possible, Step, OkText, OkSize;
  }

  /** After any run, undoing k items gives back the text, and its size, as they
      were when the k-th newest item was made. */
  lemma UndoRestores(m: Mode, t: Text, size: int, states: seq<State>, ops: seq<Op>, k: nat) returns (at: nat)
    requires RunFrom(m, t, size, states, ops)
    requires var s := states[|ops|]; 0 < k <= s.applied <= |s.stack|
    ensures var s := states[|ops|];
            var s' := Times(m.config, s, Undo, k);
            MadeAt(m, states, |ops|, at, s.stack[s.applied - k].id, Snap(s'.lines, s'.size))
  {
    hide *;
    RunBounds(m, t, size, states, ops);
    var s := states[|ops|];
    var h := HistoryAfter(states, ops, |ops|);
    RunKeeps(m, t, size, states, ops, |ops|);
    NextItems(m, s, h);
    UndoTimes(m, s, h, k);
    at := SnapshotsAreStates(m, t, size, states, ops, |ops|, s.applied - k);
    var s' := Times(m.config, s, Undo, k);
    MadeBefore(m, states, |ops|, at, s.stack[s.applied - k].id, h.snaps[s.applied - k], |ops|, Snap(s'.lines, s'.size));
  }

  /** Undoing k items and redoing j of them gives the text that undoing k - j items
      gives; so with j = k it gives the text back.  The size is right too, unless the
      item redone last is a replacement, which notes the size before it, and that was
      another one. */
  lemma RedoRestores(m: Mode, t: Text, size: int, states: seq<State>, ops: seq<Op>, k: nat, j: nat)
    requires RunFrom(m, t, size, states, ops)
    requires 0 < j <= k <= states[|ops|].applied
    ensures var s := states[|ops|];
            var back := Times(m.config, Times(m.config, s, Undo, k), Redo, j);
            var less := Times(m.config, s, Undo, k - j);
            && s.applied <= |s.stack|
            && var u := s.stack[s.applied - k + j - 1];
            && back.lines == less.lines && (j == k ==> back.lines == s.lines)
            && (m.sized ==>
                  (back.size == less.size <==> (u.kind == REPLACE ==> less.size == u.wassize))
                  && (j == k ==> less.size == s.size))
  {
    hide *;
    RunBounds(m, t, size, states, ops);
    var (s, h) := (states[|ops|], HistoryAfter(states, ops, |ops|));
    var plain := m.(sized := false);
    Unsized(m, t, size, states, ops);
    RunKeeps(plain, t, size, states, ops, |ops|);
    RunKeeps(m, t, size, states, ops, |ops|);
    NextItems(m, s, h);
    UndoTimes(m, s, h, k - j);
    UndoTimes(plain, s, h, k);
    var undone := Times(m.config, s, Undo, k);
    RedoTimes(plain, undone, h.(pos := h.pos - k), j);
    SameNoted(s, undone);
    NotedSizes(m, s, h, s.applied - k + j - 1);
  }

  lemma NotedSizes(m: Mode, s: State, h: History, i: nat)
    requires Inv(m, s, h) && i < |s.stack|
    ensures |h.snaps| == |s.stack| + 1
    ensures m.sized ==>
              var u := s.stack[i];
              && u.wassize == h.snaps[i].size
              && (u.newsize == h.snaps[i + 1].size <==> (u.kind == REPLACE ==> h.snaps[i + 1].size == u.wassize))
  {
  }

  /** What runs about the size do, runs about the text do. */
  lemma Unsized(m: Mode, t: Text, size: int, states: seq<State>, ops: seq<Op>)
    requires RunFrom(m, t, size, states, ops)
    ensures RunFrom(m.(sized := false), t, size, states, ops)
  {
    hide Possible, Step, AllWellFormed, WellFormed, Boundary, Characters, Count, CountedIndent;
    var plain := m.(sized := false);
    forall k | 0 <= k < |ops|
      ensures Allowed(plain, states[k], ops[k]) && Possible(plain.config, states[k], ops[k])
      ensures states[k + 1] == Step(plain.config, states[k], ops[k])
    {
      assert Allowed(m, states[k], ops[k]);
    }
  }

  // ----- The Modified flag, and the buffer's good form ----------------------------------------

  /** The text at the last save before step k, or else as it was opened. */
  function LastSaved(states: seq<State>, ops: seq<Op>, k: nat): Text
    requires |states| == |ops| + 1 && k <= |ops|
  {
    if k == 0 then states[0].lines
    else if ops[k - 1].Save? then states[k - 1].lines
    else LastSaved(states, ops, k - 1)
  }

  lemma {:induction false} SavedInHistory(states: seq<State>, ops: seq<Op>, k: nat)
    requires |states| == |ops| + 1 && k <= |ops|
    requires forall j | 0 <= j < k :: var h := HistoryAfter(states, ops, j); h.pos < |h.snaps|
    ensures HistoryAfter(states, ops, k).saved == LastSaved(states, ops, k)
  {
    if k > 0 {
      SavedInHistory(states, ops, k - 1);
    }
  }

  /** When the Modified flag is off, the text is what was last saved or opened. */
  lemma ModifiedIsSound(m: Mode, t: Text, size: int, states: seq<State>, ops: seq<Op>, k: nat)
    requires RunFrom(m, t, size, states, ops) && k <= |ops|
    ensures !states[k].modified ==> states[k].lines == LastSaved(states, ops, k)
  {
    hide Inv, Allowed, Possible, Step, OkText, OkSize, HistoryAfter, LastSaved;
    forall j | 0 <= j <= k
      ensures var h := HistoryAfter(states, ops, j); Inv(m, states[j], h) && h.pos < |h.snaps|
    {
      RunKeeps(m, t, size, states, ops, j);
      NextItems(m, states[j], HistoryAfter(states, ops, j));
    }
    SavedInHistory(states, ops, k);
    FlagSpeaks(m, states[k], HistoryAfter(states, ops, k));
  }

  lemma FlagSpeaks(m: Mode, s: State, h: History)
    requires Inv(m, s, h)
    ensures !s.modified ==> s.lines == h.saved
  {
    hide ItemsStand, Ready, OkPos, OkText, OkSize, AllWellFormed;
  }

  /** Every buffer that a run reaches is in good form: it ends in an empty line
      when newlines are automatic, the cursor is in the text, and in well-formed
      UTF-8 it is between characters and the recorded size counts them. */
  lemma BufferIsWellFormed(m: Mode, t: Text, size: int, states: seq<State>, ops: seq<Op>, k: nat)
    requires RunFrom(m, t, size, states, ops) && k <= |ops|
    ensures var s := states[k];
            && Finished(m.config.noNewlines, s.lines)
            && ValidPos(s.lines, Cursor(s))
            && (m.utf8 ==> AllWellFormed(s.lines) && Boundary(s.lines[s.row], s.x))
            && (m.utf8 && m.sized ==> s.size == Characters(s.lines))
  {
    hide Inv, Allowed, Possible, Step, Characters, WellFormed, Reaches;
    RunKeeps(m, t, size, states, ops, k);
    Present(m, states[k], HistoryAfter(states, ops, k));
  }

  // ----- Redoing a replacement -------------------------------------------------------------------

  /** Undoing and redoing a replacement restores the text always, but the size
      only when the line kept its number of characters: add_undo notes the size
      before the change as the size after it, and nothing corrects that. */
  lemma RedoneReplacement(c: Config, s: State, len: nat, answer: Line)
    requires ValidState(s) && s.x + len <= |s.lines[s.row]|
    ensures var l := s.lines[s.row];
            var s1 := Replace(s, len, answer);
            && CanDoUndo(c, s1)
            && var s2 := DoUndo(c, s1);
            && CanDoRedo(c, s2)
            && var s3 := DoRedo(c, s2);
            && s2.lines == s.lines && s2.size == s.size && s3.lines == s1.lines
            && (s3.size == s1.size <==> Count(l[..s.x] + answer + l[s.x + len..]) == Count(l))
  {
    var s1 := Replace(s, len, answer);
    var s2 := DoUndo(c, s1);
    assert s2.lines == s.lines;
  }

  /** For example: "a" replaced by "bc", undone and redone, is counted as one. */
  lemma ReplacementMiscounted(c: Config)
    ensures var s := Opened([[97], []], 2);
            var s1 := Replace(s, 1, [98, 99]);
            && CanDoUndo(c, s1) && CanDoRedo(c, DoUndo(c, s1))
            && var s3 := DoRedo(c, DoUndo(c, s1));
            s3.lines == [[98, 99], []] && s1.size == 3 && s3.size == 2
  {
    hide *;
    ReplacedExample();
    RedoneReplacement(c, Opened([[97], []], 2), 1, [98, 99]);
    RedoneSize(c, Opened([[97], []], 2), 1, [98, 99]);
  }

  lemma ReplacedExample()
    ensures var s := Opened([[97], []], 2);
            && ValidState(s) && s.x + 1 <= |s.lines[s.row]| && s.size == 2
            && var s1 := Replace(s, 1, [98, 99]);
            s1.lines == [[98, 99], []] && s1.size == 3
  {
    hide Count;
    TwoLetters();
    var (s, a, bc) := (Opened([[97], []], 2), [97], [98, 99]);
    assert a[..0] + bc + a[1..] == bc;
    assert Replace(s, 1, bc).lines == [bc, []];
  }

  lemma TwoLetters()
    ensures Count([98, 99]) == 2 && Count([97]) == 1
  {
    AsciiPrefixFrom([98, 99], 0, 2);
    AsciiPrefixFrom([97], 0, 1);
    assert [98, 99][..2] == [98, 99] && [97][..1] == [97];
  }

  /** What is counted after the redo is the size from before the replacement. */
  lemma RedoneSize(c: Config, s: State, len: nat, answer: Line)
    requires ValidState(s) && s.x + len <= |s.lines[s.row]|
    requires var s1 := Replace(s, len, answer); CanDoUndo(c, s1) && CanDoRedo(c, DoUndo(c, s1))
    ensures DoRedo(c, DoUndo(c, Replace(s, len, answer))).size == s.size
  {
  }
}

/** Over whole runs: where undoing and redoing leave the cursor, and when they put the
    Modified flag off. */
module Returns {
  import opened Chars
  import opened Lines
  import opened EditModel
  import opened History
  import Cuts
  import Edits
  import opened Runs
  import opened Cursors
  import opened Options

  // ----- Where the items of a run come from -----------------------------------------------------

  /** Where the item at k came from, in the n-th state of a run: the start of the
      operation that made it, or the place of the last deletion in place. */
  function Origin(states: seq<State>, ops: seq<Op>, n: nat, k: nat): Pos
    requires |states| == |ops| + 1 && n <= |ops|
  {
    if n == 0 then Pos(0, 0)
    else
      var (s, op, s') := (states[n - 1], ops[n - 1], states[n]);
      if s'.nextId > s.nextId && k == s.applied then Start(op, s)
      else if IsEdit(op) && InPlace(s, s') && k + 1 == |s.stack| then Cursor(s')
      else Origin(states, ops, n - 1, k)
  }

  /** Where the last operation that made or extended the item left the cursor. */
  function Arrival(states: seq<State>, ops: seq<Op>, n: nat, k: nat): Pos
    requires |states| == |ops| + 1 && n <= |ops|
  {
    if n == 0 then Pos(0, 0)
    else
      var (s, op, s') := (states[n - 1], ops[n - 1], states[n]);
      if s'.nextId > s.nextId && k == s.applied then Cursor(s')
      else if IsEdit(op) && Extends(s, s') && k + 1 == |s.stack| then Cursor(s')
      else Arrival(states, ops, n - 1, k)
  }

  predicate Fits(s: State, h: History) {
    && |h.snaps| == |s.stack| + 1
    && forall k | 0 <= k < |s.stack| :: InTexts(s.stack[k], h.snaps[k].lines, h.snaps[k + 1].lines)
  }

  lemma SamePlaces(j: Item, i: Item)
    requires SameMarks(j, i)
    ensures ComesFrom(j) == ComesFrom(i) && GoesTo(j) == GoesTo(i)
    ensures forall pre, post :: InTexts(i, pre, post) ==> InTexts(j, pre, post)
  {
  }

  lemma Resizing(i: Item, size: int)
    ensures var j := i.(newsize := size);
            && ComesFrom(j) == ComesFrom(i) && GoesTo(j) == GoesTo(i) && j.id == i.id && j.kind == i.kind
            && forall pre, post :: InTexts(i, pre, post) ==> InTexts(j, pre, post)
  {
  }

  lemma StartValid(m: Mode, s: State, op: Op)
    requires ValidState(s) && Allowed(m, s, op)
    ensures ValidPos(s.lines, Start(op, s))
  {
    hide Boundary, Edits.CountedIndent, AllWellFormed, WellFormed, RedoCounts;
  }

  lemma EditFits(s: State, s': State, h: History, at: Pos)
    requires Traced(s, s', at) && Fits(s, h) && ValidPos(s.lines, at) && ValidPos(s'.lines, Cursor(s'))
    requires h.pos == s.applied && h.pos < |h.snaps| && h.snaps[h.pos].lines == s.lines
    ensures Fits(s', Track(s, s', h))
  {
    if MakesItem(s, s', at) {
      MadeFits(s, s', h, at);
    } else if GrowsItem(s, s') {
      GrownFits(s, s', h);
    }
  }

  lemma MadeFits(s: State, s': State, h: History, at: Pos)
    requires MakesItem(s, s', at) && Fits(s, h) && ValidPos(s.lines, at) && ValidPos(s'.lines, Cursor(s'))
    requires h.pos == s.applied && h.pos < |h.snaps| && h.snaps[h.pos].lines == s.lines
    ensures Fits(s', Track(s, s', h))
  {
    hide ComesFrom, GoesTo, Proper;
    var h' := Track(s, s', h);
    forall k | 0 <= k < |s'.stack|
      ensures InTexts(s'.stack[k], h'.snaps[k].lines, h'.snaps[k + 1].lines)
    {
      if k < s.applied {
        Resizing(s.stack[k], s'.stack[k].newsize);
      }
    }
  }

  lemma GrownFits(s: State, s': State, h: History)
    requires GrowsItem(s, s') && Fits(s, h) && ValidPos(s'.lines, Cursor(s'))
    requires h.pos == s.applied && h.pos < |h.snaps|
    ensures Fits(s', Track(s, s', h))
  {
    hide ComesFrom, GoesTo, Proper;
    var h' := Track(s, s', h);
    var k := |s.stack| - 1;
    assert InTexts(s.stack[k], h.snaps[k].lines, h.snaps[k + 1].lines);
    GrownProper(Top(s'), |h.snaps[k].lines|);
    assert InTexts(s'.stack[k], h'.snaps[k].lines, h'.snaps[k + 1].lines);
  }

  lemma GrownProper(i: Item, rows: nat)
    requires i.kind in {ADD, BACK, DEL, CUT, ZAP}
    requires IsCut(i.kind) ==> i.cut.Some?
    ensures Proper(i, rows)
  {
  }

  lemma BackFits(s: State, s': State, op: Op, h: History)
    requires Fits(s, h) && SameItems(s, s') && !IsEdit(op) && h.pos < |h.snaps|
    ensures Fits(s', Follow(s, op, s', h))
  {
    hide InTexts;
    forall k | 0 <= k < |s.stack|
      ensures InTexts(s'.stack[k], h.snaps[k].lines, h.snaps[k + 1].lines)
    {
      SamePlaces(s'.stack[k], s.stack[k]);
    }
  }

  /** Every operation keeps the places that the items note. */
  lemma StepFits(m: Mode, s: State, h: History, op: Op)
    requires Inv(m, s, h) && Allowed(m, s, op) && Possible(m.config, s, op) && Fits(s, h)
    ensures h.pos < |h.snaps|
    ensures var s' := Step(m.config, s, op); Fits(s', Follow(s, op, s', h))
  {
    hide *;
    Present(m, s, h);
    NextItems(m, s, h);
    var s' := Step(m.config, s, op);
    StepKeeps(m, s, h, op);
    Present(m, s', Follow(s, op, s', h));
    if IsEdit(op) {
      StepTraced(m, s, h, op);
      StartValid(m, s, op);
      InText(s');
      EditFits(s, s', h, Start(op, s));
      FollowsEdit(s, op, s', h);
    } else {
      BackFits(s, s', op, h);
    }
  }

  lemma InText(s: State)
    requires ValidState(s)
    ensures ValidPos(s.lines, Cursor(s))
  {
  }

  lemma FollowsEdit(s: State, op: Op, s': State, h: History)
    requires IsEdit(op) && h.pos < |h.snaps|
    ensures Follow(s, op, s', h) == Track(s, s', h)
  {
  }

  lemma {:induction false} RunFits(m: Mode, t: Text, size: int, states: seq<State>, ops: seq<Op>, n: nat)
    requires RunFrom(m, t, size, states, ops) && n <= |ops|
    ensures Fits(states[n], HistoryAfter(states, ops, n))
  {
    hide Inv, Allowed, Possible, Step, Follow, OkText, OkSize, InTexts;
    if n > 0 {
      RunFits(m, t, size, states, ops, n - 1);
      RunKeeps(m, t, size, states, ops, n - 1);
      StepFits(m, states[n - 1], HistoryAfter(states, ops, n - 1), ops[n - 1]);
    }
  }

  /** What an item notes is where the run's operations started and ended. */
  predicate Noted(states: seq<State>, ops: seq<Op>, n: nat, k: nat)
    requires |states| == |ops| + 1 && n <= |ops|
  {
    && k < |states[n].stack|
    && var i := states[n].stack[k];
    && ComesFrom(i) == Origin(states, ops, n, k)
    && (i.kind != REPLACE ==> GoesTo(i) == Arrival(states, ops, n, k))
  }

  lemma {:induction false} RunNoted(m: Mode, t: Text, size: int, states: seq<State>, ops: seq<Op>, n: nat, k: nat)
    requires RunFrom(m, t, size, states, ops) && n <= |ops| && k < |states[n].stack|
    ensures Noted(states, ops, n, k)
  {
    hide *;
    RunBounds(m, t, size, states, ops);
    StepOfRun(m, t, size, states, ops, n, k);
    var (s, op, s') := (states[n - 1], ops[n - 1], states[n]);
    if !(s'.nextId > s.nextId && k == s.applied) {
      RunNoted(m, t, size, states, ops, n - 1, k);
    }
    if IsEdit(op) {
      NotedEdit(states, ops, n, k);
    } else {
      NotedBack(states, ops, n, k);
    }
  }

  /** The last step of a run of n steps, and where its items come from. */
  lemma StepOfRun(m: Mode, t: Text, size: int, states: seq<State>, ops: seq<Op>, n: nat, k: nat)
    requires RunFrom(m, t, size, states, ops) && n <= |ops| && k < |states[n].stack|
    ensures n > 0
    ensures var (s, op, s') := (states[n - 1], ops[n - 1], states[n]);
            && (if IsEdit(op) then Traced(s, s', Start(op, s)) else SameItems(s, s') && s'.nextId == s.nextId)
            && s.applied <= |s.stack| && (s'.nextId > s.nextId ==> s'.nextId == s.nextId + 1)
            && ((s'.nextId > s.nextId && k == s.applied) || k < |s.stack|)
  {
    hide Inv, Allowed, Possible, Step, OkText, OkSize, Follow, HistoryAfter, Shape, SameItems, Traced, MadeAt;
    RunBounds(m, t, size, states, ops);
    var h := HistoryAfter(states, ops, n - 1);
    RunKeeps(m, t, size, states, ops, n - 1);
    Present(m, states[n - 1], h);
    StepKeeps(m, states[n - 1], h, ops[n - 1]);
    if IsEdit(ops[n - 1]) {
      StepTraced(m, states[n - 1], h, ops[n - 1]);
    }
    Counted(states[n - 1], states[n], IsEdit(ops[n - 1]));
    SnapshotSource(m, t, size, states, ops, n, k);
  }

  lemma Counted(s: State, s': State, edit: bool)
    requires if edit then Shape(s, s') else SameItems(s, s')
    ensures !edit ==> s'.nextId == s.nextId
    ensures s'.nextId > s.nextId ==> s'.nextId == s.nextId + 1
  {
  }

  lemma NotedEdit(states: seq<State>, ops: seq<Op>, n: nat, k: nat)
    requires |states| == |ops| + 1 && 0 < n <= |ops| && k < |states[n].stack|
    requires var (s, op, s') := (states[n - 1], ops[n - 1], states[n]);
             && IsEdit(op) && Traced(s, s', Start(op, s)) && s.applied <= |s.stack|
             && ((s'.nextId > s.nextId && k == s.applied) || Noted(states, ops, n - 1, k))
    ensures Noted(states, ops, n, k)
  {
    hide ComesFrom, GoesTo, Proper, Start;
    var (s, s') := (states[n - 1], states[n]);
    if MakesItem(s, s', Start(ops[n - 1], s)) && k < s.applied {
      Resizing(s.stack[k], s'.stack[k].newsize);
    }
  }

  lemma NotedBack(states: seq<State>, ops: seq<Op>, n: nat, k: nat)
    requires |states| == |ops| + 1 && 0 < n <= |ops|
    requires !IsEdit(ops[n - 1]) && SameItems(states[n - 1], states[n]) && Noted(states, ops, n - 1, k)
    ensures Noted(states, ops, n, k)
  {
    hide ComesFrom, GoesTo;
    SamePlaces(states[n].stack[k], states[n - 1].stack[k]);
  }

  // ----- Where undo and redo leave the cursor ---------------------------------------------------

  lemma UndoCursor(m: Mode, s: State, h: History)
    requires Inv(m, s, h) && Fits(s, h) && 0 < s.applied
    ensures s.applied <= |s.stack| && Possible(m.config, s, Undo)
    ensures Cursor(Step(m.config, s, Undo)) == ComesFrom(s.stack[s.applied - 1])
  {
    hide Inv, Applied, Undone, InTexts, UndoItem, CanUndo, RedoItem, CanRedo, ComesFrom, OkPos;
    NextItems(m, s, h);
    Present(m, s, h);
    var i := s.stack[s.applied - 1];
    UndoGoesBack(m, i, h.snaps[s.applied - 1].lines, s.lines);
    UndoneItem(m, i, h.snaps[s.applied - 1].lines, s.lines);
  }

  /** A replacement is redone with the cursor going to the match, not behind the answer. */
  function RedoneAt(i: Item): Pos {
    if i.kind == REPLACE then ComesFrom(i) else GoesTo(i)
  }

  lemma RedoCursor(m: Mode, s: State, h: History)
    requires Inv(m, s, h) && Fits(s, h) && s.applied < |s.stack|
    ensures Possible(m.config, s, Redo)
    ensures Cursor(Step(m.config, s, Redo)) == RedoneAt(s.stack[s.applied])
  {
    hide Inv, Applied, InTexts, UndoItem, CanUndo, RedoItem, CanRedo, OkPos, SameMarks, ComesFrom, GoesTo;
    NextItems(m, s, h);
    Present(m, s, h);
    var i := s.stack[s.applied];
    var j := RedoItem(m.config.noNewlines, i, s.lines).item;
    var post := h.snaps[s.applied + 1].lines;
    RedoOne(m, i, s.lines, post);
    SameKind(j, i);
    SamePlaces(j, i);
    Mirrored(j, i);
    SamePlaces(i, j);
    RedoGoesOn(m, j, s.lines, post);
    ReplacedFrom(j);
  }

  lemma SameKind(j: Item, i: Item)
    requires SameMarks(j, i)
    ensures j.kind == i.kind
  {
  }

  lemma Mirrored(j: Item, i: Item)
    requires SameMarks(j, i)
    ensures SameMarks(i, j)
  {
  }

  lemma ReplacedFrom(i: Item)
    ensures i.kind == REPLACE ==> ComesFrom(i) == Pos(i.headRow, i.headX)
  {
  }

  lemma {:induction false} UndoCursors(m: Mode, s: State, h: History, k: nat)
    requires Inv(m, s, h) && Fits(s, h) && 0 < k <= h.pos
    ensures h.pos == s.applied <= |s.stack|
    ensures Cursor(Times(m.config, s, Undo, k)) == ComesFrom(s.stack[s.applied - k])
    decreases k
  {
    hide *;
    NextItems(m, s, h);
    TimesSteps(m, s, h, k);
    UndoCursor(m, s, h);
    var s1 := Step(m.config, s, Undo);
    StepKeeps(m, s, h, Undo);
    StepFits(m, s, h, Undo);
    IsNoEdit();
    if k > 1 {
      UndoCursors(m, s1, h.(pos := h.pos - 1), k - 1);
      SamePlacesAt(s, s1, s.applied - k);
    } else {
      TimesSteps(m, s1, h, 0);
    }
  }

  lemma SamePlacesAt(s: State, s1: State, k: nat)
    requires SameItems(s, s1) && k < |s.stack|
    ensures |s1.stack| == |s.stack| && s1.stack[k].kind == s.stack[k].kind
    ensures ComesFrom(s1.stack[k]) == ComesFrom(s.stack[k]) && GoesTo(s1.stack[k]) == GoesTo(s.stack[k])
    ensures RedoneAt(s1.stack[k]) == RedoneAt(s.stack[k])
  {
    hide ComesFrom, GoesTo;
    SamePlaces(s1.stack[k], s.stack[k]);
  }

  lemma {:induction false} RedoCursors(m: Mode, s: State, h: History, k: nat)
    requires Inv(m, s, h) && Fits(s, h) && 0 < k && h.pos + k < |h.snaps| && !m.sized
    ensures h.pos == s.applied && |h.snaps| == |s.stack| + 1
    ensures Cursor(Times(m.config, s, Redo, k)) == RedoneAt(s.stack[s.applied + k - 1])
    decreases k
  {
    hide *;
    NextItems(m, s, h);
    TimesSteps(m, s, h, k);
    RedoCursor(m, s, h);
    var s1 := Step(m.config, s, Redo);
    StepKeeps(m, s, h, Redo);
    StepFits(m, s, h, Redo);
    IsNoEdit();
    if k > 1 {
      RedoCursors(m, s1, h.(pos := h.pos + 1), k - 1);
      SamePlacesAt(s, s1, s.applied + k - 1);
    } else {
      TimesSteps(m, s1, h, 0);
    }
  }

  lemma {:induction false} UndoneFits(m: Mode, s: State, h: History, k: nat)
    requires Inv(m, s, h) && Fits(s, h) && k <= h.pos < |h.snaps|
    ensures Fits(Times(m.config, s, Undo, k), h.(pos := h.pos - k))
    decreases k
  {
    hide *;
    NextItems(m, s, h);
    TimesSteps(m, s, h, k);
    if k > 0 {
      StepKeeps(m, s, h, Undo);
      StepFits(m, s, h, Undo);
      UndoneFits(m, Step(m.config, s, Undo), h.(pos := h.pos - 1), k - 1);
    }
  }

  /** Undoing k items leaves the cursor where the last of them came from. */
  lemma UndoneTo(m: Mode, t: Text, size: int, states: seq<State>, ops: seq<Op>, k: nat)
    requires RunFrom(m, t, size, states, ops) && 0 < k <= states[|ops|].applied
    ensures var s := states[|ops|];
            Cursor(Times(m.config, s, Undo, k)) == Origin(states, ops, |ops|, s.applied - k)
  {
    hide *;
    RunBounds(m, t, size, states, ops);
    var (s, h) := (states[|ops|], HistoryAfter(states, ops, |ops|));
    RunKeeps(m, t, size, states, ops, |ops|);
    RunFits(m, t, size, states, ops, |ops|);
    NextItems(m, s, h);
    UndoCursors(m, s, h, k);
    RunNoted(m, t, size, states, ops, |ops|, s.applied - k);
    WhatIsNoted(states, ops, |ops|, s.applied - k);
  }

  /** Undoing k items and redoing j of them leaves the cursor where the last of these went. */
  lemma RedoneTo(m: Mode, t: Text, size: int, states: seq<State>, ops: seq<Op>, k: nat, j: nat)
    requires RunFrom(m, t, size, states, ops) && 0 < j <= k <= states[|ops|].applied
    ensures var s := states[|ops|];
            var i := s.applied - k + j - 1;
            && i < |s.stack|
            && Cursor(Times(m.config, Times(m.config, s, Undo, k), Redo, j)) ==
               if s.stack[i].kind == REPLACE then Origin(states, ops, |ops|, i) else Arrival(states, ops, |ops|, i)
  {
    hide *;
    RunBounds(m, t, size, states, ops);
    var (s, h) := (states[|ops|], HistoryAfter(states, ops, |ops|));
    var plain := m.(sized := false);
    Unsized(m, t, size, states, ops);
    RunKeeps(plain, t, size, states, ops, |ops|);
    RunFits(m, t, size, states, ops, |ops|);
    NextItems(plain, s, h);
    UndoTimes(plain, s, h, k);
    UndoneFits(plain, s, h, k);
    var (i, undone) := (s.applied - k + j - 1, Times(m.config, s, Undo, k));
    NextItems(plain, undone, h.(pos := h.pos - k));
    RedoCursors(plain, undone, h.(pos := h.pos - k), j);
    SamePlacesAt(s, undone, i);
    RunNoted(m, t, size, states, ops, |ops|, i);
    WhatIsNoted(states, ops, |ops|, i);
  }

  lemma WhatIsNoted(states: seq<State>, ops: seq<Op>, n: nat, k: nat)
    requires |states| == |ops| + 1 && n <= |ops| && Noted(states, ops, n, k)
    ensures var i := states[n].stack[k];
            && ComesFrom(i) == Origin(states, ops, n, k)
            && RedoneAt(i) == if i.kind == REPLACE then Origin(states, ops, n, k) else Arrival(states, ops, n, k)
  {
    hide ComesFrom, GoesTo, Origin, Arrival;
  }

  /** The j-th step of a run deletes in place, and so extends the item with the given id. */
  predicate DeletesInPlace(states: seq<State>, ops: seq<Op>, j: nat, id: nat) {
    j < |ops| && j + 1 < |states| && IsEdit(ops[j]) && InPlace(states[j], states[j + 1]) && Top(states[j]).id == id
  }

  /** The j-th step of a run makes the item with the given id, or extends it. */
  predicate WorksOn(states: seq<State>, ops: seq<Op>, j: nat, id: nat) {
    && j < |ops| && j + 1 < |states|
    && (|| (states[j].nextId == id && states[j + 1].nextId == id + 1)
        || (IsEdit(ops[j]) && Extends(states[j], states[j + 1]) && Top(states[j]).id == id))
  }

  /** The step that made an item, and the last one that changed where it came from. */
  lemma {:induction false} OriginIs(
      m: Mode, t: Text, size: int, states: seq<State>, ops: seq<Op>, n: nat, k: nat) returns (at: nat, from: nat)
    requires RunFrom(m, t, size, states, ops) && n <= |ops| && k < |states[n].stack|
    ensures var (id, h) := (states[n].stack[k].id, HistoryAfter(states, ops, n));
            && |h.snaps| == |states[n].stack| + 1 && MadeAt(m, states, n, at, id, h.snaps[k]) && at <= from < n
            && (from > at ==> DeletesInPlace(states, ops, from, id) && states[n].stack[k].kind in {BACK, DEL})
            && (forall j | from < j < n :: !DeletesInPlace(states, ops, j, id))
            && Origin(states, ops, n, k) == if from == at then Start(ops[at], states[at]) else Cursor(states[from + 1])
  {
    hide *;
    RunBounds(m, t, size, states, ops);
    SnapshotSource(m, t, size, states, ops, n, k);
    StepOfRun(m, t, size, states, ops, n, k);
    OriginStep(states, ops, n, k);
    var (s, op, s') := (states[n - 1], ops[n - 1], states[n]);
    if s'.nextId == s.nextId + 1 && k == s.applied {
      at, from := n - 1, n - 1;
    } else {
      at, from := OriginIs(m, t, size, states, ops, n - 1, k);
      var id := s'.stack[k].id;
      MadeBefore(m, states, n - 1, at, id,
                 HistoryAfter(states, ops, n - 1).snaps[k], n, HistoryAfter(states, ops, n).snaps[k]);
      IdsInRun(m, t, size, states, ops, n - 1);
      KindStays(s, op, s', k);
      InPlaceAt(states, ops, n - 1, k, id);
      if IsEdit(op) && InPlace(s, s') && k + 1 == |s.stack| {
        from := n - 1;
      }
    }
  }

  lemma OriginStep(states: seq<State>, ops: seq<Op>, n: nat, k: nat)
    requires |states| == |ops| + 1 && 0 < n <= |ops|
    ensures var (s, op, s') := (states[n - 1], ops[n - 1], states[n]);
            && Origin(states, ops, n, k) == (if s'.nextId > s.nextId && k == s.applied then Start(op, s)
                                             else if IsEdit(op) && InPlace(s, s') && k + 1 == |s.stack| then Cursor(s')
                                             else Origin(states, ops, n - 1, k))
            && Arrival(states, ops, n, k) == (if s'.nextId > s.nextId && k == s.applied then Cursor(s')
                                              else if IsEdit(op) && Extends(s, s') && k + 1 == |s.stack| then Cursor(s')
                                              else Arrival(states, ops, n - 1, k))
  {
  }

  lemma KindStays(s: State, op: Op, s': State, k: nat)
    requires if IsEdit(op) then Traced(s, s', Start(op, s)) else SameItems(s, s') && s'.nextId == s.nextId
    requires k < |s.stack| && k < |s'.stack| && !(s'.nextId == s.nextId + 1 && k == s.applied)
    ensures s'.stack[k].kind == s.stack[k].kind
    ensures IsEdit(op) && InPlace(s, s') && k + 1 == |s.stack| ==> s'.stack[k].kind in {BACK, DEL}
  {
    hide ComesFrom, GoesTo, Proper;
  }

  lemma IdsInRun(m: Mode, t: Text, size: int, states: seq<State>, ops: seq<Op>, n: nat)
    requires RunFrom(m, t, size, states, ops) && n <= |ops|
    ensures IdsDistinct(states[n]) && states[n].applied <= |states[n].stack|
  {
    hide ItemsStand, SavedStands, SnapsFine, Ready, OkText, OkSize, OkPos, AllWellFormed;
    RunKeeps(m, t, size, states, ops, n);
    NextItems(m, states[n], HistoryAfter(states, ops, n));
  }

  lemma InPlaceAt(states: seq<State>, ops: seq<Op>, j: nat, k: nat, id: nat)
    requires |states| == |ops| + 1 && j < |ops| && k < |states[j].stack| && IdsDistinct(states[j])
    requires states[j].stack[k].id == id
    ensures DeletesInPlace(states, ops, j, id) <==>
            IsEdit(ops[j]) && InPlace(states[j], states[j + 1]) && k + 1 == |states[j].stack|
    ensures WorksOn(states, ops, j, id) <==>
            IsEdit(ops[j]) && Extends(states[j], states[j + 1]) && k + 1 == |states[j].stack|
  {
  }

  /** The last step that made an item or extended it. */
  lemma {:induction false} ArrivalIs(
      m: Mode, t: Text, size: int, states: seq<State>, ops: seq<Op>, n: nat, k: nat) returns (to: nat)
    requires RunFrom(m, t, size, states, ops) && n <= |ops| && k < |states[n].stack|
    ensures var id := states[n].stack[k].id;
            && to < n && WorksOn(states, ops, to, id) && (forall j | to < j < n :: !WorksOn(states, ops, j, id))
            && Arrival(states, ops, n, k) == Cursor(states[to + 1])
  {
    hide *;
    RunBounds(m, t, size, states, ops);
    SnapshotSource(m, t, size, states, ops, n, k);
    StepOfRun(m, t, size, states, ops, n, k);
    OriginStep(states, ops, n, k);
    var (s, op, s') := (states[n - 1], ops[n - 1], states[n]);
    if s'.nextId == s.nextId + 1 && k == s.applied {
      to := n - 1;
      NewWorks(m, states, ops, n - 1, s'.stack[k].id, HistoryAfter(states, ops, n).snaps[k]);
    } else {
      to := ArrivalIs(m, t, size, states, ops, n - 1, k);
      IdsInRun(m, t, size, states, ops, n - 1);
      InPlaceAt(states, ops, n - 1, k, s'.stack[k].id);
      if IsEdit(op) && Extends(s, s') && k + 1 == |s.stack| {
        to := n - 1;
      }
    }
  }

  lemma NewWorks(m: Mode, states: seq<State>, ops: seq<Op>, j: nat, id: nat, snap: Snap)
    requires |states| == |ops| + 1 && j < |ops| && MadeAt(m, states, j + 1, j, id, snap)
    ensures WorksOn(states, ops, j, id)
  {
  }

  /** After any run, undoing k items gives back the text, the size and the cursor that the
      operation which made the k-th newest item started with: the `at`-th one.  Only if it
      was a deletion and later ones in place have extended it, the cursor goes to where the
      last of these was made: the `from`-th operation. */
  lemma UndoReturns(m: Mode, t: Text, size: int, states: seq<State>, ops: seq<Op>, k: nat)
      returns (at: nat, from: nat)
    requires RunFrom(m, t, size, states, ops) && 0 < k <= states[|ops|].applied
    ensures var s := states[|ops|];
            var s' := Times(m.config, s, Undo, k);
            && s.applied <= |s.stack|
            && var id := s.stack[s.applied - k].id;
            && MadeAt(m, states, |ops|, at, id, Snap(s'.lines, s'.size)) && at <= from < |ops|
            && (from > at ==> DeletesInPlace(states, ops, from, id))
            && (forall j | from < j < |ops| :: !DeletesInPlace(states, ops, j, id))
            && Cursor(s') == if from == at then Start(ops[at], states[at]) else Cursor(states[from + 1])
  {
    hide *;
    RunBounds(m, t, size, states, ops);
    var (s, h) := (states[|ops|], HistoryAfter(states, ops, |ops|));
    RunKeeps(m, t, size, states, ops, |ops|);
    NextItems(m, s, h);
    UndoTimes(m, s, h, k);
    at, from := OriginIs(m, t, size, states, ops, |ops|, s.applied - k);
    var s' := Times(m.config, s, Undo, k);
    MadeBefore(m, states, |ops|, at, s.stack[s.applied - k].id, h.snaps[s.applied - k], |ops|, Snap(s'.lines, s'.size));
    UndoneTo(m, t, size, states, ops, k);
  }

  /** Undoing k items and redoing j of them leaves the cursor where the last operation that
      worked on the last of these left it; but at the match, when that was a replacement. */
  lemma RedoReturns(m: Mode, t: Text, size: int, states: seq<State>, ops: seq<Op>, k: nat, j: nat)
      returns (at: nat, to: nat)
    requires RunFrom(m, t, size, states, ops) && 0 < j <= k <= states[|ops|].applied
    ensures var s := states[|ops|];
            var i := s.applied - k + j - 1;
            && i < |s.stack| && at <= to < |ops|
            && states[at].nextId == s.stack[i].id && states[at + 1].nextId == s.stack[i].id + 1
            && WorksOn(states, ops, to, s.stack[i].id)
            && (forall l | to < l < |ops| :: !WorksOn(states, ops, l, s.stack[i].id))
            && Cursor(Times(m.config, Times(m.config, s, Undo, k), Redo, j)) ==
               if s.stack[i].kind == REPLACE then Start(ops[at], states[at]) else Cursor(states[to + 1])
  {
    hide *;
    RunBounds(m, t, size, states, ops);
    RedoneTo(m, t, size, states, ops, k, j);
    var s := states[|ops|];
    var i := s.applied - k + j - 1;
    var from;
    at, from := OriginIs(m, t, size, states, ops, |ops|, i);
    to := ArrivalIs(m, t, size, states, ops, |ops|, i);
    MadeWorks(m, states, ops, at, s.stack[i].id, HistoryAfter(states, ops, |ops|).snaps[i]);
  }

  lemma MadeWorks(m: Mode, states: seq<State>, ops: seq<Op>, at: nat, id: nat, snap: Snap)
    requires |states| == |ops| + 1 && MadeAt(m, states, |ops|, at, id, snap)
    ensures WorksOn(states, ops, at, id) && states[at].nextId == id && states[at + 1].nextId == id + 1
  {
  }

  /** So when an operation makes a new item, undoing it at once gives back the cursor it
      started from, and redoing it then the cursor it left, or the match. */
  lemma UndoAtOnce(m: Mode, s: State, h: History, op: Op)
    requires Inv(m, s, h) && Fits(s, h) && Allowed(m, s, op) && Possible(m.config, s, op) && !m.sized
    requires Step(m.config, s, op).nextId > s.nextId
    ensures var s1 := Step(m.config, s, op);
            && |s1.stack| > 0 && Possible(m.config, s1, Undo)
            && var s2 := Step(m.config, s1, Undo);
            && s2.lines == s.lines && Cursor(s2) == Start(op, s) && Possible(m.config, s2, Redo)
            && var s3 := Step(m.config, s2, Redo);
            s3.lines == s1.lines && Cursor(s3) == if Top(s1).kind == REPLACE then Start(op, s) else Cursor(s1)
  {
    hide *;
    NextItems(m, s, h);
    var s1 := Step(m.config, s, op);
    MadeOnTop(m, s, h, op);
    var h1 := Recorded(h, SnapOf(s1));
    Backwards(m, s1, h1);
    RecordedSnaps(h, SnapOf(s1));
  }

  lemma MadeOnTop(m: Mode, s: State, h: History, op: Op)
    requires Inv(m, s, h) && Fits(s, h) && Allowed(m, s, op) && Possible(m.config, s, op)
    requires Step(m.config, s, op).nextId > s.nextId
    ensures h.pos < |h.snaps|
    ensures var s1 := Step(m.config, s, op);
            && Inv(m, s1, Recorded(h, SnapOf(s1))) && Fits(s1, Recorded(h, SnapOf(s1)))
            && |s1.stack| == s1.applied > 0
            && ComesFrom(Top(s1)) == Start(op, s)
            && RedoneAt(Top(s1)) == if Top(s1).kind == REPLACE then Start(op, s) else Cursor(s1)
  {
    hide Inv, Fits, Allowed, Possible, Step, Shape, SameItems, Start, ComesFrom, GoesTo, Proper;
    Present(m, s, h);
    StepKeeps(m, s, h, op);
    StepFits(m, s, h, op);
    Counted(s, Step(m.config, s, op), IsEdit(op));
    StepTraced(m, s, h, op);
  }

  lemma RecordedSnaps(h: History, snap: Snap)
    requires h.pos < |h.snaps|
    ensures var h1 := Recorded(h, snap);
            h1.pos == h.pos + 1 && |h1.snaps| == h.pos + 2 && h1.snaps[h.pos] == h.snaps[h.pos]
  {
  }

  /** One step back from the newest item, and forth again. */
  lemma Backwards(m: Mode, s: State, h: History)
    requires Inv(m, s, h) && Fits(s, h) && |s.stack| == s.applied > 0 && !m.sized
    ensures h.pos == s.applied && |h.snaps| == |s.stack| + 1 && Possible(m.config, s, Undo)
    ensures var s2 := Step(m.config, s, Undo);
            && s2.lines == h.snaps[h.pos - 1].lines && Cursor(s2) == ComesFrom(Top(s))
            && Possible(m.config, s2, Redo)
            && var s3 := Step(m.config, s2, Redo);
            s3.lines == s.lines && Cursor(s3) == RedoneAt(Top(s))
  {
    hide *;
    NextItems(m, s, h);
    TimesSteps(m, s, h, 1);
    UndoCursor(m, s, h);
    StepKeeps(m, s, h, Undo);
    StepFits(m, s, h, Undo);
    IsNoEdit();
    TopIs(s);
    var (s2, h2) := (Step(m.config, s, Undo), h.(pos := h.pos - 1));
    NextItems(m, s2, h2);
    TimesSteps(m, s2, h2, 1);
    RedoCursor(m, s2, h2);
    StepKeeps(m, s2, h2, Redo);
    NextItems(m, Step(m.config, s2, Redo), h2.(pos := h2.pos + 1));
    SamePlacesAt(s, s2, s.applied - 1);
  }

  lemma TopIs(s: State)
    requires |s.stack| > 0
    ensures Top(s) == s.stack[|s.stack| - 1]
  {
  }

  // ----- The Modified flag ----------------------------------------------------------------------

  /** The position in the history that is saved: the one of the last save, or the oldest;
      none, when an edit has dropped that position from the history. */
  function SavedAt(states: seq<State>, ops: seq<Op>, n: nat): Option<nat>
    requires |states| == |ops| + 1 && n <= |ops|
  {
    if n == 0 then Some(0)
    else
      var (s, op, s', was) := (states[n - 1], ops[n - 1], states[n], SavedAt(states, ops, n - 1));
      if op.Save? then Some(s.applied)
      else if s'.nextId > s.nextId && was.Some? && was.value > s.applied then None
      else was
  }

  predicate PointsAt(s: State, p: Option<nat>) {
    forall k: nat | k <= |s.stack| :: IdAt(s.stack, k) == s.saved <==> p == Some(k)
  }

  /** The saved point of the buffer is that position. */
  lemma {:induction false} RunPoints(m: Mode, t: Text, size: int, states: seq<State>, ops: seq<Op>, n: nat)
    requires RunFrom(m, t, size, states, ops) && n <= |ops|
    ensures PointsAt(states[n], SavedAt(states, ops, n))
  {
    hide *;
    RunStarts(m, t, size, states, ops);
    if n > 0 {
      RunPoints(m, t, size, states, ops, n - 1);
      IdsInRun(m, t, size, states, ops, n - 1);
      IdsInRun(m, t, size, states, ops, n);
      StepTracedInRun(m, t, size, states, ops, n);
      var (s, op, s') := (states[n - 1], ops[n - 1], states[n]);
      SavedStep(states, ops, n);
      if op.Save? {
        PointsHere(s');
      } else if IsEdit(op) {
        PointsOn(s, s', Start(op, s), SavedAt(states, ops, n - 1));
      } else {
        PointsBack(s, s', SavedAt(states, ops, n - 1));
      }
    }
  }

  lemma SavedStep(states: seq<State>, ops: seq<Op>, n: nat)
    requires |states| == |ops| + 1 && 0 < n <= |ops|
    ensures SavedAt(states, ops, n) ==
            var (s, s', was) := (states[n - 1], states[n], SavedAt(states, ops, n - 1));
            if ops[n - 1].Save? then Some(s.applied)
            else if s'.nextId > s.nextId && was.Some? && was.value > s.applied then None
            else was
  {
  }

  lemma RunStarts(m: Mode, t: Text, size: int, states: seq<State>, ops: seq<Op>)
    requires RunFrom(m, t, size, states, ops)
    ensures |states| == |ops| + 1 && PointsAt(states[0], SavedAt(states, ops, 0))
  {
    hide Allowed, Possible, Step, OkText, OkSize;
  }

  lemma PointsHere(s: State)
    requires IdsDistinct(s) && s.applied <= |s.stack| && s.saved == IdAt(s.stack, s.applied)
    ensures PointsAt(s, Some(s.applied))
  {
  }

  lemma PointsOn(s: State, s': State, at: Pos, was: Option<nat>)
    requires PointsAt(s, was) && IdsDistinct(s) && IdsDistinct(s') && Traced(s, s', at) && s.applied <= |s.stack|
    requires Shape(s, s')
    ensures PointsAt(s', if s'.nextId > s.nextId && was.Some? && was.value > s.applied then None else was)
  {
    if MakesItem(s, s', at) {
      PointsNew(s, s', at, was);
    } else {
      hide MadeItem, ComesFrom, GoesTo;
      assert forall k: nat | k <= |s.stack| :: IdAt(s'.stack, k) == IdAt(s.stack, k);
    }
  }

  lemma PointsNew(s: State, s': State, at: Pos, was: Option<nat>)
    requires PointsAt(s, was) && IdsDistinct(s) && IdsDistinct(s') && MakesItem(s, s', at) && Shape(s, s')
    ensures PointsAt(s', if was.Some? && was.value > s.applied then None else was)
  {
    hide MadeItem;
    assert forall k: nat | k <= s.applied :: IdAt(s'.stack, k) == IdAt(s.stack, k);
  }

  lemma PointsBack(s: State, s': State, was: Option<nat>)
    requires PointsAt(s, was) && SameItems(s, s') && s'.saved == s.saved
    ensures PointsAt(s', was)
  {
    assert forall k: nat | k <= |s.stack| :: IdAt(s'.stack, k) == IdAt(s.stack, k);
  }

  /** What the last step of a run of n steps does to the items and the saved point. */
  lemma StepTracedInRun(m: Mode, t: Text, size: int, states: seq<State>, ops: seq<Op>, n: nat)
    requires RunFrom(m, t, size, states, ops) && 0 < n <= |ops|
    ensures var (s, op, s') := (states[n - 1], ops[n - 1], states[n]);
            && (if IsEdit(op) then Traced(s, s', Start(op, s)) && Shape(s, s')
                else SameItems(s, s') && s'.nextId == s.nextId)
            && (op.Save? ==> s'.applied == s.applied <= |s'.stack| && s'.saved == IdAt(s'.stack, s'.applied))
            && (!IsEdit(op) && !op.Save? ==> s'.saved == s.saved)
  {
    hide Inv, Allowed, Possible, Step, OkText, OkSize, Follow, HistoryAfter, Shape, SameItems, Traced, IsEdit;
    var h := HistoryAfter(states, ops, n - 1);
    RunKeeps(m, t, size, states, ops, n - 1);
    Present(m, states[n - 1], h);
    StepKeeps(m, states[n - 1], h, ops[n - 1]);
    if IsEdit(ops[n - 1]) {
      StepTraced(m, states[n - 1], h, ops[n - 1]);
    }
    Counted(states[n - 1], states[n], IsEdit(ops[n - 1]));
    if !IsEdit(ops[n - 1]) {
      SavedMoves(m.config, states[n - 1], ops[n - 1]);
    }
    SaveIsNoEdit(ops[n - 1]);
  }

  lemma SaveIsNoEdit(op: Op)
    ensures op.Save? ==> !IsEdit(op)
  {
  }

  lemma SavedMoves(c: Config, s: State, op: Op)
    requires Possible(c, s, op) && s.applied <= |s.stack| && !IsEdit(op)
    ensures var s' := Step(c, s, op);
            && (op.Save? ==> s'.applied == s.applied <= |s'.stack| && s'.saved == IdAt(s'.stack, s'.applied))
            && (!op.Save? ==> s'.saved == s.saved)
  {
    hide UndoItem, RedoItem, CanUndo, CanRedo;
  }

  /** An insertion that put in nothing. */
  predicate PutsNothing(i: Item) {
    i.kind == INSERT && Pos(i.headRow, i.headX) == Pos(i.tailRow, i.tailX)
  }

  lemma FlagAfterUndo(c: Config, s: State)
    requires s.applied <= |s.stack| && Possible(c, s, Undo) && s.applied > 0
    ensures var s' := Step(c, s, Undo);
            && s'.applied == s.applied - 1 && s'.applied <= |s'.stack| && s'.saved == s.saved
            && (!s'.modified <==> IdAt(s.stack, s'.applied) == s.saved)
  {
    hide UndoItem, CanUndo;
  }

  lemma FlagAfterRedo(c: Config, s: State)
    requires Possible(c, s, Redo) && s.applied < |s.stack|
    ensures var (u, s') := (s.stack[s.applied], Step(c, s, Redo));
            && s'.applied == s.applied + 1 && s'.applied <= |s'.stack| && s'.saved == s.saved
            && (!s'.modified <==> || IdAt(s.stack, s'.applied) == s.saved
                                  || (u.kind == INSERT && u.cut.None? && !s.modified))
  {
    hide RedoItem, CanRedo;
  }

  lemma UndoneInsertion(m: Mode, i: Item, pre: Text, post: Text)
    requires Undone(m, i, pre, post) && InTexts(i, pre, post) && i.kind == INSERT
    ensures i.cut.None? <==> PutsNothing(i)
  {
    hide UndoItem, RedoItem, CanUndo, CanRedo, OkPos, InTexts;
    var j := RedoItem(m.config.noNewlines, i, pre).item;
    RedoOne(m, i, pre, post);
    Mirrored(j, i);
    SamePlaces(j, i);
    InsertionPlaces(i, pre, post);
    InsertionPlaces(j, pre, post);
    InsertionUndone(m.config.noNewlines, j, post);
  }

  lemma InsertionPlaces(i: Item, pre: Text, post: Text)
    requires InTexts(i, pre, post) && i.kind == INSERT
    ensures !i.wholeLine && ValidPos(post, Pos(i.tailRow, i.tailX))
  {
  }

  /** After an undo the Modified flag is off exactly when the position in the history is
      the one that is saved; and after a redo too, except that redoing an insertion of
      nothing lets the flag be off where it was. */
  lemma FlagIsExact(m: Mode, t: Text, size: int, states: seq<State>, ops: seq<Op>, n: nat)
    requires RunFrom(m, t, size, states, ops) && n < |ops| && states[n].applied <= |states[n].stack|
    ensures ops[n].Undo? && states[n].applied > 0 ==>
              (!states[n + 1].modified <==> SavedAt(states, ops, n + 1) == Some(states[n + 1].applied))
    ensures ops[n].Redo? && states[n].applied < |states[n].stack| ==>
              (!states[n + 1].modified <==>
               || SavedAt(states, ops, n + 1) == Some(states[n + 1].applied)
               || (PutsNothing(states[n].stack[states[n].applied]) && !states[n].modified))
  {
    hide *;
    RunStarts(m, t, size, states, ops);
    var (s, s', h) := (states[n], states[n + 1], HistoryAfter(states, ops, n));
    RunKeeps(m, t, size, states, ops, n);
    RunFits(m, t, size, states, ops, n);
    NextItems(m, s, h);
    RunPoints(m, t, size, states, ops, n);
    RunPoints(m, t, size, states, ops, n + 1);
    StepTracedInRun(m, t, size, states, ops, n + 1);
    RunSteps(m, t, size, states, ops, n);
    IsNoEdit();
    if ops[n].Undo? && s.applied > 0 {
      FlagAfterUndo(m.config, s);
      SameId(s, s', SavedAt(states, ops, n + 1));
    }
    if ops[n].Redo? && s.applied < |s.stack| {
      FlagAfterRedo(m.config, s);
      SameId(s, s', SavedAt(states, ops, n + 1));
      FitsAt(s, h, s.applied);
      if s.stack[s.applied].kind == INSERT {
        UndoneInsertion(m, s.stack[s.applied], s.lines, h.snaps[s.applied + 1].lines);
      }
      OnlyInsertions(s.stack[s.applied]);
    }
  }

  /** Saving puts the flag off.  An edit never does, and one that changes the text puts it
      on; moving, copying and choosing how to cut leave it alone. */
  lemma FlagAfterEdits(m: Mode, t: Text, size: int, states: seq<State>, ops: seq<Op>, n: nat)
    requires RunFrom(m, t, size, states, ops) && n < |ops|
    ensures var (s, op, s') := (states[n], ops[n], states[n + 1]);
            && (op.Save? ==> !s'.modified)
            && (IsEdit(op) && (s.modified || s'.lines != s.lines) ==> s'.modified)
            && (op.Move? || op.Copy? || op.ToggleCutFromCursor? ==> s'.modified == s.modified)
  {
    hide *;
    RunBounds(m, t, size, states, ops);
    RunSteps(m, t, size, states, ops, n);
    StepTracedInRun(m, t, size, states, ops, n + 1);
    var (s, op, s') := (states[n], ops[n], states[n + 1]);
    if IsEdit(op) {
      NeverOff(s, s', Start(op, s));
      ModifiedIsSound(m, t, size, states, ops, n);
      ModifiedIsSound(m, t, size, states, ops, n + 1);
      SavedTextStays(states, ops, n);
    }
    PlainFlag(m.config, s, op);
  }

  lemma NeverOff(s: State, s': State, at: Pos)
    requires Traced(s, s', at)
    ensures s.modified ==> s'.modified
  {
    hide MakesItem, GrowsItem, LeavesItems;
  }

  lemma SavedTextStays(states: seq<State>, ops: seq<Op>, n: nat)
    requires |states| == |ops| + 1 && n < |ops| && IsEdit(ops[n])
    ensures LastSaved(states, ops, n + 1) == LastSaved(states, ops, n)
  {
  }

  lemma PlainFlag(c: Config, s: State, op: Op)
    requires Possible(c, s, op)
    ensures op.Save? ==> !Step(c, s, op).modified
    ensures op.Move? || op.Copy? || op.ToggleCutFromCursor? ==> Step(c, s, op).modified == s.modified
  {
  }

  lemma OnlyInsertions(i: Item)
    ensures PutsNothing(i) ==> i.kind == INSERT
  {
  }

  lemma FitsAt(s: State, h: History, k: nat)
    requires Fits(s, h) && k < |s.stack|
    ensures |h.snaps| == |s.stack| + 1 && InTexts(s.stack[k], h.snaps[k].lines, h.snaps[k + 1].lines)
  {
  }

  lemma SameId(s: State, s': State, p: Option<nat>)
    requires SameItems(s, s') && s'.applied <= |s.stack| && PointsAt(s', p) && s'.saved == s.saved
    ensures p == Some(s'.applied) <==> IdAt(s.stack, s'.applied) == s.saved
  {
  }

  lemma RunSteps(m: Mode, t: Text, size: int, states: seq<State>, ops: seq<Op>, n: nat)
    requires RunFrom(m, t, size, states, ops) && n < |ops|
    ensures Possible(m.config, states[n], ops[n]) && states[n + 1] == Step(m.config, states[n], ops[n])
    ensures ops[n].Undo? ==> ops[n] == Undo
    ensures ops[n].Redo? ==> ops[n] == Redo
  {
    hide Allowed, Possible, Step, OkText, OkSize;
  }

  // ----- The three exceptions, in examples --------------------------------------------------------

  /** Backspace behind the b of "abc", then behind the c: both are one item, and undoing it
      leaves the cursor behind the a, not behind the b. */
  lemma DeletedInPlace(c: Config)
    ensures var s := Opened([[97, 98, 99], []], 4).(x := 2);
            && ValidState(s)
            && var s1 := EditModel.Backspace(c, s).(x := 2);
            && ValidState(s1)
            && var s2 := EditModel.Backspace(c, s1);
            && CanDoUndo(c, s2)
            && var s3 := DoUndo(c, s2);
            s3.applied == 0 && s3.lines == s.lines && Cursor(s) == Pos(0, 2) && Cursor(s3) == Pos(0, 1)
  {
    hide EditModel.Backspace, DoUndo, CanDoUndo, ValidState;
    var s := Opened([[97, 98, 99], []], 4).(x := 2);
    FirstOfTwo(c, s);
    var s1 := EditModel.Backspace(c, s).(x := 2);
    SecondOfTwo(c, s1);
    UndoneTwo(c, EditModel.Backspace(c, s1));
  }

  lemma StepsOver(l: Line, x: nat)
    requires 0 < x <= |l| <= 3 && forall i | 0 <= i < |l| :: l[i] < 0x80
    ensures StepLeft(l, x) == x - 1 && CharLength(l, x - 1) == 1
  {
  }

  lemma FirstOfTwo(c: Config, s: State)
    requires s.lines == [[97, 98, 99], []] && s.row == 0 && s.x == 2 && s.stack == [] && s.applied == 0
    ensures ValidState(s)
    ensures var s1 := EditModel.Backspace(c, s);
            && s1.lines == [[97, 99], []] && s1.row == 0 && s1.last == BACK && s1.applied == |s1.stack| == 1
            && var i := Top(s1);
            i.kind == BACK && i.headRow == i.tailRow == 0 && i.headX == 1 && i.str == [98]
  {
    BeforeC();
    NewBackspace(c, s);
    Edits.EraseFields(s.(x := 1), BACK);
    hide StepLeft, CharLength, DeleteFrom, Erase, AddUndo, EditModel.Backspace;
  }

  lemma BeforeC()
    ensures var l := [97, 98, 99];
            && StepLeft(l, 2) == 1 && CharLength(l, 1) == 1
            && DeleteFrom(l, 1, 1) == [97, 99] && l[1..2] == [98]
  {
    StepsOver([97, 98, 99], 2);
  }

  lemma NewBackspace(c: Config, s: State)
    requires ValidState(s) && s.x > 0 && s.stack == []
    ensures var s1 := s.(x := StepLeft(s.lines[s.row], s.x));
            EditModel.Backspace(c, s) == Erase(AddUndo(s1, BACK, None))
  {
    hide StepLeft, Erase, AddUndo, UpdateDeletion;
  }

  lemma SecondOfTwo(c: Config, s: State)
    requires s.lines == [[97, 99], []] && s.row == 0 && s.x == 2 && s.last == BACK && s.applied == |s.stack| == 1
    requires var i := Top(s); i.kind == BACK && i.headRow == i.tailRow == 0 && i.headX == 1 && i.str == [98]
    ensures ValidState(s)
    ensures var s2 := EditModel.Backspace(c, s);
            && s2.lines == [[97], []] && s2.applied == |s2.stack| == 1
            && var i := Top(s2);
            i.kind == BACK && i.headRow == i.tailRow == 0 && i.headX == i.tailX == 1 && i.str == [98, 99]
  {
    var l := s.lines[0];
    StepsOver(l, 2);
    assert DeleteFrom(l, 1, 1) == [97] && l[1..2] == [99] && [98] + [99] == [98, 99];
    assert s.lines[0 := [97]] == [[97], []];
    Edits.ErasedFields(s.(x := 1));
    hide StepLeft, CharLength, Erase, UpdateDeletion;
  }

  lemma UndoneTwo(c: Config, s: State)
    requires s.lines == [[97], []] && s.applied == |s.stack| == 1
    requires var i := Top(s);
             i.kind == BACK && i.headRow == i.tailRow == 0 && i.headX == i.tailX == 1 && i.str == [98, 99]
    ensures CanDoUndo(c, s)
    ensures var s3 := DoUndo(c, s); s3.applied == 0 && s3.lines == [[97, 98, 99], []] && Cursor(s3) == Pos(0, 1)
  {
    assert InsertIn([97], 1, [98, 99]) == [97, 98, 99];
    assert s.lines[0 := [97, 98, 99]] == [[97, 98, 99], []];
  }

  /** Redoing a replacement puts the cursor before the answer, so where the replacement
      itself did if and only if there was no answer. */
  lemma ReplacementRedone(c: Config, s: State, len: nat, answer: Line)
    requires ValidState(s) && s.x + len <= |s.lines[s.row]|
    ensures var s1 := Replace(s, len, answer);
            && CanDoUndo(c, s1) && CanDoRedo(c, DoUndo(c, s1))
            && var s3 := DoRedo(c, DoUndo(c, s1));
            Cursor(s3) == Cursor(s) && (Cursor(s3) == Cursor(s1) <==> answer == [])
  {
    RedoneReplacement(c, s, len, answer);
    hide Count;
  }

  /** After inserting nothing into a buffer that has just been saved, undoing and redoing
      it, the flag is off, though the position is another one. */
  lemma NothingInserted(c: Config, s: State)
    requires ValidState(s) && Finished(c.noNewlines, s.lines)
    requires IdAt(s.stack, s.applied) == s.saved < s.nextId
    ensures var s1 := InsertText(c, s, EMPTY);
            && CanDoUndo(c, s1) && CanDoRedo(c, DoUndo(c, s1))
            && var s3 := DoRedo(c, DoUndo(c, s1));
            !s3.modified && s3.applied == s.applied + 1 <= |s3.stack| && IdAt(s3.stack, s3.applied) != s3.saved
  {
    NothingPutIn(c, s);
    var s1 := InsertText(c, s, EMPTY);
    NothingMoves(c.noNewlines, Top(s1), s1.lines);
    NothingBack(c, s1);
    NothingForth(c, DoUndo(c, s1));
    hide InsertText, UndoItem, RedoItem, CanUndo, CanRedo, ValidState, ValidPos, Finished, DoUndo, DoRedo;
  }

  lemma NothingBack(c: Config, s: State)
    requires s.applied == |s.stack| > 0 && CanUndo(c.noNewlines, Top(s), s.lines)
    requires var e := UndoItem(c.noNewlines, Top(s), s.lines); e.lines == s.lines && e.item == Top(s)
    ensures CanDoUndo(c, s)
    ensures var s2 := DoUndo(c, s);
            && s2.lines == s.lines && s2.stack == s.stack && s2.applied == s.applied - 1 && s2.saved == s.saved
            && s2.modified == (IdAt(s.stack, s.applied - 1) != s.saved)
  {
    hide UndoItem, CanUndo;
  }

  lemma NothingForth(c: Config, s: State)
    requires s.applied < |s.stack| && CanRedo(c.noNewlines, s.stack[s.applied], s.lines)
    requires var i := s.stack[s.applied]; i.kind == INSERT && i.cut == None
    requires RedoItem(c.noNewlines, s.stack[s.applied], s.lines).item == s.stack[s.applied]
    ensures CanDoRedo(c, s)
    ensures var s3 := DoRedo(c, s);
            && s3.stack == s.stack && s3.applied == s.applied + 1 && s3.saved == s.saved
            && (!s.modified ==> !s3.modified)
  {
    hide RedoItem, CanRedo;
  }

  lemma NothingPutIn(c: Config, s: State)
    requires ValidState(s) && Finished(c.noNewlines, s.lines)
    ensures var s1 := InsertText(c, s, EMPTY);
            && s1.lines == s.lines && s1.applied == |s1.stack| == s.applied + 1 && s1.saved == s.saved
            && s1.stack[..s.applied] == s.stack[..s.applied]
            && var i := Top(s1);
            && i.id == s.nextId && i.kind == INSERT && i.cut == None && !i.wholeLine
            && ValidPos(s1.lines, Pos(i.headRow, i.headX)) && Pos(i.tailRow, i.tailX) == Pos(i.headRow, i.headX)
            && (i.includedLastLine ==> i.headRow == |s1.lines| - 1)
  {
    Cuts.PutFields(c, s, INSERT, EMPTY);
    NothingGrafted(c.noNewlines, s.lines, Cursor(s));
    hide Head, Rest, Join, Characters, Grafted, PutIn, AddUndo, UpdatePaste, NewItem;
  }

  lemma NothingGrafted(n: bool, t: Text, p: Pos)
    requires ValidPos(t, p) && Finished(n, t)
    ensures Grafted(n, t, p, EMPTY) == t && EndAfter(p, EMPTY) == p
  {
    SplitAt(t, p);
    JoinUnit(Head(t, p));
    hide Head, Rest, Join;
  }

  /** Undoing and redoing an insertion of nothing does nothing. */
  lemma NothingMoves(n: bool, i: Item, t: Text)
    requires i.kind == INSERT && i.cut == None && !i.wholeLine
    requires ValidPos(t, Pos(i.headRow, i.headX)) && Pos(i.tailRow, i.tailX) == Pos(i.headRow, i.headX)
    requires i.includedLastLine ==> i.headRow == |t| - 1
    ensures CanUndo(n, i, t) && UndoItem(n, i, t) == Effect(t, i.headRow, i.headX, i)
    ensures CanRedo(n, i, t) && RedoItem(n, i, t) == Effect(t, i.headRow, i.headX, i)
  {
  }
}

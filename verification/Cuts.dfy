/** Cutting, zapping, pasting and inserting keep the invariant. */
module Cuts {
  import opened Chars
  import opened Lines
  import opened EditModel
  import opened History
  import opened Items
  import opened Edits
  import opened Options

  /** A region of a text, and what is before and after it. */
  lemma Parts(noNewlines: bool, t: Text, p: Pos, q: Pos)
    requires ValidPos(t, p) && ValidPos(t, q) && Before(p, q) && p != q
    ensures var (a, taken, b) := (Head(t, p), Segment(t, p, q), Rest(t, q));
            && t == Join(Join(a, taken), b) && End(a) == p && EndAfter(p, taken) == q
            && |b| == |t| - q.row
            && Extracted(noNewlines, t, p, q) == WithMagic(noNewlines, Join(a, b))
            && ValidPos(Extracted(noNewlines, t, p, q), p)
  {
    SplitAt(t, p);
    SplitRegion(t, p, q);
    SplitJoin(Head(t, p), Rest(t, q));
  }

  /** What taking out a region leaves. */
  lemma TakenText(m: Mode, t: Text, p: Pos, q: Pos)
    requires OkText(m, t) && OkPos(m, t, p) && OkPos(m, t, q) && Before(p, q) && p != q
    ensures var t' := Extracted(m.config.noNewlines, t, p, q);
            && OkText(m, t') && OkPos(m, t', p)
            && (m.utf8 ==> AllWellFormed(Segment(t, p, q)))
            && (m.utf8 ==> Characters(t') == Characters(t) - Characters(Segment(t, p, q)) +
                           if t' != Join(Head(t, p), Rest(t, q)) then 1 else 0)
  {
    var (a, b) := (Head(t, p), Rest(t, q));
    Parts(m.config.noNewlines, t, p, q);
    if m.utf8 {
      WellFormedSegment(t, p, q);
      WellFormedParts(t, p);
      WellFormedParts(t, q);
      hide Head, Rest, Segment, Characters, WellFormed, Boundary;
      CharactersJoin(a, b);
      CharactersWithMagic(Join(a, b));
      MagicWellFormed(m, Join(a, b));
      BoundaryAtJoint(a, b);
    }
  }

  lemma MagicWellFormed(m: Mode, t: Text)
    requires AllWellFormed(t)
    ensures AllWellFormed(WithMagic(m.config.noNewlines, t))
  {
  }

  lemma BoundaryAtJoint(a: Text, b: Text)
    requires AllWellFormed(a)
    ensures Boundary(Join(a, b)[|a| - 1], |Last(a)|)
  {
    var l := Join(a, b)[|a| - 1];
    assert l[..|Last(a)|] == Last(a);
    PrefixBoundary(l, |Last(a)|);
  }

  /** The region of a cut has its ends on boundaries when cursor and mark have. */
  lemma RegionOk(m: Mode, s: State, mark: Option<Pos>, untilEof: bool)
    requires ValidState(s) && OkText(m, s.lines) && OkPos(m, s.lines, Cursor(s))
    requires mark.Some? ==> OkPos(m, s.lines, mark.value)
    ensures var (p, q) := SnipRegion(s, mark, untilEof);
            OkPos(m, s.lines, p) && OkPos(m, s.lines, q)
  {
    EndIsBoundary(s.lines[s.row]);
    EndIsBoundary(Last(s.lines));
    if s.row + 1 < |s.lines| { EndIsBoundary(s.lines[s.row + 1]); }
  }

  /** Which item a first cut leaves: it fits the region that was taken. */
  lemma CutItemFits(m: Mode, s: State, kind: Kind, mark: Option<Pos>, s': State, size: int)
    requires kind == CUT || kind == ZAP || (kind == CUT_TO_EOF && mark.None?)
    requires ValidState(s) && OkText(m, s.lines) && OkPos(m, s.lines, Cursor(s))
    requires mark.Some? ==> OkPos(m, s.lines, mark.value)
    requires kind == CUT_TO_EOF || IsCuttable(m.config, s, s.cutFromCursor && mark.None?, mark)
    requires var (p, q) := SnipRegion(s, mark, kind == CUT_TO_EOF);
             && p != q
             && s'.lines == Extracted(m.config.noNewlines, s.lines, p, q) && s'.row == p.row
             && s'.cutFromCursor == s.cutFromCursor
    ensures var (p, q) := SnipRegion(s, mark, kind == CUT_TO_EOF);
            var taken := Segment(s.lines, p, q);
            CutThere(m, CutNoted(m.config, s', NewItem(s, kind, mark).(newsize := size), taken),
                     Head(s.lines, p), taken, Rest(s.lines, q))
  {
    hide CutNoted, NewItem, Segment, Head, Rest, Join, EndAfter, Boundary;
    var (p, q) := SnipRegion(s, mark, kind == CUT_TO_EOF);
    RegionOk(m, s, mark, kind == CUT_TO_EOF);
    Parts(m.config.noNewlines, s.lines, p, q);
    TakenText(m, s.lines, p, q);
    if Last(s.lines) == [] {
      CutAddsMagic(s.lines, p, q);
    }
    CutItemFields(m, s, kind, mark, s', size);
  }

  /** What the item of a first cut of the region from p to q has to say. */
  predicate CutItemSays(c: Config, s: State, kind: Kind, mark: Option<Pos>, p: Pos, q: Pos, i: Item) {
    && i.kind == kind && CutHead(i) == p && Pos(i.tailRow, i.tailX) == q
    && (i.includedLastLine ==> q.row == |s.lines| - 1)
    && (!c.noNewlines && q.row == |s.lines| - 1 && p.x > 0 ==> i.includedLastLine)
    && (if i.cursorAtHead then Pos(i.headRow, i.headX) == Cursor(s) else q == Cursor(s))
    && (mark.None? ==> i.cursorAtHead && !i.markWasSet)
    && (mark.None? && kind != CUT_TO_EOF ==>
        !i.includedLastLine && i.wholeLine == !s.cutFromCursor)
  }

  /** The fields of that item. */
  lemma CutItemFields(m: Mode, s: State, kind: Kind, mark: Option<Pos>, s': State, size: int)
    requires kind == CUT || kind == ZAP || (kind == CUT_TO_EOF && mark.None?)
    requires ValidState(s) && OkText(m, s.lines)
    requires mark.Some? ==> ValidPos(s.lines, mark.value)
    requires kind == CUT_TO_EOF || IsCuttable(m.config, s, s.cutFromCursor && mark.None?, mark)
    requires var (p, q) := SnipRegion(s, mark, kind == CUT_TO_EOF);
             && p != q
             && s'.lines == Extracted(m.config.noNewlines, s.lines, p, q) && s'.row == p.row
             && s'.cutFromCursor == s.cutFromCursor
    ensures var (p, q) := SnipRegion(s, mark, kind == CUT_TO_EOF);
            var taken := Segment(s.lines, p, q);
            var i := CutNoted(m.config, s', NewItem(s, kind, mark).(newsize := size), taken);
            i.cut == Some(taken) && CutItemSays(m.config, s, kind, mark, p, q, i)
  {
    hide CutItemSays, Segment, Extracted, NewItem, CutNoted, IsCuttable, OkText, EndAfter, Before;
    var (p, q) := SnipRegion(s, mark, kind == CUT_TO_EOF);
    var taken := Segment(s.lines, p, q);
    Parts(m.config.noNewlines, s.lines, p, q);
    if mark.Some? {
      MarkedItemFields(m.config, s, kind, mark, s', size, taken);
    } else if kind == CUT_TO_EOF || s.cutFromCursor {
      ForwardItemFields(m, s, kind, s', size, taken);
    } else {
      LineItemFields(m, s, kind, s', size);
    }
  }

  lemma MarkedItemFields(c: Config, s: State, kind: Kind, mark: Option<Pos>, s': State, size: int, taken: Text)
    requires (kind == CUT || kind == ZAP) && ValidState(s) && mark.Some? && ValidPos(s.lines, mark.value)
    ensures var (p, q) := SnipRegion(s, mark, false);
            var i := CutNoted(c, s', NewItem(s, kind, mark).(newsize := size), taken);
            i.cut == Some(taken) && CutItemSays(c, s, kind, mark, p, q, i)
  {
  }

  /** A cut from the cursor on: to the end of the line or of the file. */
  lemma ForwardItemFields(m: Mode, s: State, kind: Kind, s': State, size: int, taken: Text)
    requires kind == CUT || kind == ZAP || kind == CUT_TO_EOF
    requires ValidState(s) && OkText(m, s.lines) && (kind == CUT_TO_EOF || s.cutFromCursor)
    requires kind == CUT_TO_EOF || IsCuttable(m.config, s, true, None)
    requires s'.cutFromCursor == s.cutFromCursor
    requires var (p, q) := SnipRegion(s, None, kind == CUT_TO_EOF); p != q && EndAfter(p, taken) == q
    ensures var (p, q) := SnipRegion(s, None, kind == CUT_TO_EOF);
            var i := CutNoted(m.config, s', NewItem(s, kind, None).(newsize := size), taken);
            i.cut == Some(taken) && CutItemSays(m.config, s, kind, None, p, q, i)
  {
  }

  /** A cut of a whole line. */
  lemma LineItemFields(m: Mode, s: State, kind: Kind, s': State, size: int)
    requires (kind == CUT || kind == ZAP) && ValidState(s) && OkText(m, s.lines) && !s.cutFromCursor
    requires IsCuttable(m.config, s, false, None)
    requires var (p, q) := SnipRegion(s, None, false);
             && s'.lines == Extracted(m.config.noNewlines, s.lines, p, q) && s'.row == p.row
             && s'.cutFromCursor == s.cutFromCursor
    ensures var (p, q) := SnipRegion(s, None, false);
            var taken := Segment(s.lines, p, q);
            var i := CutNoted(m.config, s', NewItem(s, kind, None).(newsize := size), taken);
            i.cut == Some(taken) && CutItemSays(m.config, s, kind, None, p, q, i)
  {
    hide Segment, Extracted, SnipRegion, IsCuttable, CutItemSays, NewItem, CutNoted, EndAfter, Before, Finished;
    var (p, q) := SnipRegion(s, None, false);
    TakenShape(m, s);
    TakenRegion(m, s);
    Parts(m.config.noNewlines, s.lines, p, q);
    LineTail(m.config, s, kind, s', size, Segment(s.lines, p, q), q);
  }

  lemma LineTail(c: Config, s: State, kind: Kind, s': State, size: int, taken: Text, q: Pos)
    requires (kind == CUT || kind == ZAP) && ValidState(s) && !s.cutFromCursor
    requires s'.cutFromCursor == s.cutFromCursor && s'.row == s.row
    requires q == EndAfter(Pos(s.row, 0), taken) && q.row < |s.lines|
    requires |taken| == 1 || (|taken| == 2 && taken[1] == [])
    requires |taken| == 1 ==> c.noNewlines && s'.row == |s'.lines| - 1
    ensures var i := CutNoted(c, s', NewItem(s, kind, None).(newsize := size), taken);
            i.cut == Some(taken) && CutItemSays(c, s, kind, None, Pos(s.row, 0), q, i)
  {
  }

  /** What an unmarked cut takes: the rest of a row, or a row with its newline,
      or only a newline; a whole row without newline only at the very end. */
  lemma TakenShape(m: Mode, s: State)
    requires ValidState(s) && OkText(m, s.lines)
    requires IsCuttable(m.config, s, s.cutFromCursor, None)
    ensures var (p, q) := SnipRegion(s, None, false);
            var taken := Segment(s.lines, p, q);
            var t := Extracted(m.config.noNewlines, s.lines, p, q);
            && p == Pos(s.row, if s.cutFromCursor then s.x else 0) != q
            && (|taken| == 1 || (|taken| == 2 && taken[1] == []))
            && t == Join(Head(s.lines, p), Rest(s.lines, q))
            && (!s.cutFromCursor ==> !(s.row == |s.lines| - 1 && s.lines[s.row] == []))
            && (!s.cutFromCursor && |taken| == 1 ==>
                m.config.noNewlines && p.row == |t| - 1 && t[p.row] == [])
  {
    TakenRegion(m, s);
    var (p, q) := SnipRegion(s, None, false);
    if Last(s.lines) == [] {
      CutAddsMagic(s.lines, p, q);
    }
    hide SnipRegion, IsCuttable;
  }

  /** The region that an unmarked cut takes. */
  lemma TakenRegion(m: Mode, s: State)
    requires ValidState(s) && OkText(m, s.lines)
    requires IsCuttable(m.config, s, s.cutFromCursor, None)
    ensures var (p, q) := SnipRegion(s, None, false);
            && p == Pos(s.row, if s.cutFromCursor then s.x else 0) != q
            && (|| q == Pos(s.row, |s.lines[s.row]|)
                || q == Pos(s.row + 1, 0))
            && (q.row == s.row && !s.cutFromCursor ==> s.row == |s.lines| - 1 && m.config.noNewlines)
            && (q.row == s.row + 1 ==> p.x == 0 || p.x == |s.lines[s.row]|)
            && (!m.config.noNewlines ==> !(q.row == |s.lines| - 1 && p.x > 0))
            && (!s.cutFromCursor ==> !(s.row == |s.lines| - 1 && s.lines[s.row] == []))
  {
  }

  // ----- A first cut records an item ---------------------------------------------------

  /** The states that a first cut, zap, or cut to the end of the file leaves. */
  function FirstCut(c: Config, s: State, kind: Kind, mark: Option<Pos>): State
    requires ValidState(s) && (mark.Some? ==> ValidPos(s.lines, mark.value))
    requires kind == CUT || kind == ZAP || kind == CUT_TO_EOF
  {
    var s1 := UpdateCut(c, Snip(c, ToSnip(s, kind, mark), mark, kind == CUT_TO_EOF, kind == ZAP));
    if kind == ZAP then s1.(cutbuffer := s.cutbuffer) else s1
  }

  /** These are the states that cut_text, zap_text and cut_till_eof leave when
      they record an item. */
  lemma FirstCutIs(c: Config, s: State, mark: Option<Pos>)
    requires ValidState(s) && (mark.Some? ==> ValidPos(s.lines, mark.value))
    ensures IsCuttable(c, s, s.cutFromCursor && mark.None?, mark) && (s.last != CUT || !s.keep || |s.stack| == 0) ==>
              CutText(c, s, mark) == FirstCut(c, s, CUT, mark)
    ensures IsCuttable(c, s, s.cutFromCursor && mark.None?, mark) && (s.last != ZAP || !s.keep || |s.stack| == 0) ==>
              ZapText(c, s, mark) == FirstCut(c, s, ZAP, mark)
    ensures CutTillEof(c, s) ==
            if s.x == |s.lines[s.row]| && (s.row == |s.lines| - 1 || MagicAhead(c, s)) then s
            else FirstCut(c, s, CUT_TO_EOF, None)
  {
    hide Snip, UpdateCut, AddUndo, IsCuttable;
  }

  /** What do_snip leaves, when the region is not empty. */
  lemma SnipFields(c: Config, s: State, mark: Option<Pos>, untilEof: bool, append: bool)
    requires ValidState(s) && (mark.Some? ==> ValidPos(s.lines, mark.value))
    requires var (p, q) := SnipRegion(s, mark, untilEof); p != q
    ensures var (p, q) := SnipRegion(s, mark, untilEof);
            var taken := Segment(s.lines, p, q);
            var t := Extracted(c.noNewlines, s.lines, p, q);
            var anew := (mark.Some? || untilEof || !s.keep || s.last == COPY) && !append;
            Snip(c, s, mark, untilEof, append) ==
            s.(lines := t, row := p.row, x := p.x, modified := true, keep := mark.None? && !untilEof,
               size := s.size - Characters(taken) + (if t != Join(Head(s.lines, p), Rest(s.lines, q)) then 1 else 0),
               cutbuffer := Some(if s.cutbuffer.Some? && !anew then Join(s.cutbuffer.value, taken) else taken))
  {
    hide Extracted, Segment, Join, Head, Rest, Characters, SnipRegion;
  }

  /** The state in which the first cut of a kind calls do_snip. */
  function ToSnip(s: State, kind: Kind, mark: Option<Pos>): State
    requires ValidState(s) && (mark.Some? ==> ValidPos(s.lines, mark.value))
  {
    var s1 := AddUndo(if kind == CUT then s.(keep := false) else s, kind, mark);
    if kind == ZAP then s1.(cutbuffer := Top(s1).cut) else s1
  }

  lemma ToSnipFields(s: State, kind: Kind, mark: Option<Pos>)
    requires ValidState(s) && (mark.Some? ==> ValidPos(s.lines, mark.value))
    requires kind == CUT || kind == ZAP || kind == CUT_TO_EOF
    ensures ToSnip(s, kind, mark) ==
            s.(stack := s.stack[..s.applied] + [NewItem(s, kind, mark)], applied := s.applied + 1,
               nextId := s.nextId + 1, last := kind, keep := if kind == CUT then false else s.keep,
               cutbuffer := if kind == ZAP then None else s.cutbuffer)
  {
  }

  lemma ToSnipRegion(s: State, kind: Kind, mark: Option<Pos>)
    requires ValidState(s) && (mark.Some? ==> ValidPos(s.lines, mark.value))
    ensures ValidState(ToSnip(s, kind, mark))
    ensures SnipRegion(ToSnip(s, kind, mark), mark, kind == CUT_TO_EOF) == SnipRegion(s, mark, kind == CUT_TO_EOF)
  {
    hide NewItem, SnipRegion;
    SameRegion(s, ToSnip(s, kind, mark), mark, kind == CUT_TO_EOF);
  }

  lemma FirstCutFields(c: Config, s: State, kind: Kind, mark: Option<Pos>)
    requires ValidState(s) && (mark.Some? ==> ValidPos(s.lines, mark.value))
    requires kind == CUT || kind == ZAP || kind == CUT_TO_EOF
    requires var (p, q) := SnipRegion(s, mark, kind == CUT_TO_EOF); p != q
    ensures FirstCutSays(c, s, kind, mark)
  {
    hide Extracted, Segment, Join, Head, Rest, Characters, CutNoted, NewItem, Snip, SnipRegion, AddUndo, ToSnip,
      UpdateCut, ValidState, ValidPos, Before;
    var (i, s2) := (NewItem(s, kind, mark), ToSnip(s, kind, mark));
    ToSnipFields(s, kind, mark);
    ToSnipRegion(s, kind, mark);
    SnipFields(c, s2, mark, kind == CUT_TO_EOF, kind == ZAP);
    var s3 := Snip(c, s2, mark, kind == CUT_TO_EOF, kind == ZAP);
    UpdateCutFields(c, s3);
    CutNotedReads(c, FirstCut(c, s, kind, mark), s3);
  }

  lemma UpdateCutFields(c: Config, s: State)
    requires |s.stack| > 0 && s.cutbuffer.Some?
    ensures UpdateCut(c, s) ==
            s.(stack := s.stack[..|s.stack| - 1] + [CutNoted(c, s, Top(s).(newsize := s.size), s.cutbuffer.value)])
  {
  }

  predicate FirstCutSays(c: Config, s: State, kind: Kind, mark: Option<Pos>)
    requires ValidState(s) && (mark.Some? ==> ValidPos(s.lines, mark.value))
    requires kind == CUT || kind == ZAP || kind == CUT_TO_EOF
  {
    var (p, q) := SnipRegion(s, mark, kind == CUT_TO_EOF);
    var (taken, s') := (Segment(s.lines, p, q), FirstCut(c, s, kind, mark));
    var t := Extracted(c.noNewlines, s.lines, p, q);
    && |s'.stack| > 0
    && s'.lines == t && Cursor(s') == p
    && s'.size == s.size - Characters(taken) + (if t != Join(Head(s.lines, p), Rest(s.lines, q)) then 1 else 0)
    && s'.stack == s.stack[..s.applied] + [Top(s')] && s'.applied == s.applied + 1
    && Top(s') == CutNoted(c, s', NewItem(s, kind, mark).(newsize := s'.size), taken)
    && s'.nextId == s.nextId + 1 && s'.saved == s.saved && s'.modified && s'.last == kind
    && s'.cutbuffer == (if kind == ZAP then s.cutbuffer else Some(taken))
    && s'.keep == (mark.None? && kind != CUT_TO_EOF)
    && s'.cutFromCursor == s.cutFromCursor
  }

  lemma SameRegion(s: State, s1: State, mark: Option<Pos>, untilEof: bool)
    requires ValidState(s) && ValidState(s1) && (mark.Some? ==> ValidPos(s.lines, mark.value))
    requires s1.lines == s.lines && Cursor(s1) == Cursor(s) && s1.cutFromCursor == s.cutFromCursor
    ensures SnipRegion(s1, mark, untilEof) == SnipRegion(s, mark, untilEof)
  {
  }

  /** update_undo looks only at the cursor's row and the cutting mode. */
  lemma CutNotedReads(c: Config, s: State, s1: State)
    requires s.row == s1.row && s.lines == s1.lines && s.cutFromCursor == s1.cutFromCursor
    ensures forall u, cut :: CutNoted(c, s, u, cut) == CutNoted(c, s1, u, cut)
  {
  }

  lemma FirstCutKeeps(m: Mode, s: State, h: History, kind: Kind, mark: Option<Pos>)
    requires Inv(m, s, h) && ValidState(s)
    requires mark.Some? ==> OkPos(m, s.lines, mark.value)
    requires kind == CUT || kind == ZAP || (kind == CUT_TO_EOF && mark.None?)
    requires kind == CUT_TO_EOF || IsCuttable(m.config, s, s.cutFromCursor && mark.None?, mark)
    requires mark.Some? ==> ValidPos(s.lines, mark.value)
    requires var (p, q) := SnipRegion(s, mark, kind == CUT_TO_EOF); p != q
    ensures var s' := FirstCut(m.config, s, kind, mark); Kept(m, s, s', h)
  {
    hide *;
    Present(m, s, h);
    var s' := FirstCut(m.config, s, kind, mark);
    FirstCutNew(m, s, kind, mark);
    FirstCutReady(m, s, h, kind, mark);
    RecordKeeps(m, s, h, s', Top(s'));
  }

  /** A first cut leaves an item that stands for its step. */
  lemma FirstCutNew(m: Mode, s: State, kind: Kind, mark: Option<Pos>)
    requires ValidState(s) && OkBuffer(m, s)
    requires m.utf8 && s.cutbuffer.Some? ==> AllWellFormed(s.cutbuffer.value)
    requires mark.Some? ==> OkPos(m, s.lines, mark.value)
    requires kind == CUT || kind == ZAP || (kind == CUT_TO_EOF && mark.None?)
    requires kind == CUT_TO_EOF || IsCuttable(m.config, s, s.cutFromCursor && mark.None?, mark)
    requires var (p, q) := SnipRegion(s, mark, kind == CUT_TO_EOF); p != q
    ensures var s' := FirstCut(m.config, s, kind, mark);
            && |s'.stack| > 0 && Applied(m, Top(s'), s.lines, s'.lines) && NewOnTop(m, s, s', Top(s'))
            && OkBuffer(m, s') && s'.modified
            && (m.utf8 && s'.cutbuffer.Some? ==> AllWellFormed(s'.cutbuffer.value))
  {
    hide Applied, Running, OkText, FirstCut, Extracted, Segment, Join, Head, Rest, Characters,
      CutNoted, NewItem, SnipRegion, CutThere, IsCuttable, CutItemSays, Boundary;
    RegionOk(m, s, mark, kind == CUT_TO_EOF);
    var (p, q) := SnipRegion(s, mark, kind == CUT_TO_EOF);
    var s' := FirstCut(m.config, s, kind, mark);
    FirstCutFields(m.config, s, kind, mark);
    TakenText(m, s.lines, p, q);
    NewItemBasics(s, kind, mark);
    NewItemKind(s, kind, mark);
    var taken := Segment(s.lines, p, q);
    CutNotedBasics(m.config, s', NewItem(s, kind, mark).(newsize := s'.size), taken);
    CutItemFits(m, s, kind, mark, s', s'.size);
    Parts(m.config.noNewlines, s.lines, p, q);
    CutApplied(m, Top(s'), Head(s.lines, p), taken, Rest(s.lines, q));
  }

  lemma FirstCutReady(m: Mode, s: State, h: History, kind: Kind, mark: Option<Pos>)
    requires ValidState(s) && OkBuffer(m, s)
    requires mark.Some? ==> OkPos(m, s.lines, mark.value)
    requires kind == CUT || kind == ZAP || (kind == CUT_TO_EOF && mark.None?)
    requires kind == CUT_TO_EOF || IsCuttable(m.config, s, s.cutFromCursor && mark.None?, mark)
    requires var (p, q) := SnipRegion(s, mark, kind == CUT_TO_EOF); p != q
    requires h.pos == s.applied && |h.snaps| == |s.stack| + 1 && h.snaps[h.pos].lines == s.lines && s.saved < s.nextId
    ensures var s' := FirstCut(m.config, s, kind, mark); Ready(m, s', Recorded(h, SnapOf(s')))
  {
    hide Applied, Running, OkText, FirstCut, Extracted, Segment, Join, Head, Rest, Characters,
      CutNoted, NewItem, SnipRegion, CutThere, IsCuttable, Boundary;
    var (p, q) := SnipRegion(s, mark, kind == CUT_TO_EOF);
    var s' := FirstCut(m.config, s, kind, mark);
    FirstCutFields(m.config, s, kind, mark);
    NewItemBasics(s, kind, mark);
    CutNotedBasics(m.config, s', NewItem(s, kind, mark).(newsize := s'.size), Segment(s.lines, p, q));
    if mark.None? && kind != CUT_TO_EOF {
      RegionOk(m, s, mark, false);
      TakenText(m, s.lines, p, q);
      FirstCutRuns(m, s, kind, s');
    }
    NewItemKind(s, kind, mark);
  }

  lemma NewItemKind(s: State, kind: Kind, mark: Option<Pos>)
    requires ValidState(s) && (mark.Some? ==> ValidPos(s.lines, mark.value))
    requires kind == CUT || kind == ZAP || kind == CUT_TO_EOF
    ensures NewItem(s, kind, mark).kind == kind
  {
  }

  lemma CutNotedBasics(c: Config, s: State, u: Item, cut: Text)
    ensures var i := CutNoted(c, s, u, cut);
            i.id == u.id && i.wassize == u.wassize && i.newsize == u.newsize && i.kind == u.kind && i.cut == Some(cut)
  {
  }

  lemma NewItemBasics(s: State, kind: Kind, mark: Option<Pos>)
    requires ValidState(s) && (mark.Some? ==> ValidPos(s.lines, mark.value))
    ensures var i := NewItem(s, kind, mark); i.id == s.nextId && i.wassize == s.size
  {
  }

  /** After a first unmarked cut, the next one may extend it. */
  lemma FirstCutRuns(m: Mode, s: State, kind: Kind, s': State)
    requires (kind == CUT || kind == ZAP) && ValidState(s) && |s'.stack| > 0
    requires OkText(m, s.lines) && OkPos(m, s.lines, Cursor(s))
    requires IsCuttable(m.config, s, s.cutFromCursor, None)
    requires var (p, q) := SnipRegion(s, None, false);
             var taken := Segment(s.lines, p, q);
             && p != q && Cursor(s') == p
             && s'.lines == Extracted(m.config.noNewlines, s.lines, p, q)
             && s'.cutFromCursor == s.cutFromCursor
             && OkPos(m, s'.lines, p)
             && Top(s') == CutNoted(m.config, s', NewItem(s, kind, None).(newsize := s'.size), taken)
    ensures Running(m, s', Top(s'), s.lines)
  {
    var (p, q) := SnipRegion(s, None, false);
    var (a, taken, b) := (Head(s.lines, p), Segment(s.lines, p, q), Rest(s.lines, q));
    var i := Top(s');
    CutItemFits(m, s, kind, None, s', s'.size);
    CutItemFields(m, s, kind, None, s', s'.size);
    Parts(m.config.noNewlines, s.lines, p, q);
    assert s'.lines == Join(a, b) by {
      assert CutThere(m, i, a, taken, b);
    }
    SplitJoin(a, b);
    hide Segment, Join, Head, Rest, CutNoted, NewItem, CutThere, Extracted;
    assert CutHead(i) == p;
  }

  // ----- A further cut extends the item ---------------------------------------------------

  /** The states that a further unmarked cut or zap leaves. */
  function NextCut(c: Config, s: State, kind: Kind): State
    requires ValidState(s) && |s.stack| > 0 && (kind == CUT || kind == ZAP)
  {
    var s0 := if kind == ZAP then s.(cutbuffer := Top(s).cut) else s;
    var s1 := UpdateCut(c, Snip(c, s0, None, false, kind == ZAP));
    if kind == ZAP then s1.(cutbuffer := s.cutbuffer) else s1
  }

  lemma NextCutIs(c: Config, s: State)
    requires ValidState(s) && |s.stack| > 0 && s.keep && IsCuttable(c, s, s.cutFromCursor, None)
    ensures s.last == CUT ==> CutText(c, s, None) == NextCut(c, s, CUT)
    ensures s.last == ZAP ==> ZapText(c, s, None) == NextCut(c, s, ZAP)
  {
    hide Snip, UpdateCut, AddUndo, IsCuttable;
  }

  predicate NextCutSays(c: Config, s: State, kind: Kind, was: Text)
    requires ValidState(s) && |s.stack| > 0 && (kind == CUT || kind == ZAP)
  {
    var (p, q) := SnipRegion(s, None, false);
    var (cut, s') := (Join(was, Segment(s.lines, p, q)), NextCut(c, s, kind));
    var t := Extracted(c.noNewlines, s.lines, p, q);
    && |s'.stack| > 0
    && s'.lines == t && Cursor(s') == p
    && s'.size == s.size - Characters(Segment(s.lines, p, q))
                  + (if t != Join(Head(s.lines, p), Rest(s.lines, q)) then 1 else 0)
    && s'.stack == s.stack[|s.stack| - 1 := Top(s')] && s'.applied == s.applied
    && Top(s') == CutNoted(c, s', Top(s).(newsize := s'.size), cut)
    && s'.nextId == s.nextId && s'.saved == s.saved && s'.modified && s'.last == kind
    && s'.cutbuffer == (if kind == ZAP then s.cutbuffer else Some(cut))
    && s'.keep && s'.cutFromCursor == s.cutFromCursor
  }

  lemma NextCutFields(c: Config, s: State, kind: Kind, was: Text)
    requires ValidState(s) && |s.stack| > 0 && (kind == CUT || kind == ZAP)
    requires s.keep && s.last == kind
    requires (if kind == ZAP then Top(s).cut else s.cutbuffer) == Some(was)
    requires var (p, q) := SnipRegion(s, None, false); p != q
    ensures NextCutSays(c, s, kind, was)
  {
    hide Extracted, Segment, Join, Head, Rest, Characters, CutNoted, Snip, SnipRegion, UpdateCut;
    var s0 := if kind == ZAP then s.(cutbuffer := Top(s).cut) else s;
    SameRegion(s, s0, None, false);
    SnipFields(c, s0, None, false, kind == ZAP);
    var s1 := Snip(c, s0, None, false, kind == ZAP);
    UpdateCutFields(c, s1);
    CutNotedReads(c, NextCut(c, s, kind), s1);
  }

  /** The end of a cut that has grown is where update_undo puts it. */
  lemma NextCutTail(c: Config, u: Item, taken: Text, s': State, size: int)
    requires (u.kind == CUT || u.kind == ZAP) && u.cut.Some? && !u.markWasSet
    requires u.wholeLine == !s'.cutFromCursor
    requires Pos(u.tailRow, u.tailX) == EndAfter(CutHead(u), u.cut.value) != CutHead(u)
    requires |taken| == 1 || (|taken| == 2 && taken[1] == [])
    requires u.wholeLine ==> u.tailX == 0
    requires u.wholeLine && |taken| == 1 ==>
               c.noNewlines && s'.row == |s'.lines| - 1 && s'.lines[s'.row] == []
    ensures var cut := Join(u.cut.value, taken);
            var i := CutNoted(c, s', u.(newsize := size), cut);
            && i == u.(newsize := size, cut := Some(cut), tailRow := i.tailRow, tailX := i.tailX)
            && Pos(i.tailRow, i.tailX) == EndAfter(CutHead(u), cut) != CutHead(u)
            && (i.wholeLine ==> i.tailX == 0 || (s'.row == |s'.lines| - 1 && s'.lines[s'.row] == []))
  {
    var was := u.cut.value;
    var cut := Join(was, taken);
    assert Last(cut) == if |taken| == 1 then Last(was) + taken[0] else [];
    if |was| == 1 {
      assert |was[0]| > 0;
    }
  }

  /** The text before a cut that is extended, split around all that is now cut. */
  lemma NextCutParts(m: Mode, s: State, u: Item, pre: Text)
    requires ValidState(s) && OkText(m, s.lines) && OkPos(m, s.lines, Cursor(s))
    requires Running(m, s, u, pre) && IsCuttable(m.config, s, s.cutFromCursor, None)
    ensures var (p, q) := SnipRegion(s, None, false);
            var (a, b) := (Head(s.lines, p), Rest(s.lines, q));
            && pre == Join(Join(a, Join(u.cut.value, Segment(s.lines, p, q))), b)
            && CutHead(u) == p == End(a) && p != q
            && Rest(Join(a, b), p) == b && Head(Join(a, b), p) == a
  {
    var (p, q) := SnipRegion(s, None, false);
    TakenShape(m, s);
    var (a, taken, b) := (Head(s.lines, p), Segment(s.lines, p, q), Rest(s.lines, q));
    var was := u.cut.value;
    Parts(m.config.noNewlines, s.lines, p, q);
    SplitRegion(s.lines, p, q);
    assert pre == Join(Join(a, was), Join(taken, b));
    hide Head, Rest, Segment, Join, SnipRegion, Extracted;
    JoinAssociative(Join(a, was), taken, b);
    JoinAssociative(a, was, taken);
    SplitJoin(a, b);
  }

  /** A further cut in the same place: the whole of what was cut still fits. */
  lemma NextCutFits(m: Mode, s: State, u: Item, pre: Text, s': State, size: int)
    requires ValidState(s) && OkText(m, s.lines) && OkPos(m, s.lines, Cursor(s)) && OkText(m, pre)
    requires (u.kind == CUT || u.kind == ZAP) && Running(m, s, u, pre)
    requires IsCuttable(m.config, s, s.cutFromCursor, None)
    requires var (p, q) := SnipRegion(s, None, false);
             && s'.lines == Extracted(m.config.noNewlines, s.lines, p, q) && Cursor(s') == p
             && s'.cutFromCursor == s.cutFromCursor
    ensures var (p, q) := SnipRegion(s, None, false);
            var (a, b) := (Head(s.lines, p), Rest(s.lines, q));
            var cut := Join(u.cut.value, Segment(s.lines, p, q));
            var i := CutNoted(m.config, s', u.(newsize := size), cut);
            && pre == Join(Join(a, cut), b)
            && s'.lines == Join(a, b)
            && CutThere(m, i, a, cut, b)
            && Running(m, s', i, pre)
  {
    TakenShape(m, s);
    var (p, q) := SnipRegion(s, None, false);
    var (a, taken, b) := (Head(s.lines, p), Segment(s.lines, p, q), Rest(s.lines, q));
    var cut := Join(u.cut.value, taken);
    var i := CutNoted(m.config, s', u.(newsize := size), cut);
    RegionOk(m, s, None, false);
    NextCutParts(m, s, u, pre);
    TakenText(m, s.lines, p, q);
    NextCutTail(m.config, u, taken, s', size);
    hide Head, Rest, Segment, Join, CutNoted, SnipRegion, IsCuttable, Extracted, Boundary, AllWellFormed, EndAfter, End;
    assert CutHead(i) == CutHead(u);
  }

  lemma NextCutKeeps(m: Mode, s: State, h: History, kind: Kind)
    requires Inv(m, s, h) && ValidState(s) && |s.stack| > 0
    requires (kind == CUT || kind == ZAP) && s.last == kind && s.keep
    requires IsCuttable(m.config, s, s.cutFromCursor, None)
    ensures Kept(m, s, NextCut(m.config, s, kind), h)
  {
    hide Inv, Applied, Running, OkText, NextCut, Extracted, Segment, Join, Head, Rest, Characters,
      CutNoted, SnipRegion, CutThere, IsCuttable;
    Present(m, s, h);
    TakenShape(m, s);
    var (p, q) := SnipRegion(s, None, false);
    var u := Top(s);
    var pre := h.snaps[h.pos - 1].lines;
    RunningCut(m, s, u, pre);
    NextCutFields(m.config, s, kind, u.cut.value);
    var s' := NextCut(m.config, s, kind);
    RegionOk(m, s, None, false);
    TakenText(m, s.lines, p, q);
    NextCutFits(m, s, u, pre, s', s'.size);
    var (a, b) := (Head(s.lines, p), Rest(s.lines, q));
    var cut := Join(u.cut.value, Segment(s.lines, p, q));
    CutNotedBasics(m.config, s', u.(newsize := s'.size), cut);
    CutApplied(m, Top(s'), a, cut, b);
    Parts(m.config.noNewlines, s.lines, p, q);
    CutTextWellFormed(m, s, kind, p, q);
    AmendKeeps(m, s, h, s', Top(s'));
  }

  lemma RunningCut(m: Mode, s: State, u: Item, pre: Text)
    requires Running(m, s, u, pre)
    ensures u.cut.Some?
  {
  }

  lemma CutTextWellFormed(m: Mode, s: State, kind: Kind, p: Pos, q: Pos)
    requires OkText(m, s.lines) && OkPos(m, s.lines, p) && OkPos(m, s.lines, q) && Before(p, q) && p != q
    requires |s.stack| > 0 && Top(s).cut.Some? && (kind == CUT ==> s.cutbuffer == Top(s).cut)
    requires m.utf8 && s.cutbuffer.Some? ==> AllWellFormed(s.cutbuffer.value)
    ensures m.utf8 && kind == CUT ==> AllWellFormed(Join(Top(s).cut.value, Segment(s.lines, p, q)))
  {
    if m.utf8 && kind == CUT {
      TakenText(m, s.lines, p, q);
      CharactersJoin(Top(s).cut.value, Segment(s.lines, p, q));
    }
  }

  // ----- cut_text, zap_text, cut_till_eof ---------------------------------------------------

  /** Cutting something never cuts nothing. */
  lemma CuttableRegion(c: Config, s: State, mark: Option<Pos>)
    requires ValidState(s) && (mark.Some? ==> ValidPos(s.lines, mark.value))
    requires IsCuttable(c, s, s.cutFromCursor && mark.None?, mark)
    ensures var (p, q) := SnipRegion(s, mark, false); p != q
  {
  }

  /** A mark is never set while cuts are being joined: the commands that set it
      reset keep_cutbuffer. */
  lemma CutKeeps(m: Mode, s: State, h: History, mark: Option<Pos>)
    requires Inv(m, s, h) && ValidState(s)
    requires mark.Some? ==> OkPos(m, s.lines, mark.value) && !s.keep
    ensures Kept(m, s, CutText(m.config, s, mark), h)
    ensures Kept(m, s, ZapText(m.config, s, mark), h)
  {
    hide Inv, IsCuttable, Running, Applied, FirstCut, NextCut, Track, OkText, SnipRegion, CutText, ZapText;
    Present(m, s, h);
    if IsCuttable(m.config, s, s.cutFromCursor && mark.None?, mark) {
      CuttableRegion(m.config, s, mark);
      FirstCutIs(m.config, s, mark);
      if s.last != CUT || !s.keep {
        FirstCutKeeps(m, s, h, CUT, mark);
      } else {
        NextCutIs(m.config, s);
        NextCutKeeps(m, s, h, CUT);
      }
      if s.last != ZAP || !s.keep {
        FirstCutKeeps(m, s, h, ZAP, mark);
      } else {
        NextCutIs(m.config, s);
        NextCutKeeps(m, s, h, ZAP);
      }
    } else {
      NotCut(m.config, s, mark);
      StillKeeps(m, s, h, s);
    }
  }

  lemma NotCut(c: Config, s: State, mark: Option<Pos>)
    requires ValidState(s) && (mark.Some? ==> ValidPos(s.lines, mark.value))
    requires !IsCuttable(c, s, s.cutFromCursor && mark.None?, mark)
    ensures CutText(c, s, mark) == s && ZapText(c, s, mark) == s
  {
  }

  lemma CutTillEofKeeps(m: Mode, s: State, h: History)
    requires Inv(m, s, h) && ValidState(s)
    ensures Kept(m, s, CutTillEof(m.config, s), h)
  {
    hide Inv, Running, Applied, FirstCut, Track, OkText, Snip, UpdateCut, AddUndo;
    Present(m, s, h);
    FirstCutIs(m.config, s, None);
    if s.x == |s.lines[s.row]| && (s.row == |s.lines| - 1 || MagicAhead(m.config, s)) {
      StillKeeps(m, s, h, s);
    } else {
      FirstCutKeeps(m, s, h, CUT_TO_EOF, None);
    }
  }

  // ----- Pasting and inserting ---------------------------------------------------------------

  /** What grafting a text leaves. */
  lemma PutText(m: Mode, t: Text, p: Pos, s: Text)
    requires OkText(m, t) && OkPos(m, t, p) && (m.utf8 ==> AllWellFormed(s))
    ensures var (a, b) := (Head(t, p), Rest(t, p));
            var t' := Grafted(m.config.noNewlines, t, p, s);
            && t == Join(a, b) && End(a) == p && |b| == |t| - p.row
            && t' == WithMagic(m.config.noNewlines, Join(Join(a, s), b))
            && OkText(m, t') && OkPos(m, t', EndAfter(p, s))
            && (m.utf8 ==> Characters(t') == Characters(t) + Characters(s) +
                           if t' != Join(Join(a, s), b) then 1 else 0)
  {
    var (a, b) := (Head(t, p), Rest(t, p));
    SplitAt(t, p);
    EndOfJoin(a, s);
    SplitJoin(Join(a, s), b);
    if m.utf8 {
      WellFormedParts(t, p);
      hide Head, Rest, Characters, WellFormed, Boundary;
      CharactersJoin(a, s);
      CharactersJoin(Join(a, s), b);
      CharactersWithMagic(Join(Join(a, s), b));
      MagicWellFormed(m, Join(Join(a, s), b));
      BoundaryAtJoint(Join(a, s), b);
    }
  }

  /** The item that a paste or an insertion leaves. */
  lemma PutFields(c: Config, s: State, kind: Kind, t: Text)
    requires ValidState(s) && (kind == PASTE || kind == INSERT)
    ensures var (p, e) := (Cursor(s), EndAfter(Cursor(s), t));
            var s' := UpdatePaste(PutIn(c, AddUndo(s, kind, None), t));
            var i := NewItem(s, kind, None);
            var r := Grafted(c.noNewlines, s.lines, p, t);
            && |s'.stack| > 0
            && s' == s.(stack := s.stack[..s.applied] + [Top(s')], applied := s.applied + 1,
                        nextId := s.nextId + 1, last := kind, lines := r, row := e.row, x := e.x,
                        size := s.size + Characters(t) +
                                if r != Join(Join(Head(s.lines, p), t), Rest(s.lines, p)) then 1 else 0)
            && Top(s') == i.(newsize := s'.size, tailRow := e.row, tailX := e.x)
            && !i.wholeLine && !i.cursorAtHead && CutHead(i) == p && i.kind == kind && i.id == s.nextId
            && i.wassize == s.size && (i.includedLastLine <==> s.row == |s.lines| - 1)
            && i.cut == if kind == PASTE then s.cutbuffer else None
  {
    hide Head, Rest, Join, Characters, Grafted, EndAfter;
  }

  /** That item fits what was put in. */
  lemma PutFits(m: Mode, s: State, kind: Kind, t: Text)
    requires kind == PASTE || kind == INSERT
    requires ValidState(s) && OkText(m, s.lines) && OkPos(m, s.lines, Cursor(s)) && (m.utf8 ==> AllWellFormed(t))
    ensures var p := Cursor(s);
            var s' := UpdatePaste(PutIn(m.config, AddUndo(s, kind, None), t));
            var (a, b) := (Head(s.lines, p), Rest(s.lines, p));
            && |s'.stack| > 0
            && s'.lines == WithMagic(m.config.noNewlines, Join(Join(a, t), b))
            && PutThere(m, Top(s'), a, t, b)
            && (OkSize(m, s.lines, s.size) ==> OkSize(m, s'.lines, s'.size))
  {
    hide Head, Rest, Join, Characters, OkText, Grafted, EndAfter, NewItem, AddUndo, PutIn, UpdatePaste;
    PutText(m, s.lines, Cursor(s), t);
    PutFields(m.config, s, kind, t);
  }

  lemma PasteKeeps(m: Mode, s: State, h: History)
    requires Inv(m, s, h) && ValidState(s)
    ensures Kept(m, s, PasteText(m.config, s), h)
  {
    hide *;
    Present(m, s, h);
    var s' := PasteText(m.config, s);
    if s.cutbuffer.None? {
      NothingToPaste(m.config, s);
      StillKeeps(m, s, h, s);
    } else {
      PutNew(m, s, PASTE, s.cutbuffer.value);
      RecordPlainKeeps(m, s, h, s', Top(s'));
    }
  }

  lemma NothingToPaste(c: Config, s: State)
    requires ValidState(s) && s.cutbuffer.None?
    ensures PasteText(c, s) == s
  {
  }

  /** A paste or an insertion leaves an item that stands for its step. */
  lemma PutNew(m: Mode, s: State, kind: Kind, t: Text)
    requires kind == INSERT || (kind == PASTE && s.cutbuffer == Some(t))
    requires ValidState(s) && OkBuffer(m, s) && (m.utf8 ==> AllWellFormed(t))
    ensures var s' := if kind == INSERT then InsertText(m.config, s, t) else PasteText(m.config, s);
            && |s'.stack| > 0 && Applied(m, Top(s'), s.lines, s'.lines) && NewOnTop(m, s, s', Top(s'))
            && OkBuffer(m, s') && s'.cutbuffer == s.cutbuffer && !Mergeable(s'.last)
            && (!s'.modified ==> !s.modified && s'.lines == s.lines)
  {
    hide Applied, OkText, PutThere, Head, Rest, Join, Grafted, WithMagic, OkSize, PutIn, UpdatePaste, AddUndo,
      NewItem, Boundary, CutHead;
    var (a, b) := (Head(s.lines, Cursor(s)), Rest(s.lines, Cursor(s)));
    var s' := UpdatePaste(PutIn(m.config, AddUndo(s, kind, None), t));
    PutFields(m.config, s, kind, t);
    PutFits(m, s, kind, t);
    PutText(m, s.lines, Cursor(s), t);
    if kind == INSERT {
      InsertApplied(m, Top(s'), a, t, b);
      if Cursor(s') == Cursor(s) {
        NothingPut(m, s.lines, Cursor(s), t);
      }
    } else {
      PasteApplied(m, Top(s'), a, t, b);
    }
  }

  lemma InsertKeeps(m: Mode, s: State, h: History, t: Text)
    requires Inv(m, s, h) && ValidState(s) && (m.utf8 ==> AllWellFormed(t))
    ensures Kept(m, s, InsertText(m.config, s, t), h)
  {
    hide *;
    Present(m, s, h);
    var s' := InsertText(m.config, s, t);
    PutNew(m, s, INSERT, t);
    RecordPlainKeeps(m, s, h, s', Top(s'));
  }

  /** The cursor stays where it was only when nothing was inserted. */
  lemma NothingPut(m: Mode, t: Text, p: Pos, s: Text)
    requires ValidPos(t, p) && EndAfter(p, s) == p && OkText(m, t)
    ensures WithMagic(m.config.noNewlines, Join(Join(Head(t, p), s), Rest(t, p))) == t
  {
    SplitAt(t, p);
    assert s == EMPTY;
    JoinUnit(Head(t, p));
  }
}

/** Every editing operation keeps the invariant, so each records one snapshot,
    changes the newest one, or changes nothing. */
module Edits {
  import opened Chars
  import opened Lines
  import opened EditModel
  import opened History
  import opened Items
  import opened Options

  // ----- Texts with one row changed ---------------------------------------------------

  lemma CharactersSplit(t: seq<Line>, r: nat)
    requires r <= |t|
    ensures Characters(t) == Characters(t[..r]) + 1 + Characters(t[r..])
  {
    assert t == t[..r] + t[r..];
    CharactersAppend(t[..r], t[r..]);
  }

  lemma CharactersOfRow(t: seq<Line>, r: nat)
    requires r < |t|
    ensures Characters(t) == Characters(t[..r]) + Count(t[r]) + 2 + Characters(t[r + 1..])
  {
    CharactersSplit(t, r);
    assert t[r..][1..] == t[r + 1..];
  }

  lemma CharactersWithRow(t: Text, r: nat, l: Line)
    requires r < |t|
    ensures Characters(t[r := l]) == Characters(t) - Count(t[r]) + Count(l)
  {
    CharactersOfRow(t, r);
    CharactersOfRow(t[r := l], r);
    assert t[r := l][..r] == t[..r] && t[r := l][r + 1..] == t[r + 1..];
  }

  lemma CharactersWithMagic(t: Text)
    ensures Characters(t + [[]]) == Characters(t) + 1
  {
    CharactersAppend(t, [[]]);
    CharactersOne([]);
  }

  /** A well-formed first part makes its end a boundary. */
  lemma PrefixBoundary(l: Line, x: nat)
    requires x <= |l| && WellFormed(l[..x])
    ensures Boundary(l, x)
  {
    assert [] + l[..x] + l[x..] == l;
    Embedded([], l[..x], l[x..], 0);
  }

  lemma InsertWellFormed(l: Line, x: nat, s: Line)
    requires WellFormed(l) && Boundary(l, x) && WellFormed(s)
    ensures WellFormed(InsertIn(l, x, s)) && Count(InsertIn(l, x, s)) == Count(l) + Count(s)
    ensures Boundary(InsertIn(l, x, s), x) && Boundary(InsertIn(l, x, s), x + |s|)
  {
    Split(l, x);
    Concatenated(l[..x], s);
    Concatenated(l[..x] + s, l[x..]);
    var r := InsertIn(l, x, s);
    assert r[..x] == l[..x] && r[..x + |s|] == l[..x] + s;
    PrefixBoundary(r, x);
  }

  lemma DeleteWellFormed(l: Line, x: nat)
    requires WellFormed(l) && Boundary(l, x) && x < |l|
    ensures var r := DeleteFrom(l, x, CharLength(l, x));
            WellFormed(r) && Count(r) == Count(l) - 1 && Boundary(r, x)
    ensures Boundary(l, StepRight(l, x))
  {
    var y := StepRight(l, x);
    StepRightBoundary(l, x);
    CountAfter(l, x);
    CountAfter(l, y);
    assert CountFrom(l, x) == 1 + CountFrom(l, y);
    hide CharLength, MbToWide, CountFrom, WellFormedFrom, Reaches;
    Split(l, x);
    Split(l, y);
    Concatenated(l[..x], l[y..]);
  }

  lemma CountAfter(l: Line, x: nat)
    requires x <= |l|
    ensures CountFrom(l, x) == Count(l[x..])
  {
    assert l[..x] + l[x..] == l;
    Suffixed(l[..x], l[x..], 0);
  }

  // ----- inject -------------------------------------------------------------------------

  /** A row of a text gets another line. */
  lemma RowText(m: Mode, t: Text, size: int, r: nat, l: Line)
    requires r < |t| && OkText(m, t) && OkSize(m, t, size)
    requires m.utf8 ==> WellFormed(l)
    requires r == |t| - 1 && !m.config.noNewlines ==> l == []
    ensures OkText(m, t[r := l]) && OkSize(m, t[r := l], size - Count(t[r]) + Count(l))
  {
    CharactersWithRow(t, r, l);
    hide Characters, WellFormed;
  }

  /** The last row gets another line, and a magic line below it. */
  lemma MagicRowText(m: Mode, t: Text, size: int, l: Line)
    requires OkText(m, t) && OkSize(m, t, size)
    requires m.utf8 ==> WellFormed(l)
    ensures var t': Text := t[|t| - 1 := l] + [[]];
            OkText(m, t') && OkSize(m, t', size - Count(Last(t)) + Count(l) + 1)
  {
    CharactersWithRow(t, |t| - 1, l);
    CharactersWithMagic(t[|t| - 1 := l]);
    EndIsBoundary([]);
    assert WellFormed([]);
    hide Characters, WellFormed;
  }

  /** Only well-formed text has a size to get right. */
  lemma SameSize(m: Mode, t: Text, a: int, b: int)
    requires OkSize(m, t, a) && (m.utf8 ==> a == b)
    ensures OkSize(m, t, b)
  {
  }

  /** The text and the cursor that inject leaves. */
  lemma InjectBuffer(c: Config, s: State, burst: Line)
    requires ValidState(s)
    ensures var s' := Inject(c, s, burst);
            var t: Text := s.lines[s.row := InsertIn(s.lines[s.row], s.x, burst)];
            var magic := s.row == |s.lines| - 1 && !c.noNewlines;
            && |s'.stack| > 0
            && s'.lines == (if magic then t + [[]] else t)
            && Cursor(s') == Pos(s.row, s.x + |burst|) && s'.row == s.row
            && s'.size == s.size + Count(burst) + (if magic then 1 else 0)
            && s'.modified && s'.cutbuffer == s.cutbuffer && s'.saved == s.saved && s'.last == ADD
  {
    hide InsertIn, Count;
  }

  /** The item that a new addition leaves. */
  lemma InjectNewItem(c: Config, s: State, burst: Line)
    requires ValidState(s) && !ContinuesTyping(s)
    ensures var s' := Inject(c, s, burst);
            && |s'.stack| > 0
            && s'.stack == s.stack[..s.applied] + [Top(s')] && s'.applied == s.applied + 1
            && s'.nextId == s.nextId + 1
            && Top(s') == NewItem(s, ADD, None).(newsize := s'.size, str := burst, tailX := s.x + |burst|)
  {
    assert InsertIn(s.lines[s.row], s.x, burst)[s.x..s.x + |burst|] == burst;
    hide InsertIn, Count;
  }

  /** The item when typing goes on. */
  lemma InjectSameItem(c: Config, s: State, burst: Line)
    requires ValidState(s) && ContinuesTyping(s) && Top(s).headX <= s.x
    ensures var s' := Inject(c, s, burst);
            && |s'.stack| > 0 && s'.applied == s.applied && s'.nextId == s.nextId
            && s'.stack == s.stack[|s.stack| - 1 := Top(s')]
            && Top(s') == Top(s).(newsize := s'.size, tailX := s.x + |burst|,
                                  str := InsertIn(s.lines[s.row], s.x, burst)[Top(s).headX..s.x + |burst|])
  {
    hide InsertIn, Count;
  }

  /** What inject leaves in the buffer. */
  lemma InjectedText(m: Mode, s: State, burst: Line)
    requires ValidState(s) && OkBuffer(m, s)
    requires m.utf8 ==> WellFormed(burst)
    ensures var s' := Inject(m.config, s, burst);
            OkBuffer(m, s') && OkPos(m, s'.lines, Cursor(s))
  {
    var l := InsertIn(s.lines[s.row], s.x, burst);
    var s' := Inject(m.config, s, burst);
    hide Inject, Characters, WellFormed, Count, InsertIn, OkText, OkSize, Boundary;
    InjectedLine(m, s, burst);
    InjectBuffer(m.config, s, burst);
    InjectedSizes(m, s, burst);
  }

  lemma InjectedSizes(m: Mode, s: State, burst: Line)
    requires ValidState(s) && OkBuffer(m, s)
    requires m.utf8 ==> WellFormed(burst)
    ensures var s' := Inject(m.config, s, burst);
            OkText(m, s'.lines) && OkSize(m, s'.lines, s'.size)
  {
    var l := InsertIn(s.lines[s.row], s.x, burst);
    var s' := Inject(m.config, s, burst);
    hide *;
    BufferParts(m, s);
    InjectedLine(m, s, burst);
    InjectBuffer(m.config, s, burst);
    var size := s.size - Count(s.lines[s.row]) + Count(l);
    if s.row == |s.lines| - 1 && !m.config.noNewlines {
      MagicRowText(m, s.lines, s.size, l);
      SameSize(m, s'.lines, size + 1, s'.size);
    } else {
      RowText(m, s.lines, s.size, s.row, l);
      SameSize(m, s'.lines, size, s'.size);
    }
  }

  lemma InjectedLine(m: Mode, s: State, burst: Line)
    requires ValidState(s) && OkBuffer(m, s)
    requires m.utf8 ==> WellFormed(burst)
    ensures var (l, l') := (s.lines[s.row], InsertIn(s.lines[s.row], s.x, burst));
            && |l'| == |l| + |burst|
            && (m.utf8 ==> && WellFormed(l') && Count(l') == Count(l) + Count(burst)
                           && Boundary(l', s.x) && Boundary(l', s.x + |burst|))
  {
    if m.utf8 {
      InsertWellFormed(s.lines[s.row], s.x, burst);
    }
  }

  lemma InjectKeeps(m: Mode, s: State, h: History, burst: Line)
    requires Inv(m, s, h) && (m.utf8 ==> WellFormed(burst))
    ensures Kept(m, s, Inject(m.config, s, burst), h)
  {
    hide *;
    Present(m, s, h);
    InjectedText(m, s, burst);
    var s' := Inject(m.config, s, burst);
    if ContinuesTyping(s) {
      TypingGoesOn(m, s, h);
      TypingContinued(m, s, h.snaps[h.pos - 1].lines, burst);
      InjectReadyAgain(m, s, h, burst);
      AmendKeeps(m, s, h, s', Top(s'));
    } else {
      InjectNew(m, s, burst);
      InjectReady(m, s, h, burst);
      RecordKeeps(m, s, h, s', Top(s'));
    }
  }

  /** What is known when typing goes on. */
  lemma TypingGoesOn(m: Mode, s: State, h: History)
    requires Ready(m, s, h) && ContinuesTyping(s)
    ensures Mergeable(s.last) && |s.stack| > 0 && s.applied == |s.stack|
    ensures Top(s).kind == ADD && Top(s).tailRow == Top(s).headRow == s.row
    ensures Top(s).tailX == Top(s).headX + |Top(s).str| == s.x
    ensures |h.snaps| == |s.stack| + 1
    ensures Top(s).includedLastLine <==> Top(s).headRow == |h.snaps[|s.stack| - 1].lines| - 1
  {
  }

  /** A new addition stands for its step. */
  lemma InjectNew(m: Mode, s: State, burst: Line)
    requires ValidState(s) && !ContinuesTyping(s) && OkBuffer(m, s)
    requires var s' := Inject(m.config, s, burst); OkBuffer(m, s') && OkPos(m, s'.lines, Cursor(s))
    ensures var s' := Inject(m.config, s, burst);
            && |s'.stack| > 0 && Applied(m, Top(s'), s.lines, s'.lines)
            && NewOnTop(m, s, s', Top(s')) && s'.modified && s'.cutbuffer == s.cutbuffer
  {
    InjectBuffer(m.config, s, burst);
    InjectNewItem(m.config, s, burst);
    hide Applied, Inject, InsertIn, Count, OkText, OkSize;
    var s' := Inject(m.config, s, burst);
    AddApplied(m, Top(s'), s.lines, s'.lines);
  }

  lemma InjectReady(m: Mode, s: State, h: History, burst: Line)
    requires ValidState(s) && !ContinuesTyping(s) && h.pos == s.applied && |h.snaps| == |s.stack| + 1
    requires h.snaps[h.pos].lines == s.lines && s.saved < s.nextId
    ensures var s' := Inject(m.config, s, burst); Ready(m, s', Recorded(h, SnapOf(s')))
  {
    InjectBuffer(m.config, s, burst);
    InjectNewItem(m.config, s, burst);
    hide Inject, InsertIn, Count, Running;
  }

  lemma InjectReadyAgain(m: Mode, s: State, h: History, burst: Line)
    requires ValidState(s) && ContinuesTyping(s) && Ready(m, s, h) && |h.snaps| == |s.stack| + 1 && h.pos == |s.stack|
    requires Top(Inject(m.config, s, burst)).str == Top(s).str + burst
    ensures var s' := Inject(m.config, s, burst); Ready(m, s', Amended(h, SnapOf(s')))
  {
    InjectBuffer(m.config, s, burst);
    InjectSameItem(m.config, s, burst);
    hide Inject, InsertIn, Count, Running;
  }

  /** Typing on extends the item: its text before stays, its string grows. */
  lemma TypingContinued(m: Mode, s: State, pre: Text, burst: Line)
    requires ValidState(s) && ContinuesTyping(s) && s.applied == |s.stack| > 0
    requires Top(s).kind == ADD && Top(s).tailRow == Top(s).headRow == s.row
    requires Top(s).tailX == Top(s).headX + |Top(s).str| == s.x
    requires Applied(m, Top(s), pre, s.lines) && OkText(m, s.lines)
    requires Top(s).includedLastLine <==> Top(s).headRow == |pre| - 1
    requires OkBuffer(m, Inject(m.config, s, burst))
    ensures var s' := Inject(m.config, s, burst);
            && |s'.stack| > 0 && Applied(m, Top(s'), pre, s'.lines)
            && Top(s').str == Top(s).str + burst
            && s'.stack == s.stack[|s.stack| - 1 := Top(s')] && s'.applied == s.applied
            && Top(s').id == Top(s).id && Top(s').wassize == Top(s).wassize && Top(s').newsize == s'.size
            && Top(s').kind == Top(s).kind
            && s'.nextId == s.nextId && s'.saved == s.saved && s'.modified && s'.cutbuffer == s.cutbuffer
  {
    hide *;
    ReadAdd(m, Top(s), pre, s.lines);
    TypedOnLast(m, s, pre);
    TypedItem(m, s, pre, burst);
    InjectBuffer(m.config, s, burst);
    var s' := Inject(m.config, s, burst);
    BufferParts(m, s');
    AdditionExtended(m, Top(s), Top(s'), pre, s.lines, burst);
  }

  /** The item when typing has gone on. */
  lemma TypedItem(m: Mode, s: State, pre: Text, burst: Line)
    requires ValidState(s) && ContinuesTyping(s) && Top(s).headRow == s.row < |pre| && s.applied == |s.stack|
    requires Top(s).tailX == Top(s).headX + |Top(s).str|
    requires Top(s).headX <= |pre[s.row]| && s.x == Top(s).headX + |Top(s).str|
    requires s.lines[s.row] == InsertIn(pre[s.row], Top(s).headX, Top(s).str)
    ensures var s' := Inject(m.config, s, burst);
            && |s'.stack| > 0 && s'.applied == s.applied && s'.nextId == s.nextId
            && s'.stack == s.stack[|s.stack| - 1 := Top(s')]
            && Top(s') == Top(s).(newsize := s'.size, tailX := s.x + |burst|, str := Top(s).str + burst)
  {
    TypedOn(pre[s.row], Top(s).headX, Top(s).str, burst);
    hide Inject, InsertIn, Count;
    InjectSameItem(m.config, s, burst);
  }

  /** An addition that typing has extended still stands for one step. */
  lemma AdditionExtended(m: Mode, u: Item, i: Item, pre: Text, t: Text, burst: Line)
    requires u.kind == ADD && u.tailRow == u.headRow < |pre| && u.headX <= |pre[u.headRow]|
    requires u.includedLastLine <==> u.headRow == |pre| - 1
    requires t == pre[u.headRow := InsertIn(pre[u.headRow], u.headX, u.str)] +
                  if u.includedLastLine && !m.config.noNewlines then [[]] else []
    requires i == u.(newsize := i.newsize, str := u.str + burst, tailX := u.headX + |u.str| + |burst|)
    requires OkPos(m, pre, Pos(u.headRow, u.headX))
    requires u.headX + |u.str| <= |t[u.headRow]|
    requires var t': Text := t[u.headRow := InsertIn(t[u.headRow], u.headX + |u.str|, burst)];
             OkPos(m, t', Pos(u.headRow, i.tailX))
    ensures Applied(m, i, pre, t[u.headRow := InsertIn(t[u.headRow], u.headX + |u.str|, burst)])
  {
    var (r, l) := (u.headRow, pre[u.headRow]);
    TypedOn(l, u.headX, u.str, burst);
    hide Applied, InsertIn, Boundary;
    RowTwice(pre, r, InsertIn(l, u.headX, u.str), InsertIn(t[r], u.headX + |u.str|, burst),
             if u.includedLastLine && !m.config.noNewlines then [[]] else []);
    AddApplied(m, i, pre, t[r := InsertIn(t[r], u.headX + |u.str|, burst)]);
  }

  lemma RowTwice(t: Text, r: nat, a: Line, b: Line, extra: seq<Line>)
    requires r < |t|
    ensures (t[r := a] + extra)[r := b] == t[r := b] + extra
  {
  }

  /** Typing never goes on upon the last line when newlines are automatic. */
  lemma TypedOnLast(m: Mode, s: State, pre: Text)
    requires ValidState(s) && |s.stack| > 0 && OkText(m, s.lines) && Top(s).headRow == s.row
    requires var u := Top(s);
             && u.headRow < |pre| && u.headX <= |pre[u.headRow]|
             && (u.includedLastLine <==> u.headRow == |pre| - 1)
             && s.lines == pre[u.headRow := InsertIn(pre[u.headRow], u.headX, u.str)] +
                           if u.includedLastLine && !m.config.noNewlines then [[]] else []
    ensures s.row == |s.lines| - 1 ==> m.config.noNewlines
    ensures s.lines[s.row] == InsertIn(pre[s.row], Top(s).headX, Top(s).str)
    ensures Top(s).headX + |Top(s).str| <= |s.lines[s.row]|
  {
  }

  /** Inserting right after an insertion is one insertion of both. */
  lemma TypedOn(l: Line, x: nat, s: Line, burst: Line)
    requires x <= |l|
    ensures InsertIn(InsertIn(l, x, s), x + |s|, burst) == InsertIn(l, x, s + burst)
    ensures InsertIn(l, x, s + burst)[x..x + |s| + |burst|] == s + burst
  {
  }

  /** What an applied addition says about the two texts. */
  lemma ReadAdd(m: Mode, u: Item, pre: Text, post: Text)
    requires Applied(m, u, pre, post) && u.kind == ADD
    requires u.tailRow == u.headRow && u.tailX == u.headX + |u.str|
    requires u.includedLastLine <==> u.headRow == |pre| - 1
    ensures u.headRow < |pre| && u.headX <= |pre[u.headRow]|
    ensures post == pre[u.headRow := InsertIn(pre[u.headRow], u.headX, u.str)] +
                    if u.includedLastLine && !m.config.noNewlines then [[]] else []
    ensures OkPos(m, pre, Pos(u.headRow, u.headX))
  {
    if u.includedLastLine && !m.config.noNewlines {
      assert (pre + [[]])[u.headRow] == pre[u.headRow];
    }
  }

  // ----- do_enter -----------------------------------------------------------------------

  /** What autoindent copies when a line is broken at x takes one byte a character,
      unless it is just what stood before x. */
  predicate CountedIndent(c: Config, l: Line, x: nat)
    requires x <= |l|
  {
    var indent := IndentLengthFrom(c, l, 0);
    var extra := if indent > x then x else indent;
    indent != x ==> Count(l[..extra]) == extra
  }

  lemma {:induction false} IndentBoundary(c: Config, l: Line, i: nat)
    requires i <= |l|
    ensures Reaches(l, i, IndentLengthFrom(c, l, i))
    decreases |l| - i
  {
    if i < |l| && Blank(c, l, i) {
      IndentBoundary(c, l, StepRight(l, i));
    }
  }

  lemma {:induction false} AsciiPrefixFrom(l: Line, i: nat, n: nat)
    requires i <= n <= |l| && forall k | 0 <= k < n :: l[k] < 0x80
    ensures WellFormedFrom(l[..n], i) && CountFrom(l[..n], i) == n - i
    decreases n - i
  {
    if i < n {
      AsciiPrefixFrom(l, i + 1, n);
    }
  }

  /** What do_enter leaves on the two rows: the line broken there, with the
      copied whitespace on the row below. */
  lemma EnteredRows(m: Mode, s: State, autoindent: bool)
    requires ValidState(s) && m.utf8 && AllWellFormed(s.lines) && OkPos(m, s.lines, Cursor(s))
    ensures var s' := Enter(m.config, s, autoindent);
            var (line, above, below) := (s.lines[s.row], s'.lines[s.row], s'.lines[s.row + 1]);
            && WellFormed(above) && WellFormed(below) && Boundary(below, s'.x)
            && (Count(above) + 1 + Count(below) - Count(line) == s'.size - s.size
                <==> (autoindent ==> CountedIndent(m.config, line, s.x)))
  {
    var line := s.lines[s.row];
    var indent := IndentLengthFrom(m.config, line, 0);
    var s' := Enter(m.config, s, autoindent);
    var extra := s'.x;
    IndentBoundary(m.config, line, 0);
    assert Boundary(line, extra);
    Split(line, s.x);
    Split(line, extra);
    Split(line, 0);
    Concatenated(line[..extra], line[s.x..]);
    assert s'.lines[s.row + 1] == line[..extra] + line[s.x..];
    assert line[..0] == [];
  }

  lemma BrokenText(m: Mode, t: Text, r: nat, above: Line, below: Line)
    requires OkText(m, t) && r < |t|
    requires m.utf8 ==> WellFormed(above) && WellFormed(below)
    requires t[r] == [] ==> below == []
    ensures var t' := t[..r] + [above, below] + t[r + 1..];
            && OkText(m, t')
            && Characters(t') == Characters(t) - Count(t[r]) + Count(above) + 1 + Count(below)
  {
    var t' := t[..r] + [above, below] + t[r + 1..];
    CharactersOfRow(t, r);
    CharactersOfRow(t', r);
    assert t'[..r] == t[..r] && t'[r + 1..] == [below] + t[r + 1..];
    assert ([below] + t[r + 1..])[1..] == t[r + 1..];
  }

  lemma EnterKeeps(m: Mode, s: State, h: History, autoindent: bool)
    requires Inv(m, s, h)
    requires m.utf8 && m.sized && autoindent ==> CountedIndent(m.config, s.lines[s.row], s.x)
    ensures Kept(m, s, Enter(m.config, s, autoindent), h)
  {
    hide Applied, Inv, Running, OkText, OkSize, OkPos, Track, Count, Characters, CountedIndent, Recorded;
    Present(m, s, h);
    var s' := Enter(m.config, s, autoindent);
    var i := Top(s');
    var (above, below) := (s'.lines[s.row], s'.lines[s.row + 1]);
    EnteredText(m, s, autoindent);
    EnterApplied(m, i, s.lines, s'.lines, s.x);
    RecordKeeps(m, s, h, s', i);
  }

  lemma EnteredText(m: Mode, s: State, autoindent: bool)
    requires ValidState(s) && OkText(m, s.lines) && OkPos(m, s.lines, Cursor(s)) && OkSize(m, s.lines, s.size)
    requires m.utf8 && m.sized && autoindent ==> CountedIndent(m.config, s.lines[s.row], s.x)
    ensures var s' := Enter(m.config, s, autoindent);
            OkText(m, s'.lines) && OkPos(m, s'.lines, Cursor(s')) && OkSize(m, s'.lines, s'.size)
  {
    hide Characters, Count, WellFormed, Boundary, CountedIndent;
    EnteredFields(m.config, s, autoindent);
    if m.utf8 {
      EnteredRows(m, s, autoindent);
    }
    var s' := Enter(m.config, s, autoindent);
    hide Enter;
    BrokenText(m, s.lines, s.row, s'.lines[s.row], s'.lines[s.row + 1]);
  }

  lemma EnteredFields(c: Config, s: State, autoindent: bool)
    requires ValidState(s)
    ensures var s' := Enter(c, s, autoindent);
            && |s'.lines| == |s.lines| + 1 && s'.row == s.row + 1 && s'.x <= |s'.lines[s'.row]|
            && s'.lines == s.lines[..s.row] + [s'.lines[s.row], s'.lines[s.row + 1]] + s.lines[s.row + 1..]
            && (s.lines[s.row] == [] ==> s'.lines[s.row + 1] == [])
  {
  }

  /** So the size that do_enter records is the number of characters exactly when
      what it copied, if it copied anything, takes one byte a character. */
  lemma EnterSize(m: Mode, s: State, autoindent: bool)
    requires ValidState(s) && m.utf8 && m.sized
    requires OkText(m, s.lines) && OkPos(m, s.lines, Cursor(s)) && OkSize(m, s.lines, s.size)
    ensures var s' := Enter(m.config, s, autoindent);
            s'.size == Characters(s'.lines) <==> (autoindent ==> CountedIndent(m.config, s.lines[s.row], s.x))
  {
    hide Characters, Count, WellFormed, Boundary, CountedIndent;
    EnteredFields(m.config, s, autoindent);
    EnteredRows(m, s, autoindent);
    var s' := Enter(m.config, s, autoindent);
    hide Enter;
    BrokenText(m, s.lines, s.row, s'.lines[s.row], s'.lines[s.row + 1]);
  }

  /** For example: breaking a line that starts with an ideographic space, at its
      end, records two characters too many. */
  lemma EnterMiscounts(m: Mode)
    requires m.utf8 && m.sized && m.config.wideBlank(0x3000)
    ensures var s := Opened([[0xE3, 0x80, 0x80, 97], []], 3).(x := 4);
            var s' := Enter(m.config, s, true);
            && OkText(m, s.lines) && OkPos(m, s.lines, Cursor(s)) && OkSize(m, s.lines, s.size)
            && s'.size != Characters(s'.lines)
  {
    var s := Opened([[0xE3, 0x80, 0x80, 97], []], 3).(x := 4);
    WideSpace(m.config);
    assert s.lines[1..] == [[]] && s.lines[1..][1..] == [];
    EndIsBoundary(s.lines[0]);
    EnterSize(m, s, true);
  }

  lemma WideSpace(c: Config)
    requires c.wideBlank(0x3000)
    ensures var l: Line := [0xE3, 0x80, 0x80, 97];
            && WellFormed(l) && Count(l) == 2 && WellFormed([]) && Count([]) == 0
            && IndentLengthFrom(c, l, 0) == 3 && Count(l[..3]) == 1
  {
    var l: Line := [0xE3, 0x80, 0x80, 97];
    assert l[..3] == [0xE3, 0x80, 0x80];
    assert MbToWide(l, 0) == Wide(0x3000, 3);
    assert MbToWide(l[..3], 0) == Wide(0x3000, 3);
  }

  // ----- expunge ---------------------------------------------------------------------------

  /** One character is taken out of a line. */
  lemma ErasedText(m: Mode, s: State)
    requires ValidState(s) && OkText(m, s.lines) && OkPos(m, s.lines, Cursor(s)) && OkSize(m, s.lines, s.size)
    requires s.x < |s.lines[s.row]|
    ensures var (l, n) := (s.lines[s.row], CharLength(s.lines[s.row], s.x));
            var t: Text := s.lines[s.row := DeleteFrom(l, s.x, n)];
            && OkText(m, t) && OkPos(m, t, Cursor(s)) && OkSize(m, t, s.size - 1)
            && OkPos(m, s.lines, Pos(s.row, s.x + n))
  {
    if m.utf8 {
      DeleteWellFormed(s.lines[s.row], s.x);
      CharactersWithRow(s.lines, s.row, DeleteFrom(s.lines[s.row], s.x, CharLength(s.lines[s.row], s.x)));
    }
  }

  lemma ExpungeKeeps(m: Mode, s: State, h: History, action: Kind)
    requires Inv(m, s, h) && (action == BACK || action == DEL)
    ensures ValidState(s)
    ensures Kept(m, s, Expunge(m.config, s, action), h)
  {
    hide Applied, Inv, Running, OkText, OkSize, Track;
    Present(m, s, h);
    if s.x < |s.lines[s.row]| {
      if action != s.last || s.row != Top(s).headRow {
        EraseRecords(m, s, h, action);
      } else if s.x != Top(s).headX && StepRight(s.lines[s.row], s.x) != Top(s).headX {
        EraseElsewhere(m, s, h);
      } else {
        Deleting(m, s, h);
        EraseAmends(m, s, h);
      }
    } else if s.row != |s.lines| - 1 {
      if !MagicAhead(m.config, s) {
        JoinKeeps(m, s, h, action);
      } else if action == BACK {
        NoJoinKeeps(m, s, h);
      } else {
        StillKeeps(m, s, h, s);
      }
    } else {
      StillKeeps(m, s, h, s);
    }
  }

  lemma EraseRecords(m: Mode, s: State, h: History, action: Kind)
    requires Inv(m, s, h) && ValidState(s) && (action == BACK || action == DEL) && s.x < |s.lines[s.row]|
    ensures Kept(m, s, Erase(AddUndo(s, action, None)), h)
  {
    hide *;
    Present(m, s, h);
    EraseNew(m, s, h, action);
    var s' := Erase(AddUndo(s, action, None));
    RecordKeeps(m, s, h, s', Top(s'));
  }

  lemma EraseNew(m: Mode, s: State, h: History, action: Kind)
    requires ValidState(s) && OkBuffer(m, s) && (action == BACK || action == DEL) && s.x < |s.lines[s.row]|
    requires h.pos < |h.snaps| && s.saved < s.nextId
    ensures var s' := Erase(AddUndo(s, action, None));
            && |s'.stack| > 0 && Applied(m, Top(s'), s.lines, s'.lines)
            && NewOnTop(m, s, s', Top(s')) && s'.modified && s'.cutbuffer == s.cutbuffer
            && OkBuffer(m, s') && Ready(m, s', Recorded(h, SnapOf(s')))
  {
    ErasedText(m, s);
    EraseFields(s, action);
    hide *;
    var s' := Erase(AddUndo(s, action, None));
    BufferParts(m, s);
    EraseFits(m, s, Top(s'));
    PutTogether(m, s, s', Top(s'));
    EraseReady(m, s, h, s', action);
  }

  lemma EraseReady(m: Mode, s: State, h: History, s': State, action: Kind)
    requires (action == BACK || action == DEL) && |s'.stack| > 0 && s'.last == action
    requires s.applied <= |s.stack| && s'.stack == s.stack[..s.applied] + [Top(s')] && s'.applied == s.applied + 1
    requires Top(s').kind == action && Top(s').headRow == Top(s').tailRow && Top(s').id != s'.saved
    requires h.pos < |h.snaps|
    ensures Ready(m, s', Recorded(h, SnapOf(s')))
  {
  }

  lemma EraseFits(m: Mode, s: State, i: Item)
    requires ValidState(s) && s.x < |s.lines[s.row]|
    requires var (l, n) := (s.lines[s.row], CharLength(s.lines[s.row], s.x));
             var t: Text := s.lines[s.row := DeleteFrom(l, s.x, n)];
             && (i.kind == BACK || i.kind == DEL) && i.headRow == i.tailRow == s.row && i.headX == s.x
             && i.str == l[s.x..s.x + n] && (i.tailX == s.x || i.tailX == s.x + n)
             && OkPos(m, s.lines, Cursor(s)) && OkPos(m, t, Cursor(s)) && OkPos(m, s.lines, Pos(s.row, s.x + n))
    ensures Applied(m, i, s.lines, s.lines[s.row := DeleteFrom(s.lines[s.row], s.x, CharLength(s.lines[s.row], s.x))])
  {
    hide Applied, Boundary, CharLength;
    DeleteApplied(m, i, s.lines,
                  s.lines[s.row := DeleteFrom(s.lines[s.row], s.x, CharLength(s.lines[s.row], s.x))]);
  }

  /** What a first deletion leaves. */
  lemma EraseFields(s: State, action: Kind)
    requires ValidState(s) && (action == BACK || action == DEL) && s.x < |s.lines[s.row]|
    ensures var (l, n) := (s.lines[s.row], CharLength(s.lines[s.row], s.x));
            var s' := Erase(AddUndo(s, action, None));
            && |s'.stack| > 0
            && var i := Top(s');
            && s' == s.(stack := s.stack[..s.applied] + [i], applied := s.applied + 1, nextId := s.nextId + 1,
                        last := action, lines := s.lines[s.row := DeleteFrom(l, s.x, n)],
                        size := s.size - 1, modified := true)
            && i.kind == action && i.id == s.nextId && i.headRow == i.tailRow == s.row && i.headX == s.x
            && i.str == l[s.x..s.x + n] && i.tailX == (if action == BACK then s.x + n else s.x)
            && Cursor(s') == Cursor(s)
            && i.wassize == s.size && i.newsize == s.size - 1
  {
  }

  lemma LastIsTop(m: Mode, s: State, h: History)
    requires Ready(m, s, h) && (s.last == BACK || s.last == DEL)
    ensures |s.stack| > 0 && Top(s).kind == s.last
  {
  }

  /** A deletion elsewhere on the line starts a new item. */
  lemma EraseElsewhere(m: Mode, s: State, h: History)
    requires Inv(m, s, h) && (s.last == BACK || s.last == DEL) && s.x < |s.lines[s.row]|
    ensures Mergeable(s.last) && |s.stack| > 0 && ValidState(s)
    ensures s.x != Top(s).headX && StepRight(s.lines[s.row], s.x) != Top(s).headX ==>
              Kept(m, s, Erase(UpdateDeletion(s)), h)
  {
    hide Applied, Inv, Running, OkText, OkSize, OkPos, OkBuffer, Ready, NewItem, CharLength;
    Present(m, s, h);
    LastIsTop(m, s, h);
    if s.x != Top(s).headX && StepRight(s.lines[s.row], s.x) != Top(s).headX {
      var s1 := SetTop(s, Top(s).(newsize := s.size));
      ResizedTop(m, s, h);
      EraseRecords(m, s1, h, s.last);
      assert UpdateDeletion(s) == AddUndo(s1, s.last, None);
    }
  }

  lemma ResizedTop(m: Mode, s: State, h: History)
    requires Inv(m, s, h) && (s.last == BACK || s.last == DEL)
    ensures Inv(m, SetTop(s, Top(s).(newsize := s.size)), h)
  {
    hide Applied, Undone, Running, OkText, OkSize, OkPos, ItemsStand, SavedStands, IdsDistinct, AllWellFormed;
    Present(m, s, h);
    LastIsTop(m, s, h);
    Resized(m, Top(s), h.snaps[h.pos - 1].lines, s.lines, s.size);
    ResizedItems(m, s, h);
    ResizedSaved(s, h);
  }

  lemma ResizedItems(m: Mode, s: State, h: History)
    requires ItemsStand(m, s, h) && s.applied == |s.stack| > 0 && (m.sized ==> h.snaps[h.pos].size == s.size)
    requires Top(s).kind != REPLACE
    requires Applied(m, Top(s).(newsize := s.size), h.snaps[h.pos - 1].lines, h.snaps[h.pos].lines)
    ensures ItemsStand(m, SetTop(s, Top(s).(newsize := s.size)), h)
  {
    hide Applied, Undone;
  }

  lemma ResizedSaved(s: State, h: History)
    requires SavedStands(s, h) && IdsDistinct(s) && |s.stack| > 0
    ensures var s1 := SetTop(s, Top(s).(newsize := s.size)); SavedStands(s1, h) && IdsDistinct(s1)
  {
    var s1 := SetTop(s, Top(s).(newsize := s.size));
    assert forall k | 0 <= k <= |s.stack| :: IdAt(s1.stack, k) == IdAt(s.stack, k);
  }

  lemma Resized(m: Mode, u: Item, pre: Text, post: Text, size: int)
    requires Applied(m, u, pre, post) && (u.kind == BACK || u.kind == DEL)
    ensures Applied(m, u.(newsize := size), pre, post)
  {
  }

  /** A deletion next to the previous one extends the item. */
  lemma EraseAmends(m: Mode, s: State, h: History)
    requires Inv(m, s, h) && (s.last == BACK || s.last == DEL) && ValidState(s) && s.x < |s.lines[s.row]|
    requires |s.stack| > 0 && s.row == Top(s).headRow
    requires s.x == Top(s).headX || StepRight(s.lines[s.row], s.x) == Top(s).headX
    ensures Kept(m, s, Erase(UpdateDeletion(s)), h)
  {
    Deleting(m, s, h);
    hide *;
    Present(m, s, h);
    ErasedText(m, s);
    ErasedFields(s);
    ErasedBuffer(m, s);
    var s' := Erase(UpdateDeletion(s));
    DeletionContinued(m, s, h.snaps[h.pos - 1].lines);
    DeletionReady(m, s, h);
    AmendKeeps(m, s, h, s', Top(s'));
  }

  /** What is known when deleting may go on. */
  lemma Deleting(m: Mode, s: State, h: History)
    requires Inv(m, s, h) && (s.last == BACK || s.last == DEL)
    ensures Mergeable(s.last) && s.applied == |s.stack| > 0
    ensures Top(s).kind == s.last && Top(s).headRow == Top(s).tailRow && Top(s).id != s.saved
  {
    hide ItemsStand, SavedStands, OkText, OkSize, OkPos, Running;
  }

  lemma ErasedBuffer(m: Mode, s: State)
    requires ValidState(s) && |s.stack| > 0 && s.x < |s.lines[s.row]|
    requires s.x == Top(s).headX || StepRight(s.lines[s.row], s.x) == Top(s).headX
    requires var t: Text := s.lines[s.row := DeleteFrom(s.lines[s.row], s.x, CharLength(s.lines[s.row], s.x))];
             OkText(m, t) && OkPos(m, t, Cursor(s)) && OkSize(m, t, s.size - 1)
    ensures OkBuffer(m, Erase(UpdateDeletion(s)))
    ensures OkPos(m, Erase(UpdateDeletion(s)).lines, Cursor(s))
  {
    ErasedFields(s);
    hide OkText, OkPos, OkSize, Erase, UpdateDeletion;
  }

  lemma DeletionReady(m: Mode, s: State, h: History)
    requires ValidState(s) && |s.stack| > 0 && s.x < |s.lines[s.row]| && h.pos < |h.snaps|
    requires s.applied == |s.stack| && (s.last == BACK || s.last == DEL)
    requires Top(s).kind == s.last && Top(s).headRow == Top(s).tailRow && Top(s).id != s.saved
    requires s.x == Top(s).headX || StepRight(s.lines[s.row], s.x) == Top(s).headX
    ensures var s' := Erase(UpdateDeletion(s)); Ready(m, s', Amended(h, SnapOf(s')))
  {
    ErasedFields(s);
    hide Erase, UpdateDeletion;
  }

  lemma DeletionContinued(m: Mode, s: State, pre: Text)
    requires ValidState(s) && |s.stack| > 0 && s.x < |s.lines[s.row]| && OkText(m, s.lines) && OkText(m, pre)
    requires Applied(m, Top(s), pre, s.lines) && (Top(s).kind == BACK || Top(s).kind == DEL)
    requires s.row == Top(s).headRow == Top(s).tailRow && OkPos(m, s.lines, Cursor(s))
    requires s.x == Top(s).headX || StepRight(s.lines[s.row], s.x) == Top(s).headX
    requires OkPos(m, Erase(UpdateDeletion(s)).lines, Cursor(s))
    ensures Applied(m, Top(Erase(UpdateDeletion(s))), pre, Erase(UpdateDeletion(s)).lines)
  {
    ErasedFields(s);
    ReadDelete(m, Top(s), pre, s.lines);
    hide Applied, UpdateDeletion, Erase, OkText, DeleteFrom, InsertIn, Boundary;
    DeletionExtended(m, Top(s), Top(Erase(UpdateDeletion(s))), pre, s.lines, s.x);
  }

  lemma RowIsFine(m: Mode, t: Text, r: nat)
    requires OkText(m, t) && r < |t|
    ensures m.utf8 ==> WellFormed(t[r])
  {
  }

  /** A deletion that has been extended still stands for one step. */
  lemma DeletionExtended(m: Mode, u: Item, i: Item, pre: Text, t: Text, x: nat)
    requires u.kind == BACK || u.kind == DEL
    requires u.headRow == u.tailRow < |t| && u.headX <= |t[u.headRow]| && x < |t[u.headRow]|
    requires pre == t[u.headRow := InsertIn(t[u.headRow], u.headX, u.str)]
    requires OkText(m, t) && OkPos(m, t, Pos(u.headRow, x)) && OkPos(m, pre, Pos(u.tailRow, u.tailX))
    requires x == u.headX || StepRight(t[u.headRow], x) == u.headX
    requires var gone := t[u.headRow][x..StepRight(t[u.headRow], x)];
             i == u.(newsize := i.newsize, headX := x,
                     str := if x == u.headX then u.str + gone else gone + u.str,
                     tailX := if x == u.headX then x else u.tailX)
    requires var t': Text := t[u.headRow := DeleteFrom(t[u.headRow], x, CharLength(t[u.headRow], x))];
             OkPos(m, t', Pos(u.headRow, x))
    ensures Applied(m, i, pre, t[u.headRow := DeleteFrom(t[u.headRow], x, CharLength(t[u.headRow], x))])
  {
    hide CharLength, MbToWide, Reaches, WellFormedFrom, Characters, Applied, OkText, Boundary, WellFormed, DeleteFrom;
    var (r, l) := (u.headRow, t[u.headRow]);
    var n := CharLength(l, x);
    var t': Text := t[r := DeleteFrom(l, x, n)];
    DeletedMore(l, u.headX, u.str, x, n);
    RowIsFine(m, t, r);
    assert pre[r] == InsertIn(l, u.headX, u.str) && |pre[r]| == |l| + |u.str|;
    hide InsertIn;
    if x == u.headX {
      InFront(m, l, x, u.str, pre[r]);
    }
    RowTwice(t, r, pre[r], DeleteFrom(l, x, n), []);
    DeleteApplied(m, i, pre, t');
  }

  /** What a merged deletion leaves in the buffer and in its item. */
  lemma ErasedFields(s: State)
    requires ValidState(s) && |s.stack| > 0 && s.x < |s.lines[s.row]|
    requires s.x == Top(s).headX || StepRight(s.lines[s.row], s.x) == Top(s).headX
    ensures var (u, s') := (Top(s), Erase(UpdateDeletion(s)));
            var n := CharLength(s.lines[s.row], s.x);
            var gone := s.lines[s.row][s.x..s.x + n];
            && s'.lines == s.lines[s.row := DeleteFrom(s.lines[s.row], s.x, n)]
            && Cursor(s') == Cursor(s) && s'.size == s.size - 1
            && s'.stack == s.stack[|s.stack| - 1 := Top(s')] && s'.applied == s.applied
            && s'.nextId == s.nextId && s'.saved == s.saved && s'.last == s.last && s'.modified
            && s'.cutbuffer == s.cutbuffer
            && Top(s') == u.(newsize := s'.size, headX := s.x,
                             str := if s.x == u.headX then u.str + gone else gone + u.str,
                             tailX := if s.x == u.headX then s.x else u.tailX)
  {
  }

  /** A boundary before inserted text is a boundary without it. */
  lemma InFront(m: Mode, l: Line, x: nat, s: Line, before: Line)
    requires x <= |l| && before == InsertIn(l, x, s)
    requires m.utf8 ==> WellFormed(l) && Boundary(l, x)
    ensures m.utf8 ==> Boundary(before, x)
  {
    if m.utf8 {
      Split(l, x);
      assert before[..x] == l[..x];
      PrefixBoundary(before, x);
    }
  }

  /** Text taken out next to a gap extends what would fill the gap. */
  lemma DeletedMore(l: Line, gap: nat, gone: Line, x: nat, n: nat)
    requires x + n <= |l| && gap <= |l| && (x == gap || x + n == gap)
    ensures var before := InsertIn(l, gap, gone);
            var all := if x == gap then gone + l[x..x + n] else l[x..x + n] + gone;
            && before[x..x + |all|] == all
            && DeleteFrom(before, x, |all|) == DeleteFrom(l, x, n)
  {
    if x == gap {
      DeletedFront(l, x, gone, n);
    } else {
      DeletedBack(l, x, gone, n);
    }
  }

  lemma DeletedFront(l: Line, x: nat, gone: Line, n: nat)
    requires x + n <= |l|
    ensures var before := InsertIn(l, x, gone);
            && before[x..x + |gone| + n] == gone + l[x..x + n]
            && DeleteFrom(before, x, |gone| + n) == DeleteFrom(l, x, n)
  {
    var before := InsertIn(l, x, gone);
    assert before[..x] == l[..x] && before[x + |gone| + n..] == l[x + n..];
  }

  lemma DeletedBack(l: Line, x: nat, gone: Line, n: nat)
    requires x + n <= |l|
    ensures var before := InsertIn(l, x + n, gone);
            && before[x..x + n + |gone|] == l[x..x + n] + gone
            && DeleteFrom(before, x, n + |gone|) == DeleteFrom(l, x, n)
  {
    var before := InsertIn(l, x + n, gone);
    assert before[..x] == l[..x] && before[x + n + |gone|..] == l[x + n..];
  }

  lemma ReadDelete(m: Mode, u: Item, pre: Text, post: Text)
    requires Applied(m, u, pre, post) && (u.kind == BACK || u.kind == DEL) && u.headRow == u.tailRow
    ensures u.headRow < |post| && u.headX <= |post[u.headRow]|
    ensures pre == post[u.headRow := InsertIn(post[u.headRow], u.headX, u.str)]
    ensures OkPos(m, pre, Pos(u.tailRow, u.tailX))
  {
  }

  /** Two lines are joined. */
  lemma JoinedText(m: Mode, s: State)
    requires ValidState(s) && OkText(m, s.lines) && OkSize(m, s.lines, s.size)
    requires s.x == |s.lines[s.row]| && s.row + 1 < |s.lines| && !MagicAhead(m.config, s)
    ensures var t := MergeRow(s.lines, s.row, s.lines[s.row + 1]);
            && OkText(m, t) && OkPos(m, t, Cursor(s)) && OkSize(m, t, s.size - 1)
  {
    hide Join, MergeRow, Characters, WellFormed, Boundary;
    var (a, b) := (s.lines[..s.row + 1], s.lines[s.row + 1..]);
    var t := MergeRow(s.lines, s.row, s.lines[s.row + 1]);
    MergedRow(s.lines, s.row);
    MergeIsJoin(s.lines, s.row);
    if m.utf8 {
      assert a + b == s.lines;
      CharactersAppend(a, b);
      CharactersJoin(a, b);
      PrefixBoundary(t[s.row], s.x);
    }
  }

  lemma MergeIsJoin(t: Text, r: nat)
    requires r + 1 < |t|
    ensures MergeRow(t, r, t[r + 1]) == Join(t[..r + 1], t[r + 1..])
  {
    assert t[..r + 1][..r] == t[..r] && t[r + 1..][1..] == t[r + 2..];
  }

  lemma MergedRow(t: Text, r: nat)
    requires r + 1 < |t|
    ensures var u := MergeRow(t, r, t[r + 1]);
            && |u| == |t| - 1 && u[r] == t[r] + t[r + 1] && u[r][..|t[r]|] == t[r]
            && u[|u| - 1] == (if r == |u| - 1 then t[r] + Last(t) else Last(t))
  {
  }

  lemma JoinKeeps(m: Mode, s: State, h: History, action: Kind)
    requires Inv(m, s, h) && ValidState(s) && (action == BACK || action == DEL)
    requires s.x == |s.lines[s.row]| && s.row + 1 < |s.lines| && !MagicAhead(m.config, s)
    ensures Kept(m, s, Expunge(m.config, s, action), h)
  {
    hide *;
    Present(m, s, h);
    JoinNew(m, s, action);
    var s' := Expunge(m.config, s, action);
    RecordPlainKeeps(m, s, h, s', Top(s'));
  }

  lemma JoinNew(m: Mode, s: State, action: Kind)
    requires ValidState(s) && OkBuffer(m, s) && (action == BACK || action == DEL)
    requires s.x == |s.lines[s.row]| && s.row + 1 < |s.lines| && !MagicAhead(m.config, s)
    ensures var s' := Expunge(m.config, s, action);
            && |s'.stack| > 0 && Applied(m, Top(s'), s.lines, s'.lines) && NewOnTop(m, s, s', Top(s'))
            && OkBuffer(m, s') && s'.cutbuffer == s.cutbuffer && !Mergeable(s'.last) && s'.modified
  {
    hide *;
    BufferParts(m, s);
    JoinedText(m, s);
    RowStart(m, s.lines, s.row + 1);
    JoinFields(m.config, s, action);
    var s' := Expunge(m.config, s, action);
    PutTogether(m, s, s', Top(s'));
    JoinApplied(m, Top(s'), s.lines, s'.lines);
  }

  lemma RowStart(m: Mode, t: Text, row: nat)
    requires row < |t|
    ensures OkPos(m, t, Pos(row, 0))
  {
    EndIsBoundary(t[row]);
  }

  /** What joining two lines leaves. */
  lemma JoinFields(c: Config, s: State, action: Kind)
    requires ValidState(s) && (action == BACK || action == DEL)
    requires s.x == |s.lines[s.row]| && s.row + 1 < |s.lines| && !MagicAhead(c, s)
    ensures var s' := Expunge(c, s, action);
            && |s'.stack| > 0
            && var i := Top(s');
            && s' == s.(stack := s.stack[..s.applied] + [i], applied := s.applied + 1, nextId := s.nextId + 1,
                        last := JOIN, lines := MergeRow(s.lines, s.row, s.lines[s.row + 1]),
                        size := s.size - 1, modified := true)
            && i.kind == JOIN && i.id == s.nextId && i.tailRow == s.row && i.tailX == s.x
            && Pos(i.headRow, i.headX) == (if action == BACK then Pos(s.row + 1, 0) else Cursor(s))
            && Cursor(s') == Cursor(s) == Pos(s.row, s.x) && !Mergeable(s'.last)
            && !(i.backspaceAtEof && !c.noNewlines)
            && i.str == s.lines[s.row + 1] && i.wassize == s.size && i.newsize == s.size - 1
  {
    hide MergeRow;
  }

  /** Backspacing onto the end of the last real line: an item, but no change. */
  lemma NoJoinKeeps(m: Mode, s: State, h: History)
    requires Inv(m, s, h) && s.x == |s.lines[s.row]| && MagicAhead(m.config, s)
    ensures ValidState(s)
    ensures Kept(m, s, AddUndo(s, BACK, None), h)
  {
    hide Applied, Inv, Running, OkText, OkSize, Track;
    Present(m, s, h);
    var s' := AddUndo(s, BACK, None);
    EndIsBoundary(s.lines[|s.lines| - 1]);
    NoJoinApplied(m, Top(s'), s.lines);
    RecordKeeps(m, s, h, s', Top(s'));
  }

  /** Only the cursor moves, after the cutbuffer has been let go. */
  lemma MovedKeeps(m: Mode, s: State, h: History, row: nat, x: nat)
    requires Inv(m, s, h) && !s.keep && OkPos(m, s.lines, Pos(row, x))
    ensures Inv(m, s.(row := row, x := x), h)
  {
    hide Applied, Undone, Running, OkText, OkSize;
  }

  lemma BackspaceKeeps(m: Mode, s: State, h: History)
    requires Inv(m, s, h) && !s.keep
    ensures ValidState(s)
    ensures Kept(m, s, Backspace(m.config, s), h)
  {
    hide Applied, Inv, Running, OkText, OkSize, Expunge;
    Present(m, s, h);
    if s.x > 0 {
      var s1 := s.(x := StepLeft(s.lines[s.row], s.x));
      if m.utf8 { StepLeftIsPredecessor(s.lines[s.row], s.x); }
      MovedKeeps(m, s, h, s1.row, s1.x);
      ExpungeKeeps(m, s1, h, BACK);
    } else if s.row > 0 {
      var s1 := s.(row := s.row - 1, x := |s.lines[s.row - 1]|);
      EndIsBoundary(s.lines[s.row - 1]);
      MovedKeeps(m, s, h, s1.row, s1.x);
      ExpungeKeeps(m, s1, h, BACK);
    } else {
      StillKeeps(m, s, h, s);
    }
  }
}

/** What the editing operations do to the rows of the text and to the cursor, said
    without the functions they are made of, and how they follow on each other. */
module Effects {
  import opened Chars
  import opened Lines
  import opened EditModel
  import opened Cuts
  import opened Cutting
  import opened Edits
  import opened Options

  // ----- Indenting and unindenting ------------------------------------------------------

  /** Indenting puts the indentation before every row of the range that is not empty, and
      leaves all other rows; it makes an item exactly when there is such a row. */
  lemma IndentLaw(s: State, top: nat, bot: nat, indentation: Line)
    requires ValidState(s) && top <= bot < |s.lines|
    ensures var (t, s') := (s.lines, Indent(s, top, bot, indentation));
            && |s'.lines| == |t|
            && (forall r | 0 <= r < |t| ::
                  s'.lines[r] == if top <= r <= bot && t[r] != [] then indentation + t[r] else t[r])
            && s'.nextId == s.nextId + (if exists r :: top <= r <= bot && t[r] != [] then 1 else 0)
            && (s'.nextId == s.nextId ==> s' == s)
            && Cursor(s') == Pos(s.row, if top <= s.row <= bot && s.x > 0 then s.x + |indentation| else s.x)
  {
    var (t, s') := (s.lines, Indent(s, top, bot, indentation));
    var first := SkipEmpty(t, top, bot);
    if first <= bot {
      assert top <= first <= bot && t[first] != [];
      IndentedRows(t, top, bot, first, indentation);
      IndentedCursor(t, top, bot, first, indentation, s.row, s.x);
      hide Indentations, IndentRows, TotalLength, SkipEmpty, NewItem;
    }
  }

  lemma IndentedRows(t: Text, top: nat, bot: nat, first: nat, indentation: Line)
    requires top <= first <= bot < |t| && forall r | top <= r < first :: t[r] == []
    ensures var u := IndentRows(t, first, Indentations(t, first, bot, indentation));
            forall r | 0 <= r < |t| ::
              u[r] == if top <= r <= bot && t[r] != [] then indentation + t[r] else t[r]
  {
    forall r | 0 <= r < |t| && t[r] == []
      ensures [] + t[r] == t[r]
    {
    }
  }

  lemma IndentedCursor(t: Text, top: nat, bot: nat, first: nat, indentation: Line, row: nat, x: nat)
    requires top <= first <= bot < |t| && forall r | top <= r < first :: t[r] == []
    requires row < |t| && x <= |t[row]|
    ensures ShiftRight(row, x, first, Indentations(t, first, bot, indentation)) ==
            if top <= row <= bot && x > 0 then x + |indentation| else x
  {
  }

  /** The whitespace that unindenting takes from a line: up to a whole tab of blanks at its
      start, or a tab that comes sooner. */
  lemma WhiteIs(c: Config, l: Line)
    requires c.tabSize > 0
    ensures var n := LengthOfWhite(c, l);
            && n <= c.tabSize && n <= |l|
            && (forall i | 0 <= i < n - 1 :: l[i] == 32) && (n > 0 ==> l[n - 1] == 32 || l[n - 1] == 9)
            && (n < c.tabSize && n < |l| && (n == 0 || l[n - 1] == 32) ==> l[n] != 32 && l[n] != 9)
  {
    WhiteFrom(l, 0, c.tabSize);
  }

  lemma {:induction false} WhiteFrom(l: Line, i: nat, tabSize: nat)
    requires i <= |l| && i < tabSize && forall j | 0 <= j < i :: l[j] == 32
    ensures var n := LengthOfWhiteFrom(l, i, tabSize);
            && i <= n <= tabSize && n <= |l|
            && (forall j | 0 <= j < n - 1 :: l[j] == 32) && (n > 0 ==> l[n - 1] == 32 || l[n - 1] == 9)
            && (n < tabSize && n < |l| && (n == 0 || l[n - 1] == 32) ==> l[n] != 32 && l[n] != 9)
    decreases |l| - i
  {
    if i < |l| && l[i] == 32 && i + 1 < tabSize {
      WhiteFrom(l, i + 1, tabSize);
    }
  }

  /** Unindenting takes that from every row of the range, and leaves all other rows; it
      makes an item exactly when some row has such whitespace. */
  lemma UnindentLaw(c: Config, s: State, top: nat, bot: nat)
    requires ValidState(s) && top <= bot < |s.lines|
    ensures var (t, s') := (s.lines, Unindent(c, s, top, bot));
            && |s'.lines| == |t|
            && (forall r | 0 <= r < |t| ::
                  s'.lines[r] == if top <= r <= bot then t[r][LengthOfWhite(c, t[r])..] else t[r])
            && s'.nextId == s.nextId + (if exists r :: top <= r <= bot && LengthOfWhite(c, t[r]) > 0 then 1 else 0)
            && (s'.nextId == s.nextId ==> s' == s)
            && var white := LengthOfWhite(c, t[s.row]);
            Cursor(s') == Pos(s.row, if top <= s.row <= bot then (if s.x < white then 0 else s.x - white) else s.x)
  {
    hide LengthOfWhite;
    var (t, s') := (s.lines, Unindent(c, s, top, bot));
    var first := SkipUnindentable(c, t, top, bot);
    if first <= bot {
      assert top <= first <= bot && LengthOfWhite(c, t[first]) > 0;
      UnindentedRows(c, t, top, bot, first);
      UnindentedCursor(c, t, top, bot, first, s.row, s.x);
      hide Whites, UnindentRows, TotalLength, SkipUnindentable, NewItem;
    }
  }

  lemma UnindentedRows(c: Config, t: Text, top: nat, bot: nat, first: nat)
    requires top <= first <= bot < |t| && forall r | top <= r < first :: LengthOfWhite(c, t[r]) == 0
    ensures var u := UnindentRows(t, first, Whites(c, t, first, bot));
            forall r | 0 <= r < |t| ::
              u[r] == if top <= r <= bot then t[r][LengthOfWhite(c, t[r])..] else t[r]
  {
    hide LengthOfWhite;
    forall r | 0 <= r < |t|
      ensures t[r][0..] == t[r] && |White(c, t[r])| == LengthOfWhite(c, t[r])
    {
    }
  }

  lemma UnindentedCursor(c: Config, t: Text, top: nat, bot: nat, first: nat, row: nat, x: nat)
    requires top <= first <= bot < |t| && forall r | top <= r < first :: LengthOfWhite(c, t[r]) == 0
    requires row < |t| && x <= |t[row]|
    ensures var white := LengthOfWhite(c, t[row]);
            ShiftLeft(row, x, first, Whites(c, t, first, bot)) ==
            if top <= row <= bot then (if x < white then 0 else x - white) else x
  {
    assert first <= row <= bot ==> Whites(c, t, first, bot)[row - first] == White(c, t[row]);
    assert |White(c, t[row])| == LengthOfWhite(c, t[row]);
    hide LengthOfWhite;
  }

  // ----- Typing and breaking lines --------------------------------------------------------

  /** The text with the line at row r replaced by the given lines. */
  predicate RowBecomes(t: Text, r: nat, now: seq<Line>, u: Text) {
    && r < |t| && |u| == |t| - 1 + |now|
    && (forall i | 0 <= i < r :: u[i] == t[i])
    && (forall i | 0 <= i < |now| :: u[r + i] == now[i])
    && (forall i | r < i < |t| :: u[i - 1 + |now|] == t[i])
  }

  /** Typing puts the bytes before those at the cursor, which moves behind them; on the last
      row an empty row follows, where newlines are automatic. */
  lemma TypeLaw(c: Config, s: State, burst: Line)
    requires ValidState(s)
    ensures var (line, s') := (s.lines[s.row], Inject(c, s, burst));
            && RowBecomes(s.lines, s.row,
                          [line[..s.x] + burst + line[s.x..]] +
                          (if s.row == |s.lines| - 1 && !c.noNewlines then [[]] else []), s'.lines)
            && Cursor(s') == Pos(s.row, s.x + |burst|)
  {
    hide Count;
  }

  /** The state whose item typing extends. */
  function Typing(s: State): (r: State)
    requires ValidState(s)
    ensures ValidState(r) && |r.stack| > 0 && r.lines == s.lines && Cursor(r) == Cursor(s) && r.size == s.size
    ensures r.last == ADD && Top(r).tailRow == s.row && Top(r).tailX == s.x
    ensures ContinuesTyping(s) ==> r == s
  {
    if ContinuesTyping(s) then s else AddUndo(s, ADD, None)
  }

  /** What typing makes of s, when it extends the newest item of base. */
  predicate TypedOn(c: Config, s: State, base: State, burst: Line, s': State) {
    var magic := s.row == |s.lines| - 1 && !c.noNewlines;
    && base.row == s.row && |s'.stack| == |base.stack| > 0
    && s.row < |s.lines| && s.x <= |s.lines[s.row]| && s.row < |s'.lines|
    && s' == base.(lines := s'.lines, x := s.x + |burst|, modified := true,
                   size := s.size + Count(burst) + (if magic then 1 else 0),
                   stack := base.stack[|base.stack| - 1 := Top(s')])
    && s'.lines == s.lines[s.row := InsertIn(s.lines[s.row], s.x, burst)] + (if magic then [[]] else [])
    && Top(s') == Retyped(Top(base), s')
  }

  function Retyped(u: Item, s: State): Item
    requires s.row < |s.lines|
  {
    u.(newsize := s.size, tailX := s.x,
       str := if u.headX <= s.x <= |s.lines[s.row]| then s.lines[s.row][u.headX..s.x] else [])
  }

  lemma InjectIs(c: Config, s: State, burst: Line)
    requires ValidState(s)
    ensures ValidState(Inject(c, s, burst)) && TypedOn(c, s, Typing(s), burst, Inject(c, s, burst))
    ensures ContinuesTyping(Inject(c, s, burst))
  {
    hide Count, NewItem;
  }

  lemma InsertTwice(l: Line, x: nat, a: Line, b: Line)
    requires x <= |l|
    ensures InsertIn(InsertIn(l, x, a), x + |a|, b) == InsertIn(l, x, a + b)
  {
    var m := InsertIn(l, x, a);
    assert m[..x + |a|] == l[..x] + a && m[x + |a|..] == l[x..];
  }

  lemma TypedTexts(t: Text, r: nat, x: nat, a: Line, b: Line, magic: seq<Line>)
    requires r < |t| && x <= |t[r]|
    ensures var u: Text := t[r := InsertIn(t[r], x, a)] + magic;
            u[r := InsertIn(u[r], x + |a|, b)] + [] == t[r := InsertIn(t[r], x, a + b)] + magic
  {
    hide InsertIn;
    InsertTwice(t[r], x, a, b);
  }

  /** Typing in two bursts is typing at once: also for undo, where it is one item. */
  lemma TypedAtOnce(c: Config, s: State, a: Line, b: Line)
    requires ValidState(s) && WellFormed(a) && WellFormed(b)
    ensures ValidState(Inject(c, s, a))
    ensures Inject(c, Inject(c, s, a), b) == Inject(c, s, a + b)
  {
    hide *;
    Concatenated(a, b);
    InjectIs(c, s, a);
    InjectIs(c, s, a + b);
    var s1 := Inject(c, s, a);
    InjectIs(c, s1, b);
    BothTyped(c, s, Typing(s), a, b, s1, Inject(c, s1, b), Inject(c, s, a + b));
  }

  lemma BothTyped(c: Config, s: State, base: State, a: Line, b: Line, s1: State, two: State, one: State)
    requires TypedOn(c, s, base, a, s1) && TypedOn(c, s1, s1, b, two) && TypedOn(c, s, base, a + b, one)
    requires Count(a + b) == Count(a) + Count(b)
    ensures two == one
  {
    hide Count, InsertIn, Retyped;
    TypedTexts(s.lines, s.row, s.x, a, b, if s.row == |s.lines| - 1 && !c.noNewlines then [[]] else []);
    assert two.lines == one.lines && two.x == one.x && two.size == one.size;
    SameTyped(Top(base), s1, two, one);
    assert two.stack == one.stack;
  }

  /** What is typed last determines the item, but for where it began. */
  lemma SameTyped(u: Item, s1: State, two: State, one: State)
    requires two.lines == one.lines && two.x == one.x && two.size == one.size && two.row == one.row
    requires s1.row < |s1.lines| && two.row < |two.lines|
    ensures Retyped(Retyped(u, s1), two) == Retyped(u, one)
  {
  }

  /** The blanks and tabs at the start of a line are its indentation, where an ASCII
      character follows or nothing. */
  lemma {:induction false} AsciiIndentFrom(c: Config, l: Line, i: nat, n: nat)
    requires i <= n <= |l| && (forall j | i <= j < n :: l[j] == 32 || l[j] == 9)
    requires n < |l| ==> l[n] < 0x80 && l[n] != 32 && l[n] != 9
    ensures IndentLengthFrom(c, l, i) == n
    decreases n - i
  {
    if i < n {
      AsciiIndentFrom(c, l, i + 1, n);
    }
  }

  /** Breaking a line: what is behind the cursor becomes the next line, where the cursor
      goes. */
  lemma EnterLaw(c: Config, s: State)
    requires ValidState(s)
    ensures var (line, s') := (s.lines[s.row], Enter(c, s, false));
            RowBecomes(s.lines, s.row, [line[..s.x], line[s.x..]], s'.lines) && Cursor(s') == Pos(s.row + 1, 0)
  {
    var line := s.lines[s.row];
    assert line[..0] + line[s.x..] == line[s.x..];
    hide IndentLengthFrom;
  }

  /** With autoindent the next line begins with the indentation, as far as it is before the
      cursor; and the line is left empty where only that was before the cursor. */
  lemma AutoindentLaw(c: Config, s: State, n: nat)
    requires ValidState(s)
    requires var l := s.lines[s.row];
             && n <= |l| && (forall j | 0 <= j < n :: l[j] == 32 || l[j] == 9)
             && (n < |l| ==> l[n] < 0x80 && l[n] != 32 && l[n] != 9)
    ensures var (l, s') := (s.lines[s.row], Enter(c, s, true));
            var extra := if n < s.x then n else s.x;
            && RowBecomes(s.lines, s.row, [if n == s.x then [] else l[..s.x], l[..extra] + l[s.x..]], s'.lines)
            && Cursor(s') == Pos(s.row + 1, extra)
  {
    AsciiIndentFrom(c, s.lines[s.row], 0, n);
    hide IndentLengthFrom;
  }

  // ----- Deleting -----------------------------------------------------------------------------

  /** Before the magic line: the end of a last line that is not empty. */
  predicate BeforeMagic(c: Config, t: Text, p: Pos) {
    !c.noNewlines && p.x > 0 && p.row + 1 == |t| - 1
  }

  /** Two rows are joined. */
  predicate RowsJoin(t: Text, r: nat, u: Text) {
    && r + 1 < |t| && |u| == |t| - 1 && u[r] == t[r] + t[r + 1]
    && (forall i | 0 <= i < r :: u[i] == t[i]) && (forall i | r + 1 < i < |t| :: u[i - 1] == t[i])
  }

  /** Inside a line a deletion takes out the character at the cursor; at the end of a line
      it joins the next one, but not the magic line to one that is not empty; at the end
      of the text it does nothing.  The cursor stays. */
  lemma DeleteLaw(c: Config, s: State, action: Kind)
    requires ValidState(s) && (action == DEL || action == BACK)
    ensures var (line, s') := (s.lines[s.row], Expunge(c, s, action));
            && Cursor(s') == Cursor(s)
            && if s.x < |line| then RowBecomes(s.lines, s.row, [line[..s.x] + line[StepRight(line, s.x)..]], s'.lines)
               else if s.row == |s.lines| - 1 then s' == s
               else if BeforeMagic(c, s.lines, Cursor(s)) then s'.lines == s.lines && (action == DEL ==> s' == s)
               else RowsJoin(s.lines, s.row, s'.lines)
  {
    hide Expunge, RowsJoin, RowBecomes, StepRight;
    if s.x < |s.lines[s.row]| {
      DeleteInside(c, s, action);
    } else if s.row < |s.lines| - 1 && !BeforeMagic(c, s.lines, Cursor(s)) {
      JoinFields(c, s, action);
      RowsMerged(s.lines, s.row);
      hide MergeRow;
    } else {
      NothingDeleted(c, s, action);
    }
  }

  lemma NothingDeleted(c: Config, s: State, action: Kind)
    requires ValidState(s) && (action == DEL || action == BACK) && s.x == |s.lines[s.row]|
    requires s.row == |s.lines| - 1 || BeforeMagic(c, s.lines, Cursor(s))
    ensures var s' := Expunge(c, s, action);
            && s'.lines == s.lines && Cursor(s') == Cursor(s)
            && (action == DEL || s.row == |s.lines| - 1 ==> s' == s)
  {
    hide NewItem;
  }

  lemma RowsMerged(t: Text, r: nat)
    requires r + 1 < |t|
    ensures RowsJoin(t, r, MergeRow(t, r, t[r + 1]))
  {
  }

  lemma DeleteInside(c: Config, s: State, action: Kind)
    requires ValidState(s) && (action == DEL || action == BACK) && s.x < |s.lines[s.row]|
    ensures var (line, s') := (s.lines[s.row], Expunge(c, s, action));
            && ValidState(s') && Cursor(s') == Cursor(s) && |s'.stack| > 0
            && RowBecomes(s.lines, s.row, [line[..s.x] + line[StepRight(line, s.x)..]], s'.lines)
            && ((s.last == action && |s.stack| > 0 ==> Top(s).kind == action) ==>
                 s'.last == action && Pos(Top(s').headRow, Top(s').headX) == Cursor(s'))
  {
    var starts := action != s.last || |s.stack| == 0 || s.row != Top(s).headRow;
    hide RowBecomes, Erase, CharLength;
    if starts {
      DeletionNoted(s, action);
      ErasedRow(AddUndo(s, action, None));
    } else {
      if Top(s).kind == action {
        UpdateNoted(s);
      }
      ErasedRow(UpdateDeletion(s));
    }
    hide UpdateDeletion, AddUndo;
  }

  lemma DeletionNoted(s: State, action: Kind)
    requires ValidState(s) && (action == DEL || action == BACK) && s.x < |s.lines[s.row]|
    ensures var s1 := AddUndo(s, action, None);
            s1.last == action && |s1.stack| > 0 && Pos(Top(s1).headRow, Top(s1).headX) == Cursor(s)
  {
    hide CharLength;
  }

  lemma UpdateNoted(s: State)
    requires ValidState(s) && |s.stack| > 0 && s.row == Top(s).headRow && s.x < |s.lines[s.row]|
    requires s.last in {BACK, DEL} && Top(s).kind == s.last
    ensures var s1 := UpdateDeletion(s);
            Pos(Top(s1).headRow, Top(s1).headX) == Cursor(s) && s1.last == s.last
  {
    hide NewItem, CharLength, AddUndo;
    var s1 := SetTop(s, Top(s).(newsize := s.size));
    if Top(s).kind in {BACK, DEL} {
      DeletionNoted(s1, Top(s).kind);
    }
  }

  lemma ErasedRow(s: State)
    requires ValidState(s) && s.x < |s.lines[s.row]| && |s.stack| > 0
    ensures var (line, s') := (s.lines[s.row], Erase(s));
            && ValidState(s') && Cursor(s') == Cursor(s) && s'.last == s.last && |s'.stack| > 0
            && RowBecomes(s.lines, s.row, [line[..s.x] + line[StepRight(line, s.x)..]], s'.lines)
            && Pos(Top(s').headRow, Top(s').headX) == Pos(Top(s).headRow, Top(s).headX)
  {
    hide CharLength;
  }

  /** A backspace inside a line takes out the character before the cursor, which is what
      lies between the cursor and the boundary before it. */
  lemma BackspaceInside(c: Config, s: State) returns (p: nat)
    requires ValidState(s) && s.x > 0 && Boundary(s.lines[s.row], s.x)
    ensures var (line, s') := (s.lines[s.row], EditModel.Backspace(c, s));
            && p < s.x && Boundary(line, p) && (forall b | p < b < s.x :: !Boundary(line, b))
            && RowBecomes(s.lines, s.row, [line[..p] + line[s.x..]], s'.lines)
            && Cursor(s') == Pos(s.row, p)
  {
    p := StepLeft(s.lines[s.row], s.x);
    StepLeftIsPredecessor(s.lines[s.row], s.x);
    DeleteLaw(c, s.(x := p), BACK);
    hide Expunge, Boundary, StepLeft;
  }

  /** At the start of a line it joins the line to the one above, and the cursor goes to
      where they meet; but it only moves the cursor there from the magic line, when the
      line above is not empty.  At the start of the text it does nothing. */
  lemma BackspaceAtStart(c: Config, s: State)
    requires ValidState(s) && s.x == 0
    ensures var s' := EditModel.Backspace(c, s);
            if s.row == 0 then s' == s
            else
              && Cursor(s') == Pos(s.row - 1, |s.lines[s.row - 1]|)
              && if BeforeMagic(c, s.lines, Cursor(s')) then s'.lines == s.lines
                 else RowsJoin(s.lines, s.row - 1, s'.lines)
  {
    if s.row > 0 {
      DeleteLaw(c, s.(row := s.row - 1, x := |s.lines[s.row - 1]|), BACK);
    }
    hide Expunge, RowsJoin, BeforeMagic, RowBecomes, StepRight;
  }

  /** A backspace takes a line break back. */
  lemma EnterThenBackspace(c: Config, s: State)
    requires ValidState(s) && Finished(c.noNewlines, s.lines)
    ensures var s1 := Enter(c, s, false);
            && ValidState(s1)
            && var s2 := EditModel.Backspace(c, s1);
            s2.lines == s.lines && Cursor(s2) == Cursor(s)
  {
    hide *;
    EnterState(c, s);
    EnterLaw(c, s);
    var s1 := Enter(c, s, false);
    var s2 := EditModel.Backspace(c, s1);
    BackspaceAtStart(c, s1);
    BrokenAndJoined(c, s.lines, Cursor(s), s1.lines, s2.lines);
  }

  lemma BrokenAndJoined(c: Config, t: Text, p: Pos, u: Text, v: Text)
    requires ValidPos(t, p) && Finished(c.noNewlines, t)
    requires RowBecomes(t, p.row, [t[p.row][..p.x], t[p.row][p.x..]], u)
    requires if BeforeMagic(c, u, Pos(p.row, |u[p.row]|)) then v == u else RowsJoin(u, p.row, v)
    ensures u[p.row] == t[p.row][..p.x] && |u[p.row]| == p.x
    ensures v == t
  {
    var now := [t[p.row][..p.x], t[p.row][p.x..]];
    assert u[p.row + 0] == now[0] && u[p.row + 1] == now[1];
    assert t[p.row][..p.x] + t[p.row][p.x..] == t[p.row];
  }

  lemma EnterState(c: Config, s: State)
    requires ValidState(s)
    ensures var s1 := Enter(c, s, false);
            && ValidState(s1) && Cursor(s1) == Pos(s1.row, s1.x)
            && Cursor(s) == Pos(s.row, s.x) && ValidPos(s.lines, Cursor(s))
  {
    hide IndentLengthFrom;
  }

  /** And a typed character too; there may be a magic line more. */
  lemma TypeThenBackspace(c: Config, s: State, letter: Line)
    requires ValidState(s) && WellFormed(s.lines[s.row]) && Boundary(s.lines[s.row], s.x)
    requires WellFormed(letter) && letter != [] && CharLength(letter, 0) == |letter|
    ensures var s1 := Inject(c, s, letter);
            && ValidState(s1)
            && var s2 := EditModel.Backspace(c, s1);
            && Cursor(s2) == Cursor(s)
            && s2.lines == s.lines + (if s.row == |s.lines| - 1 && !c.noNewlines then [[]] else [])
  {
    hide Inject, EditModel.Backspace, InsertIn, Boundary, WellFormed, Typing, TypedOn, CharLength, Count;
    var (l, s1) := (s.lines[s.row], Inject(c, s, letter));
    TypeLaw(c, s, letter);
    InjectIs(c, s, letter);
    InsertWellFormed(l, s.x, letter);
    CharacterIn(l, s.x, letter);
    PutIntoRow(l, s.x, letter);
    Rebuilt(s.lines, s.row, InsertIn(l, s.x, letter), s1.lines);
    var p := BackspaceInside(c, s1);
    Rebuilt(s1.lines, s.row, l, EditModel.Backspace(c, s1).lines);
  }

  lemma PutIntoRow(l: Line, x: nat, a: Line)
    requires x <= |l|
    ensures InsertIn(l, x, a) == l[..x] + a + l[x..] && |InsertIn(l, x, a)| == |l| + |a|
    ensures InsertIn(l, x, a)[..x] + InsertIn(l, x, a)[x + |a|..] == l
  {
  }

  /** One row becomes another, perhaps with an empty one after it. */
  lemma Rebuilt(t: Text, r: nat, l: Line, u: Text)
    ensures RowBecomes(t, r, [l] + [], u) ==> r < |t| && u == t[r := l]
    ensures RowBecomes(t, r, [l] + [[]], u) && r == |t| - 1 ==> u == t[r := l] + [[]]
    ensures [l] + [] == [l]
  {
    if RowBecomes(t, r, [l] + [[]], u) && r == |t| - 1 {
      assert u[r + 0] == ([l] + [[]])[0] && u[r + 1] == ([l] + [[]])[1];
    }
    if RowBecomes(t, r, [l] + [], u) {
      assert u[r + 0] == ([l] + [])[0];
      assert forall i | r < i < |t| :: u[i - 1 + 1] == t[i];
      assert forall i | r < i < |t| :: u[i] == u[i - 1 + 1];
    }
  }

  /** Between the two ends of a character that was put in there is no boundary. */
  lemma CharacterIn(l: Line, x: nat, letter: Line)
    requires WellFormed(l) && Boundary(l, x) && x <= |l|
    requires WellFormed(letter) && letter != [] && CharLength(letter, 0) == |letter|
    ensures Boundary(InsertIn(l, x, letter), x)
    ensures forall b | x < b < x + |letter| :: !Boundary(InsertIn(l, x, letter), b)
  {
    var u := InsertIn(l, x, letter);
    InsertWellFormed(l, x, letter);
    CharLocal(letter, 0, u, x);
    forall b | x < b < x + |letter|
      ensures !Boundary(u, b)
    {
      if Boundary(u, b) {
        ReachesLinear(u, 0, x, b);
        ReachesForward(u, StepRight(u, x), b);
      }
    }
  }

  // ----- Deleting goes on ------------------------------------------------------------------------

  /** The next deletion adjoins the last one. */
  lemma Continues(c: Config, s: State, action: Kind, x: nat)
    requires ValidState(s) && |s.stack| > 0 && (action == DEL || action == BACK) && s.last == action
    requires Pos(Top(s).headRow, Top(s).headX) == Cursor(s)
    requires x < |s.lines[s.row]| && (x == s.x || StepRight(s.lines[s.row], x) == s.x)
    ensures var (line, s') := (s.lines[s.row], Expunge(c, s.(x := x), action));
            && s'.nextId == s.nextId && |s'.stack| == |s.stack|
            && Top(s').str == if x == s.x then Top(s).str + line[x..StepRight(line, x)] else line[x..s.x] + Top(s).str
  {
    ErasedFields(s.(x := x));
    hide Erase, UpdateDeletion, CharLength;
  }

  /** A deletion at the place of the last one takes its character into the same item. */
  lemma DeleteGoesOn(c: Config, s: State)
    requires ValidState(s) && s.x < |s.lines[s.row]|
    requires s.last == DEL && |s.stack| > 0 ==> Top(s).kind == DEL
    ensures var s1 := Expunge(c, s, DEL);
            && ValidState(s1) && |s1.stack| > 0
            && var (line, s2) := (s1.lines[s1.row], Expunge(c, s1, DEL));
            s1.x < |line| ==>
              && s2.nextId == s1.nextId && |s2.stack| == |s1.stack| > 0
              && Top(s2).str == Top(s1).str + line[s1.x..StepRight(line, s1.x)]
  {
    hide Expunge, StepRight;
    DeleteInside(c, s, DEL);
    var s1 := Expunge(c, s, DEL);
    assert s1.(x := s1.x) == s1;
    if s1.x < |s1.lines[s1.row]| {
      Continues(c, s1, DEL, s1.x);
    }
  }

  /** So does a backspace after a backspace, in front. */
  lemma BackspaceGoesOn(c: Config, s: State)
    requires ValidState(s) && s.x < |s.lines[s.row]|
    requires s.last == BACK && |s.stack| > 0 ==> Top(s).kind == BACK
    ensures var s1 := Expunge(c, s, BACK);
            && ValidState(s1) && |s1.stack| > 0
            && var (line, s2) := (s1.lines[s1.row], EditModel.Backspace(c, s1));
            s1.x > 0 && Boundary(line, s1.x) ==>
              && s2.nextId == s1.nextId && |s2.stack| == |s1.stack| > 0 && s2.x <= s1.x
              && Top(s2).str == line[s2.x..s1.x] + Top(s1).str
  {
    hide Expunge, StepRight, Boundary, StepLeft;
    DeleteInside(c, s, BACK);
    var s1 := Expunge(c, s, BACK);
    var line := s1.lines[s1.row];
    if s1.x > 0 && Boundary(line, s1.x) {
      var p := StepLeft(line, s1.x);
      StepLeftIsPredecessor(line, s1.x);
      Continues(c, s1, BACK, p);
      DeleteInside(c, s1.(x := p), BACK);
    }
  }

  // ----- Pasting ------------------------------------------------------------------------------------

  /** Pasting and inserting put the text between what is before the cursor and what is
      behind it; the cursor goes to its end, and the cutbuffer stays.  Inserting nothing
      leaves the Modified flag alone. */
  lemma PutLaw(c: Config, s: State, t: Text)
    requires ValidState(s)
    ensures var now := WithMagic(c.noNewlines, Join(Join(Head(s.lines, Cursor(s)), t), Rest(s.lines, Cursor(s))));
            && var s' := InsertText(c, s, t);
            && s'.lines == now && Cursor(s') == EndAfter(Cursor(s), t) && s'.cutbuffer == s.cutbuffer
            && (s'.modified <==> s.modified || t != EMPTY)
            && (s.cutbuffer == Some(t) ==>
                var s' := PasteText(c, s);
                && s'.lines == now && Cursor(s') == EndAfter(Cursor(s), t)
                && s'.cutbuffer == s.cutbuffer && s'.modified)
    ensures s.cutbuffer == None ==> PasteText(c, s) == s
  {
    hide Join, Head, Rest, WithMagic, EndAfter, PutIn, AddUndo, UpdatePaste;
    EndOfNothing(Cursor(s), t);
    PutFields(c, s, INSERT, t);
    PutFields(c, s, PASTE, t);
  }

  lemma EndOfNothing(p: Pos, t: Text)
    ensures EndAfter(p, t) == p <==> t == EMPTY
  {
    if |t| == 1 && t[0] == [] {
      assert t == EMPTY;
    }
  }

  /** What is cut with a mark and pasted at once is back in its place, with the cursor at
      its end; there is one empty line more exactly when the cut had to add one. */
  lemma CutThenPasted(c: Config, s: State, mark: Pos)
    requires ValidState(s) && ValidPos(s.lines, mark) && !s.keep && mark != Cursor(s) && Finished(c.noNewlines, s.lines)
    ensures var s1 := CutText(c, s, Some(mark));
            && ValidState(s1)
            && var s2 := PasteText(c, s1);
            var (p, q) := if Before(mark, Cursor(s)) then (mark, Cursor(s)) else (Cursor(s), mark);
            var added := !c.noNewlines && Last(Join(Head(s.lines, p), Rest(s.lines, q))) != [];
            && s2.lines == s.lines + (if added then [[]] else [])
            && Cursor(s2) == q
  {
    hide CutText, PasteText, Join, Head, Rest, Segment, WithMagic, Extracted, EndAfter;
    var (p, q) := if Before(mark, Cursor(s)) then (mark, Cursor(s)) else (Cursor(s), mark);
    CutThenPaste(c.noNewlines, s.lines, p, q);
    SplitRegion(s.lines, p, q);
    CutMarkedState(c, s, mark, p, q);
    PutLaw(c, CutText(c, s, Some(mark)), Segment(s.lines, p, q));
  }

  lemma CutMarkedState(c: Config, s: State, mark: Pos, p: Pos, q: Pos)
    requires ValidState(s) && ValidPos(s.lines, mark) && !s.keep && mark != Cursor(s)
    requires Before(p, q) && (p, q) == if Before(mark, Cursor(s)) then (mark, Cursor(s)) else (Cursor(s), mark)
    ensures var s1 := CutText(c, s, Some(mark));
            && ValidState(s1) && Cursor(s1) == p
            && s1.lines == Extracted(c.noNewlines, s.lines, p, q) && s1.cutbuffer == Some(Segment(s.lines, p, q))
  {
    hide CutText, Join, Head, Rest, Segment, WithMagic, Extracted, EndAfter, IsCuttable, ZapText;
    CutMarked(c, s, mark);
    MarkedIsCuttable(c, s, mark);
    CutTakes(c, s, Some(mark));
    Parts(c.noNewlines, s.lines, p, q);
  }

  lemma MarkedIsCuttable(c: Config, s: State, mark: Pos)
    requires ValidState(s) && ValidPos(s.lines, mark) && mark != Cursor(s)
    ensures IsCuttable(c, s, false, Some(mark))
  {
  }

  // ----- Replacing ----------------------------------------------------------------------------------

  /** Replacing a match puts the answer in its place, with the cursor behind it; replacing
      the answer by what was there gives the text back, with the cursor behind that. */
  lemma ReplaceLaw(s: State, len: nat, answer: Line)
    requires ValidState(s) && s.x + len <= |s.lines[s.row]|
    ensures var (line, s1) := (s.lines[s.row], Replace(s, len, answer));
            && RowBecomes(s.lines, s.row, [line[..s.x] + answer + line[s.x + len..]], s1.lines)
            && Cursor(s1) == Pos(s.row, s.x + |answer|)
            && var back := s1.(x := s.x);
            && ValidState(back) && back.x + |answer| <= |back.lines[back.row]|
            && var s2 := Replace(back, |answer|, line[s.x..s.x + len]);
            s2.lines == s.lines && Cursor(s2) == Pos(s.row, s.x + len)
  {
    hide Count, NewItem;
    var (l, x) := (s.lines[s.row], s.x);
    var altered := l[..x] + answer + l[x + len..];
    assert altered[..x] == l[..x] && altered[x + |answer|..] == l[x + len..];
    assert l[..x] + l[x..x + len] + l[x + len..] == l;
    assert s.lines[s.row := altered][s.row := l] == s.lines;
  }
}

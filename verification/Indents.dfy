/** Indenting, unindenting, replacing and copying keep the invariant. */
module Indents {
  import opened Chars
  import opened Lines
  import opened EditModel
  import opened History
  import opened Items
  import opened Edits
  import opened Options

  /** Well-formed indents whose size is their number of characters. */
  predicate PlainIndents(m: Mode, indents: seq<Line>) {
    forall k | 0 <= k < |indents| ::
      WellFormed(indents[k]) && (m.sized ==> Count(indents[k]) == |indents[k]|)
  }

  lemma {:induction false} IndentedText(m: Mode, t: Text, top: nat, indents: seq<Line>)
    requires top + |indents| <= |t| && AllWellFormed(t) && PlainIndents(m, indents)
    ensures AllWellFormed(IndentRows(t, top, indents))
    ensures m.sized ==> Characters(IndentRows(t, top, indents)) == Characters(t) + TotalLength(indents)
    decreases |indents|
  {
    if indents == [] {
      assert IndentRows(t, top, indents) == t;
    } else {
      var t1: Text := t[top := indents[0] + t[top]];
      Concatenated(indents[0], t[top]);
      CharactersWithRow(t, top, indents[0] + t[top]);
      IndentedText(m, t1, top + 1, indents[1..]);
      assert IndentRows(t1, top + 1, indents[1..]) == IndentRows(t, top, indents);
    }
  }

  lemma IndentedCursor(m: Mode, t: Text, row: nat, x: nat, top: nat, indents: seq<Line>)
    requires top + |indents| <= |t| && OkPos(m, t, Pos(row, x))
    requires m.utf8 ==> AllWellFormed(t) && PlainIndents(m, indents)
    ensures OkPos(m, IndentRows(t, top, indents), Pos(row, ShiftRight(row, x, top, indents)))
  {
    if m.utf8 && top <= row < top + |indents| {
      Concatenated(indents[row - top], t[row]);
      EndIsBoundary(indents[row - top] + t[row]);
    }
  }

  lemma IndentKeeps(m: Mode, s: State, h: History, top: nat, bot: nat, indentation: Line)
    requires Inv(m, s, h) && ValidState(s) && top <= bot < |s.lines|
    requires m.utf8 ==> WellFormed(indentation) && (m.sized ==> Count(indentation) == |indentation|)
    ensures Kept(m, s, Indent(s, top, bot, indentation), h)
  {
    hide *;
    Present(m, s, h);
    if SkipEmpty(s.lines, top, bot) == bot + 1 {
      NothingToIndent(s, top, bot, indentation);
      StillKeeps(m, s, h, s);
    } else {
      IndentFields(s, top, bot, indentation);
      IndentFits(m, s, top, bot, indentation);
      var s' := Indent(s, top, bot, indentation);
      RecordPlainKeeps(m, s, h, s', Top(s'));
    }
  }

  lemma NothingToIndent(s: State, top: nat, bot: nat, indentation: Line)
    requires ValidState(s) && top <= bot < |s.lines| && SkipEmpty(s.lines, top, bot) == bot + 1
    ensures Indent(s, top, bot, indentation) == s
  {
  }

  /** The item and the state that do_indent leaves. */
  lemma IndentFields(s: State, top: nat, bot: nat, indentation: Line)
    requires ValidState(s) && top <= bot < |s.lines| && SkipEmpty(s.lines, top, bot) <= bot
    ensures var first := SkipEmpty(s.lines, top, bot);
            var indents := Indentations(s.lines, first, bot, indentation);
            var s' := Indent(s, top, bot, indentation);
            && |s'.stack| > 0
            && var i := Top(s');
            && s'.stack == s.stack[..s.applied] + [i] && s'.applied == s.applied + 1
            && s'.nextId == s.nextId + 1 && s'.saved == s.saved && s'.cutbuffer == s.cutbuffer
            && s'.modified && !Mergeable(s'.last)
            && s'.lines == IndentRows(s.lines, first, indents)
            && Cursor(s) == Pos(s.row, s.x) && Cursor(s') == Pos(s.row, ShiftRight(s.row, s.x, first, indents))
            && s'.size == s.size + TotalLength(indents)
            && i.kind == INDENT && i.headRow == s.row && i.headX == s.x
            && i.topRow == first && i.indents == indents
            && i.id == s.nextId && i.wassize == s.size && i.newsize == s'.size
  {
    hide Indentations, SkipEmpty, IndentRows, ShiftRight, TotalLength;
  }

  lemma IndentFits(m: Mode, s: State, top: nat, bot: nat, indentation: Line)
    requires ValidState(s) && OkBuffer(m, s) && top <= bot < |s.lines| && SkipEmpty(s.lines, top, bot) <= bot
    requires m.utf8 ==> WellFormed(indentation) && (m.sized ==> Count(indentation) == |indentation|)
    ensures var s' := Indent(s, top, bot, indentation);
            && |s'.stack| > 0 && Applied(m, Top(s'), s.lines, s'.lines)
            && OkBuffer(m, s') && NewOnTop(m, s, s', Top(s'))
  {
    hide *;
    var first := SkipEmpty(s.lines, top, bot);
    BufferParts(m, s);
    IndentFields(s, top, bot, indentation);
    IndentText(m, s.lines, s.size, s.row, s.x, first, bot, indentation);
    var s' := Indent(s, top, bot, indentation);
    PutTogether(m, s, s', Top(s'));
    IndentApplied(m, Top(s'), s.lines, s'.lines);
  }

  lemma IndentText(m: Mode, t: Text, size: int, row: nat, x: nat, first: nat, bot: nat, indentation: Line)
    requires first <= bot < |t|
    requires OkText(m, t) && OkPos(m, t, Pos(row, x)) && OkSize(m, t, size)
    requires m.utf8 ==> WellFormed(indentation) && (m.sized ==> Count(indentation) == |indentation|)
    ensures var indents := Indentations(t, first, bot, indentation);
            var t' := IndentRows(t, first, indents);
            && OkText(m, t') && OkSize(m, t', size + TotalLength(indents)) && first + |indents| <= |t|
            && OkPos(m, t', Pos(row, ShiftRight(row, x, first, indents)))
  {
    var indents := Indentations(t, first, bot, indentation);
    if m.utf8 {
      IndentationsPlain(m, t, first, bot, indentation);
    }
    IndentedLast(t, first, bot, indentation);
    hide Indentations, IndentRows, WellFormed, Characters, Count, PlainIndents, ShiftRight;
    if m.utf8 {
      IndentedText(m, t, first, indents);
    }
    IndentedCursor(m, t, row, x, first, indents);
  }

  lemma IndentedLast(t: Text, first: nat, bot: nat, indentation: Line)
    requires first <= bot < |t|
    ensures Last(t) == [] ==> Last(IndentRows(t, first, Indentations(t, first, bot, indentation))) == []
  {
  }

  lemma IndentationsPlain(m: Mode, t: Text, first: nat, bot: nat, indentation: Line)
    requires first <= bot < |t|
    requires WellFormed(indentation) && (m.sized ==> Count(indentation) == |indentation|)
    ensures PlainIndents(m, Indentations(t, first, bot, indentation))
  {
    EndIsBoundary([]);
  }

  // ----- Unindenting ------------------------------------------------------------------

  lemma {:induction false} WhiteIsAscii(l: Line, i: nat, tabSize: nat)
    requires i <= |l| && (i < tabSize || tabSize == 0) && forall k | 0 <= k < i :: l[k] < 0x80
    ensures forall k | 0 <= k < LengthOfWhiteFrom(l, i, tabSize) :: l[k] < 0x80
    decreases |l| - i
  {
    if i < |l| && l[i] == 32 && i + 1 != tabSize {
      WhiteIsAscii(l, i + 1, tabSize);
    }
  }

  /** A prefix of ASCII characters is well formed and ends on a boundary. */
  lemma PlainPrefix(m: Mode, t: Text, top: nat, indents: seq<Line>, j: nat)
    requires Indented(t, top, indents) && AllWellFormed(t) && PlainIndents(m, indents)
    requires forall k | 0 <= k < |indents| :: indents[k] <= t[top + k]
    requires top <= j < top + |indents|
    ensures var w := indents[j - top];
            && |w| <= |t[j]| && t[j] == w + t[j][|w|..]
            && WellFormed(w) && WellFormed(t[j][|w|..])
  {
    var w := indents[j - top];
    assert w <= t[top + (j - top)];
    assert t[j][..|w|] == w;
    PrefixBoundary(t[j], |w|);
    Split(t[j], |w|);
  }

  lemma WhitesPlain(m: Mode, t: Text, top: nat, bot: nat)
    requires top <= bot < |t|
    ensures var w := Whites(m.config, t, top, bot);
            && PlainIndents(m, w) && Indented(t, top, w)
            && forall k | 0 <= k < |w| :: w[k] <= t[top + k]
  {
    var w := Whites(m.config, t, top, bot);
    forall k | 0 <= k < |w|
      ensures WellFormed(w[k]) && Count(w[k]) == |w[k]| && w[k] <= t[top + k]
    {
      var l := t[top + k];
      assert w[k] == White(m.config, l);
      WhiteIsAscii(l, 0, m.config.tabSize);
      AsciiPrefixFrom(l, 0, LengthOfWhite(m.config, l));
    }
  }

  lemma UnindentedText(m: Mode, t: Text, top: nat, indents: seq<Line>)
    requires Indented(t, top, indents) && AllWellFormed(t) && PlainIndents(m, indents)
    requires forall k | 0 <= k < |indents| :: indents[k] <= t[top + k]
    ensures AllWellFormed(UnindentRows(t, top, indents))
    ensures m.sized ==> Characters(UnindentRows(t, top, indents)) == Characters(t) - TotalLength(indents)
  {
    hide Characters, WellFormed, PlainIndents, IndentRows, TotalLength;
    var u := UnindentRows(t, top, indents);
    IndentUnindent(t, top, indents);
    forall j | 0 <= j < |u|
      ensures WellFormed(u[j])
    {
      if top <= j < top + |indents| {
        PlainPrefix(m, t, top, indents, j);
      }
    }
    hide UnindentRows, Indented;
    IndentedText(m, u, top, indents);
  }

  lemma UnindentedCursor(m: Mode, t: Text, row: nat, x: nat, top: nat, indents: seq<Line>)
    requires Indented(t, top, indents) && OkPos(m, t, Pos(row, x))
    requires forall k | 0 <= k < |indents| :: indents[k] <= t[top + k]
    requires m.utf8 ==> AllWellFormed(t) && PlainIndents(m, indents)
    ensures OkPos(m, UnindentRows(t, top, indents), Pos(row, ShiftLeft(row, x, top, indents)))
  {
    if m.utf8 && top <= row < top + |indents| {
      var (w, l) := (indents[row - top], t[row]);
      PlainPrefix(m, t, top, indents, row);
      Concatenated(w, l[|w|..]);
      EndIsBoundary(l[|w|..]);
      if |w| <= x {
        assert Boundary(w + l[|w|..], |w| + (x - |w|));
      }
    }
  }

  /** The item and the state that do_unindent leaves. */
  lemma UnindentFields(c: Config, s: State, top: nat, bot: nat)
    requires ValidState(s) && top <= bot < |s.lines| && SkipUnindentable(c, s.lines, top, bot) <= bot
    ensures var first := SkipUnindentable(c, s.lines, top, bot);
            var indents := Whites(c, s.lines, first, bot);
            var s' := Unindent(c, s, top, bot);
            && |s'.stack| > 0
            && var i := Top(s');
            && s'.stack == s.stack[..s.applied] + [i] && s'.applied == s.applied + 1
            && s'.nextId == s.nextId + 1 && s'.saved == s.saved && s'.cutbuffer == s.cutbuffer
            && s'.modified && !Mergeable(s'.last)
            && s'.lines == UnindentRows(s.lines, first, indents)
            && Cursor(s) == Pos(s.row, s.x) && Cursor(s') == Pos(s.row, ShiftLeft(s.row, s.x, first, indents))
            && s'.size == s.size - TotalLength(indents)
            && i.kind == UNINDENT && i.headRow == s.row && i.headX == s.x
            && i.topRow == first && i.indents == indents
            && i.id == s.nextId && i.wassize == s.size && i.newsize == s'.size
  {
    hide Whites, SkipUnindentable, UnindentRows, ShiftLeft, TotalLength;
  }

  lemma UnindentText(m: Mode, t: Text, size: int, row: nat, x: nat, first: nat, bot: nat)
    requires first <= bot < |t|
    requires OkText(m, t) && OkPos(m, t, Pos(row, x)) && OkSize(m, t, size)
    ensures var indents := Whites(m.config, t, first, bot);
            var t' := UnindentRows(t, first, indents);
            && OkText(m, t') && OkSize(m, t', size - TotalLength(indents))
            && OkPos(m, t', Pos(row, ShiftLeft(row, x, first, indents)))
  {
    var indents := Whites(m.config, t, first, bot);
    WhitesPlain(m, t, first, bot);
    hide Whites, WellFormed, Characters, Count, White;
    if m.utf8 {
      UnindentedText(m, t, first, indents);
    }
    UnindentedCursor(m, t, row, x, first, indents);
    if Last(t) == [] {
      LastRowStays(m, t, first, indents);
    }
  }

  lemma LastRowStays(m: Mode, t: Text, top: nat, indents: seq<Line>)
    requires Indented(t, top, indents) && Last(t) == []
    ensures Last(UnindentRows(t, top, indents)) == []
  {
    var j := |t| - 1;
    if top <= j < top + |indents| {
      assert |indents[j - top]| <= |t[top + (j - top)]|;
    }
  }

  lemma UnindentKeeps(m: Mode, s: State, h: History, top: nat, bot: nat)
    requires Inv(m, s, h) && ValidState(s) && top <= bot < |s.lines|
    ensures Kept(m, s, Unindent(m.config, s, top, bot), h)
  {
    Present(m, s, h);
    if SkipUnindentable(m.config, s.lines, top, bot) == bot + 1 {
      StillKeeps(m, s, h, s);
    } else {
      UnindentRecords(m, s, h, top, bot);
    }
  }

  lemma UnindentRecords(m: Mode, s: State, h: History, top: nat, bot: nat)
    requires Inv(m, s, h) && ValidState(s) && top <= bot < |s.lines|
    requires SkipUnindentable(m.config, s.lines, top, bot) <= bot
    ensures Kept(m, s, Unindent(m.config, s, top, bot), h)
  {
    hide *;
    Present(m, s, h);
    UnindentFields(m.config, s, top, bot);
    UnindentFits(m, s, top, bot);
    PutTogether(m, s, Unindent(m.config, s, top, bot), Top(Unindent(m.config, s, top, bot)));
    var s' := Unindent(m.config, s, top, bot);
    RecordPlainKeeps(m, s, h, s', Top(s'));
  }

  lemma UnindentFits(m: Mode, s: State, top: nat, bot: nat)
    requires ValidState(s) && top <= bot < |s.lines| && SkipUnindentable(m.config, s.lines, top, bot) <= bot
    requires OkText(m, s.lines) && OkPos(m, s.lines, Cursor(s)) && OkSize(m, s.lines, s.size)
    ensures var s' := Unindent(m.config, s, top, bot);
            && |s'.stack| > 0 && Applied(m, Top(s'), s.lines, s'.lines)
            && OkText(m, s'.lines) && OkSize(m, s'.lines, s'.size) && OkPos(m, s'.lines, Cursor(s'))
  {
    hide *;
    var first := SkipUnindentable(m.config, s.lines, top, bot);
    UnindentFields(m.config, s, top, bot);
    UnindentText(m, s.lines, s.size, s.row, s.x, first, bot);
    WhitesPlain(m, s.lines, first, bot);
    var s' := Unindent(m.config, s, top, bot);
    UnindentApplied(m, Top(s'), s.lines, s'.lines);
  }

  // ----- Replacing ----------------------------------------------------------------------

  lemma ReplacedText(m: Mode, s: State, len: nat, answer: Line)
    requires ValidState(s) && s.x + len <= |s.lines[s.row]| && OkBuffer(m, s)
    requires s.row < |s.lines| - 1 || s.lines[s.row] != []
    requires m.utf8 ==> WellFormed(answer) && Boundary(s.lines[s.row], s.x + len)
    ensures var s' := Replace(s, len, answer);
            OkBuffer(m, s') && OkPos(m, s'.lines, Cursor(s))
  {
    var l := s.lines[s.row];
    var l' := l[..s.x] + answer + l[s.x + len..];
    var s' := Replace(s, len, answer);
    assert s'.lines == s.lines[s.row := l'] && s'.size == s.size + Count(l') - Count(l);
    if m.utf8 {
      ReplacedLine(l, s.x, len, answer);
    }
    hide WellFormed, Characters, Count, Reaches, Replace;
    BufferParts(m, s);
    RowText(m, s.lines, s.size, s.row, l');
    SameSize(m, s'.lines, s.size - Count(l) + Count(l'), s'.size);
  }

  lemma ReplacedLine(l: Line, x: nat, len: nat, answer: Line)
    requires WellFormed(l) && WellFormed(answer) && Boundary(l, x) && Boundary(l, x + len)
    ensures var l' := l[..x] + answer + l[x + len..];
            WellFormed(l') && Boundary(l', x) && Boundary(l', x + |answer|)
  {
    var l' := l[..x] + answer + l[x + len..];
    Split(l, x);
    Split(l, x + len);
    Concatenated(l[..x], answer);
    Concatenated(l[..x] + answer, l[x + len..]);
    assert l'[..x] == l[..x] && l'[..x + |answer|] == l[..x] + answer;
    PrefixBoundary(l', x);
    PrefixBoundary(l', x + |answer|);
  }

  /** Replacing keeps the sizes in step only when the line keeps its number of
      characters: the item's newsize is never updated. */
  lemma ReplaceKeeps(m: Mode, s: State, h: History, len: nat, answer: Line)
    requires Inv(m, s, h) && ValidState(s) && s.x + len <= |s.lines[s.row]|
    requires s.row < |s.lines| - 1 || s.lines[s.row] != []
    requires m.utf8 ==> WellFormed(answer) && Boundary(s.lines[s.row], s.x + len)
    ensures Kept(m, s, Replace(s, len, answer), h)
  {
    hide Inv, Applied, Running, Track, OkText;
    Present(m, s, h);
    var s' := Replace(s, len, answer);
    ReplacedText(m, s, len, answer);
    ReplaceApplied(m, Top(s'), s.lines, s'.lines);
    RecordKeeps(m, s, h, s', Top(s'));
  }

  // ----- Copying --------------------------------------------------------------------------

  lemma CopyKeeps(m: Mode, s: State, h: History, mark: Option<Pos>)
    requires Inv(m, s, h) && ValidState(s) && (mark.Some? ==> OkPos(m, s.lines, mark.value))
    ensures Kept(m, s, CopyText(m.config, s, mark), h)
  {
    hide Inv, Applied, Running, Track, OkText, Characters;
    Present(m, s, h);
    CopiedText(m, s, mark);
    StillKeeps(m, s, h, CopyText(m.config, s, mark));
  }

  lemma CopiedText(m: Mode, s: State, mark: Option<Pos>)
    requires ValidState(s) && OkText(m, s.lines) && OkPos(m, s.lines, Cursor(s))
    requires mark.Some? ==> OkPos(m, s.lines, mark.value)
    requires m.utf8 && s.cutbuffer.Some? ==> AllWellFormed(s.cutbuffer.value)
    ensures var s' := CopyText(m.config, s, mark);
            && OkPos(m, s'.lines, Cursor(s'))
            && (m.utf8 && s'.cutbuffer.Some? ==> AllWellFormed(s'.cutbuffer.value))
  {
    CopiedCursor(m, s, mark);
    if m.utf8 {
      CopiedCutbuffer(m, s, mark);
    }
  }

  lemma CopiedCursor(m: Mode, s: State, mark: Option<Pos>)
    requires ValidState(s) && OkPos(m, s.lines, Cursor(s))
    requires mark.Some? ==> OkPos(m, s.lines, mark.value)
    ensures var s' := CopyText(m.config, s, mark); OkPos(m, s'.lines, Cursor(s'))
  {
    EndIsBoundary(s.lines[s.row]);
    if s.row + 1 < |s.lines| { EndIsBoundary(s.lines[s.row + 1]); }
    hide Segment, Reaches;
  }

  lemma CopiedCutbuffer(m: Mode, s: State, mark: Option<Pos>)
    requires ValidState(s) && m.utf8 && AllWellFormed(s.lines) && OkPos(m, s.lines, Cursor(s))
    requires mark.Some? ==> OkPos(m, s.lines, mark.value)
    requires s.cutbuffer.Some? ==> AllWellFormed(s.cutbuffer.value)
    ensures var s' := CopyText(m.config, s, mark);
            s'.cutbuffer.Some? ==> AllWellFormed(s'.cutbuffer.value)
  {
    hide WellFormed, Boundary, Segment;
    if mark.Some? {
      var (p, q) := if Before(mark.value, Cursor(s)) then (mark.value, Cursor(s)) else (Cursor(s), mark.value);
      WellFormedSegment(s.lines, p, q);
    } else {
      CopiedLine(m.config, s);
    }
  }

  /** The copy of a line, or of the rest of it, joins what was copied before. */
  lemma CopiedLine(c: Config, s: State)
    requires ValidState(s) && AllWellFormed(s.lines) && Boundary(s.lines[s.row], s.x)
    requires s.cutbuffer.Some? ==> AllWellFormed(s.cutbuffer.value)
    ensures var s' := CopyText(c, s, None);
            s'.cutbuffer.Some? ==> AllWellFormed(s'.cutbuffer.value)
  {
    hide WellFormed, Boundary;
    RestWellFormed(s.lines[s.row], s.x);
  }

  lemma RestWellFormed(l: Line, x: nat)
    requires WellFormed(l) && Boundary(l, x)
    ensures WellFormed(l[x..]) && WellFormed(l[0..]) && WellFormed([])
  {
    Split(l, x);
    assert l[0..] == l;
  }
}

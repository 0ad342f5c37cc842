/** The line algebra of a text buffer.

    A text is a non-empty list of lines.  Joining two texts merges the last
    line of the first with the first line of the second; the unit is one empty
    line.  Cutting and grafting are stated in terms of this operator. */
module Lines {
  import opened Chars

  type Text = t: seq<Line> | |t| > 0 witness [[]]

  datatype Pos = Pos(row: nat, x: nat)

  const EMPTY: Text := [[]]

  function Last(t: Text): Line {
    t[|t| - 1]
  }

  function Join(a: Text, b: Text): (t: Text)
    ensures |t| == |a| + |b| - 1
  {
    a[..|a| - 1] + [Last(a) + b[0]] + b[1..]
  }

  predicate ValidPos(t: Text, p: Pos) {
    p.row < |t| && p.x <= |t[p.row]|
  }

  predicate Before(p: Pos, q: Pos) {
    p.row < q.row || (p.row == q.row && p.x <= q.x)
  }

  function Head(t: Text, p: Pos): Text
    requires ValidPos(t, p)
  {
    t[..p.row] + [t[p.row][..p.x]]
  }

  function Rest(t: Text, p: Pos): Text
    requires ValidPos(t, p)
  {
    [t[p.row][p.x..]] + t[p.row + 1..]
  }

  function Segment(t: Text, p: Pos, q: Pos): Text
    requires ValidPos(t, p) && ValidPos(t, q) && Before(p, q)
  {
    if p.row == q.row then [t[p.row][p.x..q.x]]
    else [t[p.row][p.x..]] + t[p.row + 1..q.row] + [t[q.row][..q.x]]
  }

  /** The position at the end of a text. */
  function End(t: Text): (p: Pos)
    ensures ValidPos(t, p)
  {
    Pos(|t| - 1, |Last(t)|)
  }

  /** The end of `s` when it is placed at position p. */
  function EndAfter(p: Pos, s: Text): Pos {
    if |s| == 1 then Pos(p.row, p.x + |s[0]|) else Pos(p.row + |s| - 1, |Last(s)|)
  }

  // ----- Laws -----------------------------------------------------------------

  lemma JoinUnit(t: Text)
    ensures Join(EMPTY, t) == t && Join(t, EMPTY) == t
  {
    assert [] + t[0] == t[0] && Last(t) + [] == Last(t);
    assert Join(EMPTY, t) == t;
    assert Join(t, EMPTY) == t;
  }

  lemma JoinAssociative(a: Text, b: Text, c: Text)
    ensures Join(Join(a, b), c) == Join(a, Join(b, c))
  {
    var l, r := Join(Join(a, b), c), Join(a, Join(b, c));
    if |b| == 1 {
      assert (Last(a) + b[0]) + c[0] == Last(a) + (b[0] + c[0]);
    }
    assert |l| == |r|;
    forall i | 0 <= i < |l|
      ensures l[i] == r[i]
    {
    }
  }

  /** A position splits a text into two that join to it. */
  lemma SplitAt(t: Text, p: Pos)
    requires ValidPos(t, p)
    ensures Join(Head(t, p), Rest(t, p)) == t
    ensures End(Head(t, p)) == p
  {
    assert t[p.row][..p.x] + t[p.row][p.x..] == t[p.row];
  }

  /** Joining two texts marks a position in the result: the end of the first. */
  lemma SplitJoin(a: Text, b: Text)
    ensures ValidPos(Join(a, b), End(a))
    ensures Head(Join(a, b), End(a)) == a
    ensures Rest(Join(a, b), End(a)) == b
  {
    var t := Join(a, b);
    var p := End(a);
    assert t[p.row][..p.x] == Last(a);
    assert t[p.row][p.x..] == b[0];
    assert t[..p.row] == a[..|a| - 1];
    assert t[p.row + 1..] == b[1..];
  }

  lemma EndOfJoin(a: Text, b: Text)
    ensures End(Join(a, b)) == EndAfter(End(a), b)
  {
  }

  /** A region splits a text in three. */
  lemma SplitRegion(t: Text, p: Pos, q: Pos)
    requires ValidPos(t, p) && ValidPos(t, q) && Before(p, q)
    ensures Join(Head(t, p), Segment(t, p, q)) == Head(t, q)
    ensures Join(Segment(t, p, q), Rest(t, q)) == Rest(t, p)
    ensures t == Join(Join(Head(t, p), Segment(t, p, q)), Rest(t, q))
    ensures EndAfter(p, Segment(t, p, q)) == q
  {
    SplitAt(t, q);
    if p.row == q.row {
      RegionInRow(t, p, q);
    } else {
      RegionOfRows(t, p, q);
    }
  }

  lemma RegionInRow(t: Text, p: Pos, q: Pos)
    requires ValidPos(t, p) && ValidPos(t, q) && Before(p, q) && p.row == q.row
    ensures Join(Head(t, p), Segment(t, p, q)) == Head(t, q)
    ensures Join(Segment(t, p, q), Rest(t, q)) == Rest(t, p)
    ensures EndAfter(p, Segment(t, p, q)) == q
  {
    assert t[p.row][..p.x] + t[p.row][p.x..q.x] == t[p.row][..q.x];
    assert t[p.row][p.x..q.x] + t[q.row][q.x..] == t[p.row][p.x..];
  }

  lemma RegionOfRows(t: Text, p: Pos, q: Pos)
    requires ValidPos(t, p) && ValidPos(t, q) && p.row < q.row
    ensures Join(Head(t, p), Segment(t, p, q)) == Head(t, q)
    ensures Join(Segment(t, p, q), Rest(t, q)) == Rest(t, p)
    ensures EndAfter(p, Segment(t, p, q)) == q
  {
    var s := Segment(t, p, q);
    assert s[..|s| - 1] == [t[p.row][p.x..]] + t[p.row + 1..q.row] && s[1..] == t[p.row + 1..q.row] + [t[q.row][..q.x]];
    assert t[p.row][..p.x] + t[p.row][p.x..] == t[p.row];
    assert t[q.row][..q.x] + t[q.row][q.x..] == t[q.row];
    assert Join(Head(t, p), s) == Head(t, q);
    assert Join(s, Rest(t, q)) == Rest(t, p);
  }

  /** The middle of three joined texts is the region between the two joints. */
  lemma SegmentOfJoin(a: Text, s: Text, b: Text)
    ensures var t := Join(Join(a, s), b);
            var p, q := End(a), EndAfter(End(a), s);
            && ValidPos(t, p) && ValidPos(t, q) && Before(p, q)
            && Head(t, p) == a && Segment(t, p, q) == s && Rest(t, q) == b
  {
    var t := Join(Join(a, s), b);
    var p, q := End(a), EndAfter(End(a), s);
    EndOfJoin(a, s);
    SplitJoin(Join(a, s), b);
    JoinAssociative(a, s, b);
    SplitJoin(a, Join(s, b));
    var r := Segment(t, p, q);
    SplitRegion(t, p, q);
    JoinCancelLeft(a, r, s);
  }

  lemma JoinCancelLeft(a: Text, b: Text, c: Text)
    requires Join(a, b) == Join(a, c)
    ensures b == c
  {
    SplitJoin(a, b);
    SplitJoin(a, c);
  }

  // ----- The magic line ---------------------------------------------------------

  /** What new_magicline adds when newlines are automatic and the text does not
      end in one. */
  function WithMagic(noNewlines: bool, t: Text): (r: Text)
    ensures noNewlines || Last(r) == []
  {
    if !noNewlines && Last(t) != [] then t + [[]] else t
  }

  /** A text that may stand in a buffer: it ends in an empty line unless
      newlines are not automatic. */
  predicate Finished(noNewlines: bool, t: Text) {
    noNewlines || Last(t) == []
  }

  /** The text after extract_segment has taken the region between p and q. */
  function Extracted(noNewlines: bool, t: Text, p: Pos, q: Pos): Text
    requires ValidPos(t, p) && ValidPos(t, q) && Before(p, q)
  {
    if p == q then t else WithMagic(noNewlines, Join(Head(t, p), Rest(t, q)))
  }

  /** The text after ingraft_buffer has put s at position p. */
  function Grafted(noNewlines: bool, t: Text, p: Pos, s: Text): Text
    requires ValidPos(t, p)
  {
    WithMagic(noNewlines, Join(Join(Head(t, p), s), Rest(t, p)))
  }

  /** Cut, then paste in place: the text comes back, followed by one empty line
      exactly when the cut had to add a magic line. */
  lemma CutThenPaste(noNewlines: bool, t: Text, p: Pos, q: Pos)
    requires ValidPos(t, p) && ValidPos(t, q) && Before(p, q) && p != q
    requires Finished(noNewlines, t)
    ensures var cut := Extracted(noNewlines, t, p, q);
            var added := !noNewlines && Last(Join(Head(t, p), Rest(t, q))) != [];
            && ValidPos(cut, p)
            && Grafted(noNewlines, cut, p, Segment(t, p, q)) == if added then t + [[]] else t
  {
    var (a, s, b) := (Head(t, p), Segment(t, p, q), Rest(t, q));
    SplitAt(t, p);
    SplitRegion(t, p, q);
    SplitJoin(a, b);
    GraftBeforeExtra(noNewlines, a, s, b);
  }

  /** A magic line is added by a cut exactly when the region runs to the last
      row and leaves something before it on its first row. */
  lemma CutAddsMagic(t: Text, p: Pos, q: Pos)
    requires ValidPos(t, p) && ValidPos(t, q) && Before(p, q) && p != q
    requires Last(t) == []
    ensures Last(Join(Head(t, p), Rest(t, q))) != [] <==> q.row == |t| - 1 && p.x > 0
  {
  }

  /** Paste, then cut the pasted region: the text comes back, followed by one
      empty line exactly when the paste had to add a magic line. */
  lemma PasteThenCut(noNewlines: bool, t: Text, p: Pos, s: Text)
    requires ValidPos(t, p) && Finished(noNewlines, t) && s != EMPTY
    ensures var pasted := Grafted(noNewlines, t, p, s);
            var q := EndAfter(p, s);
            var added := !noNewlines && Last(Join(Join(Head(t, p), s), Rest(t, p))) != [];
            && ValidPos(pasted, q) && ValidPos(pasted, p) && Before(p, q) && p != q
            && Segment(pasted, p, q) == s
            && Extracted(noNewlines, pasted, p, q) == if added then t + [[]] else t
  {
    var (a, b) := (Head(t, p), Rest(t, p));
    SplitAt(t, p);
    SegmentOfJoin(a, s, b);
    var whole := Join(Join(a, s), b);
    var q := EndAfter(p, s);
    if !noNewlines && Last(whole) != [] {
      ExtraLine(whole, p, q);
      AppendRow(a, b);
    }
  }

  /** An empty line after the text is an empty line after its last part. */
  lemma AppendRow(a: Text, b: Text)
    ensures Join(a, b) + [[]] == Join(a, b + [[]])
  {
  }

  lemma ExtraLine(t: Text, p: Pos, q: Pos)
    requires ValidPos(t, p) && ValidPos(t, q) && Before(p, q)
    ensures ValidPos(t + [[]], p) && ValidPos(t + [[]], q)
    ensures Head(t + [[]], p) == Head(t, p)
    ensures Segment(t + [[]], p, q) == Segment(t, p, q)
    ensures Rest(t + [[]], q) == Rest(t, q) + [[]]
  {
  }

  lemma GraftBeforeExtra(noNewlines: bool, a: Text, s: Text, b: Text)
    requires Finished(noNewlines, Join(Join(a, s), b))
    ensures var cut := WithMagic(noNewlines, Join(a, b));
            && ValidPos(cut, End(a))
            && Grafted(noNewlines, cut, End(a), s) ==
               Join(Join(a, s), b) + if cut == Join(a, b) then [] else [[]]
  {
    var t := Join(a, b);
    SplitJoin(a, b);
    if !noNewlines && Last(t) != [] {
      ExtraLine(t, End(a), End(a));
      AppendRow(Join(a, s), b);
    }
  }

  // ----- Counting characters -----------------------------------------------------

  /** number_of_characters_in: each line counts one for its newline, except the
      last. */
  function Characters(t: seq<Line>): int {
    if |t| == 0 then -1 else Count(t[0]) + 1 + Characters(t[1..])
  }

  predicate AllWellFormed(t: seq<Line>) {
    forall i | 0 <= i < |t| :: WellFormed(t[i])
  }

  predicate OnBoundary(t: Text, p: Pos) {
    ValidPos(t, p) && Boundary(t[p.row], p.x)
  }

  lemma {:induction false} CharactersAppend(a: seq<Line>, b: seq<Line>)
    ensures Characters(a + b) == Characters(a) + 1 + Characters(b)
  {
    if a == [] {
      assert a + b == b;
    } else {
      assert (a + b)[1..] == a[1..] + b;
      CharactersAppend(a[1..], b);
    }
  }

  lemma CharactersOne(l: Line)
    ensures Characters([l]) == Count(l)
  {
    assert Characters([l][1..]) == -1;
  }

  /** Counting is additive over joining well-formed texts, so the empty text
      counts zero and a segment's size can be added and subtracted. */
  lemma CharactersJoin(a: Text, b: Text)
    requires AllWellFormed(a) && AllWellFormed(b)
    ensures Characters(Join(a, b)) == Characters(a) + Characters(b)
    ensures AllWellFormed(Join(a, b))
  {
    var (m, n) := (a[..|a| - 1], b[1..]);
    assert a == m + [Last(a)] && b == [b[0]] + n;
    Concatenated(Last(a), b[0]);
    CharactersAppend(m, [Last(a)]);
    CharactersAppend([b[0]], n);
    CharactersAppend(m, [Last(a) + b[0]]);
    CharactersAppend(m + [Last(a) + b[0]], n);
    CharactersOne(Last(a));
    CharactersOne(b[0]);
    CharactersOne(Last(a) + b[0]);
  }

  lemma WellFormedParts(t: Text, p: Pos)
    requires AllWellFormed(t) && OnBoundary(t, p)
    ensures AllWellFormed(Head(t, p)) && AllWellFormed(Rest(t, p))
    ensures Characters(t) == Characters(Head(t, p)) + Characters(Rest(t, p))
  {
    Split(t[p.row], p.x);
    SplitAt(t, p);
    CharactersJoin(Head(t, p), Rest(t, p));
  }

  lemma WellFormedSegment(t: Text, p: Pos, q: Pos)
    requires AllWellFormed(t) && OnBoundary(t, p) && OnBoundary(t, q) && Before(p, q)
    ensures AllWellFormed(Segment(t, p, q))
    ensures Characters(t) ==
            Characters(Head(t, p)) + Characters(Segment(t, p, q)) + Characters(Rest(t, q))
  {
    var s := Segment(t, p, q);
    WellFormedParts(t, p);
    WellFormedParts(t, q);
    SplitRegion(t, p, q);
    if p.row == q.row {
      BoundaryInHead(t[q.row], p.x, q.x);
      Split(t[q.row][..q.x], p.x);
      assert t[q.row][..q.x][p.x..] == s[0];
    } else {
      Split(t[p.row], p.x);
      Split(t[q.row], q.x);
      forall i | 0 <= i < |s|
        ensures WellFormed(s[i])
      {
        assert 0 < i < |s| - 1 ==> s[i] == t[p.row + i];
      }
    }
    CharactersJoin(s, Rest(t, q));
  }

  lemma BoundaryInHead(s: Line, x: nat, y: nat)
    requires WellFormed(s) && Boundary(s, x) && Boundary(s, y) && x <= y
    ensures WellFormed(s[..y]) && Boundary(s[..y], x)
  {
    Split(s, y);
    assert s == s[..y] + s[y..];
    Concatenated(s[..y], s[y..]);
  }
}

/** Replacing all occurrences (do_replace_loop and replace_line in search.c), for a
    plain, case-sensitive needle that is not empty, forward from the first
    position, with no mark, when the user answers the first prompt with All. */
module Replacing {
  import opened Chars
  import opened Lines
  import opened Search
  import opened Options

  /** Leftmost non-overlapping substitution, from left to right: what has been put
      in is not looked at again. */
  function Substituted(l: Line, needle: Line, answer: Line): Line
    requires |needle| > 0
    decreases |l|
  {
    match First(l, needle, 0)
    case None => l
    case Some(x) => l[..x] + answer + Substituted(l[x + |needle|..], needle, answer)
  }

  /** The number of substitutions. */
  function Hits(l: Line, needle: Line): nat
    requires |needle| > 0
    decreases |l|
  {
    match First(l, needle, 0)
    case None => 0
    case Some(x) => 1 + Hits(l[x + |needle|..], needle)
  }

  function AllHits(t: seq<Line>, needle: Line): nat
    requires |needle| > 0
  {
    if |t| == 0 then 0 else AllHits(t[..|t| - 1], needle) + Hits(t[|t| - 1], needle)
  }

  /** replace_line. */
  function ReplacedLine(l: Line, x: nat, needle: Line, answer: Line): Line
    requires x + |needle| <= |l|
  {
    l[..x] + answer + l[x + |needle|..]
  }

  const FORWARD := Way(true, false, true)

  /** The first occurrence after an index is the first one in what is left there. */
  lemma FirstInRest(l: Line, needle: Line, x: nat)
    requires x <= |l|
    ensures First(l, needle, x).None? <==> First(l[x..], needle, 0).None?
    ensures First(l, needle, x).Some? ==> First(l, needle, x).value == x + First(l[x..], needle, 0).value
    ensures First(l, needle, x).Some? ==> x <= First(l, needle, x).value <= |l| - |needle|
  {
    hide *;
    var (a, b) := (First(l, needle, x), First(l[x..], needle, 0));
    forall y: nat
      ensures Occurs(l[x..], needle, y) <==> Occurs(l, needle, x + y)
    {
      OccursInRest(l, needle, x, y);
    }
    if a.Some? {
      assert Occurs(l[x..], needle, a.value - x);
      OccursFits(l, needle, a.value);
    }
    if b.Some? {
      assert Occurs(l, needle, x + b.value);
    }
  }

  lemma OccursInRest(l: Line, needle: Line, x: nat, y: nat)
    requires x <= |l|
    ensures Occurs(l[x..], needle, y) <==> Occurs(l, needle, x + y)
  {
    if x + y + |needle| <= |l| {
      assert l[x..][y..y + |needle|] == l[x + y..x + y + |needle|];
    }
  }

  lemma OccursFits(l: Line, needle: Line, x: nat)
    requires Occurs(l, needle, x)
    ensures x + |needle| <= |l|
  {
  }

  function Front(l: Line, x: nat): Line
    requires x <= |l|
  {
    l[..x]
  }

  function Cat(a: Line, b: Line): Line {
    a + b
  }

  function Back(l: Line, x: nat): Line
    requires x <= |l|
  {
    l[x..]
  }

  /** How far the replacing has come: the lines before the cursor's are done, those
      after it are as they were, and the cursor's line is done up to the cursor. */
  predicate Progress(t: Text, r: Text, row: nat, x: nat, needle: Line, answer: Line)
    requires |needle| > 0
  {
    && |r| == |t| && row < |t| && x <= |r[row]|
    && (forall i | 0 <= i < row :: r[i] == Substituted(t[i], needle, answer))
    && Cat(Front(r[row], x), Substituted(Back(r[row], x), needle, answer)) == Substituted(t[row], needle, answer)
    && (forall i | row < i < |t| :: r[i] == t[i])
  }

  /** The number of substitutions up to the cursor. */
  predicate Counted(t: Text, r: Text, row: nat, x: nat, needle: Line, count: nat)
    requires |needle| > 0
  {
    && |r| == |t| && row < |t| && x <= |r[row]|
    && count + Hits(Back(r[row], x), needle) == AllHits(t[..row + 1], needle)
  }

  lemma Start(t: Text, needle: Line, answer: Line)
    requires |needle| > 0
    ensures Progress(t, t, 0, 0, needle, answer) && Counted(t, t, 0, 0, needle, 0)
  {
    assert t[0][0..] == t[0] && t[0][..0] == [];
    assert t[..1][..0] == [] && t[..1][0] == t[0];
    assert [] + Substituted(t[0], needle, answer) == Substituted(t[0], needle, answer);
  }

  /** When the rest of a line holds no occurrence, the line is done. */
  lemma LineDone(t: Text, r: Text, row: nat, x: nat, needle: Line, answer: Line, count: nat)
    requires |needle| > 0
    requires Progress(t, r, row, x, needle, answer) && Counted(t, r, row, x, needle, count)
    requires First(r[row], needle, x) == None
    ensures r[row] == Substituted(t[row], needle, answer) && count == AllHits(t[..row + 1], needle)
  {
    FirstInRest(r[row], needle, x);
    assert r[row] == r[row][..x] + r[row][x..];
  }

  /** Going on to a later line, over lines without an occurrence. */
  lemma {:induction false} NextLines(t: Text, r: Text, row: nat, x: nat, needle: Line, answer: Line, count: nat, k: nat)
    requires |needle| > 0 && row < k < |t|
    requires Progress(t, r, row, x, needle, answer) && Counted(t, r, row, x, needle, count)
    requires First(r[row], needle, x) == None
    requires forall j | row < j < k :: First(r[j], needle, 0) == None
    ensures Progress(t, r, k, 0, needle, answer) && Counted(t, r, k, 0, needle, count)
    decreases k - row
  {
    LineDone(t, r, row, x, needle, answer, count);
    var next := row + 1;
    assert r[next][0..] == r[next] && r[next][..0] == [];
    assert [] + Substituted(r[next], needle, answer) == Substituted(t[next], needle, answer);
    assert t[..next + 1][..next] == t[..next];
    if next < k {
      NextLines(t, r, next, 0, needle, answer, count, k);
    }
  }

  /** One replacement in the line at hand. */
  lemma Replaced(t: Text, r: Text, row: nat, x: nat, needle: Line, answer: Line, count: nat, y: nat)
    requires |needle| > 0
    requires Progress(t, r, row, x, needle, answer) && Counted(t, r, row, x, needle, count)
    requires First(r[row], needle, x) == Some(y)
    ensures y + |needle| <= |r[row]|
    ensures var r': Text := r[row := ReplacedLine(r[row], y, needle, answer)];
            && Progress(t, r', row, y + |answer|, needle, answer)
            && Counted(t, r', row, y + |answer|, needle, count + 1)
            && |r'[row]| - (y + |answer|) < |r[row]| - x
  {
    LineReplaced(r[row], x, needle, answer, y);
    hide First, Occurs, Substituted, Hits, AllHits, ReplacedLine, Cat, Front, Back;
  }

  lemma LineReplaced(l: Line, x: nat, needle: Line, answer: Line, y: nat)
    requires |needle| > 0 && x <= |l| && First(l, needle, x) == Some(y)
    ensures y + |needle| <= |l|
    ensures var (l', z) := (ReplacedLine(l, y, needle, answer), y + |answer|);
            && z <= |l'|
            && Cat(Front(l', z), Substituted(Back(l', z), needle, answer)) ==
               Cat(Front(l, x), Substituted(Back(l, x), needle, answer))
            && Hits(Back(l, x), needle) == 1 + Hits(Back(l', z), needle)
            && |l'| - z < |l| - x
  {
    hide *;
    var left, tail := CutUp(l, x, y, needle, answer);
    CatAssociative(Front(l, x), left, Substituted(tail, needle, answer));
  }

  lemma CatAssociative(a: Line, b: Line, c: Line)
    ensures Cat(Cat(a, b), c) == Cat(a, Cat(b, c))
  {
  }

  lemma CutUp(l: Line, x: nat, y: nat, needle: Line, answer: Line) returns (left: Line, tail: Line)
    requires |needle| > 0 && x <= |l| && First(l, needle, x) == Some(y)
    ensures x <= y && y + |needle| <= |l|
    ensures var (l', z) := (ReplacedLine(l, y, needle, answer), y + |answer|);
            && z <= |l'| && |l'| - z < |l| - x
            && Front(l', z) == Cat(Front(l, x), left) && Back(l', z) == tail
    ensures Substituted(Back(l, x), needle, answer) == Cat(left, Substituted(tail, needle, answer))
    ensures Hits(Back(l, x), needle) == 1 + Hits(tail, needle)
  {
    hide First, Occurs, Substituted, Hits;
    FirstInRest(l, needle, x);
    left, tail := ReplacedParts(l, x, y, needle, answer);
    Unfolded(Back(l, x), needle, answer, y - x, left, tail);
  }

  lemma ReplacedParts(l: Line, x: nat, y: nat, needle: Line, answer: Line) returns (left: Line, tail: Line)
    requires x <= y && y + |needle| <= |l|
    ensures left == Back(l, x)[..y - x] + answer && tail == Back(l, x)[y - x + |needle|..]
    ensures var (l', z) := (ReplacedLine(l, y, needle, answer), y + |answer|);
            && z <= |l'| && |l'| == |l| - |needle| + |answer|
            && Front(l', z) == Cat(Front(l, x), left) && Back(l', z) == tail
  {
    left, tail := Back(l, x)[..y - x] + answer, Back(l, x)[y - x + |needle|..];
  }

  lemma Unfolded(l: Line, needle: Line, answer: Line, x: nat, left: Line, tail: Line)
    requires |needle| > 0 && First(l, needle, 0) == Some(x)
    requires x + |needle| <= |l| && left == l[..x] + answer && tail == l[x + |needle|..]
    ensures Substituted(l, needle, answer) == Cat(left, Substituted(tail, needle, answer))
    ensures Hits(l, needle) == 1 + Hits(tail, needle)
  {
    hide First, Occurs;
  }

  lemma GoOn(t: Text, r: Text, row: nat, x: nat, needle: Line, answer: Line, p: Pos, count: nat)
    requires |needle| > 0
    requires Progress(t, r, row, x, needle, answer) && Counted(t, r, row, x, needle, count)
    requires exists i | 0 <= i <= |t| - row ::
               && (forall j | 0 <= j < i :: Scan(FORWARD, r, needle, row, x, false, j) == None)
               && Scan(FORWARD, r, needle, row, x, false, i) == Some(p.x) && p.row == RowAt(FORWARD, |r|, row, i)
               && (i == |t| - row ==> Within(FORWARD, p.x, 0))
    ensures row <= p.row < |t| && p.x + |needle| <= |r[p.row]|
    ensures var r': Text := r[p.row := ReplacedLine(r[p.row], p.x, needle, answer)];
            && Progress(t, r', p.row, p.x + |answer|, needle, answer)
            && Counted(t, r', p.row, p.x + |answer|, needle, count + 1)
            && (p.row == row ==> |r'[row]| - (p.x + |answer|) < |r[row]| - x)
  {
    hide First, Occurs, Substituted, Hits, AllHits, Cat, Front, Back, Scan, RowAt, Hit;
    var i :| 0 <= i <= |t| - row
      && (forall j | 0 <= j < i :: Scan(FORWARD, r, needle, row, x, false, j) == None)
      && Scan(FORWARD, r, needle, row, x, false, i) == Some(p.x) && p.row == RowAt(FORWARD, |r|, row, i)
      && (i == |t| - row ==> Within(FORWARD, p.x, 0));
    ScanHere(r, row, x, needle, i);
    if i == 0 {
      Replaced(t, r, row, x, needle, answer, count, p.x);
    } else {
      Emptied(r, row, x, needle, i);
      NextLines(t, r, row, x, needle, answer, count, row + i);
      Replaced(t, r, row + i, 0, needle, answer, count, p.x);
    }
  }

  lemma ScanHere(r: Text, row: nat, x: nat, needle: Line, i: nat)
    requires row < |r| && x <= |r[row]| && i < |r| - row
    ensures RowAt(FORWARD, |r|, row, i) == row + i
    ensures Scan(FORWARD, r, needle, row, x, false, i) == First(r[row + i], needle, if i == 0 then x else 0)
  {
  }

  /** What an empty scan says. */
  lemma Emptied(r: Text, row: nat, x: nat, needle: Line, i: nat)
    requires row < |r| && x <= |r[row]| && 0 < i <= |r| - row
    requires forall j | 0 <= j < i :: Scan(FORWARD, r, needle, row, x, false, j) == None
    ensures First(r[row], needle, x) == None
    ensures forall j | row < j < row + i :: First(r[j], needle, 0) == None
  {
    assert Scan(FORWARD, r, needle, row, x, false, 0) == None;
    forall j | row < j < row + i
      ensures First(r[j], needle, 0) == None
    {
      assert Scan(FORWARD, r, needle, row, x, false, j - row) == None;
    }
  }

  lemma Finish(t: Text, r: Text, row: nat, x: nat, needle: Line, answer: Line, count: nat)
    requires |needle| > 0
    requires Progress(t, r, row, x, needle, answer) && Counted(t, r, row, x, needle, count)
    requires forall i | 0 <= i < |t| - row :: Scan(FORWARD, r, needle, row, x, false, i) == None
    ensures forall i | 0 <= i < |t| :: r[i] == Substituted(t[i], needle, answer)
    ensures count == AllHits(t, needle)
  {
    Emptied(r, row, x, needle, |t| - row);
    var end := |t| - 1;
    if row < end {
      NextLines(t, r, row, x, needle, answer, count, end);
      LineDone(t, r, end, 0, needle, answer, count);
    } else {
      LineDone(t, r, row, x, needle, answer, count);
    }
    assert t[..end + 1] == t;
  }
}

/** Searching with wrap-around, and replacing all (search.c, utils.c, chars.c).
    The search is plain and case-sensitive, and is not cancelled. */
module Search {
  import opened Chars
  import opened Lines
  import opened Options

  /** How the text is stepped through, which way the search goes, and whether it
      is for replacing. */
  datatype Way = Way(utf8: bool, backwards: bool, replacing: bool)

  predicate Occurs(l: Line, needle: Line, x: nat) {
    x + |needle| <= |l| && l[x..x + |needle|] == needle
  }

  /** strstr: the first occurrence at or after an index. */
  function First(l: Line, needle: Line, from: nat): (x: Option<nat>)
    ensures x.Some? ==> from <= x.value && Occurs(l, needle, x.value)
                        && (forall y: nat | from <= y < x.value :: !Occurs(l, needle, y))
    ensures x.None? ==> (forall y: nat | from <= y :: !Occurs(l, needle, y))
    decreases |l| - from
  {
    if from > |l| then None
    else if Occurs(l, needle, from) then Some(from)
    else First(l, needle, from + 1)
  }

  /** The last occurrence at or before an index. */
  function LastUpTo(l: Line, needle: Line, at: int): (x: Option<nat>)
    ensures x.Some? ==> x.value <= at && Occurs(l, needle, x.value)
                        && (forall y: nat | x.value < y <= at :: !Occurs(l, needle, y))
    ensures x.None? ==> (forall y: nat | y <= at :: !Occurs(l, needle, y))
    decreases at
  {
    if at < 0 then None
    else if Occurs(l, needle, at) then Some(at)
    else LastUpTo(l, needle, at - 1)
  }

  method RevStrStr(haystack: Line, needle: Line, pointer: nat) returns (found: Option<nat>)
    requires pointer <= |haystack|
    ensures found == LastUpTo(haystack, needle, pointer)
  {
    var (needleLen, tailLen) := (|needle|, |haystack| - pointer);
    var p: int := pointer;
    if tailLen < needleLen {
      p := p - (needleLen - tailLen);
      NoRoom(haystack, needle, pointer, p);
    }
    while p >= 0
      invariant p + needleLen <= |haystack|
      invariant LastUpTo(haystack, needle, p) == LastUpTo(haystack, needle, pointer)
      decreases p
    {
      if haystack[p..p + needleLen] == needle {
        return Some(p);
      }
      p := p - 1;
    }
    found := None;
  }

  lemma {:induction false} NoRoom(l: Line, needle: Line, at: int, at': int)
    requires at' <= at && at' + |needle| == |l|
    ensures LastUpTo(l, needle, at) == LastUpTo(l, needle, at')
    decreases at - at'
  {
    if at' < at && at >= 0 {
      NoRoom(l, needle, at - 1, at');
    }
  }

  /** strstrwrapper. */
  function Hit(w: Way, l: Line, needle: Line, from: nat): Option<nat> {
    if w.backwards then LastUpTo(l, needle, from) else First(l, needle, from)
  }

  method StrStrWrapper(w: Way, l: Line, needle: Line, from: nat) returns (found: Option<nat>)
    requires from <= |l|
    ensures found == Hit(w, l, needle, from)
  {
    if w.backwards {
      found := RevStrStr(l, needle, from);
    } else {
      found := First(l, needle, from);
    }
  }

  /** The place to which skipping one character goes: None when there is none. */
  function Skipped(w: Way, l: Line, x: nat): (y: Option<nat>)
    requires x <= |l|
    ensures y.Some? ==> y.value <= |l|
  {
    if w.backwards then
      if x == 0 then None else Some(if w.utf8 then StepLeft(l, x) else x - 1)
    else if x == |l| then None
    else Some(x + if w.utf8 then CharLength(l, x) else 1)
  }

  /** The i-th line that is looked at, when starting at `row` of n. */
  function RowAt(w: Way, n: nat, row: nat, i: nat): (r: nat)
    requires row < n && i <= n
    ensures r < n
  {
    if w.backwards then if i <= row then row - i else row + n - i
    else if row + i < n then row + i else row + i - n
  }

  /** After how many moves the starting line is reached. */
  function Turns(w: Way, n: nat, row: nat, begin: nat): (k: nat)
    requires row < n && begin < n
    ensures 0 < k <= n && RowAt(w, n, row, k) == begin
    ensures forall i | 0 < i < k :: RowAt(w, n, row, i) != begin
  {
    if w.backwards then if begin < row then row - begin else row + n - begin
    else if row < begin then begin - row else begin + n - row
  }

  /** What is found in the i-th line. */
  function Scan(w: Way, t: Text, needle: Line, row: nat, x: nat, skipone: bool, i: nat): Option<nat>
    requires row < |t| && x <= |t[row]| && i <= |t|
  {
    var l := t[RowAt(w, |t|, row, i)];
    if i > 0 then Hit(w, l, needle, if w.backwards then |l| else 0)
    else if !skipone then Hit(w, l, needle, x)
    else match Skipped(w, l, x)
      case Some(y) => Hit(w, l, needle, y)
      case None => None
  }

  /** Whether an occurrence in the starting line is one that the search has come
      round to, and not one beyond its starting point. */
  predicate Within(w: Way, foundX: nat, beginX: nat) {
    if w.backwards then foundX >= beginX
    else foundX < beginX || (foundX == beginX && !w.replacing)
  }

  /** findnextstr, for a needle that is not empty.  `begin` and `beginX` are where
      the search started first, and `circle` is the flag came_full_circle. */
  method FindNextStr(w: Way, t: Text, needle: Line, row: nat, x: nat, skipone: bool,
                     begin: nat, beginX: nat, circle: bool)
    returns (found: Option<Pos>, circle': bool)
    requires row < |t| && x <= |t[row]| && begin < |t| && |needle| > 0
    ensures var turns := if circle then 0 else Turns(w, |t|, row, begin);
            match found
            case None =>
              && (forall i | 0 <= i < turns :: Scan(w, t, needle, row, x, skipone, i) == None)
              && var last := Scan(w, t, needle, row, x, skipone, turns);
              (last.Some? ==> !Within(w, last.value, beginX))
            case Some(p) =>
              exists i | 0 <= i <= turns ::
                && (forall j | 0 <= j < i :: Scan(w, t, needle, row, x, skipone, j) == None)
                && Scan(w, t, needle, row, x, skipone, i) == Some(p.x) && p.row == RowAt(w, |t|, row, i)
                && (i == turns ==> Within(w, p.x, beginX))
                && circle' == (i == turns)
  {
    circle' := circle;
    var (line, from, skip) := (row, x, skipone);
    var hit: Option<nat> := None;
    ghost var (i, turns) := (0, if circle then 0 else Turns(w, |t|, row, begin));
    while true
      invariant i <= turns && circle' == (i == turns) && line == RowAt(w, |t|, row, i)
      invariant hit == None
      invariant skip == (i == 0 && skipone)
      invariant from == if i == 0 then x else if w.backwards then |t[line]| else 0
      invariant forall j | 0 <= j < i :: Scan(w, t, needle, row, x, skipone, j) == None
      decreases turns - i
    {
      if skip {
        skip := false;
        if w.backwards && from != 0 {
          from := if w.utf8 then StepLeft(t[line], from) else from - 1;
          hit := StrStrWrapper(w, t[line], needle, from);
        } else if !w.backwards && from != |t[line]| {
          from := from + if w.utf8 then CharLength(t[line], from) else 1;
          hit := StrStrWrapper(w, t[line], needle, from);
        }
      } else {
        hit := StrStrWrapper(w, t[line], needle, from);
      }
      assert hit == Scan(w, t, needle, row, x, skipone, i);
      if hit != None {
        if line + 1 < |t| || t[line] != [] {
          break;
        }
      }
      if circle' {
        return None, circle';
      }
      if w.backwards {
        line := if line == 0 then |t| - 1 else line - 1;
      } else {
        line := if line + 1 == |t| then 0 else line + 1;
      }
      i := i + 1;
      if line == begin {
        circle' := true;
      }
      from := if w.backwards then |t[line]| else 0;
    }
    if circle' && !Within(w, hit.value, beginX) {
      return None, circle';
    }
    found := Some(Pos(line, hit.value));
  }

  // ----- A search finds the next occurrence, in cyclic order ----------------------------

  predicate OccursAt(t: Text, needle: Line, q: Pos) {
    q.row < |t| && Occurs(t[q.row], needle, q.x)
  }

  /** Index y lies strictly within the character that is skipped from index x. */
  predicate Inside(w: Way, l: Line, x: nat, y: nat)
    requires x <= |l|
  {
    match Skipped(w, l, x)
    case None => false
    case Some(z) => if w.backwards then z < y < x else x < y < z
  }

  /** After how many moves from the cursor at (row, x) the place q is come upon; the
      cursor's own place, and what is on the other side of it in its line, last. */
  function Turn(w: Way, t: Text, row: nat, x: nat, q: Pos): (i: nat)
    requires row < |t| && q.row < |t|
    ensures i <= |t| && RowAt(w, |t|, row, i) == q.row
  {
    if q.row == row then (if (if w.backwards then q.x < x else q.x > x) then 0 else |t|)
    else Turns(w, |t|, row, q.row)
  }

  predicate Sooner(w: Way, t: Text, row: nat, x: nat, p: Pos, q: Pos)
    requires row < |t| && p.row < |t| && q.row < |t|
  {
    || Turn(w, t, row, x, p) < Turn(w, t, row, x, q)
    || (Turn(w, t, row, x, p) == Turn(w, t, row, x, q) && if w.backwards then p.x >= q.x else p.x <= q.x)
  }

  predicate Candidate(w: Way, t: Text, needle: Line, row: nat, x: nat, q: Pos)
    requires row < |t| && x <= |t[row]|
  {
    OccursAt(t, needle, q) && !(q.row == row && Inside(w, t[row], x, q.x))
  }

  /** An occurrence that is come upon after i moves is found in the i-th line, unless
      a sooner one is. */
  lemma FoundInTurn(w: Way, t: Text, needle: Line, row: nat, x: nat, q: Pos)
    requires row < |t| && x <= |t[row]| && |needle| > 0 && Candidate(w, t, needle, row, x, q)
    ensures var i := Turn(w, t, row, x, q);
            match Scan(w, t, needle, row, x, true, i)
            case None => false
            case Some(y) => if w.backwards then y >= q.x else y <= q.x
  {
  }

  /** What is found in the i-th line is come upon after i moves. */
  lemma TurnOfFound(w: Way, t: Text, needle: Line, row: nat, x: nat, i: nat)
    requires row < |t| && x <= |t[row]| && |needle| > 0 && i <= |t| && !w.replacing
    requires Scan(w, t, needle, row, x, true, i).Some?
    requires i == |t| ==> Within(w, Scan(w, t, needle, row, x, true, i).value, x)
    ensures var p := Pos(RowAt(w, |t|, row, i), Scan(w, t, needle, row, x, true, i).value);
            && Candidate(w, t, needle, row, x, p) && Turn(w, t, row, x, p) == i
  {
    if 0 < i < |t| {
      OneTurn(w, |t|, row, i);
    }
  }

  lemma OneTurn(w: Way, n: nat, row: nat, i: nat)
    requires row < n && 0 < i < n
    ensures RowAt(w, n, row, i) != row && Turns(w, n, row, RowAt(w, n, row, i)) == i
  {
  }

  /** go_looking: the search lands on the next occurrence in cyclic order, the
      cursor's own one last; it finds nothing exactly when every occurrence starts
      strictly within the one character that was skipped. */
  method GoLooking(w: Way, t: Text, needle: Line, row: nat, x: nat) returns (found: Option<Pos>)
    requires row < |t| && x <= |t[row]| && |needle| > 0 && !w.replacing
    ensures found.None? <==> forall q | OccursAt(t, needle, q) :: q.row == row && Inside(w, t[row], x, q.x)
    ensures found.Some? ==>
              && Candidate(w, t, needle, row, x, found.value)
              && forall q | Candidate(w, t, needle, row, x, q) :: Sooner(w, t, row, x, found.value, q)
  {
    var circle;
    found, circle := FindNextStr(w, t, needle, row, x, true, row, x, false);
    if found.None? {
      NothingFound(w, t, needle, row, x);
    } else {
      ghost var i :| 0 <= i <= |t|
        && (forall j | 0 <= j < i :: Scan(w, t, needle, row, x, true, j) == None)
        && Scan(w, t, needle, row, x, true, i) == Some(found.value.x) && found.value.row == RowAt(w, |t|, row, i)
        && (i == |t| ==> Within(w, found.value.x, x));
      SomethingFound(w, t, needle, row, x, i, found.value);
    }
  }

  lemma NothingFound(w: Way, t: Text, needle: Line, row: nat, x: nat)
    requires row < |t| && x <= |t[row]| && |needle| > 0 && !w.replacing
    requires forall i | 0 <= i < |t| :: Scan(w, t, needle, row, x, true, i) == None
    requires var last := Scan(w, t, needle, row, x, true, |t|); last.Some? ==> !Within(w, last.value, x)
    ensures forall q | OccursAt(t, needle, q) :: q.row == row && Inside(w, t[row], x, q.x)
  {
    forall q | OccursAt(t, needle, q)
      ensures q.row == row && Inside(w, t[row], x, q.x)
    {
      if Candidate(w, t, needle, row, x, q) {
        FoundInTurn(w, t, needle, row, x, q);
      }
    }
  }

  lemma SomethingFound(w: Way, t: Text, needle: Line, row: nat, x: nat, i: nat, p: Pos)
    requires row < |t| && x <= |t[row]| && |needle| > 0 && !w.replacing && i <= |t|
    requires forall j | 0 <= j < i :: Scan(w, t, needle, row, x, true, j) == None
    requires Scan(w, t, needle, row, x, true, i) == Some(p.x) && p.row == RowAt(w, |t|, row, i)
    requires i == |t| ==> Within(w, p.x, x)
    ensures Candidate(w, t, needle, row, x, p)
    ensures forall q | Candidate(w, t, needle, row, x, q) :: Sooner(w, t, row, x, p, q)
  {
    TurnOfFound(w, t, needle, row, x, i);
    forall q | Candidate(w, t, needle, row, x, q)
      ensures Sooner(w, t, row, x, p, q)
    {
      FoundInTurn(w, t, needle, row, x, q);
    }
  }

  /** Nothing can start within the skipped character when characters are single
      bytes, or when the needle starts as a character does and the cursor is
      between characters; then a search finds nothing exactly when no line
      contains the needle. */
  lemma NothingInside(w: Way, l: Line, needle: Line, x: nat, y: nat)
    requires |needle| > 0 && x <= |l| && Occurs(l, needle, y)
    requires w.utf8 ==> !Continuation(needle[0]) && Boundary(l, x)
    ensures !Inside(w, l, x, y)
  {
    if w.utf8 && Inside(w, l, x, y) {
      assert l[y] == l[y..y + |needle|][0];
      if w.backwards {
        StepLeftIsPredecessor(l, x);
        CharInterior(l, StepLeft(l, x), y);
      } else {
        CharInterior(l, x, y);
      }
    }
  }

  lemma SearchIsComplete(w: Way, t: Text, needle: Line, row: nat, x: nat)
    requires row < |t| && x <= |t[row]| && |needle| > 0
    requires w.utf8 ==> !Continuation(needle[0]) && Boundary(t[row], x)
    ensures forall q :: Candidate(w, t, needle, row, x, q) <==> OccursAt(t, needle, q)
    ensures (forall q | OccursAt(t, needle, q) :: q.row == row && Inside(w, t[row], x, q.x)) <==>
            !exists q :: OccursAt(t, needle, q)
  {
    forall q | OccursAt(t, needle, q) && q.row == row
      ensures !Inside(w, t[row], x, q.x)
    {
      NothingInside(w, t[row], needle, x, q.x);
    }
  }

  /** It can matter: looking for the byte A9 from the start of the line C3 A9 finds
      nothing, although it occurs, since that is its only occurrence. */
  lemma SkippedOccurrence()
    ensures var (w, t, needle) := (Way(true, false, false), [[0xC3, 0xA9]], [0xA9]);
            && OccursAt(t, needle, Pos(0, 1))
            && forall q | OccursAt(t, needle, q) :: q == Pos(0, 1) && Inside(w, t[0], 0, q.x)
  {
    var (t: Text, needle: Line) := ([[0xC3, 0xA9]], [0xA9]);
    var l: Line := t[0];
    assert l[1..2] == [0xA9];
    assert CharLength(l, 0) == 2;
    forall q | OccursAt(t, needle, q)
      ensures q == Pos(0, 1)
    {
      assert l[q.x] == l[q.x..q.x + 1][0];
    }
  }
}

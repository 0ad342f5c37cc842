/** The layout of inkui (update_layout in widget.rs): a tree of widgets is given
    places, frame by frame, in a grid, in lines that wrap, or all on top of one
    another. */
module Layout {

  /** The sizes that need no rounding and cannot run below zero. */
  datatype Size = Absolute(n: nat) | FromLeft(n: nat) | FromUp(n: nat) | Auto

  datatype Direction = Row | Column

  /** A flex display is one that wraps. */
  datatype Display = Plain | Grid(rows: nat, cols: nat) | Flex(direction: Direction)

  datatype Geometry = Geometry(x: nat, y: nat, width: nat, height: nat, margin: nat, padding: nat,
                               userX: Size, userY: Size, userWidth: Size, userHeight: Size,
                               userMargin: Size, userPadding: Size)

  /** A widget and all that it contains; only a frame contains others. */
  datatype Tree = Tree(geometry: Geometry, display: Display, children: seq<Tree>)

  datatype Box = Box(x: nat, y: nat, width: nat, height: nat)

  datatype Extent = Extent(width: nat, height: nat)

  function Min(a: nat, b: nat): nat {
    if a <= b then a else b
  }

  function Max(a: nat, b: nat): nat {
    if a <= b then b else a
  }

  /** saturating_sub. */
  function Less(a: nat, b: nat): nat {
    if a < b then 0 else a - b
  }

  // ---------------------------------------------------------------------------
  // What is computed
  // ---------------------------------------------------------------------------

  function Length(s: Size, most: nat): nat {
    if s.Absolute? then Min(s.n, most) else most
  }

  function Gap(s: Size): nat {
    if s.Absolute? then s.n else 0
  }

  function OffsetX(s: Size): nat {
    if s.Absolute? || s.FromLeft? then s.n else 0
  }

  function OffsetY(s: Size): nat {
    if s.Absolute? || s.FromUp? then s.n else 0
  }

  /** The geometry of a widget in the given box, inside the given padding. */
  function Placed(g: Geometry, b: Box, padding: nat): Geometry {
    var margin := Gap(g.userMargin);
    g.(margin := margin,
       padding := Gap(g.userPadding),
       width := Length(g.userWidth, Less(Less(b.width, 2 * padding), 2 * margin)),
       height := Length(g.userHeight, Less(Less(b.height, 2 * padding), 2 * margin)),
       x := b.x + padding + margin + OffsetX(g.userX),
       y := b.y + padding + margin + OffsetY(g.userY))
  }

  /** What a widget leaves for its children. */
  function Content(g: Geometry): Box {
    Box(g.x + g.padding, g.y + g.padding, Less(g.width, 2 * g.padding), Less(g.height, 2 * g.padding))
  }

  /** How much room a child asks for, margins included. */
  function Total(child: Tree, content: Box): Extent {
    var g := Placed(child.geometry, content, 0);
    Extent(g.width + 2 * g.margin, g.height + 2 * g.margin)
  }

  /** The place of a child in a line, and where the line then stands: the place that
      is next in the line, how far down the line is, and how high. */
  datatype Cursor = Cursor(x: nat, y: nat, line: nat)

  function Wrapped(at: Cursor, total: Extent, size: Extent): Cursor {
    if at.x + total.width > size.width && at.x > 0 then Cursor(0, at.y + at.line, 0) else at
  }

  function Next(at: Cursor, total: Extent, size: Extent): Cursor {
    var w := Wrapped(at, total, size);
    Cursor(w.x + total.width, w.y, Max(w.line, total.height))
  }

  function Spot(at: Cursor, total: Extent, size: Extent): Box {
    var w := Wrapped(at, total, size);
    Box(w.x, w.y, Min(Less(size.width, w.x), total.width), Min(Less(size.height, w.y), total.height))
  }

  /** The places along rows, relative to the content's corner. */
  function RowSpots(totals: seq<Extent>, size: Extent, at: Cursor): (spots: seq<Box>)
    ensures |spots| == |totals|
  {
    if totals == [] then []
    else [Spot(at, totals[0], size)] + RowSpots(totals[1..], size, Next(at, totals[0], size))
  }

  function Turned(e: Extent): Extent {
    Extent(e.height, e.width)
  }

  function Shown(b: Box, content: Box, direction: Direction): Box {
    match direction
    case Row => Box(content.x + b.x, content.y + b.y, b.width, b.height)
    case Column => Box(content.x + b.y, content.y + b.x, b.height, b.width)
  }

  function Along(e: Extent, direction: Direction): Extent {
    if direction.Row? then e else Turned(e)
  }

  /** The totals of the children, lengthwise first. */
  function Totals(children: seq<Tree>, content: Box, direction: Direction): (t: seq<Extent>)
    ensures |t| == |children|
  {
    seq(|children|, i requires 0 <= i < |children| => Along(Total(children[i], content), direction))
  }

  function FlexSpots(children: seq<Tree>, content: Box, direction: Direction): (s: seq<Box>)
    ensures |s| == |children|
  {
    var size := Along(Extent(content.width, content.height), direction);
    var spots := RowSpots(Totals(children, content, direction), size, Cursor(0, 0, 0));
    seq(|children|, i requires 0 <= i < |children| => Shown(spots[i], content, direction))
  }

  function Share(whole: nat, parts: nat): nat
    requires parts > 0
  {
    whole / parts
  }

  function Strip(k: nat, length: nat): nat {
    k * length
  }

  function Cell(i: nat, rows: nat, cols: nat, content: Box): Box
    requires rows > 0 && cols > 0
  {
    var (w, h) := (Share(content.width, cols), Share(content.height, rows));
    Box(content.x + Strip(i % cols, w), content.y + Strip(i / cols, h), w, h)
  }

  function GridSpots(count: nat, rows: nat, cols: nat, content: Box): (s: seq<Box>)
    ensures |s| == Min(count, rows * cols)
  {
    seq(Min(count, rows * cols), i requires 0 <= i && rows * cols > 0 => Cell(i, rows, cols, content))
  }

  /** How many of the children are laid out. */
  function Count(children: nat, display: Display): (n: nat)
    ensures n <= children
  {
    if display.Grid? then Min(children, display.rows * display.cols) else children
  }

  /** The boxes given to the children that are laid out. */
  function Spots(children: seq<Tree>, content: Box, display: Display): (s: seq<Box>)
    ensures |s| == Count(|children|, display)
  {
    match display
    case Plain => seq(|children|, i => content)
    case Grid(rows, cols) => GridSpots(|children|, rows, cols, content)
    case Flex(direction) => FlexSpots(children, content, direction)
  }

  function Laid(w: Tree, b: Box, padding: nat): Tree {
    var g := Placed(w.geometry, b, padding);
    var spots := Spots(w.children, Content(g), w.display);
    Tree(g, w.display,
         seq(|w.children|, i requires 0 <= i < |w.children| =>
           if i < |spots| then Laid(w.children[i], spots[i], 0) else w.children[i]))
  }

  // ---------------------------------------------------------------------------
  // What holds of it
  // ---------------------------------------------------------------------------

  function Area(g: Geometry): Box {
    Box(g.x, g.y, g.width, g.height)
  }

  predicate Empty(b: Box) {
    b.width == 0 || b.height == 0
  }

  predicate Inside(b: Box, outer: Box) {
    && outer.x <= b.x && b.x + b.width <= outer.x + outer.width
    && outer.y <= b.y && b.y + b.height <= outer.y + outer.height
  }

  predicate Disjoint(a: Box, b: Box) {
    a.x + a.width <= b.x || b.x + b.width <= a.x || a.y + a.height <= b.y || b.y + b.height <= a.y
  }

  /** Positions are left at their default, throughout. */
  predicate Unmoved(w: Tree) {
    && OffsetX(w.geometry.userX) == 0 && OffsetY(w.geometry.userY) == 0
    && forall i | 0 <= i < |w.children| :: Unmoved(w.children[i])
  }

  /** A child that can be seen is inside the given box. */
  predicate Held(child: Tree, b: Box) {
    Empty(Area(child.geometry)) || Inside(Area(child.geometry), b)
  }

  predicate Apart(a: Tree, b: Tree) {
    Empty(Area(a.geometry)) || Empty(Area(b.geometry)) || Disjoint(Area(a.geometry), Area(b.geometry))
  }

  /** In a frame and in all the frames in it, the children that were laid out and can
      be seen are inside the frame's content, and apart unless the frame is plain. */
  predicate Tidy(w: Tree) {
    var count := Count(|w.children|, w.display);
    && (forall i | 0 <= i < count :: Tidy(w.children[i]) && Held(w.children[i], Content(w.geometry)))
    && (w.display.Plain? || forall i, j | 0 <= i < j < count :: Apart(w.children[i], w.children[j]))
  }

  lemma {:induction false} LaidIsTidy(w: Tree, b: Box, padding: nat)
    requires Unmoved(w)
    ensures Tidy(Laid(w, b, padding))
  {
    hide Placed, Spots, Held, Apart, Content, Inside, Disjoint, Empty;
    var laid := Laid(w, b, padding);
    var content := Content(laid.geometry);
    var spots := Spots(w.children, content, w.display);
    var count := |spots|;
    SpotsInside(w.children, content, w.display);
    forall i | 0 <= i < count
      ensures Tidy(laid.children[i]) && Held(laid.children[i], spots[i]) && Held(laid.children[i], content)
    {
      LaidIsTidy(w.children[i], spots[i], 0);
      PlacedInside(w.children[i], spots[i], content);
    }
    if !w.display.Plain? {
      SpotsDisjoint(w.children, content, w.display);
      forall i, j | 0 <= i < j < count
        ensures Apart(laid.children[i], laid.children[j])
      {
        StayApart(laid.children[i], laid.children[j], spots[i], spots[j]);
      }
    }
  }

  lemma PlacedInside(w: Tree, b: Box, content: Box)
    requires Unmoved(w) && (Empty(b) || Inside(b, content))
    ensures Held(Laid(w, b, 0), b) && Held(Laid(w, b, 0), content)
  {
  }

  lemma StayApart(a: Tree, b: Tree, s: Box, t: Box)
    requires Held(a, s) && Held(b, t) && Disjoint(s, t)
    ensures Apart(a, b)
  {
  }

  lemma SpotsInside(children: seq<Tree>, content: Box, display: Display)
    ensures var spots := Spots(children, content, display);
            forall i | 0 <= i < |spots| :: Empty(spots[i]) || Inside(spots[i], content)
  {
    hide GridSpots, FlexSpots;
    match display
    case Plain =>
    case Grid(rows, cols) => GridSpotsInside(|children|, rows, cols, content);
    case Flex(direction) => FlexSpotsInside(children, content, direction);
  }

  lemma GridSpotsInside(count: nat, rows: nat, cols: nat, content: Box)
    ensures var spots := GridSpots(count, rows, cols, content);
            forall i | 0 <= i < |spots| :: Inside(spots[i], content)
  {
    hide Cell, Inside;
    var spots := GridSpots(count, rows, cols, content);
    forall i | 0 <= i < |spots|
      ensures Inside(spots[i], content)
    {
      CellInside(i, rows, cols, content);
    }
  }

  lemma FlexSpotsInside(children: seq<Tree>, content: Box, direction: Direction)
    ensures var spots := FlexSpots(children, content, direction);
            forall i | 0 <= i < |spots| :: Empty(spots[i]) || Inside(spots[i], content)
  {
    hide RowSpots, Totals;
    var spots := FlexSpots(children, content, direction);
    var size := Along(Extent(content.width, content.height), direction);
    forall i | 0 <= i < |spots|
      ensures Empty(spots[i]) || Inside(spots[i], content)
    {
      RowSpotInside(Totals(children, content, direction), size, Cursor(0, 0, 0), i);
    }
  }

  lemma SpotsDisjoint(children: seq<Tree>, content: Box, display: Display)
    requires !display.Plain?
    ensures var spots := Spots(children, content, display);
            forall i, j | 0 <= i < j < |spots| :: Disjoint(spots[i], spots[j])
  {
    hide GridSpots, FlexSpots;
    match display
    case Grid(rows, cols) => GridSpotsDisjoint(|children|, rows, cols, content);
    case Flex(direction) => FlexSpotsDisjoint(children, content, direction);
  }

  lemma GridSpotsDisjoint(count: nat, rows: nat, cols: nat, content: Box)
    ensures var spots := GridSpots(count, rows, cols, content);
            forall i, j | 0 <= i < j < |spots| :: Disjoint(spots[i], spots[j])
  {
    hide Cell, Disjoint;
    var spots := GridSpots(count, rows, cols, content);
    forall i, j | 0 <= i < j < |spots|
      ensures Disjoint(spots[i], spots[j])
    {
      CellsDisjoint(i, j, rows, cols, content);
    }
  }

  lemma FlexSpotsDisjoint(children: seq<Tree>, content: Box, direction: Direction)
    ensures var spots := FlexSpots(children, content, direction);
            forall i, j | 0 <= i < j < |spots| :: Disjoint(spots[i], spots[j])
  {
    hide RowSpots, Totals;
    var spots := FlexSpots(children, content, direction);
    var size := Along(Extent(content.width, content.height), direction);
    forall i, j | 0 <= i < j < |spots|
      ensures Disjoint(spots[i], spots[j])
    {
      RowSpotsDisjoint(Totals(children, content, direction), size, Cursor(0, 0, 0), i, j);
    }
  }

  // ---------------------------------------------------------------------------
  // Grids
  // ---------------------------------------------------------------------------

  lemma MulMonotone(a: nat, b: nat, c: nat)
    requires a <= b
    ensures a * c <= b * c
  {
    assert b * c == a * c + (b - a) * c;
  }

  lemma RowOf(i: nat, rows: nat, cols: nat)
    requires cols > 0 && i < rows * cols
    ensures i / cols < rows && i % cols < cols && i == i / cols * cols + i % cols
  {
    if i / cols >= rows {
      MulMonotone(rows, i / cols, cols);
    }
  }

  lemma CellInside(i: nat, rows: nat, cols: nat, content: Box)
    requires i < rows * cols && rows > 0 && cols > 0
    ensures Inside(Cell(i, rows, cols, content), content)
  {
    hide Strip, Share;
    RowOf(i, rows, cols);
    StripInside(i % cols, cols, content.width);
    StripInside(i / cols, rows, content.height);
  }

  lemma StripInside(k: nat, parts: nat, whole: nat)
    requires k < parts
    ensures Strip(k, Share(whole, parts)) + Share(whole, parts) <= whole
  {
    var part := whole / parts;
    Beside(k, parts, part);
    assert whole == parts * part + whole % parts;
  }

  lemma CellsDisjoint(i: nat, j: nat, rows: nat, cols: nat, content: Box)
    requires i < j && rows > 0 && cols > 0
    ensures Disjoint(Cell(i, rows, cols, content), Cell(j, rows, cols, content))
  {
    hide Strip, Share;
    InOrder(i, j, cols);
    var (w, h) := (Share(content.width, cols), Share(content.height, rows));
    Beside(i % cols, j % cols, w);
    Beside(i / cols, j / cols, h);
  }

  lemma InOrder(i: nat, j: nat, cols: nat)
    requires i < j && cols > 0
    ensures i / cols < j / cols || (i / cols == j / cols && i % cols < j % cols)
  {
    assert i == i / cols * cols + i % cols && j == j / cols * cols + j % cols;
    if j / cols < i / cols {
      NextMultiple(j / cols, cols);
      MulMonotone(j / cols + 1, i / cols, cols);
    }
  }

  lemma NextMultiple(k: nat, n: nat)
    ensures (k + 1) * n == k * n + n
  {
  }

  /** Strips of one length lie one after the other. */
  lemma Beside(i: nat, j: nat, length: nat)
    ensures i < j ==> Strip(i, length) + length <= Strip(j, length)
  {
    if i < j {
      MulMonotone(i + 1, j, length);
      assert (i + 1) * length == i * length + length;
    }
  }

  // ---------------------------------------------------------------------------
  // Lines that wrap
  // ---------------------------------------------------------------------------

  lemma {:induction false} RowSpotInside(totals: seq<Extent>, size: Extent, at: Cursor, i: nat)
    requires i < |totals|
    ensures var b := RowSpots(totals, size, at)[i];
            Empty(b) || (b.x + b.width <= size.width && b.y + b.height <= size.height)
  {
    if i > 0 {
      RowSpotInside(totals[1..], size, Next(at, totals[0], size), i - 1);
    }
  }

  /** What follows is further along the line, or below it. */
  lemma {:induction false} Further(totals: seq<Extent>, size: Extent, at: Cursor, i: nat)
    requires i < |totals|
    ensures var b := RowSpots(totals, size, at)[i];
            (b.y == at.y && b.x >= at.x) || b.y >= at.y + at.line
  {
    if i > 0 {
      Further(totals[1..], size, Next(at, totals[0], size), i - 1);
    }
  }

  lemma {:induction false} RowSpotsDisjoint(totals: seq<Extent>, size: Extent, at: Cursor, i: nat, j: nat)
    requires i < j < |totals|
    ensures Disjoint(RowSpots(totals, size, at)[i], RowSpots(totals, size, at)[j])
  {
    var next := Next(at, totals[0], size);
    if i > 0 {
      RowSpotsDisjoint(totals[1..], size, next, i - 1, j - 1);
    } else {
      Further(totals[1..], size, next, j - 1);
    }
  }

  /** A line is left when a child does not fit: so every child gets the whole length
      it asks for, as far as there is any. */
  lemma {:induction false} WholeLength(totals: seq<Extent>, size: Extent, at: Cursor, i: nat)
    requires i < |totals|
    ensures RowSpots(totals, size, at)[i].width == Min(size.width, totals[i].width)
  {
    if i > 0 {
      WholeLength(totals[1..], size, Next(at, totals[0], size), i - 1);
    }
  }

  // ---------------------------------------------------------------------------
  // Which line a child is on
  // ---------------------------------------------------------------------------

  /** Where the line stands before child i. */
  function CursorAt(totals: seq<Extent>, size: Extent, i: nat): Cursor
    requires i <= |totals|
  {
    if i == 0 then Cursor(0, 0, 0) else Next(CursorAt(totals, size, i - 1), totals[i - 1], size)
  }

  lemma {:induction false} SpotAt(totals: seq<Extent>, size: Extent, i: nat)
    requires i <= |totals|
    ensures RowSpots(totals, size, Cursor(0, 0, 0))[i..] == RowSpots(totals[i..], size, CursorAt(totals, size, i))
    ensures i < |totals| ==>
              RowSpots(totals, size, Cursor(0, 0, 0))[i] == Spot(CursorAt(totals, size, i), totals[i], size)
  {
    hide Spot, Next;
    if i > 0 {
      SpotAt(totals, size, i - 1);
      RowNext(totals, size, Cursor(0, 0, 0), CursorAt(totals, size, i - 1), i - 1);
    } else {
      assert totals[0..] == totals && forall s: seq<Box> :: s[0..] == s;
    }
    if i < |totals| {
      RowNext(totals, size, Cursor(0, 0, 0), CursorAt(totals, size, i), i);
    }
  }

  /** Where child i ends, as far as its line is concerned. */
  function EndOf(totals: seq<Extent>, spots: seq<Box>, i: nat): nat
    requires i < |totals| == |spots|
  {
    spots[i].x + totals[i].width
  }

  /** The first child on the line of child i: from it on, each begins where the one before
      it ends. */
  function FirstOfLine(totals: seq<Extent>, spots: seq<Box>, i: nat): (j: nat)
    requires i < |totals| == |spots|
    ensures j <= i
  {
    if i > 0 && spots[i].x == EndOf(totals, spots, i - 1) then FirstOfLine(totals, spots, i - 1) else i
  }

  function Highest(totals: seq<Extent>, from: nat, to: nat): nat
    requires from <= to <= |totals|
  {
    if from == to then 0 else Max(Highest(totals, from, to - 1), totals[to - 1].height)
  }

  /** The next child begins where child i ends if it fits there, or if nothing of the line
      is used; otherwise it begins a line of its own, directly below the highest child of
      the line before. */
  predicate Follows(totals: seq<Extent>, spots: seq<Box>, size: Extent, i: nat)
    requires i + 1 < |totals| == |spots|
  {
    var (here, next, end) := (spots[i], spots[i + 1], EndOf(totals, spots, i));
    if end + totals[i + 1].width <= size.width || end == 0 then next.x == end && next.y == here.y
    else next.x == 0 && next.y == here.y + Highest(totals, FirstOfLine(totals, spots, i), i + 1)
  }

  /** A child has what it asks for, as far as the content reaches. */
  predicate Fitted(total: Extent, spot: Box, size: Extent) {
    spot.width == Min(size.width, total.width) && spot.height == Min(Less(size.height, spot.y), total.height)
  }

  /** Children stand in lines, from the corner on. */
  predicate InLines(totals: seq<Extent>, spots: seq<Box>, size: Extent) {
    && |spots| == |totals|
    && (totals != [] ==> spots[0].x == 0 && spots[0].y == 0)
    && (forall i | 0 <= i && i + 1 < |totals| :: Follows(totals, spots, size, i))
    && (forall i | 0 <= i < |totals| :: Fitted(totals[i], spots[i], size))
  }

  lemma {:induction false} LineSoFar(totals: seq<Extent>, size: Extent, i: nat)
    requires i < |totals|
    ensures var spots := RowSpots(totals, size, Cursor(0, 0, 0));
            CursorAt(totals, size, i + 1) ==
            Cursor(EndOf(totals, spots, i), spots[i].y, Highest(totals, FirstOfLine(totals, spots, i), i + 1))
  {
    SpotAt(totals, size, i);
    if i > 0 {
      LineSoFar(totals, size, i - 1);
    }
    hide RowSpots;
  }

  lemma Neighbours(totals: seq<Extent>, size: Extent, i: nat)
    requires i + 1 < |totals|
    ensures Follows(totals, RowSpots(totals, size, Cursor(0, 0, 0)), size, i)
  {
    LineSoFar(totals, size, i);
    SpotAt(totals, size, i + 1);
    hide RowSpots, CursorAt, Highest, FirstOfLine;
  }

  lemma OwnSize(totals: seq<Extent>, size: Extent, i: nat)
    requires i < |totals|
    ensures Fitted(totals[i], RowSpots(totals, size, Cursor(0, 0, 0))[i], size)
  {
    WholeLength(totals, size, Cursor(0, 0, 0), i);
    SpotAt(totals, size, i);
    hide RowSpots, CursorAt;
  }

  lemma FirstSpot(totals: seq<Extent>, size: Extent)
    requires totals != []
    ensures var spot := RowSpots(totals, size, Cursor(0, 0, 0))[0]; spot.x == 0 && spot.y == 0
  {
  }

  lemma RowsInLines(totals: seq<Extent>, size: Extent)
    ensures InLines(totals, RowSpots(totals, size, Cursor(0, 0, 0)), size)
  {
    if totals != [] {
      FirstSpot(totals, size);
    }
    hide RowSpots, Follows, Fitted;
    var spots := RowSpots(totals, size, Cursor(0, 0, 0));
    forall i | 0 <= i < |totals|
      ensures Fitted(totals[i], spots[i], size)
    {
      OwnSize(totals, size, i);
    }
    forall i | 0 <= i && i + 1 < |totals|
      ensures Follows(totals, spots, size, i)
    {
      Neighbours(totals, size, i);
    }
  }

  /** The children of a wrapping frame, in rows or in columns, are laid out in lines. */
  lemma LaidInLines(w: Tree, b: Box, padding: nat) returns (spots: seq<Box>)
    requires w.display.Flex?
    ensures var laid := Laid(w, b, padding);
            var (content, direction) := (Content(laid.geometry), w.display.direction);
            && InLines(Totals(w.children, content, direction), spots,
                       Along(Extent(content.width, content.height), direction))
            && |laid.children| == |w.children| == |spots|
            && forall i | 0 <= i < |spots| ::
                 laid.children[i] == Laid(w.children[i], Shown(spots[i], content, direction), 0)
  {
    var content := Content(Placed(w.geometry, b, padding));
    var direction := w.display.direction;
    var (size, totals) :=
      (Along(Extent(content.width, content.height), direction), Totals(w.children, content, direction));
    spots := RowSpots(totals, size, Cursor(0, 0, 0));
    RowsInLines(totals, size);
    LaidByParts(w, b, padding);
    hide Laid, RowSpots, InLines, Totals, Placed, Shown, Along;
  }

  // ---------------------------------------------------------------------------
  // Cells and single widgets
  // ---------------------------------------------------------------------------

  /** The cells of a grid have one size, the largest that fits; they begin in the corner,
      and each is right of the one before it, or first in the next row. */
  lemma LaidInCells(count: nat, rows: nat, cols: nat, content: Box)
    requires rows > 0 && cols > 0
    ensures var spots := GridSpots(count, rows, cols, content);
            && |spots| == Min(count, rows * cols)
            && (spots != [] ==> spots[0].x == content.x && spots[0].y == content.y)
            && (forall i | 0 <= i < |spots| ::
                  && cols * spots[i].width <= content.width < cols * (spots[i].width + 1)
                  && rows * spots[i].height <= content.height < rows * (spots[i].height + 1))
            && (forall i, j {:trigger spots[i], spots[j]} | 0 <= i && j == i + 1 < |spots| ::
                  if j % cols == 0 then spots[j].x == content.x && spots[j].y == spots[i].y + spots[i].height
                  else spots[j].x == spots[i].x + spots[i].width && spots[j].y == spots[i].y)
  {
    var spots := GridSpots(count, rows, cols, content);
    if spots != [] {
      FirstCell(rows, cols, content);
    }
    forall i | 0 <= i < |spots|
      ensures cols * spots[i].width <= content.width < cols * (spots[i].width + 1)
      ensures rows * spots[i].height <= content.height < rows * (spots[i].height + 1)
    {
      LargestShare(content.width, cols);
      LargestShare(content.height, rows);
      hide Strip, Share;
    }
    forall i, j {:trigger spots[i], spots[j]} | 0 <= i && j == i + 1 < |spots|
      ensures if j % cols == 0 then spots[j].x == content.x && spots[j].y == spots[i].y + spots[i].height
              else spots[j].x == spots[i].x + spots[i].width && spots[j].y == spots[i].y
    {
      NextCell(i, rows, cols, content);
      hide Cell;
    }
  }

  lemma FirstCell(rows: nat, cols: nat, content: Box)
    requires rows > 0 && cols > 0
    ensures Cell(0, rows, cols, content).x == content.x && Cell(0, rows, cols, content).y == content.y
  {
  }

  lemma LargestShare(whole: nat, parts: nat)
    requires parts > 0
    ensures parts * Share(whole, parts) <= whole < parts * (Share(whole, parts) + 1)
  {
    assert whole == parts * (whole / parts) + whole % parts;
    assert parts * (whole / parts + 1) == parts * (whole / parts) + parts;
  }

  lemma NextCell(i: nat, rows: nat, cols: nat, content: Box)
    requires rows > 0 && cols > 0
    ensures var (a, b) := (Cell(i, rows, cols, content), Cell(i + 1, rows, cols, content));
            if (i + 1) % cols == 0 then b.x == content.x && b.y == a.y + a.height
            else b.x == a.x + a.width && b.y == a.y
  {
    hide Share;
    NextIndex(i, cols);
    OneStripMore(i % cols, Share(content.width, cols));
    OneStripMore(i / cols, Share(content.height, rows));
  }

  lemma OneStripMore(k: nat, length: nat)
    ensures Strip(k + 1, length) == Strip(k, length) + length && Strip(0, length) == 0
  {
  }

  lemma NextIndex(i: nat, cols: nat)
    requires cols > 0
    ensures if (i + 1) % cols == 0 then (i + 1) / cols == i / cols + 1
            else (i + 1) / cols == i / cols && (i + 1) % cols == i % cols + 1
  {
    var (q, r) := (i / cols, i % cols);
    assert i == q * cols + r;
    if r + 1 < cols {
      Quotient(i + 1, cols, q, r + 1);
    } else {
      NextMultiple(q, cols);
      Quotient(i + 1, cols, q + 1, 0);
    }
  }

  lemma Quotient(a: nat, n: nat, q: nat, r: nat)
    requires a == q * n + r && r < n
    ensures a / n == q && a % n == r
  {
    var d := a / n;
    assert a == d * n + a % n;
    assert (q - d) * n == q * n - d * n;
    FarApart(q - d, n);
  }

  lemma FarApart(k: int, n: int)
    requires n > 0
    ensures k > 0 ==> k * n >= n
    ensures k < 0 ==> k * n <= -n
  {
  }

  /** A widget stays its margin and the padding away from the sides of its box: one without
      a size of its own fills the box up to there, and one with a size has that, if there is
      room for it. */
  lemma PlacedFills(g: Geometry, b: Box, padding: nat)
    ensures var p := Placed(g, b, padding);
            var around := padding + if g.userMargin.Absolute? then g.userMargin.n else 0;
            && p.x == b.x + around + (if g.userX.Absolute? || g.userX.FromLeft? then g.userX.n else 0)
            && p.y == b.y + around + (if g.userY.Absolute? || g.userY.FromUp? then g.userY.n else 0)
            && (2 * around <= b.width ==>
                  if g.userWidth.Absolute? && g.userWidth.n + 2 * around <= b.width then p.width == g.userWidth.n
                  else p.width + 2 * around == b.width)
            && (2 * around <= b.height ==>
                  if g.userHeight.Absolute? && g.userHeight.n + 2 * around <= b.height then p.height == g.userHeight.n
                  else p.height + 2 * around == b.height)
            && (b.width <= 2 * around ==> p.width == 0) && (b.height <= 2 * around ==> p.height == 0)
  {
  }

  // ---------------------------------------------------------------------------
  // Laying out again
  // ---------------------------------------------------------------------------

  /** Nothing is left of an earlier layout. */
  lemma {:induction false} Relaid(w: Tree, b: Box, padding: nat, b': Box, padding': nat)
    ensures Laid(Laid(w, b, padding), b', padding') == Laid(w, b', padding')
  {
    hide Placed, Spots, Content;
    var once := Laid(w, b, padding);
    var (g0, g) := (Placed(w.geometry, b, padding), Placed(w.geometry, b', padding'));
    PlacedAgain(w.geometry, b, padding, b', padding');
    SameSpots(w, b, padding, Content(g));
    var was := Spots(w.children, Content(g0), w.display);
    var spots := Spots(w.children, Content(g), w.display);
    forall i | 0 <= i < |spots|
      ensures Laid(once.children[i], spots[i], 0) == Laid(w.children[i], spots[i], 0)
    {
      Relaid(w.children[i], was[i], 0, spots[i], 0);
    }
    assert Laid(once, b', padding').children == Laid(w, b', padding').children;
  }

  lemma PlacedAgain(g: Geometry, b: Box, padding: nat, b': Box, padding': nat)
    ensures Placed(Placed(g, b, padding), b', padding') == Placed(g, b', padding')
  {
  }

  lemma SameSpots(w: Tree, b: Box, padding: nat, content: Box)
    ensures Spots(Laid(w, b, padding).children, content, w.display) == Spots(w.children, content, w.display)
  {
    var laid := Laid(w, b, padding);
    LaidByParts(w, b, padding);
    forall i | 0 <= i < |w.children|
      ensures Total(laid.children[i], content) == Total(w.children[i], content)
    {
      var spots := Spots(w.children, Content(laid.geometry), w.display);
      if i < |spots| {
        assert laid.children[i].geometry == Placed(w.children[i].geometry, spots[i], 0);
      }
    }
    if w.display.Flex? {
      assert Totals(laid.children, content, w.display.direction) == Totals(w.children, content, w.display.direction);
    }
  }

  /** The second layout of a child in a line keeps the length the first one gave it. */
  lemma FlexKeepsLength(w: Tree, b: Box, padding: nat, i: nat)
    requires w.display.Flex? && i < |w.children|
    ensures var laid := Laid(w, b, padding);
            var first := Placed(w.children[i].geometry, Content(laid.geometry), 0);
            if w.display.direction.Row? then laid.children[i].geometry.width == first.width
            else laid.children[i].geometry.height == first.height
  {
    var content := Content(Placed(w.geometry, b, padding));
    var size := Along(Extent(content.width, content.height), w.display.direction);
    var totals := Totals(w.children, content, w.display.direction);
    WholeLength(totals, size, Cursor(0, 0, 0), i);
    var spot := Spots(w.children, content, w.display)[i];
    assert Laid(w, b, padding).children[i].geometry == Placed(w.children[i].geometry, spot, 0);
  }

  // ---------------------------------------------------------------------------
  // The widgets themselves
  // ---------------------------------------------------------------------------

  /** The children that are done have their place, the others are as before. */
  function Mixed(kids: seq<Tree>, spots: seq<Box>, done: nat): (m: seq<Tree>)
    requires done <= |spots| <= |kids|
    ensures |m| == |kids|
  {
    seq(|kids|, i requires 0 <= i < |kids| => if i < done then Laid(kids[i], spots[i], 0) else kids[i])
  }

  class Widget {
    var geometry: Geometry
    var display: Display
    var children: seq<Widget>
    ghost var tree: Tree
    ghost var Repr: set<Widget>

    ghost predicate Valid()
      reads this, Repr
      decreases Repr, 1
    {
      Kids(tree.children) && tree == Tree(geometry, display, tree.children)
    }

    /** The children are widgets apart from each other, and amount to the given trees. */
    ghost predicate Kids(kids: seq<Tree>)
      reads this, Repr
      decreases Repr, 0
    {
      && |kids| == |children| && this in Repr
      && (forall i | 0 <= i < |children| ::
            && children[i] in Repr && this !in children[i].Repr && children[i].Repr <= Repr
            && children[i].Valid() && children[i].tree == kids[i])
      && (forall i, j | 0 <= i < j < |children| :: children[i].Repr !! children[j].Repr)
    }

    method UpdateLayout(parentX: nat, parentY: nat, parentWidth: nat, parentHeight: nat, parentPadding: nat)
      requires Valid()
      modifies Repr
      ensures Valid() && Repr == old(Repr)
      ensures tree == Laid(old(tree), Box(parentX, parentY, parentWidth, parentHeight), parentPadding)
      decreases Repr, 2
    {
      hide Laid, Spots, Mixed, Placed, Content, Widget.Kids;
      ghost var kids := tree.children;
      ghost var b := Box(parentX, parentY, parentWidth, parentHeight);
      ThisToo(kids);
      Place(parentX, parentY, parentWidth, parentHeight, parentPadding, kids);
      LaidByParts(tree, b, parentPadding);
      ghost var spots := Spots(kids, Content(geometry), display);
      match display {
        case Grid(rows, cols) => LayoutGrid(rows, cols, kids);
        case Flex(direction) => LayoutFlex(direction, kids);
        case Plain => LayoutPlain(kids);
      }
      Settle(Tree(geometry, display, Mixed(kids, spots, |spots|)));
    }

    /** The widget's own place. */
    method Place(parentX: nat, parentY: nat, parentWidth: nat, parentHeight: nat, parentPadding: nat,
                 ghost kids: seq<Tree>)
      requires Kids(kids)
      modifies this`geometry
      ensures Kids(kids)
      ensures geometry == Placed(old(geometry), Box(parentX, parentY, parentWidth, parentHeight), parentPadding)
    {
      hide Placed;
      SetPlace(parentX, parentY, parentWidth, parentHeight, parentPadding);
    }

    method SetPlace(parentX: nat, parentY: nat, parentWidth: nat, parentHeight: nat, parentPadding: nat)
      modifies this`geometry
      ensures geometry == Placed(old(geometry), Box(parentX, parentY, parentWidth, parentHeight), parentPadding)
    {
      SetGaps();
      SetSize(Less(parentWidth, 2 * parentPadding), Less(parentHeight, 2 * parentPadding));
      SetPosition(parentX + parentPadding, parentY + parentPadding);
    }

    method SetGaps()
      modifies this`geometry
      ensures var g := old(geometry); geometry == g.(margin := Gap(g.userMargin), padding := Gap(g.userPadding))
    {
      var margin := if geometry.userMargin.Absolute? then geometry.userMargin.n else 0;
      var padding := if geometry.userPadding.Absolute? then geometry.userPadding.n else 0;
      geometry := geometry.(margin := margin, padding := padding);
    }

    method SetSize(availableWidth: nat, availableHeight: nat)
      modifies this`geometry
      ensures var g := old(geometry);
              geometry == g.(width := Length(g.userWidth, Less(availableWidth, 2 * g.margin)),
                             height := Length(g.userHeight, Less(availableHeight, 2 * g.margin)))
    {
      var maxWidth := Less(availableWidth, geometry.margin * 2);
      var maxHeight := Less(availableHeight, geometry.margin * 2);
      var width := match geometry.userWidth
                   case Absolute(n) => Min(n, maxWidth)
                   case _ => maxWidth;
      var height := match geometry.userHeight
                    case Absolute(n) => Min(n, maxHeight)
                    case _ => maxHeight;
      geometry := geometry.(width := width, height := height);
    }

    method SetPosition(availableX: nat, availableY: nat)
      modifies this`geometry
      ensures var g := old(geometry);
              geometry == g.(x := availableX + g.margin + OffsetX(g.userX),
                             y := availableY + g.margin + OffsetY(g.userY))
    {
      var x := match geometry.userX
               case Absolute(n) => availableX + geometry.margin + n
               case FromLeft(n) => availableX + n + geometry.margin
               case _ => availableX + geometry.margin;
      var y := match geometry.userY
               case Absolute(n) => availableY + geometry.margin + n
               case FromUp(n) => availableY + n + geometry.margin
               case _ => availableY + geometry.margin;
      geometry := geometry.(x := x, y := y);
    }

    ghost method Settle(now: Tree)
      requires Kids(now.children) && now.geometry == geometry && now.display == display
      modifies this`tree
      ensures Valid() && tree == now
    {
      tree := now;
    }

    /** One child is laid out; no other is touched. */
    method LayoutChild(i: nat, b: Box, ghost kids: seq<Tree>)
      requires Kids(kids) && i < |children|
      modifies children[i].Repr
      ensures Kids(kids[i := Laid(kids[i], b, 0)])
      decreases Repr, 0
    {
      hide Laid;
      ghost var now := kids[i := Laid(kids[i], b, 0)];
      forall j | 0 <= j < |children|
        ensures children[j] in children[j].Repr
      {
        children[j].IsItsOwn();
      }
      children[i].UpdateLayout(b.x, b.y, b.width, b.height, 0);
      forall j | 0 <= j < |children|
        ensures children[j].Valid() && children[j].tree == now[j] && children[j].Repr == old(children[j].Repr)
      {
        if j != i {
          assert unchanged(children[j]);
        }
      }
    }

    method LayoutPlain(ghost kids: seq<Tree>)
      requires Kids(kids)
      modifies Repr - {this}
      ensures var spots := Spots(kids, Content(geometry), Plain); Kids(Mixed(kids, spots, |spots|))
      decreases Repr, 1
    {
      hide Laid, Widget.Kids;
      var contentX := geometry.x + geometry.padding;
      var contentY := geometry.y + geometry.padding;
      var contentWidth := Less(geometry.width, geometry.padding * 2);
      var contentHeight := Less(geometry.height, geometry.padding * 2);
      ghost var spots := Spots(kids, Content(geometry), Plain);
      Unmixed(kids, spots);
      SameLength(kids);
      for i := 0 to |children|
        invariant Kids(Mixed(kids, spots, i))
      {
        ghost var current := Mixed(kids, spots, i);
        OwnChild(i, current);
        LayoutChild(i, Box(contentX, contentY, contentWidth, contentHeight), current);
        MixedNext(kids, spots, i);
      }
    }

    method LayoutGrid(rows: nat, cols: nat, ghost kids: seq<Tree>)
      requires Kids(kids)
      modifies Repr - {this}
      ensures var spots := Spots(kids, Content(geometry), Grid(rows, cols)); Kids(Mixed(kids, spots, |spots|))
      decreases Repr, 1
    {
      hide *;
      ghost var spots := Spots(kids, Content(geometry), Grid(rows, cols));
      ContentIs(geometry);
      Unmixed(kids, spots);
      SameLength(kids);
      GridCount(kids, geometry, rows, cols);
      if rows == 0 || cols == 0 {
        return;
      }
      var contentWidth := Less(geometry.width, geometry.padding * 2);
      var contentHeight := Less(geometry.height, geometry.padding * 2);
      var cellWidth := contentWidth / cols;
      var cellHeight := contentHeight / rows;
      for i := 0 to |children|
        invariant i <= |spots| && Kids(Mixed(kids, spots, i))
      {
        var row := i / cols;
        var col := i % cols;
        GridCell(kids, geometry, rows, cols, i);
        CellIs(i, rows, cols,
               Box(geometry.x + geometry.padding, geometry.y + geometry.padding, contentWidth, contentHeight));
        if row >= rows {
          break;
        }
        var childX := geometry.x + geometry.padding + col * cellWidth;
        var childY := geometry.y + geometry.padding + row * cellHeight;
        OwnChild(i, Mixed(kids, spots, i));
        LayoutChild(i, Box(childX, childY, cellWidth, cellHeight), Mixed(kids, spots, i));
        MixedNext(kids, spots, i);
      }
    }

    method LayoutFlex(direction: Direction, ghost kids: seq<Tree>)
      requires Kids(kids)
      modifies Repr - {this}
      ensures var spots := Spots(kids, Content(geometry), Flex(direction)); Kids(Mixed(kids, spots, |spots|))
      decreases Repr, 1
    {
      hide *;
      var contentX := geometry.x + geometry.padding;
      var contentY := geometry.y + geometry.padding;
      var contentWidth := Less(geometry.width, geometry.padding * 2);
      var contentHeight := Less(geometry.height, geometry.padding * 2);
      var content := Box(contentX, contentY, contentWidth, contentHeight);
      ghost var spots := FlexSpots(kids, content, direction);
      ghost var totals := Totals(kids, content, direction);
      ghost var size := Along(Extent(contentWidth, contentHeight), direction);
      var currentX: nat, currentY: nat, lineHeight: nat, lineWidth: nat := 0, 0, 0, 0;
      Unmixed(kids, spots);
      SameLength(kids);
      FlexStart(kids, geometry, direction);
      for i := 0 to |children|
        invariant Kids(Mixed(kids, spots, i))
        invariant RowSpots(totals, size, Cursor(0, 0, 0))[i..]
               == RowSpots(totals[i..], size, At(direction, currentX, currentY, lineWidth, lineHeight))
      {
        ghost var at := At(direction, currentX, currentY, lineWidth, lineHeight);
        ghost var current := Mixed(kids, spots, i);
        OwnChild(i, current);
        LayoutChild(i, content, current);
        ghost var once := current[i := Laid(current[i], content, 0)];
        OwnChild(i, once);
        var total := TotalOf(i, once);
        FlexNext(kids, content, direction, at, i);
        var b: Box;
        b, currentX, currentY, lineWidth, lineHeight :=
          NextPlace(direction, content, total, currentX, currentY, lineWidth, lineHeight);
        LayoutChild(i, b, once);
        MixedTwice(kids, spots, i, content);
        MixedNext(kids, spots, i);
      }
    }

    /** The place of one child, and where the next one goes.  No subtraction of what
        is used from what there is runs below zero. */
    static method NextPlace(direction: Direction, content: Box, total: Extent, x: nat, y: nat, width: nat, height: nat)
      returns (b: Box, currentX: nat, currentY: nat, lineWidth: nat, lineHeight: nat)
      ensures var size := Along(Extent(content.width, content.height), direction);
              var at := At(direction, x, y, width, height);
              && b == Shown(Spot(at, Along(total, direction), size), content, direction)
              && At(direction, currentX, currentY, lineWidth, lineHeight) == Next(at, Along(total, direction), size)
    {
      currentX, currentY, lineWidth, lineHeight := x, y, width, height;
      match direction {
        case Row =>
          if currentX + total.width > content.width && currentX > 0 {
            currentX := 0;
            currentY := currentY + lineHeight;
            lineHeight := 0;
          }
          var availWidth: nat := Min(content.width - currentX, total.width);
          var availHeight := Less(content.height, currentY);
          b := Box(content.x + currentX, content.y + currentY, availWidth, Min(availHeight, total.height));
          currentX := currentX + total.width;
          lineHeight := Max(lineHeight, total.height);
        case Column =>
          if currentY + total.height > content.height && currentY > 0 {
            currentY := 0;
            currentX := currentX + lineWidth;
            lineWidth := 0;
          }
          var availWidth := Less(content.width, currentX);
          var availHeight: nat := Min(content.height - currentY, total.height);
          b := Box(content.x + currentX, content.y + currentY, Min(availWidth, total.width), availHeight);
          currentY := currentY + total.height;
          lineWidth := Max(lineWidth, total.width);
      }
    }

    /** The room that a child which has been laid out takes. */
    method TotalOf(i: nat, ghost kids: seq<Tree>) returns (total: Extent)
      requires Kids(kids) && i < |children|
      ensures var g := kids[i].geometry; total == Extent(g.width + 2 * g.margin, g.height + 2 * g.margin)
    {
      var g := children[i].geometry;
      total := Extent(g.width + g.margin * 2, g.height + g.margin * 2);
    }

    lemma SameLength(kids: seq<Tree>)
      requires Kids(kids)
      ensures |kids| == |children|
    {
    }

    lemma IsItsOwn()
      requires Valid()
      ensures this in Repr
    {
    }

    lemma ThisToo(kids: seq<Tree>)
      requires Kids(kids)
      ensures this in Repr
    {
    }

    /** A child's widgets are among the frame's, and the frame is not among them. */
    lemma OwnChild(i: nat, kids: seq<Tree>)
      requires Kids(kids) && i < |children|
      ensures children[i].Repr <= Repr - {this}
    {
    }
  }

  /** Where a flex layout stands, lengthwise first. */
  function At(direction: Direction, x: nat, y: nat, lineWidth: nat, lineHeight: nat): Cursor {
    if direction.Row? then Cursor(x, y, lineHeight) else Cursor(y, x, lineWidth)
  }

  lemma LaidByParts(w: Tree, b: Box, padding: nat)
    ensures var g := Placed(w.geometry, b, padding);
            var spots := Spots(w.children, Content(g), w.display);
            Laid(w, b, padding) == Tree(g, w.display, Mixed(w.children, spots, |spots|))
  {
    var g := Placed(w.geometry, b, padding);
    var spots := Spots(w.children, Content(g), w.display);
    assert Laid(w, b, padding).children == Mixed(w.children, spots, |spots|);
  }

  lemma Unmixed(kids: seq<Tree>, spots: seq<Box>)
    requires |spots| <= |kids|
    ensures Mixed(kids, spots, 0) == kids
  {
  }

  lemma MixedNext(kids: seq<Tree>, spots: seq<Box>, i: nat)
    requires i < |spots| <= |kids|
    ensures var m := Mixed(kids, spots, i);
            Mixed(kids, spots, i + 1) == m[i := Laid(m[i], spots[i], 0)]
  {
    hide Laid;
  }

  /** Of the two layouts of a child, the second one counts. */
  lemma MixedTwice(kids: seq<Tree>, spots: seq<Box>, i: nat, content: Box)
    requires i < |spots| <= |kids|
    ensures var m := Mixed(kids, spots, i);
            var once := m[i := Laid(m[i], content, 0)];
            once[i := Laid(once[i], spots[i], 0)] == m[i := Laid(m[i], spots[i], 0)]
  {
    hide Laid;
    Relaid(kids[i], content, 0, spots[i], 0);
  }

  lemma RowIn(i: nat, rows: nat, cols: nat)
    requires cols > 0
    ensures i / cols < rows <==> i < rows * cols
  {
    if i < rows * cols {
      RowOf(i, rows, cols);
    }
    if i / cols < rows {
      MulMonotone(i / cols + 1, rows, cols);
      assert (i / cols + 1) * cols == i / cols * cols + cols;
    }
  }

  lemma ContentIs(g: Geometry)
    ensures Content(g) == Box(g.x + g.padding, g.y + g.padding,
                              Less(g.width, g.padding * 2), Less(g.height, g.padding * 2))
  {
  }

  lemma GridCount(kids: seq<Tree>, g: Geometry, rows: nat, cols: nat)
    ensures |Spots(kids, Content(g), Grid(rows, cols))| == Min(|kids|, rows * cols)
    ensures rows == 0 || cols == 0 ==> |Spots(kids, Content(g), Grid(rows, cols))| == 0
  {
    if rows == 0 {
      assert rows * cols == 0;
    }
  }

  lemma GridCell(kids: seq<Tree>, g: Geometry, rows: nat, cols: nat, i: nat)
    requires rows > 0 && cols > 0 && i < |kids|
    ensures var spots := Spots(kids, Content(g), Grid(rows, cols));
            && (i / cols < rows <==> i < |spots|)
            && (i < |spots| ==> spots[i] == Cell(i, rows, cols, Content(g)))
  {
    hide Cell;
    GridSpot(|kids|, Content(g), rows, cols, i);
  }

  lemma GridSpot(count: nat, content: Box, rows: nat, cols: nat, i: nat)
    requires rows > 0 && cols > 0 && i < count
    ensures var spots := GridSpots(count, rows, cols, content);
            && (i / cols < rows <==> i < |spots|)
            && (i < |spots| ==> spots[i] == Cell(i, rows, cols, content))
  {
    hide Cell;
    RowIn(i, rows, cols);
  }

  lemma CellIs(i: nat, rows: nat, cols: nat, content: Box)
    requires rows > 0 && cols > 0
    ensures var (w, h) := (content.width / cols, content.height / rows);
            Cell(i, rows, cols, content) == Box(content.x + i % cols * w, content.y + i / cols * h, w, h)
  {
  }

  lemma FlexStart(kids: seq<Tree>, g: Geometry, direction: Direction)
    ensures var content := Content(g);
            && content == Box(g.x + g.padding, g.y + g.padding,
                              Less(g.width, g.padding * 2), Less(g.height, g.padding * 2))
            && Spots(kids, content, Flex(direction)) == FlexSpots(kids, content, direction)
    ensures At(direction, 0, 0, 0, 0) == Cursor(0, 0, 0)
    ensures forall t: seq<Extent>, size ::
              RowSpots(t, size, Cursor(0, 0, 0))[0..] == RowSpots(t[0..], size, Cursor(0, 0, 0))
  {
  }

  /** One child on: its place, and where the line then stands. */
  lemma FlexNext(kids: seq<Tree>, content: Box, direction: Direction, at: Cursor, i: nat)
    requires i < |kids|
    requires var totals := Totals(kids, content, direction);
             var size := Along(Extent(content.width, content.height), direction);
             RowSpots(totals, size, Cursor(0, 0, 0))[i..] == RowSpots(totals[i..], size, at)
    ensures var totals := Totals(kids, content, direction);
            var size := Along(Extent(content.width, content.height), direction);
            var total := totals[i];
            && FlexSpots(kids, content, direction)[i] == Shown(Spot(at, total, size), content, direction)
            && RowSpots(totals, size, Cursor(0, 0, 0))[i + 1..]
               == RowSpots(totals[i + 1..], size, Next(at, total, size))
            && var g := Laid(Mixed(kids, FlexSpots(kids, content, direction), i)[i], content, 0).geometry;
               total == Along(Extent(g.width + 2 * g.margin, g.height + 2 * g.margin), direction)
  {
    hide Spot, Next, Placed, Along, Shown;
    var totals := Totals(kids, content, direction);
    var size := Along(Extent(content.width, content.height), direction);
    RowNext(totals, size, Cursor(0, 0, 0), at, i);
    var g := Laid(kids[i], content, 0).geometry;
    assert g == Placed(kids[i].geometry, content, 0);
  }

  lemma RowNext(totals: seq<Extent>, size: Extent, start: Cursor, at: Cursor, i: nat)
    requires i < |totals| && RowSpots(totals, size, start)[i..] == RowSpots(totals[i..], size, at)
    ensures RowSpots(totals, size, start)[i] == Spot(at, totals[i], size)
    ensures RowSpots(totals, size, start)[i + 1..] == RowSpots(totals[i + 1..], size, Next(at, totals[i], size))
  {
    hide Spot, Next;
    var all := RowSpots(totals, size, start);
    assert all[i] == all[i..][0];
    assert all[i..][1..] == all[i + 1..] && totals[i..][1..] == totals[i + 1..];
  }
}

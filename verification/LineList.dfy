/** The lines of an open file as the editor holds them: a doubly linked list
    that is relinked in place, with the cutbuffer as a second list (nano.c,
    cut.c, utils.c). */
module LineList {
  import opened Chars
  import opened Lines

  class LineNode {
    var data: Line
    var next: LineNode?
    var prev: LineNode?
    var lineno: int

    /** make_new_node: the node points back to `prevnode`, which does not yet
        point to it. */
    constructor (prevnode: LineNode?, data: Line)
      ensures this.data == data && next == null && prev == prevnode
      ensures lineno == if prevnode == null then 1 else prevnode.lineno + 1
    {
      this.data, next, prev := data, null, prevnode;
      lineno := if prevnode == null then 1 else prevnode.lineno + 1;
    }
  }

  ghost predicate Distinct(ns: seq<LineNode>) {
    forall i, j | 0 <= i < j < |ns| :: ns[i] != ns[j]
  }

  /** Distinct nodes, each linked to the next in both directions. */
  ghost predicate Chain(ns: seq<LineNode>)
    reads ns`next, ns`prev
  {
    && Distinct(ns)
    && (forall i {:trigger ns[i].next} | 0 <= i < |ns| - 1 :: ns[i].next == ns[i + 1])
    && (forall i {:trigger ns[i].prev} | 0 < i < |ns| :: ns[i].prev == ns[i - 1])
  }

  ghost predicate Numbered(ns: seq<LineNode>, upto: nat)
    reads ns`lineno
  {
    forall i | 0 <= i < |ns| && i < upto :: ns[i].lineno == i + 1
  }

  ghost predicate Apart(a: seq<LineNode>, b: seq<LineNode>) {
    forall i, j | 0 <= i < |a| && 0 <= j < |b| :: a[i] != b[j]
  }

  ghost function Texts(ns: seq<LineNode>): (t: seq<Line>)
    reads ns`data
    ensures |t| == |ns|
  {
    if |ns| == 0 then [] else [ns[0].data] + Texts(ns[1..])
  }

  lemma {:induction false} TextsAt(ns: seq<LineNode>)
    ensures forall i | 0 <= i < |ns| :: Texts(ns)[i] == ns[i].data
  {
    if |ns| > 0 {
      TextsAt(ns[1..]);
      forall i | 0 <= i < |ns|
        ensures Texts(ns)[i] == ns[i].data
      {
        if i > 0 {
          assert ns[1..][i - 1] == ns[i];
        }
      }
    }
  }

  /** The last node of a chain, or null, and the first. */
  ghost function LastOf(ns: seq<LineNode>): LineNode? {
    if |ns| == 0 then null else ns[|ns| - 1]
  }

  ghost function FirstOf(ns: seq<LineNode>): LineNode? {
    if |ns| == 0 then null else ns[0]
  }

  /** Hook b in after a; either may be null, when the chain on its side is empty. */
  method Hook(a: LineNode?, b: LineNode?, ghost left: seq<LineNode>, ghost right: seq<LineNode>)
    requires Chain(left) && Chain(right) && Apart(left, right)
    requires a == LastOf(left) && b == FirstOf(right)
    modifies left`next, right`prev
    ensures Chain(left + right)
    ensures a != null ==> a.next == b
    ensures b != null ==> b.prev == a
  {
    if a != null {
      a.next := b;
    }
    if b != null {
      b.prev := a;
    }
  }

  /** Make a node the last of its list. */
  method Terminate(last: LineNode, ghost ns: seq<LineNode>)
    requires Chain(ns) && |ns| > 0 && ns[|ns| - 1] == last
    modifies last`next
    ensures Chain(ns) && last.next == null
  {
    last.next := null;
  }

  /** A chain can be seen as two. */
  lemma Halves(ns: seq<LineNode>, i: nat)
    requires Chain(ns) && i <= |ns|
    ensures Distinct(ns)
    ensures Chain(ns[..i]) && Chain(ns[i..]) && Apart(ns[..i], ns[i..])
    ensures 0 < i < |ns| ==> ns[i - 1].next == ns[i] && ns[i].prev == ns[i - 1]
  {
  }

  /** A chain can be seen as three. */
  lemma Pieces(ns: seq<LineNode>, p: nat, q: nat)
    requires Chain(ns) && p < q < |ns|
    ensures Chain(ns[..p]) && Chain(ns[p..q]) && Chain(ns[q..])
    ensures Apart(ns[..p], ns[p..q]) && Apart(ns[..p], ns[q..]) && Apart(ns[p..q], ns[q..])
    ensures p > 0 ==> ns[p].prev == ns[p - 1]
    ensures ns[q].prev == ns[q - 1]
  {
  }

  lemma PiecesAcross(ns: seq<LineNode>, p: nat, q: nat)
    requires Chain(ns) && p < q < |ns|
    ensures var (before, region, after) := (ns[..p + 1], ns[p + 1..q + 1], ns[q + 1..]);
            && Chain(before) && Chain(region) && Chain(after)
            && Apart(before, region) && Apart(before, after) && Apart(region, after)
    ensures ns[p].next == ns[p + 1]
    ensures q + 1 < |ns| ==> ns[q].next == ns[q + 1]
  {
  }

  lemma {:induction false} TextsConcat(a: seq<LineNode>, b: seq<LineNode>)
    ensures Texts(a + b) == Texts(a) + Texts(b)
  {
    if a == [] {
      assert a + b == b;
    } else {
      TextsConcat(a[1..], b);
      assert (a + b)[1..] == a[1..] + b;
    }
  }

  /** Reading lines commutes with slicing. */
  lemma TextsTake(ns: seq<LineNode>, i: nat)
    requires i <= |ns|
    ensures Texts(ns[..i]) == Texts(ns)[..i]
  {
    hide Texts;
    assert ns == ns[..i] + ns[i..];
    TextsConcat(ns[..i], ns[i..]);
  }

  lemma TextsDrop(ns: seq<LineNode>, i: nat)
    requires i <= |ns|
    ensures Texts(ns[i..]) == Texts(ns)[i..]
  {
    hide Texts;
    assert ns == ns[..i] + ns[i..];
    TextsConcat(ns[..i], ns[i..]);
  }

  lemma TextsSlice(ns: seq<LineNode>, i: nat, j: nat)
    requires i <= j <= |ns|
    ensures Texts(ns[i..j]) == Texts(ns)[i..j]
  {
    hide Texts;
    TextsTake(ns, j);
    TextsDrop(ns[..j], i);
  }

  /** number_of_characters_in, walking from `begin` to `end`. */
  method NumberOfCharactersIn(begin: LineNode, end: LineNode, ghost ns: seq<LineNode>) returns (count: int)
    requires |ns| > 0 && Chain(ns) && ns[0] == begin && ns[|ns| - 1] == end && end.next !in ns
    ensures count == Characters(Texts(ns))
  {
    TextsAt(ns);
    ghost var k, t := 0, Texts(ns);
    var line: LineNode? := begin;
    var sum := 0;
    while line != end.next
      invariant k <= |ns|
      invariant line == if k < |ns| then ns[k] else end.next
      invariant sum + Characters(t[k..]) == Characters(t)
      decreases |ns| - k
    {
      var n := MbStrLen(line.data);
      sum := sum + n + 1;
      assert t[k..][1..] == t[k + 1..];
      line, k := line.next, k + 1;
    }
    count := sum - 1;
  }

  /** The lines of a list, read out from its first node. */
  method ReadOut(head: LineNode, ghost ns: seq<LineNode>) returns (t: Text)
    requires |ns| > 0 && Chain(ns) && ns[0] == head && ns[|ns| - 1].next == null
    ensures t == Texts(ns)
  {
    TextsAt(ns);
    assert Texts(ns)[..1] == [head.data];
    t := [head.data];
    var src := head.next;
    ghost var k := 1;
    while src != null
      invariant 1 <= k <= |ns| && |t| > 0 && t == Texts(ns)[..k]
      invariant src == if k < |ns| then ns[k] else null
      decreases |ns| - k
    {
      t := t + [src.data];
      src, k := src.next, k + 1;
    }
  }

  /** The building loop of copy_buffer: a new list holding the given lines. */
  method Build(t: Text) returns (head: LineNode, last: LineNode, ghost ns: seq<LineNode>)
    ensures |ns| > 0 && Chain(ns) && ns[0] == head && head.prev == null
    ensures ns[|ns| - 1] == last && last.next == null
    ensures fresh(ns) && Texts(ns) == t
  {
    hide Texts, Chain;
    head := new LineNode(null, t[0]);
    last, ns := head, [head];
    OneNode(head);
    for k := 1 to |t|
      invariant |ns| == k && Chain(ns) && ns[0] == head && head.prev == null
      invariant ns[k - 1] == last && last.next == null && fresh(ns)
      invariant Texts(ns) == t[..k]
    {
      var node := new LineNode(last, t[k]);
      OneNode(node);
      Hook(last, node, ns, [node]);
      TextsConcat(ns, [node]);
      last, ns := node, ns + [node];
    }
  }

  /** copy_buffer: walk a list and copy its nodes, with copy_node. */
  method CopyBuffer(src: LineNode, ghost ns: seq<LineNode>)
    returns (head: LineNode, last: LineNode, ghost copy: seq<LineNode>)
    requires |ns| > 0 && Chain(ns) && ns[0] == src && ns[|ns| - 1].next == null
    ensures |copy| == |ns| && Chain(copy) && copy[0] == head && head.prev == null
    ensures copy[|copy| - 1] == last && last.next == null
    ensures fresh(copy) && Texts(copy) == Texts(ns)
    ensures forall k | 0 <= k < |ns| :: copy[k].lineno == ns[k].lineno
  {
    hide *;
    TextsAt(ns);
    head := CopyNode(src);
    last, copy := head, [head];
    NextOf(ns, 0);
    var next := src.next;
    ghost var k := 1;
    while next != null
      invariant 1 <= k <= |ns| && |copy| == k && Chain(copy) && copy[0] == head && head.prev == null
      invariant next == if k < |ns| then ns[k] else null
      invariant copy[k - 1] == last && last.next == null && fresh(copy)
      invariant Texts(copy) == Texts(ns)[..k]
      invariant forall j | 0 <= j < k :: copy[j].lineno == ns[j].lineno
      decreases |ns| - k
    {
      NextOf(ns, k);
      var item := CopyNode(next);
      AppendNode(last, item, copy);
      last, copy := item, copy + [item];
      next, k := next.next, k + 1;
    }
  }

  /** copy_node. */
  method CopyNode(src: LineNode) returns (dst: LineNode)
    ensures fresh(dst) && dst.data == src.data && dst.lineno == src.lineno && dst.next == null && dst.prev == null
    ensures Chain([dst]) && Texts([dst]) == [src.data]
  {
    dst := new LineNode(null, src.data);
    dst.lineno := src.lineno;
    OneNode(dst);
  }

  /** Hook one node in at the end of a list. */
  method AppendNode(last: LineNode, node: LineNode, ghost ns: seq<LineNode>)
    requires |ns| > 0 && Chain(ns) && ns[|ns| - 1] == last && node !in ns && node.next == null
    modifies last`next, node`prev
    ensures Chain(ns + [node]) && Texts(ns + [node]) == old(Texts(ns)) + [node.data]
    ensures node.next == null && ns[0].prev == old(ns[0].prev)
  {
    last.next := node;
    node.prev := last;
    OneNode(node);
    TextsConcat(ns, [node]);
    hide Texts;
  }

  lemma NextOf(ns: seq<LineNode>, k: nat)
    requires k < |ns| && Chain(ns) && ns[|ns| - 1].next == null
    ensures ns[k].next == if k + 1 < |ns| then ns[k + 1] else null
  {
  }

  lemma OneNode(n: LineNode)
    ensures Chain([n]) && Texts([n]) == [n.data]
  {
  }

  /** Put a node after row r of a list. */
  method SpliceNode(afterthis: LineNode, newnode: LineNode, ghost ns: seq<LineNode>, ghost r: nat)
    returns (ghost longer: seq<LineNode>)
    requires Chain(ns) && r < |ns| && ns[r] == afterthis && newnode !in ns
    requires ns[|ns| - 1].next == null
    modifies newnode`next, newnode`prev, ns`next, ns`prev
    ensures longer == ns[..r + 1] + [newnode] + ns[r + 1..] && Chain(longer)
    ensures ns[0].prev == old(ns[0].prev) && longer[|longer| - 1].next == null
  {
    hide Chain;
    ghost var (before, after) := (ns[..r + 1], ns[r + 1..]);
    Halves(ns, r + 1);
    var follower := afterthis.next;
    Hook(newnode, follower, [newnode], after);
    Hook(afterthis, newnode, before, [newnode] + after);
    longer := before + [newnode] + after;
    assert longer == before + ([newnode] + after);
  }

  /** Take the node at row r out of a list. */
  method UnlinkNode(line: LineNode, ghost ns: seq<LineNode>, ghost r: nat) returns (ghost shorter: seq<LineNode>)
    requires Chain(ns) && r < |ns| && ns[r] == line
    requires ns[0].prev == null && ns[|ns| - 1].next == null
    modifies ns`next, ns`prev
    ensures shorter == ns[..r] + ns[r + 1..] && Chain(shorter)
    ensures |shorter| > 0 ==> shorter[0].prev == null && shorter[|shorter| - 1].next == null
  {
    hide Chain;
    ghost var (before, after) := (ns[..r], ns[r + 1..]);
    Halves(ns, r + 1);
    Halves(ns[..r + 1], r);
    assert ns[..r + 1][..r] == before;
    Halves(ns, r);
    Hook(line.prev, line.next, before, after);
    shorter := before + after;
  }

  /** Take whole rows p to q out of a list; they get a new empty line at their
      end. */
  method TakeRows(top: LineNode, bot: LineNode, ghost ns: seq<LineNode>, ghost p: nat, ghost q: nat)
    returns (last: LineNode, ghost taken: seq<LineNode>, ghost left: seq<LineNode>)
    requires Chain(ns) && p < q < |ns| && ns[p] == top && ns[q] == bot && ns[0].prev == null
    modifies ns`next, ns`prev
    ensures taken == ns[p..q] + [last] && left == ns[..p] + ns[q..]
    ensures Chain(taken) && Chain(left)
    ensures left[0].prev == null && fresh(last) && last.next == null && last.data == []
    ensures bot.prev == LastOf(ns[..p])
    ensures ns[|ns| - 1].next == old(ns[|ns| - 1].next)
  {
    hide Chain;
    ghost var (before, region, after) := (ns[..p], ns[p..q], ns[q..]);
    Pieces(ns, p, q);
    last := new LineNode(null, []);
    taken := region + [last];
    left := before + after;
    var above := top.prev;
    Hook(bot.prev, last, region, [last]);
    assert Apart(taken, before) && Apart(taken, after);
    Hook(above, bot, before, after);
  }

  /** Take the rows after row p up to row q out of a list, behind a new node. */
  method TakeAcross(top: LineNode, bot: LineNode, data: Line, ghost ns: seq<LineNode>, ghost p: nat, ghost q: nat)
    returns (first: LineNode, ghost taken: seq<LineNode>, ghost left: seq<LineNode>)
    requires Chain(ns) && p < q < |ns| && ns[p] == top && ns[q] == bot
    requires ns[0].prev == null && ns[|ns| - 1].next == null
    modifies ns`next, ns`prev
    ensures taken == [first] + ns[p + 1..q + 1] && left == ns[..p + 1] + ns[q + 1..]
    ensures Chain(taken) && Chain(left)
    ensures left[0].prev == null && left[|left| - 1].next == null
    ensures fresh(first) && first.data == data && taken[|taken| - 1].next == null
  {
    hide Chain;
    ghost var (before, region, after) := (ns[..p + 1], ns[p + 1..q + 1], ns[q + 1..]);
    PiecesAcross(ns, p, q);
    first := new LineNode(null, data);
    taken := [first] + region;
    left := before + after;
    var second, follower := top.next, bot.next;
    Hook(top, follower, before, after);
    Terminate(bot, region);
    Hook(first, second, [first], region);
  }

  /** Append a list to another: the first line goes into the last one there. */
  method Append(bottom: LineNode, head: LineNode, last: LineNode, ghost ns: seq<LineNode>, ghost more: seq<LineNode>)
    returns (newBottom: LineNode, ghost all: seq<LineNode>)
    requires Chain(ns) && Chain(more) && Apart(ns, more) && |ns| > 0 && |more| > 0
    requires ns[|ns| - 1] == bottom && more[0] == head && more[|more| - 1] == last && last.next == null
    modifies bottom`data, ns`next, more`prev
    ensures all == ns + more[1..] && all[0] == ns[0] && Chain(all) && newBottom == all[|all| - 1]
            && newBottom.next == null
    ensures Texts(all) == Join(old(Texts(ns)), old(Texts(more)))
  {
    hide *;
    Halves(ns, 0);
    Halves(more, 1);
    LastOfAll(ns, more);
    StrCat(bottom, head, ns, more);
    Hook(bottom, head.next, ns, more[1..]);
    newBottom := if bottom.next != null then last else bottom;
    all := ns + more[1..];
  }

  lemma LastOfAll(ns: seq<LineNode>, more: seq<LineNode>)
    requires |ns| > 0 && |more| > 0 && Apart(ns, more)
    ensures Apart(ns, more[1..])
    ensures var all := ns + more[1..];
            all[|all| - 1] == if |more| == 1 then ns[|ns| - 1] else more[|more| - 1]
    ensures FirstOf(more[1..]) == (if |more| == 1 then null else more[1]) && LastOf(ns) == ns[|ns| - 1]
  {
  }

  /** The text of the first line of one list goes behind that of the last line of
      another. */
  method StrCat(bottom: LineNode, head: LineNode, ghost ns: seq<LineNode>, ghost more: seq<LineNode>)
    requires Distinct(ns) && Apart(ns, more) && |ns| > 0 && |more| > 0
    requires ns[|ns| - 1] == bottom && more[0] == head
    modifies bottom`data
    ensures Texts(ns + more[1..]) == Join(old(Texts(ns)), old(Texts(more)))
  {
    hide Texts;
    TextsAt(ns);
    TextsAt(more);
    TextsTake(ns, |ns| - 1);
    TextsDrop(more, 1);
    bottom.data := bottom.data + head.data;
    LastText(ns);
    TextsConcat(ns, more[1..]);
  }

  lemma LastText(ns: seq<LineNode>)
    requires |ns| > 0
    ensures Texts(ns) == Texts(ns[..|ns| - 1]) + [ns[|ns| - 1].data]
  {
    hide Texts;
    OneMore(ns, 0, |ns| - 1);
    OneNode(ns[|ns| - 1]);
    TextsConcat(ns[..|ns| - 1], [ns[|ns| - 1]]);
    assert ns == ns[..|ns| - 1] + [ns[|ns| - 1]];
  }

  /** Hook the lines of a list after its first one in after row r of another. */
  method HookIn(line: LineNode, head: LineNode, last: LineNode,
                ghost ns: seq<LineNode>, ghost r: nat, ghost more: seq<LineNode>)
    returns (ghost longer: seq<LineNode>)
    requires Chain(ns) && Chain(more) && Apart(ns, more) && r < |ns| && ns[r] == line && |more| > 1
    requires more[0] == head && more[|more| - 1] == last
    requires ns[|ns| - 1].next == null && last.next == null
    modifies ns`next, ns`prev, more`next, more`prev
    ensures longer == ns[..r + 1] + more[1..] + ns[r + 1..] && Chain(longer)
    ensures ns[0].prev == old(ns[0].prev) && longer[|longer| - 1].next == null
  {
    hide Chain;
    ghost var (before, middle, after) := (ns[..r + 1], more[1..], ns[r + 1..]);
    Halves(ns, r + 1);
    Halves(more, 1);
    assert Apart(before, middle) && Apart(middle, after);
    var follower, second := line.next, head.next;
    Hook(last, follower, middle, after);
    Hook(line, second, before, middle + after);
    longer := before + middle + after;
    assert longer == before + (middle + after);
  }

  // ----- The texts that relinking makes ---------------------------------------------

  lemma WithinText(t: Text, r: nat, px: nat, qx: nat)
    requires r < |t| && px <= qx <= |t[r]|
    ensures t[r := t[r][..px] + t[r][qx..]] == Join(Head(t, Pos(r, px)), Rest(t, Pos(r, qx)))
    ensures Segment(t, Pos(r, px), Pos(r, qx)) == [t[r][px..qx]]
  {
  }

  lemma RowsText(t: Text, p: nat, q: nat)
    requires p < q < |t|
    ensures t[..p] + t[q..] == Join(Head(t, Pos(p, 0)), Rest(t, Pos(q, 0)))
    ensures t[p..q] + [[]] == Segment(t, Pos(p, 0), Pos(q, 0))
  {
    assert t[q] == [] + t[q][0..];
  }

  lemma AcrossText(t: Text, p: Pos, q: Pos)
    requires ValidPos(t, p) && ValidPos(t, q) && p.row < q.row
    ensures t[..p.row] + [t[p.row][..p.x] + t[q.row][q.x..]] + t[q.row + 1..] == Join(Head(t, p), Rest(t, q))
    ensures [t[p.row][p.x..]] + t[p.row + 1..q.row] + [t[q.row][..q.x]] == Segment(t, p, q)
  {
  }

  /** The region from p to q of a text has been cut loose: `left` holds the rest,
      and `taken` the region. */
  ghost predicate Parted(t: Text, p: Pos, q: Pos, left: seq<LineNode>, taken: seq<LineNode>)
    requires ValidPos(t, p) && ValidPos(t, q) && Before(p, q)
    reads left, taken
  {
    && p.row < |left| && Chain(left) && left[0].prev == null && left[|left| - 1].next == null
    && Texts(left) == Join(Head(t, p), Rest(t, q)) && Numbered(left, p.row)
    && |taken| > 0 && Chain(taken) && taken[|taken| - 1].next == null
    && Texts(taken) == Segment(t, p, q)
    && Apart(left, taken)
  }

  lemma MakeParted(t: Text, p: Pos, q: Pos, left: seq<LineNode>, taken: seq<LineNode>)
    requires ValidPos(t, p) && ValidPos(t, q) && Before(p, q)
    requires p.row < |left| && Chain(left) && left[0].prev == null && left[|left| - 1].next == null
    requires Texts(left) == Join(Head(t, p), Rest(t, q)) && Numbered(left, p.row)
    requires |taken| > 0 && Chain(taken) && taken[|taken| - 1].next == null
    requires Texts(taken) == Segment(t, p, q)
    requires Apart(left, taken)
    ensures Parted(t, p, q, left, taken)
  {
    hide Chain, Texts, Join, Head, Rest, Segment, Numbered, Apart;
  }

  method SeverWithin(top: LineNode, topX: nat, botX: nat, ghost ns: seq<LineNode>, ghost r: nat)
    returns (taken: LineNode)
    requires Chain(ns) && Numbered(ns, |ns|) && r < |ns| && ns[r] == top && topX < botX <= |Texts(ns)[r]|
    requires ns[0].prev == null && ns[|ns| - 1].next == null
    modifies top`data
    ensures fresh(taken) && Parted(old(Texts(ns)), Pos(r, topX), Pos(r, botX), ns, [taken])
  {
    hide Texts;
    TextsAt(ns);
    ghost var t := Texts(ns);
    taken := new LineNode(null, top.data[topX..botX]);
    top.data := top.data[..topX] + top.data[botX..];
    OneNode(taken);
    TextsAt(ns);
    WithinText(t, r, topX, botX);
    assert Texts(ns) == t[r := top.data];
  }

  method SeverRows(top: LineNode, bot: LineNode, ghost ns: seq<LineNode>, ghost p: nat, ghost q: nat)
    returns (last: LineNode, ghost left: seq<LineNode>, ghost taken: seq<LineNode>)
    requires Chain(ns) && Numbered(ns, |ns|) && p < q < |ns| && ns[p] == top && ns[q] == bot
    requires ns[0].prev == null && ns[|ns| - 1].next == null
    modifies ns`next, ns`prev
    ensures Parted(old(Texts(ns)), Pos(p, 0), Pos(q, 0), left, taken)
    ensures left == ns[..p] + ns[q..] && taken == ns[p..q] + [last] && fresh(last)
  {
    hide Chain, Texts, Join, Head, Rest, Segment;
    ghost var t := Texts(ns);
    assert Distinct(ns) by { Halves(ns, 0); }
    last, taken, left := TakeRows(top, bot, ns, p, q);
    TextsTake(ns, p);
    TextsSlice(ns, p, q);
    TextsDrop(ns, q);
    TextsConcat(ns[..p], ns[q..]);
    OneNode(last);
    TextsConcat(ns[p..q], [last]);
    RowsText(t, p, q);
  }

  /** Move the tail of one line to another that is further on, leaving that one
      with its own head. */
  method MoveTail(top: LineNode, topX: nat, bot: LineNode, botX: nat, first: LineNode,
                  ghost ns: seq<LineNode>, ghost p: nat, ghost q: nat)
    requires Distinct(ns) && p < q < |ns| && ns[p] == top && ns[q] == bot && first !in ns
    requires topX <= |Texts(ns)[p]| && botX <= |Texts(ns)[q]| && first.data == Texts(ns)[p][topX..]
    modifies top`data, bot`data
    ensures Texts(ns[..p + 1] + ns[q + 1..]) ==
            Join(Head(old(Texts(ns)), Pos(p, topX)), Rest(old(Texts(ns)), Pos(q, botX)))
    ensures Texts([first] + ns[p + 1..q + 1]) == Segment(old(Texts(ns)), Pos(p, topX), Pos(q, botX))
  {
    hide Texts, Join, Head, Rest, Segment;
    TextsAt(ns);
    ghost var t := Texts(ns);
    AcrossText(t, Pos(p, topX), Pos(q, botX));
    TextsTake(ns, p);
    TextsSlice(ns, p + 1, q);
    TextsDrop(ns, q + 1);
    Outside(ns, p, q);
    top.data := top.data[..topX] + bot.data[botX..];
    bot.data := bot.data[..botX];
    AcrossTexts(ns, p, q, first);
  }

  method SeverAcross(top: LineNode, topX: nat, bot: LineNode, botX: nat,
                     ghost ns: seq<LineNode>, ghost p: nat, ghost q: nat)
    returns (first: LineNode, ghost left: seq<LineNode>, ghost taken: seq<LineNode>)
    requires Chain(ns) && Numbered(ns, |ns|) && p < q < |ns| && ns[p] == top && ns[q] == bot
    requires topX <= |Texts(ns)[p]| && botX <= |Texts(ns)[q]|
    requires ns[0].prev == null && ns[|ns| - 1].next == null
    modifies ns`data, ns`next, ns`prev
    ensures Parted(old(Texts(ns)), Pos(p, topX), Pos(q, botX), left, taken)
    ensures left == ns[..p + 1] + ns[q + 1..] && taken == [first] + ns[p + 1..q + 1] && fresh(first)
  {
    hide *;
    TextsAt(ns);
    ghost var t := Texts(ns);
    Ordered(t, p, topX, q, botX);
    Halves(ns, 0);
    first, taken, left := TakeAcross(top, bot, top.data[topX..], ns, p, q);
    MoveTail(top, topX, bot, botX, first, ns, p, q);
    AcrossApart(ns, p, q, first);
    assert p < |left|;
    MakeParted(t, Pos(p, topX), Pos(q, botX), left, taken);
  }

  lemma Ordered(t: Text, p: nat, px: nat, q: nat, qx: nat)
    requires p < q < |t| && px <= |t[p]| && qx <= |t[q]|
    ensures ValidPos(t, Pos(p, px)) && ValidPos(t, Pos(q, qx)) && Before(Pos(p, px), Pos(q, qx))
  {
  }

  lemma AcrossApart(ns: seq<LineNode>, p: nat, q: nat, first: LineNode)
    requires Distinct(ns) && Numbered(ns, |ns|) && p < q < |ns| && first !in ns
    ensures Apart(ns[..p + 1] + ns[q + 1..], [first] + ns[p + 1..q + 1])
    ensures Numbered(ns[..p + 1] + ns[q + 1..], p)
  {
  }

  lemma Outside(ns: seq<LineNode>, p: nat, q: nat)
    requires Distinct(ns) && p < q < |ns|
    ensures forall n | n in ns[..p] || n in ns[p + 1..q] || n in ns[q + 1..] :: n != ns[p] && n != ns[q]
    ensures ns[p] != ns[q]
  {
  }

  lemma OneMore<T>(s: seq<T>, i: nat, j: nat)
    requires i <= j < |s|
    ensures s[i..j + 1] == s[i..j] + [s[j]] && s[..j + 1] == s[..j] + [s[j]]
  {
  }

  lemma AcrossTexts(ns: seq<LineNode>, p: nat, q: nat, first: LineNode)
    requires p < q < |ns|
    ensures Texts(ns[..p + 1] + ns[q + 1..]) == Texts(ns[..p]) + [ns[p].data] + Texts(ns[q + 1..])
    ensures Texts([first] + ns[p + 1..q + 1]) == [first.data] + Texts(ns[p + 1..q]) + [ns[q].data]
  {
    hide Texts;
    var (before, middle, after) := (ns[..p], ns[p + 1..q], ns[q + 1..]);
    OneMore(ns, 0, p);
    OneMore(ns, p + 1, q);
    OneNode(ns[p]);
    OneNode(ns[q]);
    OneNode(first);
    TextsConcat(before, [ns[p]]);
    TextsConcat(before + [ns[p]], after);
    TextsConcat(middle, [ns[q]]);
    TextsConcat([first], middle + [ns[q]]);
  }

  /** Cut a region loose, in one of three ways. */
  method Sever(top: LineNode, topX: nat, bot: LineNode, botX: nat, ghost ns: seq<LineNode>, ghost p: nat, ghost q: nat)
    returns (taken: LineNode, last: LineNode, cur: LineNode, ghost left: seq<LineNode>, ghost tk: seq<LineNode>)
    requires Chain(ns) && Numbered(ns, |ns|) && p <= q < |ns| && ns[p] == top && ns[q] == bot
    requires topX <= |Texts(ns)[p]| && botX <= |Texts(ns)[q]| && (p == q ==> topX < botX)
    requires ns[0].prev == null && ns[|ns| - 1].next == null
    modifies ns`data, ns`next, ns`prev
    ensures Parted(old(Texts(ns)), Pos(p, topX), Pos(q, botX), left, tk)
    ensures tk[0] == taken && tk[|tk| - 1] == last && left[p] == cur
    ensures left[|left| - 1] == if ns[|ns| - 1] == bot then cur else ns[|ns| - 1]
    ensures p > 0 ==> left[0] == ns[0]
    ensures forall n | n in left :: n in ns
    ensures forall n | n in tk :: n in ns || fresh(n)
  {
    hide *;
    Halves(ns, 0);
    SameRow(ns, p, q);
    if top == bot {
      taken := SeverWithin(top, topX, botX, ns, p);
      last, cur, left, tk := taken, top, ns, [taken];
    } else if topX == 0 && botX == 0 {
      taken, cur := top, bot;
      last, left, tk := SeverRows(top, bot, ns, p, q);
    } else {
      last, cur := bot, top;
      taken, left, tk := SeverAcross(top, topX, bot, botX, ns, p, q);
    }
  }

  lemma SameRow(ns: seq<LineNode>, p: nat, q: nat)
    requires Distinct(ns) && p < |ns| && q < |ns|
    ensures ns[p] == ns[q] <==> p == q
  {
  }

  /** renumber_from: number the nodes from `line` on, its row being r. */
  method RenumberFrom(line: LineNode, ghost ns: seq<LineNode>, ghost r: nat)
    requires Chain(ns) && r < |ns| && ns[r] == line && Numbered(ns, r)
    requires ns[0].prev == null && ns[|ns| - 1].next == null
    modifies ns`lineno
    ensures Numbered(ns, |ns|)
  {
    assert r > 0 ==> line.prev == ns[r - 1] && ns[r - 1].lineno == r;
    var number := if line.prev == null then 0 else line.prev.lineno;
    var l: LineNode? := line;
    ghost var k := r;
    while l != null
      invariant r <= k <= |ns| && number == k
      invariant l == if k < |ns| then ns[k] else null
      invariant Numbered(ns, k)
      decreases |ns| - k
    {
      number := number + 1;
      l.lineno := number;
      l, k := l.next, k + 1;
    }
  }

  /** Add a line at the end of a list. */
  method AddLast(bottom: LineNode, data: Line, ghost ns: seq<LineNode>)
    returns (line: LineNode, ghost longer: seq<LineNode>)
    requires Chain(ns) && |ns| > 0 && ns[|ns| - 1] == bottom && Numbered(ns, |ns|) && ns[0].prev == null
    modifies ns`next
    ensures longer == ns + [line] && fresh(line) && Chain(longer) && Numbered(longer, |longer|)
    ensures longer[0].prev == null && line.next == null && Texts(longer) == old(Texts(ns)) + [data]
  {
    hide Chain, Texts;
    line := new LineNode(bottom, data);
    OneNode(line);
    Hook(bottom, line, ns, [line]);
    TextsConcat(ns, [line]);
    longer := ns + [line];
  }

  lemma GraftText(t: Text, r: nat, x: nat, s: Text)
    requires r < |t| && x <= |t[r]|
    ensures var j := Join(Join(Head(t, Pos(r, x)), s), Rest(t, Pos(r, x)));
            if |s| == 1 then j == t[r := t[r][..x] + s[0] + t[r][x..]]
            else j == t[..r] + [t[r][..x] + s[0]] + s[1..|s| - 1] + [Last(s) + t[r][x..]] + t[r + 1..]
  {
    if |s| == 1 {
      assert t[r][..x] + s[0] + t[r][x..] == (t[r][..x] + s[0]) + t[r][x..];
    }
  }

  /** What hooking in more than one line gives, once the ends have got their text. */
  lemma GraftedTexts(ns: seq<LineNode>, r: nat, more: seq<LineNode>)
    requires r < |ns| && |more| > 1
    ensures Texts(ns[..r + 1] + more[1..] + ns[r + 1..]) ==
            Texts(ns[..r]) + [ns[r].data] + Texts(more[1..|more| - 1]) + [more[|more| - 1].data] + Texts(ns[r + 1..])
  {
    hide Texts;
    var (before, middle, after) := (ns[..r], more[1..|more| - 1], ns[r + 1..]);
    OneMore(ns, 0, r);
    OneMore(more, 1, |more| - 1);
    OneNode(ns[r]);
    OneNode(more[|more| - 1]);
    TextsConcat(before, [ns[r]]);
    TextsConcat(middle, [more[|more| - 1]]);
    TextsConcat(before + [ns[r]], middle + [more[|more| - 1]]);
    TextsConcat(before + [ns[r]] + (middle + [more[|more| - 1]]), after);
    assert more[1..] == more[1..|more| - 1 + 1];
  }

  /** Put the text of the first and of the last grafted line in place. */
  method MoveEnds(line: LineNode, x: nat, head: LineNode, last: LineNode,
                  ghost ns: seq<LineNode>, ghost r: nat, ghost more: seq<LineNode>)
    requires Distinct(ns) && Distinct(more) && Apart(ns, more) && r < |ns| && ns[r] == line && |more| > 1
    requires more[0] == head && more[|more| - 1] == last && x <= |Texts(ns)[r]|
    modifies line`data, last`data
    ensures Texts(ns[..r + 1] + more[1..] + ns[r + 1..]) ==
            Join(Join(Head(old(Texts(ns)), Pos(r, x)), old(Texts(more))), Rest(old(Texts(ns)), Pos(r, x)))
  {
    hide Texts, Join, Head, Rest;
    TextsAt(ns);
    TextsAt(more);
    ghost var (t, s) := (Texts(ns), Texts(more));
    GraftText(t, r, x, s);
    TextsTake(ns, r);
    TextsSlice(more, 1, |more| - 1);
    TextsDrop(ns, r + 1);
    OutsideEnds(ns, r, more);
    var tail := line.data[x..];
    line.data := line.data[..x] + head.data;
    last.data := last.data + tail;
    GraftedTexts(ns, r, more);
  }

  lemma OutsideEnds(ns: seq<LineNode>, r: nat, more: seq<LineNode>)
    requires Distinct(ns) && Distinct(more) && Apart(ns, more) && r < |ns| && |more| > 1
    ensures var (a, b) := (ns[r], more[|more| - 1]);
            && a != b && more[0] != b && more[0] != a
            && forall n | n in ns[..r] || n in more[1..|more| - 1] || n in ns[r + 1..] :: n != a && n != b
  {
  }

  lemma NumberedUpTo(ns: seq<LineNode>, r: nat)
    requires Numbered(ns, |ns|)
    ensures Numbered(ns, r)
  {
  }

  lemma OneNodeIs(more: seq<LineNode>, ns: seq<LineNode>, r: nat)
    requires Distinct(more) && |more| > 0 && r < |ns|
    ensures more[0] == more[|more| - 1] <==> |more| == 1
    ensures |more| == 1 ==> ns[..r + 1] + more[1..] + ns[r + 1..] == ns
  {
  }

  lemma LongerList(ns: seq<LineNode>, r: nat, more: seq<LineNode>)
    requires r < |ns| && |more| > 0 && Numbered(ns, |ns|)
    ensures var longer := ns[..r + 1] + more[1..] + ns[r + 1..];
            && Numbered(longer, r) && r + |more| - 1 < |longer|
            && longer[r + |more| - 1] == (if |more| == 1 then ns[r] else more[|more| - 1])
            && longer[0] == ns[0] && longer[r] == ns[r]
            && longer[|longer| - 1] == (if r == |ns| - 1 && |more| > 1 then more[|more| - 1] else ns[|ns| - 1])
            && forall n | n in longer :: n in ns || n in more
  {
  }

  lemma EndAfterIs(p: Pos, s: Text)
    ensures EndAfter(p, s).x == if |s| == 1 then p.x + |s[0]| else |s[|s| - 1]|
    ensures EndAfter(p, s).row == p.row + |s| - 1
  {
  }

  /** Meld a list into another at the given place. */
  method Meld(line: LineNode, x: nat, head: LineNode, last: LineNode,
              ghost ns: seq<LineNode>, ghost r: nat, ghost more: seq<LineNode>)
    returns (cur: LineNode, curX: nat, ghost longer: seq<LineNode>)
    requires Chain(ns) && Chain(more) && Apart(ns, more) && r < |ns| && ns[r] == line && |more| > 0
    requires more[0] == head && more[|more| - 1] == last && x <= |Texts(ns)[r]|
    requires Numbered(ns, |ns|) && ns[0].prev == null && ns[|ns| - 1].next == null && last.next == null
    modifies ns`data, ns`next, ns`prev, more`data, more`next, more`prev
    ensures var (t, s) := (old(Texts(ns)), old(Texts(more)));
            && Texts(longer) == Join(Join(Head(t, Pos(r, x)), s), Rest(t, Pos(r, x)))
            && r + |s| - 1 < |longer| && longer[r + |s| - 1] == cur
            && curX == EndAfter(Pos(r, x), s).x
    ensures Chain(longer) && Numbered(longer, r) && longer[0] == ns[0] && longer[r] == ns[r]
    ensures longer[0].prev == null && longer[|longer| - 1].next == null
    ensures longer[|longer| - 1] == if old(line.next) == null && |more| > 1 then last else ns[|ns| - 1]
    ensures forall n | n in longer :: n in ns || n in more
  {
    hide *;
    Halves(ns, r + 1);
    NumberedUpTo(ns, r);
    TextsAt(more);
    Halves(more, 0);
    OneNodeIs(more, ns, r);
    EndAfterIs(Pos(r, x), Texts(more));
    if head == last {
      var extralen := |head.data|;
      InsertText(line, x, head.data, ns, r, Texts(more));
      cur, curX, longer := line, x + extralen, ns;
    } else {
      cur, curX := last, |last.data|;
      longer := MeldMany(line, x, head, last, ns, r, more);
    }
  }

  method MeldMany(line: LineNode, x: nat, head: LineNode, last: LineNode,
                  ghost ns: seq<LineNode>, ghost r: nat, ghost more: seq<LineNode>)
    returns (ghost longer: seq<LineNode>)
    requires Chain(ns) && Chain(more) && Apart(ns, more) && r < |ns| && ns[r] == line && |more| > 1
    requires more[0] == head && more[|more| - 1] == last && x <= |Texts(ns)[r]|
    requires Numbered(ns, |ns|) && ns[0].prev == null && ns[|ns| - 1].next == null && last.next == null
    modifies ns`data, ns`next, ns`prev, more`data, more`next, more`prev
    ensures var (t, s) := (old(Texts(ns)), old(Texts(more)));
            && Texts(longer) == Join(Join(Head(t, Pos(r, x)), s), Rest(t, Pos(r, x)))
            && r + |more| - 1 < |longer| && longer[r + |more| - 1] == last
    ensures Chain(longer) && Numbered(longer, r) && longer[0] == ns[0] && longer[r] == ns[r]
    ensures longer[0].prev == null && longer[|longer| - 1].next == null
    ensures longer[|longer| - 1] == if r == |ns| - 1 then last else ns[|ns| - 1]
    ensures forall n | n in longer :: n in ns || n in more
  {
    hide *;
    Halves(ns, 0);
    Halves(more, 0);
    LongerList(ns, r, more);
    longer := HookIn(line, head, last, ns, r, more);
    MoveEnds(line, x, head, last, ns, r, more);
  }

  method InsertText(line: LineNode, x: nat, data: Line, ghost ns: seq<LineNode>, ghost r: nat, ghost s: Text)
    requires Distinct(ns) && r < |ns| && ns[r] == line && x <= |Texts(ns)[r]| && s == [data]
    modifies line`data
    ensures Texts(ns) == Join(Join(Head(old(Texts(ns)), Pos(r, x)), s), Rest(old(Texts(ns)), Pos(r, x)))
  {
    hide Texts, Join, Head, Rest;
    TextsAt(ns);
    GraftText(Texts(ns), r, x, s);
    line.data := line.data[..x] + data + line.data[x..];
    TextsAt(ns);
  }

  /** Cut a region loose, count its characters, and number what is left. */
  method Take(top: LineNode, topX: nat, bot: LineNode, botX: nat, ghost ns: seq<LineNode>, ghost p: nat, ghost q: nat)
    returns (taken: LineNode, last: LineNode, cur: LineNode, count: int, ghost left: seq<LineNode>,
             ghost tk: seq<LineNode>)
    requires Chain(ns) && Numbered(ns, |ns|) && p <= q < |ns| && ns[p] == top && ns[q] == bot
    requires topX <= |Texts(ns)[p]| && botX <= |Texts(ns)[q]| && (p == q ==> topX < botX)
    requires ns[0].prev == null && ns[|ns| - 1].next == null
    modifies ns
    ensures var (t, a, b) := (old(Texts(ns)), Pos(p, topX), Pos(q, botX));
            && Texts(left) == Join(Head(t, a), Rest(t, b)) && Texts(tk) == Segment(t, a, b)
            && count == Characters(Segment(t, a, b))
    ensures p < |left| && Chain(left) && left[0].prev == null && left[|left| - 1].next == null
    ensures Numbered(left, |left|) && left[p] == cur
    ensures left[0] == if cur.prev == null then cur else ns[0]
    ensures left[|left| - 1] == if ns[|ns| - 1] == bot then cur else ns[|ns| - 1]
    ensures |tk| > 0 && Chain(tk) && tk[0] == taken && tk[|tk| - 1] == last && last.next == null
    ensures Apart(left, tk)
    ensures forall n | n in left :: n in ns
    ensures forall n | n in tk :: n in ns || fresh(n)
  {
    hide *;
    ghost var t := Texts(ns);
    Bounds(t, p, topX, q, botX);
    taken, last, cur, left, tk := Sever(top, topX, bot, botX, ns, p, q);
    PartedParts(t, Pos(p, topX), Pos(q, botX), left, tk);
    NullNotIn(tk);
    count := NumberOfCharactersIn(taken, last, tk);
    assert forall i | 0 <= i < |left| :: left[i] in ns;
    RenumberFrom(cur, left, p);
  }

  lemma Bounds(t: Text, p: nat, px: nat, q: nat, qx: nat)
    requires p <= q < |t| && px <= |t[p]| && qx <= |t[q]| && (p == q ==> px < qx)
    ensures ValidPos(t, Pos(p, px)) && ValidPos(t, Pos(q, qx)) && Before(Pos(p, px), Pos(q, qx))
  {
  }

  lemma NullNotIn(ns: seq<LineNode>)
    ensures forall n: LineNode? | n == null :: n !in ns
  {
  }

  lemma PartedParts(t: Text, p: Pos, q: Pos, left: seq<LineNode>, tk: seq<LineNode>)
    requires ValidPos(t, p) && ValidPos(t, q) && Before(p, q) && Parted(t, p, q, left, tk)
    ensures p.row < |left| && Chain(left) && left[0].prev == null && left[|left| - 1].next == null
    ensures Texts(left) == Join(Head(t, p), Rest(t, q)) && Numbered(left, p.row)
    ensures |tk| > 0 && Chain(tk) && tk[|tk| - 1].next == null && Texts(tk) == Segment(t, p, q)
    ensures Apart(left, tk)
    ensures p.row > 0 ==> left[p.row].prev == left[p.row - 1]
  {
    hide Texts, Join, Head, Rest, Segment;
  }

  lemma ApartPieces(ns: seq<LineNode>, left: seq<LineNode>, tk: seq<LineNode>, cut: seq<LineNode>)
    requires Apart(ns, cut)
    requires forall n | n in left :: n in ns
    requires forall n | n in tk :: n in ns || n !in cut
    ensures Apart(left, cut) && Apart(tk, cut)
  {
    forall i, j | 0 <= i < |left| && 0 <= j < |cut|
      ensures left[i] != cut[j]
    {
      assert left[i] in ns;
    }
    forall i, j | 0 <= i < |tk| && 0 <= j < |cut|
      ensures tk[i] != cut[j]
    {
      assert tk[i] in tk;
    }
  }

  lemma ApartAdded(ns: seq<LineNode>, n: LineNode, cut: seq<LineNode>)
    requires Apart(ns, cut) && n !in cut
    ensures Apart(ns + [n], cut)
  {
  }

  /** The last node of a list, found by walking it. */
  method BottomOf(head: LineNode, ghost ns: seq<LineNode>) returns (last: LineNode)
    requires Chain(ns) && |ns| > 0 && ns[0] == head && ns[|ns| - 1].next == null
    ensures last == ns[|ns| - 1]
  {
    last := head;
    ghost var k := 0;
    while last.next != null
      invariant k < |ns| && last == ns[k]
      decreases |ns| - k
    {
      last, k := last.next, k + 1;
    }
  }

  /** Meld a list into another, count its characters, and number the result. */
  method Put(line: LineNode, x: nat, head: LineNode, bot: LineNode,
             ghost ns: seq<LineNode>, ghost r: nat, ghost more: seq<LineNode>)
    returns (bottom: LineNode, cur: LineNode, curX: nat, count: int, ghost longer: seq<LineNode>)
    requires Chain(ns) && Chain(more) && Apart(ns, more) && r < |ns| && ns[r] == line && |more| > 0
    requires more[0] == head && more[|more| - 1].next == null && x <= |Texts(ns)[r]| && ns[|ns| - 1] == bot
    requires Numbered(ns, |ns|) && ns[0].prev == null && ns[|ns| - 1].next == null
    modifies ns, more
    ensures var (t, s) := (old(Texts(ns)), old(Texts(more)));
            && Texts(longer) == Join(Join(Head(t, Pos(r, x)), s), Rest(t, Pos(r, x)))
            && r + |s| - 1 < |longer| && longer[r + |s| - 1] == cur
            && Pos(r + |s| - 1, curX) == EndAfter(Pos(r, x), s)
            && count == Characters(s)
    ensures Chain(longer) && Numbered(longer, |longer|) && longer[0] == ns[0]
    ensures longer[0].prev == null && longer[|longer| - 1].next == null && longer[|longer| - 1] == bottom
    ensures forall n | n in longer :: n in ns || n in more
  {
    hide *;
    NullNotIn(more);
    Halves(more, 0);
    OneNodeIs(more, ns, r);
    var last := BottomOf(head, more);
    EndAfterIs(Pos(r, x), Texts(more));
    count := NumberOfCharactersIn(head, last, more);
    bottom := if head != last && line.next == null then last else bot;
    cur, curX, longer := Meld(line, x, head, last, ns, r, more);
    assert forall i | 0 <= i < |longer| :: longer[i] in ns || longer[i] in more;
    RenumberFrom(line, longer, r);
  }

  /** Put a new line after row r of a list. */
  method SpliceNew(line: LineNode, data: Line, ghost ns: seq<LineNode>, ghost r: nat)
    returns (node: LineNode, ghost longer: seq<LineNode>)
    requires Chain(ns) && Numbered(ns, |ns|) && r < |ns| && ns[r] == line
    requires ns[0].prev == null && ns[|ns| - 1].next == null
    modifies ns`next, ns`prev
    ensures fresh(node) && Texts(longer) == old(Texts(ns))[..r + 1] + [data] + old(Texts(ns))[r + 1..]
    ensures |longer| == |ns| + 1 && Chain(longer) && longer[0] == ns[0] && longer[r] == line && longer[r + 1] == node
    ensures longer[|longer| - 1] == if ns[|ns| - 1] == line then node else ns[|ns| - 1]
    ensures longer[0].prev == null && longer[|longer| - 1].next == null && Numbered(longer, r + 1)
    ensures forall n | n in longer :: n in ns || n == node
    ensures forall n | n in ns :: n in longer
  {
    hide *;
    TextsTake(ns, r + 1);
    TextsDrop(ns, r + 1);
    node := new LineNode(line, data);
    Halves(ns, 0);
    longer := SpliceNode(line, node, ns, r);
    OneNode(node);
    TextsConcat(ns[..r + 1], [node]);
    TextsConcat(ns[..r + 1] + [node], ns[r + 1..]);
    LongerByOne(ns, r, node);
  }

  /** The same, and number the rows from there on. */
  method InsertAfter(line: LineNode, data: Line, bot: LineNode, ghost ns: seq<LineNode>, ghost r: nat)
    returns (node: LineNode, bottom: LineNode, ghost longer: seq<LineNode>)
    requires Chain(ns) && Numbered(ns, |ns|) && r < |ns| && ns[r] == line && ns[|ns| - 1] == bot
    requires ns[0].prev == null && ns[|ns| - 1].next == null
    modifies ns`next, ns`prev, ns`lineno
    ensures fresh(node) && Texts(longer) == old(Texts(ns))[..r + 1] + [data] + old(Texts(ns))[r + 1..]
    ensures Chain(longer) && Numbered(longer, |longer|) && longer[0] == ns[0] && longer[|longer| - 1] == bottom
    ensures longer[0].prev == null && longer[|longer| - 1].next == null
    ensures |longer| == |ns| + 1 && longer[r] == line && longer[r + 1] == node
    ensures forall n | n in longer :: n in ns || n == node
    ensures forall n | n in ns :: n in longer
  {
    hide *;
    node, longer := SpliceNew(line, data, ns, r);
    bottom := if bot == line then node else bot;
    assert forall i | 0 <= i < |longer| :: longer[i] in ns || longer[i] == node;
    RenumberFrom(node, longer, r + 1);
  }

  lemma LongerByOne(ns: seq<LineNode>, r: nat, node: LineNode)
    requires Distinct(ns) && r < |ns| && Numbered(ns, |ns|)
    ensures var longer := ns[..r + 1] + [node] + ns[r + 1..];
            && |longer| == |ns| + 1 && longer[0] == ns[0] && longer[r] == ns[r] && longer[r + 1] == node
            && (forall n | n in longer :: n in ns || n == node) && (forall n | n in ns :: n in longer)
            && longer[|longer| - 1] == (if ns[|ns| - 1] == ns[r] then node else ns[|ns| - 1])
            && Numbered(longer, r + 1)
  {
  }

  /** Take the line after row r out of a list, and number the rows from r on. */
  method RemoveAfter(line: LineNode, bot: LineNode, ghost ns: seq<LineNode>, ghost r: nat)
    returns (bottom: LineNode, ghost shorter: seq<LineNode>)
    requires Chain(ns) && Numbered(ns, |ns|) && r + 1 < |ns| && ns[r] == line && ns[|ns| - 1] == bot
    requires ns[0].prev == null && ns[|ns| - 1].next == null
    modifies ns`next, ns`prev, ns`lineno
    ensures Texts(shorter) == old(Texts(ns))[..r + 1] + old(Texts(ns))[r + 2..]
    ensures Chain(shorter) && Numbered(shorter, |shorter|) && |shorter| == |ns| - 1
    ensures shorter[0] == ns[0] && shorter[|shorter| - 1] == bottom && shorter[r] == line
    ensures shorter[0].prev == null && shorter[|shorter| - 1].next == null
    ensures forall n | n in shorter :: n in ns
  {
    hide *;
    TextsTake(ns, r + 1);
    TextsDrop(ns, r + 2);
    Halves(ns, r + 1);
    ShorterByOne(ns, r);
    var eaten := line.next;
    shorter := UnlinkNode(eaten, ns, r + 1);
    TextsConcat(ns[..r + 1], ns[r + 2..]);
    bottom := if bot == eaten then line else bot;
    assert forall i | 0 <= i < |shorter| :: shorter[i] in ns;
    RenumberFrom(line, shorter, r);
  }

  lemma ShorterByOne(ns: seq<LineNode>, r: nat)
    requires Distinct(ns) && r + 1 < |ns| && Numbered(ns, |ns|)
    ensures var shorter := ns[..r + 1] + ns[r + 2..];
            && |shorter| == |ns| - 1 && shorter[0] == ns[0] && shorter[r] == ns[r]
            && shorter[|shorter| - 1] == (if ns[|ns| - 1] == ns[r + 1] then ns[r] else ns[|ns| - 1])
            && (forall n | n in shorter :: n in ns) && Numbered(shorter, r)
  {
  }

  lemma ApartMerged(ns: seq<LineNode>, more: seq<LineNode>, longer: seq<LineNode>, cut: seq<LineNode>)
    requires Apart(ns, cut) && Apart(more, cut)
    requires forall n | n in longer :: n in ns || n in more
    ensures Apart(longer, cut)
  {
    forall i, j | 0 <= i < |longer| && 0 <= j < |cut|
      ensures longer[i] != cut[j]
    {
      assert longer[i] in longer;
    }
  }

  lemma CursorIn(t: Text, p: Pos)
    requires p.row < |t| && p.x <= |t[p.row]|
    ensures ValidPos(t, p)
  {
  }

  lemma KeepAllButLast(ns: seq<LineNode>)
    requires |ns| > 1 && Chain(ns) && Numbered(ns, |ns|)
    ensures var keep := ns[..|ns| - 1];
            && |keep| > 0 && Numbered(keep, |keep|) && keep[0] == ns[0] && (forall n | n in keep :: n in ns)
            && keep[|keep| - 1] == ns[|ns| - 2] == ns[|ns| - 1].prev
  {
  }
}

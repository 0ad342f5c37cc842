/** The open file: the fields of openfilestruct that editing uses, and the
    cutbuffer, over the linked lists of lines (cut.c, utils.c, search.c). */
module Buffer {
  import opened Chars
  import opened Lines
  import opened LineList
  import EM = EditModel
  import opened Options

  /** What the cutbuffer holds after the region from p to q has been added to it. */
  ghost function Gathered(was: Option<Text>, t: Text, p: Pos, q: Pos): Option<Text>
    requires ValidPos(t, p) && ValidPos(t, q) && Before(p, q)
  {
    if p == q then was
    else Some(if was.None? then Segment(t, p, q) else Join(was.value, Segment(t, p, q)))
  }

  lemma GatheredIs(was: Option<Text>, t: Text, p: Pos, q: Pos)
    requires ValidPos(t, p) && ValidPos(t, q) && Before(p, q) && p != q
    ensures Gathered(was, t, p, q) == Some(if was.None? then Segment(t, p, q) else Join(was.value, Segment(t, p, q)))
  {
  }

  /** The buffer held text t and counted `size`; extract_segment with the region
      from p to q gives t', with the cursor at `at`, and counts size'. */
  ghost predicate ExtractedFrom(noNewlines: bool, t: Text, p: Pos, q: Pos, size: int, t': Text, at: Pos, size': int) {
    && ValidPos(t, p) && ValidPos(t, q) && Before(p, q)
    && t' == Extracted(noNewlines, t, p, q)
    && if p == q then at.row == p.row && size' == size
       else
         && at == p
         && size' == size - Characters(Segment(t, p, q)) + (if t' != Join(Head(t, p), Rest(t, q)) then 1 else 0)
  }

  lemma MakeExtracted(noNewlines: bool, t: Text, p: Pos, q: Pos, size: int, t': Text, size': int)
    requires ValidPos(t, p) && ValidPos(t, q) && Before(p, q) && p != q
    requires var j := Join(Head(t, p), Rest(t, q));
             if !noNewlines && Last(j) != [] then
               t' == j + [[]] && size' == size - Characters(Segment(t, p, q)) + 1
             else
               t' == j && size' == size - Characters(Segment(t, p, q))
    ensures ExtractedFrom(noNewlines, t, p, q, size, t', p, size')
  {
    hide Join, Head, Rest, Segment, Characters, ValidPos;
  }

  /** The same for ingraft_buffer with text s at p. */
  ghost predicate GraftedInto(noNewlines: bool, t: Text, p: Pos, s: Text, size: int, t': Text, at: Pos, size': int) {
    && ValidPos(t, p)
    && t' == Grafted(noNewlines, t, p, s) && at == EndAfter(p, s)
    && size' == size + Characters(s) + (if t' != Join(Join(Head(t, p), s), Rest(t, p)) then 1 else 0)
  }

  lemma MakeGrafted(noNewlines: bool, t: Text, p: Pos, s: Text, size: int, t': Text, size': int)
    requires ValidPos(t, p)
    requires var j := Join(Join(Head(t, p), s), Rest(t, p));
             if !noNewlines && Last(j) != [] then t' == j + [[]] && size' == size + Characters(s) + 1
             else t' == j && size' == size + Characters(s)
    ensures GraftedInto(noNewlines, t, p, s, size, t', EndAfter(p, s), size')
  {
    hide Join, Head, Rest, Characters, ValidPos, EndAfter;
  }

  class OpenFile {
    var filetop: LineNode
    var filebot: LineNode
    var current: LineNode
    var x: nat
    var totsize: int
    var cutbuffer: LineNode?
    var cutbottom: LineNode?
    ghost var nodes: seq<LineNode>
    ghost var cut: seq<LineNode>

    /** make_new_buffer: one empty line. */
    constructor ()
      ensures Valid() && fresh(nodes) && cut == []
      ensures Lines() == EMPTY && Row() == 0 && x == 0 && totsize == 0 && CutLines() == None
    {
      var line := new LineNode(null, []);
      filetop, filebot, current := line, line, line;
      x, totsize := 0, 0;
      cutbuffer, cutbottom := null, null;
      nodes, cut := [line], [];
    }

    /** The nodes of the buffer are linked from filetop to a last node. */
    ghost predicate Spine()
      reads this`filetop, this`nodes, nodes`next, nodes`prev
    {
      && |nodes| > 0 && Chain(nodes)
      && nodes[0].prev == null && nodes[|nodes| - 1].next == null
      && filetop == nodes[0]
    }

    ghost predicate CutSpine()
      reads this`cutbuffer, this`cutbottom, this`cut, cut`next, cut`prev
    {
      if cutbuffer == null then cut == []
      else
        && |cut| > 0 && Chain(cut) && cut[|cut| - 1].next == null
        && cutbuffer == cut[0] && cutbottom == cut[|cut| - 1]
    }

    ghost predicate Valid()
      reads this, nodes, cut
    {
      && Spine() && filebot == nodes[|nodes| - 1]
      && Numbered(nodes, |nodes|)
      && current in nodes
      && CutSpine() && Apart(nodes, cut)
    }

    /** The text that the list holds. */
    ghost function Lines(): Text
      requires |nodes| > 0
      reads this, nodes`data
    {
      Texts(nodes)
    }

    ghost function Row(): (r: nat)
      requires Valid()
      reads this, nodes, cut
      ensures r < |nodes| && nodes[r] == current && r == current.lineno - 1
    {
      current.lineno - 1
    }

    ghost function CutLines(): Option<Text>
      requires CutSpine()
      reads this`cutbuffer, this`cutbottom, this`cut, cut`data, cut`next, cut`prev
    {
      if cutbuffer == null then None else Some(Texts(cut))
    }

    /** What a valid buffer's parts are. */
    lemma Parts()
      requires Valid()
      ensures |nodes| > 0 && Chain(nodes) && Distinct(nodes) && Spine()
      ensures nodes[0].prev == null && nodes[|nodes| - 1].next == null
      ensures filetop == nodes[0] && filebot == nodes[|nodes| - 1]
      ensures Numbered(nodes, |nodes|) && CutSpine() && Apart(nodes, cut)
      ensures Row() < |nodes| && nodes[Row()] == current
      ensures Lines() == Texts(nodes)
    {
    }

    lemma MakeValid(r: nat)
      requires |nodes| > 0 && Chain(nodes) && nodes[0].prev == null && nodes[|nodes| - 1].next == null
      requires filetop == nodes[0] && filebot == nodes[|nodes| - 1] && Numbered(nodes, |nodes|)
      requires r < |nodes| && nodes[r] == current && CutSpine() && Apart(nodes, cut)
      ensures Valid() && Row() == r && Lines() == Texts(nodes)
    {
      hide Chain, Texts, CutSpine, Apart;
    }

    /** new_magicline. */
    method NewMagicLine()
      requires Valid()
      modifies this`filebot, this`totsize, this`nodes, nodes`next
      ensures Valid() && Lines() == old(Lines()) + [[]] && totsize == old(totsize) + 1 && Row() == old(Row())
      ensures |nodes| == |old(nodes)| + 1 && fresh(filebot)
      ensures forall n | n in nodes :: n in old(nodes) || n == filebot
      ensures forall i | 0 <= i < |nodes| :: nodes[i] in old(nodes) || fresh(nodes[i])
      ensures CutLines() == old(CutLines())
    {
      hide *;
      Parts();
      ghost var longer;
      filebot, longer := AddLast(filebot, [], nodes);
      ApartAdded(nodes, filebot, cut);
      nodes := longer;
      totsize := totsize + 1;
      MakeValid(old(Row()));
    }

    /** Let the fields speak of the given list. */
    method Install(top: LineNode, bot: LineNode, cur: LineNode, curX: nat, size: int,
                   ghost ns: seq<LineNode>, ghost r: nat)
      requires |ns| > 0 && Chain(ns) && ns[0].prev == null && ns[|ns| - 1].next == null && Numbered(ns, |ns|)
      requires ns[0] == top && ns[|ns| - 1] == bot && r < |ns| && ns[r] == cur
      requires CutSpine() && Apart(ns, cut)
      modifies this`filetop, this`filebot, this`current, this`x, this`totsize, this`nodes
      ensures Valid() && nodes == ns && Row() == r && Lines() == Texts(ns) && x == curX && totsize == size
    {
      hide *;
      filetop, filebot, current, x, totsize := top, bot, cur, curX, size;
      nodes := ns;
      MakeValid(r);
    }

    /** The part of extract_segment that takes the region out of the buffer. */
    method Excise(top: LineNode, topX: nat, bot: LineNode, botX: nat, ghost p: nat, ghost q: nat)
      returns (taken: LineNode, last: LineNode, ghost tk: seq<LineNode>)
      requires Valid() && p <= q < |nodes| && nodes[p] == top && nodes[q] == bot
      requires topX <= |Lines()[p]| && botX <= |Lines()[q]| && (p == q ==> topX < botX)
      modifies this`filetop, this`filebot, this`current, this`x, this`totsize, this`nodes, nodes
      ensures var (t, a, b) := (old(Lines()), Pos(p, topX), Pos(q, botX));
              && Valid() && Lines() == Join(Head(t, a), Rest(t, b)) && Row() == p && x == topX
              && totsize == old(totsize) - Characters(Segment(t, a, b))
              && Texts(tk) == Segment(t, a, b)
      ensures |tk| > 0 && Chain(tk) && tk[0] == taken && tk[|tk| - 1] == last && last.next == null
      ensures Apart(nodes, tk) && Apart(tk, cut) && CutLines() == old(CutLines())
      ensures forall n | n in nodes :: n in old(nodes)
      ensures forall n | n in tk :: n in old(nodes) || fresh(n)
    {
      hide *;
      Parts();
      var cur, count;
      ghost var left;
      taken, last, cur, count, left, tk := Take(top, topX, bot, botX, nodes, p, q);
      ApartPieces(nodes, left, tk, cut);
      Install(if cur.prev == null then cur else filetop, if filebot == bot then cur else filebot,
              cur, topX, totsize - count, left, p);
    }

    /** The part of extract_segment that puts the region into the cutbuffer. */
    method AppendToCut(taken: LineNode, last: LineNode, ghost tk: seq<LineNode>)
      requires Valid() && |tk| > 0 && Chain(tk) && tk[0] == taken && tk[|tk| - 1] == last && last.next == null
      requires Apart(nodes, tk) && Apart(tk, cut)
      modifies this`cutbuffer, this`cutbottom, this`cut, cut`data, cut`next, tk`prev
      ensures Valid() && Lines() == old(Lines()) && Row() == old(Row()) && CutLines().Some?
      ensures var was := old(CutLines());
              CutLines().value == if was.None? then old(Texts(tk)) else Join(was.value, old(Texts(tk)))
      ensures forall n | n in cut :: n in old(cut) || n in tk
    {
      hide Valid, Row, Lines, CutLines, Spine, CutSpine, Chain, Distinct, Texts, Numbered, Join;
      Parts();
      CutParts();
      ghost var all := tk;
      if cutbuffer == null {
        cutbuffer, cutbottom := taken, last;
      } else {
        cutbottom, all := Append(cutbottom, taken, last, cut, tk);
      }
      cut := all;
      MakeCut();
      MakeValid(old(Row()));
    }

    lemma CutParts()
      requires CutSpine()
      ensures if cutbuffer == null then cut == [] && CutLines() == None
              else
                && |cut| > 0 && Chain(cut) && cut[|cut| - 1].next == null
                && cutbuffer == cut[0] && cutbottom == cut[|cut| - 1] && CutLines() == Some(Texts(cut))
    {
      hide Chain, Texts;
    }

    lemma MakeCut()
      requires cutbuffer != null && |cut| > 0 && Chain(cut) && cut[|cut| - 1].next == null
      requires cutbuffer == cut[0] && cutbottom == cut[|cut| - 1]
      ensures CutSpine() && CutLines() == Some(Texts(cut))
    {
      hide Chain, Texts;
    }

    /** extract_segment: move a region of the buffer to the cutbuffer. */
    method ExtractSegment(noNewlines: bool, top: LineNode, topX: nat, bot: LineNode, botX: nat,
                          ghost p: nat, ghost q: nat)
      requires Valid() && p <= q < |nodes| && nodes[p] == top && nodes[q] == bot
      requires topX <= |Lines()[p]| && botX <= |Lines()[q]| && (p == q ==> topX <= botX && current == top)
      modifies this, nodes, cut
      ensures Valid()
      ensures var (t, a, b) := (old(Lines()), Pos(p, topX), Pos(q, botX));
              && ExtractedFrom(noNewlines, t, a, b, old(totsize), Lines(), Pos(Row(), x), totsize)
              && CutLines() == Gathered(old(CutLines()), t, a, b)
              && (a == b ==> x == old(x))
      ensures forall n | n in nodes || n in cut :: n in old(nodes) || n in old(cut) || fresh(n)
    {
      hide *;
      Parts();
      SameRow(nodes, p, q);
      if top == bot && topX == botX {
        NothingExtracted(noNewlines, Pos(p, topX));
        return;
      }
      ghost var (t, a, b) := (Lines(), Pos(p, topX), Pos(q, botX));
      Bounds(t, p, topX, q, botX);
      var taken, last;
      ghost var tk;
      taken, last, tk := Excise(top, topX, bot, botX, p, q);
      assert forall i | 0 <= i < |tk| :: tk[i] in old(nodes) || fresh(tk[i]);
      AppendToCut(taken, last, tk);
      BottomText();
      assert forall i | 0 <= i < |nodes| :: nodes[i] in old(nodes);
      if !noNewlines && filebot.data != [] {
        NewMagicLine();
      }
      MakeExtracted(noNewlines, t, a, b, old(totsize), Lines(), totsize);
      GatheredIs(old(CutLines()), t, a, b);
    }

    lemma NothingExtracted(noNewlines: bool, p: Pos)
      requires Valid() && p.row < |nodes| && p.x <= |Lines()[p.row]| && nodes[p.row] == current
      ensures ExtractedFrom(noNewlines, Lines(), p, p, totsize, Lines(), Pos(Row(), x), totsize)
      ensures CutLines() == Gathered(CutLines(), Lines(), p, p)
    {
      SameRow(nodes, p.row, Row());
    }

    lemma BottomText()
      requires Valid()
      ensures filebot.data == Last(Lines())
    {
      TextsAt(nodes);
    }

    /** ingraft_buffer: meld a list into the buffer at the cursor. */
    method IngraftBuffer(noNewlines: bool, topline: LineNode, ghost more: seq<LineNode>)
      requires Valid() && x <= |Lines()[Row()]|
      requires |more| > 0 && Chain(more) && more[0] == topline && more[|more| - 1].next == null
      requires Apart(nodes, more) && Apart(more, cut)
      modifies this`filetop, this`filebot, this`current, this`x, this`totsize, this`nodes, nodes, more
      ensures Valid() && CutLines() == old(CutLines())
      ensures GraftedInto(noNewlines, old(Lines()), Pos(old(Row()), old(x)), old(Texts(more)), old(totsize),
                          Lines(), Pos(Row(), x), totsize)
      ensures forall n | n in nodes :: n in old(nodes) || n in more || fresh(n)
    {
      hide Valid, Row, Lines, CutLines, Spine, CutSpine, Chain, Distinct, Texts, Numbered, Join, Head, Rest,
        GraftedInto, ValidPos, EndAfter, Characters;
      Parts();
      ghost var (t, p, s) := (Lines(), Pos(Row(), x), Texts(more));
      ghost var longer;
      var bottom, cur, curX, count;
      bottom, cur, curX, count, longer := Put(current, x, topline, filebot, nodes, Row(), more);
      ApartMerged(nodes, more, longer, cut);
      Install(filetop, bottom, cur, curX, totsize + count, longer, p.row + |s| - 1);
      BottomText();
      assert forall i | 0 <= i < |nodes| :: nodes[i] in old(nodes) || nodes[i] in more;
      if !noNewlines && filebot.data != [] {
        NewMagicLine();
      }
      CursorIn(t, p);
      MakeGrafted(noNewlines, t, p, s, old(totsize), Lines(), totsize);
    }

    /** Change the text of one line. */
    method SetData(line: LineNode, data: Line, ghost r: nat)
      requires Valid() && r < |nodes| && nodes[r] == line
      modifies line`data
      ensures Valid() && Lines() == old(Lines())[r := data] && Row() == old(Row()) && CutLines() == old(CutLines())
    {
      hide Texts;
      TextsAt(nodes);
      line.data := data;
      TextsAt(nodes);
    }

    /** Put a new line after the given one, and renumber; the cursor stays on its
        line. */
    method InsertLine(line: LineNode, data: Line, ghost r: nat) returns (node: LineNode)
      requires Valid() && r < |nodes| && nodes[r] == line
      modifies this`filetop, this`filebot, this`current, this`x, this`totsize, this`nodes
      modifies nodes`next, nodes`prev, nodes`lineno
      ensures Valid() && Lines() == old(Lines())[..r + 1] + [data] + old(Lines())[r + 1..]
      ensures r + 1 < |nodes| && nodes[r] == line && nodes[r + 1] == node && fresh(node)
      ensures current == old(current) && x == old(x) && totsize == old(totsize) && CutLines() == old(CutLines())
      ensures forall n | n in nodes :: n in old(nodes) || fresh(n)
    {
      hide Valid, Row, Lines, CutLines, Spine, CutSpine, Chain, Distinct, Texts, Numbered;
      Parts();
      ghost var longer;
      var bottom;
      node, bottom, longer := InsertAfter(line, data, filebot, nodes, r);
      ApartMerged(nodes, [node], longer, cut);
      assert current in nodes && current in longer;
      ghost var at :| 0 <= at < |longer| && longer[at] == current;
      Install(filetop, bottom, current, x, totsize, longer, at);
    }

    /** Take the line after the given one out, and renumber; the cursor's line
        becomes the given one. */
    method RemoveLine(line: LineNode, ghost r: nat)
      requires Valid() && r + 1 < |nodes| && nodes[r] == line
      modifies this`filetop, this`filebot, this`current, this`x, this`totsize, this`nodes
      modifies nodes`next, nodes`prev, nodes`lineno
      ensures Valid() && Lines() == old(Lines())[..r + 1] + old(Lines())[r + 2..] && Row() == r
      ensures x == old(x) && totsize == old(totsize) && CutLines() == old(CutLines())
      ensures forall n | n in nodes :: n in old(nodes)
    {
      hide Valid, Row, Lines, CutLines, Spine, CutSpine, Chain, Distinct, Texts, Numbered;
      Parts();
      ghost var shorter;
      var bottom;
      bottom, shorter := RemoveAfter(line, filebot, nodes, r);
      ApartMerged(nodes, [], shorter, cut);
      Install(filetop, bottom, line, x, totsize, shorter, r);
    }

    /** remove_magicline. */
    method RemoveMagicLine()
      requires Valid()
      modifies this`filetop, this`filebot, this`current, this`x, this`totsize, this`nodes, nodes`next
      ensures var t := old(Lines());
              && Valid() && CutLines() == old(CutLines()) && x == old(x)
              && (if Last(t) == [] && |t| > 1 then
                    && Lines() == t[..|t| - 1] && totsize == old(totsize) - 1
                    && Row() == (if old(Row()) == |t| - 1 then |t| - 2 else old(Row()))
                  else Lines() == t && totsize == old(totsize) && Row() == old(Row()))
      ensures forall n | n in nodes :: n in old(nodes)
    {
      hide Valid, Row, Lines, CutLines, Spine, CutSpine, Chain, Distinct, Texts, Numbered;
      Parts();
      BottomText();
      SameRow(nodes, 0, |nodes| - 1);
      SameRow(nodes, Row(), |nodes| - 1);
      if filebot.data == [] && filebot != filetop {
        ghost var (r, keep) := (Row(), nodes[..|nodes| - 1]);
        Halves(nodes, |nodes| - 1);
        TextsTake(nodes, |nodes| - 1);
        KeepAllButLast(nodes);
        ApartMerged(nodes, [], keep, cut);
        var cur, bot := if current == filebot then current.prev else current, filebot.prev;
        Terminate(bot, keep);
        Install(filetop, bot, cur, x, totsize - 1, keep, if r == |nodes| - 1 then r - 1 else r);
      }
    }

    /** line_from_number: walk from the current line to the one with the given
        number. */
    method LineFromNumber(number: nat) returns (line: LineNode)
      requires Valid() && 1 <= number <= |nodes|
      ensures line == nodes[number - 1]
    {
      line := current;
      if line.lineno > number {
        while line.lineno != number
          invariant line.lineno >= number && line.lineno <= |nodes| && nodes[line.lineno - 1] == line
        {
          line := line.prev;
        }
      } else {
        while line.lineno != number
          invariant 1 <= line.lineno <= number && nodes[line.lineno - 1] == line
          decreases number - line.lineno
        {
          line := line.next;
        }
      }
    }

    /** goto_line_posx; rows count from zero. */
    method GotoLinePosx(number: nat, posX: nat)
      requires Valid() && 1 <= number
      modifies this`current, this`x
      ensures Valid() && Row() == (if number < |nodes| then number else |nodes|) - 1 && x == posX
      ensures Lines() == old(Lines()) && CutLines() == old(CutLines())
    {
      assert filebot.lineno == |nodes|;
      if number < filebot.lineno {
        current := LineFromNumber(number);
      } else {
        current := filebot;
      }
      x := posX;
    }

    /** The text of the buffer, read out of its list. */
    method ReadLines() returns (t: Text)
      requires Valid()
      ensures t == Lines()
    {
      hide Numbered, Distinct, Apart, Texts;
      t := ReadOut(filetop, nodes);
    }

    /** The text in the cutbuffer, read out of its list. */
    method CutbufferText() returns (t: Option<Text>)
      requires Valid()
      ensures t == CutLines()
    {
      if cutbuffer == null {
        t := None;
      } else {
        var s := ReadOut(cutbuffer, cut);
        t := Some(s);
      }
    }

    /** Let the cutbuffer be a list of its own that holds the given text. */
    method SetCutbuffer(t: Option<Text>)
      requires Valid()
      modifies this`cutbuffer, this`cutbottom, this`cut
      ensures Valid() && CutLines() == t && Lines() == old(Lines()) && Row() == old(Row()) && fresh(cut)
    {
      hide Valid, Row, Lines, Spine, Chain, Distinct, Texts, Numbered;
      Parts();
      if t.None? {
        cutbuffer, cut := null, [];
      } else {
        var head, last;
        ghost var ns;
        head, last, ns := Build(t.value);
        cutbuffer, cutbottom, cut := head, last, ns;
      }
      MakeValid(old(Row()));
    }

    /** extract_segment with another list in place of the cutbuffer, which then is
        what it was; the result is what that list holds at the end. */
    method ExtractAside(noNewlines: bool, prior: Option<Text>, top: LineNode, topX: nat, bot: LineNode, botX: nat,
                        ghost p: nat, ghost q: nat)
      returns (result: Option<Text>)
      requires Valid() && p <= q < |nodes| && nodes[p] == top && nodes[q] == bot
      requires topX <= |Lines()[p]| && botX <= |Lines()[q]| && (p == q ==> topX <= botX && current == top)
      modifies this, nodes
      ensures Valid() && CutLines() == old(CutLines())
      ensures var (t, a, b) := (old(Lines()), Pos(p, topX), Pos(q, botX));
              && ExtractedFrom(noNewlines, t, a, b, old(totsize), Lines(), Pos(Row(), x), totsize)
              && result == Gathered(prior, t, a, b)
              && (a == b ==> x == old(x))
      ensures forall n | n in nodes :: n in old(nodes) || fresh(n)
    {
      hide Valid, Row, Lines, Spine, Chain, Distinct, Texts, Numbered, Gathered, CutLines, CutSpine,
        Extracted, Join, Head, Rest, Segment, Characters;
      Parts();
      CutParts();
      var wasbuffer, wasbottom := cutbuffer, cutbottom;
      ghost var wascut := cut;
      SetCutbuffer(prior);
      ExtractSegment(noNewlines, top, topX, bot, botX, p, q);
      result := CutbufferText();
      forall i, j | 0 <= i < |nodes| && 0 <= j < |wascut|
        ensures nodes[i] != wascut[j]
      {
        assert nodes[i] in nodes;
      }
      RestoreCutbuffer(wasbuffer, wasbottom, wascut);
    }

    /** Let the cutbuffer be a list that was put aside.  The source puts back only its
        head; its pointer to the bottom is set again before it is next read. */
    method RestoreCutbuffer(head: LineNode?, bottom: LineNode?, ghost ns: seq<LineNode>)
      requires Valid() && Apart(nodes, ns)
      requires if head == null then ns == []
               else |ns| > 0 && Chain(ns) && ns[|ns| - 1].next == null && head == ns[0] && bottom == ns[|ns| - 1]
      modifies this`cutbuffer, this`cutbottom, this`cut
      ensures Valid() && Lines() == old(Lines()) && Row() == old(Row())
      ensures CutLines() == if head == null then None else Some(Texts(ns))
    {
      hide Valid, Row, Lines, Spine, Chain, Distinct, Texts, Numbered;
      Parts();
      cutbuffer, cutbottom, cut := head, bottom, ns;
      MakeValid(old(Row()));
    }

    /** copy_from_buffer: meld a copy of the given text into the buffer. */
    method CopyFrom(noNewlines: bool, s: Text)
      requires Valid() && x <= |Lines()[Row()]|
      modifies this`filetop, this`filebot, this`current, this`x, this`totsize, this`nodes, nodes
      ensures Valid() && CutLines() == old(CutLines())
      ensures GraftedInto(noNewlines, old(Lines()), Pos(old(Row()), old(x)), s, old(totsize),
                          Lines(), Pos(Row(), x), totsize)
      ensures forall i | 0 <= i < |nodes| :: nodes[i] in old(nodes) || fresh(nodes[i])
    {
      hide Valid, Row, Lines, CutLines, Spine, CutSpine, Chain, Distinct, Texts, Numbered, GraftedInto, Characters;
      Parts();
      var head, last;
      ghost var more;
      head, last, more := Build(s);
      IngraftBuffer(noNewlines, head, more);
    }

    /** copy_from_buffer for the cutbuffer: meld a copy of its list into the buffer. */
    method CopyFromCutbuffer(noNewlines: bool)
      requires Valid() && x <= |Lines()[Row()]| && CutLines().Some?
      modifies this`filetop, this`filebot, this`current, this`x, this`totsize, this`nodes, nodes
      ensures Valid() && CutLines() == old(CutLines())
      ensures GraftedInto(noNewlines, old(Lines()), Pos(old(Row()), old(x)), CutLines().value, old(totsize),
                          Lines(), Pos(Row(), x), totsize)
      ensures forall i | 0 <= i < |nodes| :: nodes[i] in old(nodes) || fresh(nodes[i])
    {
      hide Valid, Row, Lines, Spine, CutSpine, Chain, Distinct, Texts, Numbered, GraftedInto, Characters;
      Parts();
      CutParts();
      hide CutLines;
      var head, last;
      ghost var more;
      head, last, more := CopyBuffer(cutbuffer, cut);
      IngraftBuffer(noNewlines, head, more);
    }

    /** Move the cursor within its line, and correct the count of characters. */
    method Adjust(newX: nat, newSize: int)
      requires Valid()
      modifies this`x, this`totsize
      ensures Valid() && x == newX && totsize == newSize
      ensures Lines() == old(Lines()) && Row() == old(Row()) && CutLines() == old(CutLines())
    {
      x, totsize := newX, newSize;
    }

    /** Put the cursor in another line, and correct the size. */
    method MoveTo(line: LineNode, newX: nat, newSize: int, ghost r: nat)
      requires Valid() && r < |nodes| && nodes[r] == line
      modifies this`current, this`x, this`totsize
      ensures Valid() && Row() == r && x == newX && totsize == newSize
      ensures Lines() == old(Lines()) && CutLines() == old(CutLines())
    {
      current, x, totsize := line, newX, newSize;
    }

    // ----- The buffer's part of the commands ------------------------------------------

    lemma Here()
      requires Valid()
      ensures var (t, r) := (Lines(), Row());
              && r < |t| == |nodes| && nodes[r] == current && current.data == t[r] && current.lineno == r + 1
              && filebot.lineno == |t| && (current == filebot <==> r == |t| - 1)
              && (current == filetop <==> r == 0)
              && (if r < |t| - 1 then
                    && current.next == nodes[r + 1] && nodes[r + 1].data == t[r + 1] && nodes[r + 1].lineno == r + 2
                    && (nodes[r + 1] == filebot <==> r + 1 == |t| - 1)
                  else current.next == null)
              && (r > 0 ==> current.prev == nodes[r - 1])
    {
      TextsAt(nodes);
    }

    lemma RowInText()
      requires Valid()
      ensures Row() < |Lines()| == |nodes| && CutSpine()
    {
    }

    lemma TextAbove()
      requires Valid() && Row() > 0
      ensures current.prev == nodes[Row() - 1] && nodes[Row() - 1].data == Lines()[Row() - 1]
    {
      TextsAt(nodes);
    }

    /** What inject does to the buffer. */
    method InsertAtCursor(noNewlines: bool, burst: Line)
      requires Valid() && x <= |Lines()[Row()]|
      modifies this, nodes
      ensures var (t, r, was) := (old(Lines()), old(Row()), old(x));
              var t1 := t[r := EM.InsertIn(t[r], was, burst)];
              var magic := r == |t| - 1 && !noNewlines;
              && Valid() && Lines() == (if magic then t1 + [[]] else t1) && Row() == r && x == was + |burst|
              && totsize == old(totsize) + Count(burst) + (if magic then 1 else 0)
              && CutLines() == old(CutLines())
    {
      hide *;
      Here();
      var thisline := current;
      var count := MbStrLen(burst);
      InsertedIs(current.data, x, burst);
      SetData(thisline, current.data[..x] + burst + current.data[x..], Row());
      Adjust(x + |burst|, totsize + count);
      Here();
      if thisline == filebot && !noNewlines {
        NewMagicLine();
      }
    }

    /** What do_enter does to the buffer: the current line ends at keepX, and the
        cursor goes into the new line. */
    method BreakAtCursor(keepX: nat, below: Line, newX: nat, newSize: int)
      requires Valid() && keepX <= |Lines()[Row()]|
      modifies this, nodes
      ensures Valid() && Lines() == EM.BreakRow(old(Lines()), old(Row()), keepX, below) && Row() == old(Row()) + 1
      ensures x == newX && totsize == newSize && CutLines() == old(CutLines())
    {
      hide *;
      Here();
      ghost var (t, r) := (Lines(), Row());
      SetData(current, current.data[..keepX], r);
      var newnode := InsertLine(current, below, r);
      MoveTo(newnode, newX, newSize, r + 1);
      BrokenIs(t, r, keepX, below);
    }

    /** What expunge does within a line. */
    method DeleteAtCursor()
      requires Valid() && x < |Lines()[Row()]|
      modifies this, nodes
      ensures var (t, r) := (old(Lines()), old(Row()));
              && Valid() && Lines() == t[r := EM.DeleteFrom(t[r], old(x), CharLength(t[r], old(x)))] && Row() == r
              && x == old(x) && totsize == old(totsize) - 1 && CutLines() == old(CutLines())
    {
      hide *;
      Here();
      var charlen := CharLength(current.data, x);
      DeletedIs(current.data, x, charlen);
      SetData(current, current.data[..x] + current.data[x + charlen..], Row());
      Adjust(x, totsize - 1);
    }

    /** What expunge does at the end of a line that is not the last one. */
    method JoinWithNext()
      requires Valid() && Row() + 1 < |Lines()|
      modifies this, nodes
      ensures var (t, r) := (old(Lines()), old(Row()));
              && Valid() && Lines() == EM.MergeRow(t, r, t[r + 1]) && Row() == r
              && x == old(x) && totsize == old(totsize) - 1 && CutLines() == old(CutLines())
    {
      hide *;
      Here();
      ghost var (t, r) := (Lines(), Row());
      var joining := current.next;
      SetData(current, current.data + joining.data, r);
      RemoveLine(current, r);
      Adjust(x, totsize - 1);
      MergedIs(t, r, t[r + 1]);
    }

    // ----- Undoing and redoing one item ------------------------------------------------

    method RowData(row: nat) returns (data: Line)
      requires Valid() && row < |Lines()|
      ensures data == Lines()[row]
    {
      var line := LineFromNumber(row + 1);
      TextsAt(nodes);
      data := line.data;
    }

    method ChangeRow(row: nat, data: Line)
      requires Valid() && row < |Lines()|
      modifies nodes`data
      ensures Valid() && Lines() == old(Lines())[row := data] && Row() == old(Row()) && CutLines() == old(CutLines())
    {
      hide *;
      Parts();
      var line := LineFromNumber(row + 1);
      SetData(line, data, row);
    }

    /** Break a row in two. */
    method BreakRow(row: nat, at: nat, below: Line)
      requires Valid() && row < |Lines()| && at <= |Lines()[row]|
      modifies this, nodes
      ensures Valid() && Lines() == EM.BreakRow(old(Lines()), row, at, below) && CutLines() == old(CutLines())
    {
      hide *;
      Parts();
      ghost var t := Lines();
      var data := RowData(row);
      ChangeRow(row, data[..at]);
      var line := LineFromNumber(row + 1);
      var intruder := InsertLine(line, below, row);
      BrokenIs(t, row, at, below);
    }

    /** Let a row swallow the next one, with the given text at its end. */
    method MergeRow(row: nat, tail: Line)
      requires Valid() && row + 1 < |Lines()|
      modifies this, nodes
      ensures Valid() && Lines() == EM.MergeRow(old(Lines()), row, tail) && CutLines() == old(CutLines())
    {
      hide *;
      RowInText();
      ghost var t := Lines();
      var data := RowData(row);
      ChangeRow(row, data + tail);
      var line := LineFromNumber(row + 1);
      RemoveLine(line, row);
      MergedIs(t, row, tail);
    }

    /** goto_line_posx, with rows that count from zero. */
    method Goto(row: nat, posX: nat)
      requires Valid()
      modifies this`current, this`x
      ensures Valid() && Pos(Row(), x) == EM.Goto(Lines(), row, posX)
      ensures Lines() == old(Lines()) && CutLines() == old(CutLines())
    {
      GotoLinePosx(row + 1, posX);
    }

    /** remove_magicline, said with the text only. */
    method DropMagicLine()
      requires Valid()
      modifies this, nodes
      ensures Valid() && Lines() == EM.RemoveMagic(old(Lines())) && CutLines() == old(CutLines()) && x == old(x)
      ensures forall i | 0 <= i < |nodes| :: nodes[i] in old(nodes)
      ensures old(Row()) < |Lines()| ==> Row() == old(Row())
    {
      hide *;
      Here();
      RemoveMagicLine();
      DroppedIs(old(Lines()));
    }

    method UndoAdd(noNewlines: bool, i: EM.Item)
      requires Valid() && i.kind == EM.ADD && EM.CanUndo(noNewlines, i, Lines())
      modifies this, nodes
      ensures Valid() && Shows(EM.UndoItem(noNewlines, i, old(Lines()))) && CutLines() == old(CutLines())
    {
      hide Valid, Lines, Row, CutLines, Chain, EM.RemoveMagic, EM.Goto;
      if i.includedLastLine && !noNewlines {
        DropMagicLine();
      }
      var data := RowData(i.tailRow);
      ChangeRow(i.tailRow, data[..i.headX] + data[i.headX + |i.str|..]);
      Goto(i.headRow, i.headX);
    }

    ghost predicate Shows(e: EM.Effect)
      requires Valid()
      reads this, nodes, cut
    {
      Lines() == e.lines && Row() == e.row && x == e.x
    }

    lemma Shown(e: EM.Effect)
      requires Valid() && Shows(e)
      ensures Lines() == e.lines && Row() == e.row && x == e.x
    {
    }

    method UndoEnter(noNewlines: bool, i: EM.Item)
      requires Valid() && i.kind == EM.ENTER && EM.CanUndo(noNewlines, i, Lines())
      modifies this, nodes
      ensures Valid() && Shows(EM.UndoItem(noNewlines, i, old(Lines()))) && CutLines() == old(CutLines())
    {
      hide Valid, Lines, Row, CutLines, Chain, EM.MergeRow, EM.Goto;
      var originalX := if i.headX == 0 then i.tailX else i.headX;
      var regainFrom := if i.headX == 0 then 0 else i.tailX;
      MergeRow(i.tailRow, i.str[regainFrom..]);
      Goto(i.headRow, originalX);
    }

    method UndoDelete(i: EM.Item)
      requires Valid() && i.tailRow < |Lines()| && i.headX <= |Lines()[i.tailRow]|
      modifies this, nodes
      ensures Valid() && Shows(EM.UndoDelete(i, old(Lines()))) && CutLines() == old(CutLines())
    {
      hide Valid, Lines, Row, CutLines, Chain, EM.Goto;
      var data := RowData(i.tailRow);
      ChangeRow(i.tailRow, data[..i.headX] + i.str + data[i.headX..]);
      Goto(i.tailRow, i.tailX);
    }

    method UndoJoin(noNewlines: bool, i: EM.Item)
      requires Valid() && i.kind == EM.JOIN && EM.CanUndo(noNewlines, i, Lines())
      modifies this, nodes
      ensures Valid() && Shows(EM.UndoItem(noNewlines, i, old(Lines()))) && CutLines() == old(CutLines())
    {
      hide Valid, Lines, Row, CutLines, Chain, EM.BreakRow;
      if i.backspaceAtEof && !noNewlines {
        Here();
        Goto(filebot.lineno - 1, 0);
      } else {
        BreakRow(i.tailRow, i.tailX, i.str);
        Goto(i.headRow, i.headX);
      }
    }

    method SwapLine(i: EM.Item) returns (j: EM.Item)
      requires Valid() && i.tailRow < |Lines()|
      modifies this, nodes
      ensures var e := EM.SwapLine(i, old(Lines())); Valid() && Shows(e) && j == e.item
      ensures CutLines() == old(CutLines())
    {
      hide Valid, Lines, Row, CutLines, Chain;
      var data := RowData(i.tailRow);
      j := i.(str := data);
      ChangeRow(i.tailRow, i.str);
      Goto(i.headRow, i.headX);
    }

    method RedoAdd(noNewlines: bool, i: EM.Item)
      requires Valid() && i.kind == EM.ADD && EM.CanRedo(noNewlines, i, Lines())
      modifies this, nodes
      ensures Valid() && Shows(EM.RedoItem(noNewlines, i, old(Lines()))) && CutLines() == old(CutLines())
    {
      hide Valid, Lines, Row, CutLines, Chain, EM.Goto;
      if i.includedLastLine && !noNewlines {
        NewMagicLine();
      }
      var data := RowData(i.tailRow);
      ChangeRow(i.tailRow, data[..i.headX] + i.str + data[i.headX..]);
      Goto(i.tailRow, i.tailX);
    }

    method RedoEnter(noNewlines: bool, i: EM.Item)
      requires Valid() && i.kind == EM.ENTER && EM.CanRedo(noNewlines, i, Lines())
      modifies this, nodes
      ensures Valid() && Shows(EM.RedoItem(noNewlines, i, old(Lines()))) && CutLines() == old(CutLines())
    {
      hide Valid, Lines, Row, CutLines, Chain, EM.BreakRow, EM.Goto;
      BreakRow(i.tailRow, i.headX, i.str);
      Goto(i.headRow + 1, i.tailX);
    }

    method RedoDelete(i: EM.Item)
      requires Valid() && i.tailRow < |Lines()| && i.headX + |i.str| <= |Lines()[i.tailRow]|
      modifies this, nodes
      ensures Valid() && Shows(EM.RedoDelete(i, old(Lines()))) && CutLines() == old(CutLines())
    {
      hide Valid, Lines, Row, CutLines, Chain, EM.Goto;
      var data := RowData(i.tailRow);
      ChangeRow(i.tailRow, data[..i.headX] + data[i.headX + |i.str|..]);
      Goto(i.headRow, i.headX);
    }

    method RedoJoin(noNewlines: bool, i: EM.Item)
      requires Valid() && i.kind == EM.JOIN && EM.CanRedo(noNewlines, i, Lines())
      modifies this, nodes
      ensures Valid() && Shows(EM.RedoItem(noNewlines, i, old(Lines()))) && CutLines() == old(CutLines())
    {
      hide Valid, Lines, Row, CutLines, Chain, EM.MergeRow, EM.Goto;
      if !(i.backspaceAtEof && !noNewlines) {
        MergeRow(i.tailRow, i.str);
      }
      Goto(i.tailRow, i.tailX);
    }

    /** Put the text of a cut or of a paste at its place. */
    method PutBack(noNewlines: bool, i: EM.Item)
      requires Valid() && EM.CanPutBack(i, Lines())
      modifies this, nodes
      ensures var (t, p) := (old(Lines()), EM.Goto(old(Lines()), EM.CutHead(i).row, EM.CutHead(i).x));
              && Valid() && Lines() == (if i.cut.Some? then Grafted(noNewlines, t, p, i.cut.value) else t)
              && Pos(Row(), x) == if i.cut.Some? then EndAfter(p, i.cut.value) else p
      ensures CutLines() == old(CutLines())
      ensures forall i | 0 <= i < |nodes| :: nodes[i] in old(nodes) || fresh(nodes[i])
    {
      hide Valid, Lines, Row, CutLines, Chain, Join, Head, Rest, Grafted, Characters, EndAfter;
      Goto(i.headRow, if i.wholeLine then 0 else i.headX);
      if i.cut.Some? {
        CopyFrom(noNewlines, i.cut.value);
      }
    }

    /** undo_cut: undo a cut, or redo a paste. */
    method UndoCut(noNewlines: bool, i: EM.Item)
      requires Valid() && EM.CanPutBack(i, Lines())
      modifies this, nodes
      ensures Valid() && Shows(EM.UndoCut(noNewlines, i, old(Lines()))) && CutLines() == old(CutLines())
    {
      hide Valid, Lines, Row, CutLines, Spine, CutSpine, Chain, Distinct, Numbered, Texts, Apart, Join, Head, Rest,
        Segment, Grafted, EndAfter, EM.Goto, EM.CutHead, ExtraMagic;
      PutBack(noNewlines, i);
      RowInText();
      var extra := i.includedLastLine && !noNewlines && ExtraMagic();
      if extra {
        DropMagicLine();
      }
      if i.cursorAtHead {
        Goto(i.headRow, i.headX);
      }
    }

    /** Whether there is an empty line before the last one, and the cursor is not
        on that. */
    function ExtraMagic(): (yes: bool)
      requires Valid()
      reads this, nodes, cut
      ensures yes <==> Row() != |Lines()| - 1 && |Lines()| > 1 && Lines()[|Lines()| - 2] == []
    {
      TextsAt(nodes);
      assert filebot != current ==> filebot.prev == nodes[|nodes| - 2];
      filebot != current && filebot.prev.data == []
    }

    /** redo_cut: redo a cut, or undo a paste; also the cutting in the undoing of an
        insertion, which keeps what was cut. */
    method RedoCut(noNewlines: bool, i: EM.Item) returns (taken: Option<Text>)
      requires Valid() && EM.CanTakeAway(i, Lines())
      modifies this, nodes
      ensures Valid() && Shows(EM.RedoCut(noNewlines, i, old(Lines()))) && CutLines() == old(CutLines())
      ensures var (t, p, q) := (old(Lines()), EM.CutHead(i), EM.Goto(old(Lines()), i.tailRow, i.tailX));
              taken == if p == q then None else Some(Segment(t, p, q))
      ensures forall i | 0 <= i < |nodes| :: nodes[i] in old(nodes) || fresh(nodes[i])
    {
      hide Valid, Lines, Row, CutLines, Spine, CutSpine, Chain, Distinct, Numbered, Texts, Apart, Join, Head, Rest,
        Extracted, Characters, Segment;
      Parts();
      var mark := LineFromNumber(i.headRow + 1);
      Goto(i.tailRow, i.tailX);
      Here();
      taken := ExtractAside(noNewlines, None, mark, if i.wholeLine then 0 else i.headX, current, x, i.headRow, Row());
    }

    /** The check that undoing a paste or an insertion makes afterwards. */
    method CheckMagic(noNewlines: bool, i: EM.Item)
      requires Valid()
      modifies this, nodes
      ensures Valid() && CutLines() == old(CutLines())
      ensures Shows(EM.DropMagic(noNewlines, EM.Effect(old(Lines()), old(Row()), old(x), i)))
    {
      hide Valid, Lines, Row, CutLines, Chain;
      RowInText();
      Here();
      if i.includedLastLine && !noNewlines && filebot != current {
        DropMagicLine();
      }
    }

    method UndoPaste(noNewlines: bool, i: EM.Item)
      requires Valid() && i.kind == EM.PASTE && EM.CanUndo(noNewlines, i, Lines())
      modifies this, nodes
      ensures Valid() && Shows(EM.UndoItem(noNewlines, i, old(Lines()))) && CutLines() == old(CutLines())
    {
      hide Valid, Lines, Row, CutLines, Chain, EM.CanTakeAway, EM.DropMagic, Segment, Extracted;
      var taken := RedoCut(noNewlines, i);
      CheckMagic(noNewlines, i);
    }

    method UndoInsert(noNewlines: bool, i: EM.Item) returns (j: EM.Item)
      requires Valid() && i.kind == EM.INSERT && EM.CanUndo(noNewlines, i, Lines())
      modifies this, nodes
      ensures var e := EM.UndoItem(noNewlines, i, old(Lines())); Valid() && Shows(e) && j == e.item
      ensures CutLines() == old(CutLines())
    {
      hide Valid, Lines, Row, CutLines, Chain, EM.DropMagic, Segment, Extracted;
      var taken := RedoCut(noNewlines, i);
      j := i.(cut := taken);
      CheckMagic(noNewlines, i);
    }

    method RedoInsert(noNewlines: bool, i: EM.Item) returns (j: EM.Item)
      requires Valid() && i.kind == EM.INSERT && EM.CanRedo(noNewlines, i, Lines())
      modifies this, nodes
      ensures var e := EM.RedoItem(noNewlines, i, old(Lines())); Valid() && Shows(e) && j == e.item
      ensures CutLines() == old(CutLines())
    {
      hide Valid, Lines, Row, CutLines, Chain, Grafted, EndAfter, Join, Head, Rest, Characters;
      Goto(i.headRow, if i.wholeLine then 0 else i.headX);
      if i.cut.Some? {
        CopyFrom(noNewlines, i.cut.value);
      }
      j := i.(cut := None);
    }

    /** indent_a_line. */
    method IndentALine(row: nat, indentation: Line)
      requires Valid() && row < |Lines()|
      modifies this, nodes
      ensures Valid() && Lines() == old(Lines())[row := indentation + old(Lines())[row]] && Row() == old(Row())
      ensures x == EM.ShiftRight(Row(), old(x), row, [indentation]) && totsize == old(totsize) + |indentation|
      ensures CutLines() == old(CutLines()) && nodes == old(nodes)
    {
      hide Valid, Lines, CutLines, Chain;
      RowInText();
      Here();
      var data := RowData(row);
      if |indentation| > 0 {
        ChangeRow(row, indentation + data);
        var newX := if current.lineno - 1 == row && x > 0 then x + |indentation| else x;
        Adjust(newX, totsize + |indentation|);
      } else {
        assert indentation + data == data;
      }
    }

    /** unindent_a_line, with the whitespace that it takes away. */
    method UnindentALine(row: nat, indentLen: nat)
      requires Valid() && row < |Lines()| && indentLen <= |Lines()[row]|
      modifies this, nodes
      ensures var taken := old(Lines())[row][..indentLen];
              && Valid() && Lines() == old(Lines())[row := old(Lines())[row][indentLen..]] && Row() == old(Row())
              && x == EM.ShiftLeft(Row(), old(x), row, [taken]) && totsize == old(totsize) - indentLen
      ensures CutLines() == old(CutLines()) && nodes == old(nodes)
    {
      hide Valid, Lines, CutLines, Chain;
      RowInText();
      Here();
      var data := RowData(row);
      if indentLen > 0 {
        ChangeRow(row, data[indentLen..]);
        var newX := if current.lineno - 1 != row then x else if x < indentLen then 0 else x - indentLen;
        Adjust(newX, totsize - indentLen);
      }
    }

    /** Add an indent to each row from `top` on. */
    method IndentLines(top: nat, indents: seq<Line>)
      requires Valid() && top + |indents| <= |Lines()|
      modifies this, nodes
      ensures Valid() && Lines() == EM.IndentRows(old(Lines()), top, indents) && Row() == old(Row())
      ensures x == EM.ShiftRight(Row(), old(x), top, indents) && totsize == old(totsize) + EM.TotalLength(indents)
      ensures CutLines() == old(CutLines())
    {
      hide Valid, Lines, Row, CutLines, Chain, EM.IndentRows, EM.ShiftRight, EM.TotalLength;
      RowInText();
      ghost var (t, r, x0) := (Lines(), Row(), x);
      NoIndents(t, r, x0, top);
      for k := 0 to |indents|
        invariant Valid() && nodes == old(nodes) && Row() == r && CutSpine() && CutLines() == old(CutLines())
        invariant Lines() == EM.IndentRows(t, top, indents[..k])
        invariant x == EM.ShiftRight(r, x0, top, indents[..k])
        invariant totsize == old(totsize) + EM.TotalLength(indents[..k])
      {
        IndentedMore(t, r, x0, top, indents, k);
        IndentALine(top + k, indents[k]);
        RowInText();
      }
      assert indents[..|indents|] == indents;
    }

    /** Remove an indent from each row from `top` on. */
    method UnindentLines(top: nat, indents: seq<Line>)
      requires Valid() && EM.Indented(Lines(), top, indents)
      modifies this, nodes
      ensures Valid() && Lines() == EM.UnindentRows(old(Lines()), top, indents) && Row() == old(Row())
      ensures x == EM.ShiftLeft(Row(), old(x), top, indents) && totsize == old(totsize) - EM.TotalLength(indents)
      ensures CutLines() == old(CutLines())
    {
      hide Valid, Lines, Row, CutLines, Spine, CutSpine, Chain, Distinct, Numbered, Texts, Apart, EM.ShiftLeft,
        EM.TotalLength, EM.UnindentRows;
      RowInText();
      ghost var (t, r, x0) := (Lines(), Row(), x);
      NoIndents(t, r, x0, top);
      for k := 0 to |indents|
        invariant Valid() && nodes == old(nodes) && Row() == r && CutSpine() && CutLines() == old(CutLines())
        invariant Lines() == EM.UnindentRows(t, top, indents[..k])
        invariant x == EM.ShiftLeft(r, x0, top, indents[..k])
        invariant totsize == old(totsize) - EM.TotalLength(indents[..k])
      {
        UnindentedMore(t, r, x0, top, indents, k);
        UnindentALine(top + k, |indents[k]|);
        RowInText();
      }
      assert indents[..|indents|] == indents;
    }

    /** handle_indent_action: undo or redo an indent or unindent. */
    method HandleIndentAction(noNewlines: bool, i: EM.Item, undoing: bool)
      requires Valid() && (i.kind == EM.INDENT || i.kind == EM.UNINDENT)
      requires if undoing then EM.CanUndo(noNewlines, i, Lines()) else EM.CanRedo(noNewlines, i, Lines())
      modifies this, nodes
      ensures Valid() && CutLines() == old(CutLines())
      ensures Shows(if undoing then EM.UndoItem(noNewlines, i, old(Lines()))
                    else EM.RedoItem(noNewlines, i, old(Lines())))
    {
      hide Valid, Lines, Row, CutLines, Chain, EM.IndentRows, EM.UnindentRows, EM.ShiftLeft, EM.ShiftRight;
      if !undoing {
        Goto(i.headRow, i.headX);
      }
      if undoing != (i.kind == EM.INDENT) {
        IndentLines(i.topRow, i.indents);
      } else {
        UnindentLines(i.topRow, i.indents);
      }
      if undoing {
        Goto(i.headRow, i.headX);
      }
    }

    /** The switch of do_undo, on one item. */
    method UndoItem(noNewlines: bool, i: EM.Item) returns (j: EM.Item)
      requires Valid() && EM.CanUndo(noNewlines, i, Lines())
      modifies this, nodes
      ensures var e := EM.UndoItem(noNewlines, i, old(Lines())); Valid() && Shows(e) && j == e.item
      ensures CutLines() == old(CutLines())
    {
      hide Valid, Lines, Row, CutLines, Chain, EM.RemoveMagic, EM.MergeRow, EM.BreakRow,
        EM.IndentRows, EM.UnindentRows, EM.CanPutBack, EM.CanTakeAway, EM.Indented, Segment, Extracted;
      j := i;
      match i.kind {
        case ADD => UndoAdd(noNewlines, i);
        case ENTER => UndoEnter(noNewlines, i);
        case BACK => UndoDelete(i);
        case DEL => UndoDelete(i);
        case JOIN => UndoJoin(noNewlines, i);
        case REPLACE => j := SwapLine(i);
        case INDENT => HandleIndentAction(noNewlines, i, true);
        case UNINDENT => HandleIndentAction(noNewlines, i, true);
        case PASTE => UndoPaste(noNewlines, i);
        case INSERT => j := UndoInsert(noNewlines, i);
        case _ => UndoCut(noNewlines, i);
      }
    }

    /** The switch of do_redo, on one item. */
    method RedoItem(noNewlines: bool, i: EM.Item) returns (j: EM.Item)
      requires Valid() && EM.CanRedo(noNewlines, i, Lines())
      modifies this, nodes
      ensures var e := EM.RedoItem(noNewlines, i, old(Lines())); Valid() && Shows(e) && j == e.item
      ensures CutLines() == old(CutLines())
    {
      hide Valid, Lines, Row, CutLines, Chain, EM.DropMagic, EM.Goto, EM.RemoveMagic, EM.MergeRow, EM.BreakRow,
        EM.IndentRows, EM.UnindentRows, EM.CanPutBack, EM.CanTakeAway, EM.Indented, Segment, Extracted;
      j := i;
      match i.kind {
        case ADD => RedoAdd(noNewlines, i);
        case ENTER => RedoEnter(noNewlines, i);
        case BACK => RedoDelete(i);
        case DEL => RedoDelete(i);
        case JOIN => RedoJoin(noNewlines, i);
        case REPLACE => j := SwapLine(i);
        case INDENT => HandleIndentAction(noNewlines, i, false);
        case UNINDENT => HandleIndentAction(noNewlines, i, false);
        case PASTE => UndoCut(noNewlines, i);
        case INSERT => j := RedoInsert(noNewlines, i);
        case _ => var taken := RedoCut(noNewlines, i);
      }
    }

    // ----- Cutting and copying ------------------------------------------------------------

    /** The cutting in do_snip: the region goes to the cutbuffer.  The state s tells
        what the buffer holds. */
    method Snip(c: EM.Config, ghost s: EM.State, mark: Option<Pos>, untilEof: bool, cutFromCursor: bool)
      requires Valid() && s.lines == Lines() && s.row == Row() && s.x == x && s.cutFromCursor == cutFromCursor
      requires EM.ValidState(s) && (mark.Some? ==> ValidPos(s.lines, mark.value))
      modifies this, nodes, cut
      ensures var (p, q) := EM.SnipRegion(s, mark, untilEof);
              && Valid() && ExtractedFrom(c.noNewlines, s.lines, p, q, old(totsize), Lines(), Pos(Row(), x), totsize)
              && CutLines() == Gathered(old(CutLines()), s.lines, p, q)
              && (p == q ==> x == old(x))
      ensures forall n | n in nodes || n in cut :: n in old(nodes) || n in old(cut) || fresh(n)
    {
      hide Valid, Lines, Row, CutLines, Chain, Extracted, Segment, ExtractedFrom, Gathered;
      Here();
      BottomText();
      Parts();
      var line := current;
      ghost var (at, end) := (Row(), |nodes| - 1);
      if untilEof {
        ExtractSegment(c.noNewlines, current, x, filebot, |filebot.data|, at, end);
      } else if mark.Some? {
        CutMarked(c.noNewlines, mark.value);
      } else if cutFromCursor {
        if x < |line.data| {
          ExtractSegment(c.noNewlines, line, x, line, |line.data|, at, at);
        } else if current != filebot {
          ExtractSegment(c.noNewlines, line, x, line.next, 0, at, at + 1);
        } else {
          ExtractSegment(c.noNewlines, line, x, line, x, at, at);
        }
      } else if current != filebot {
        ExtractSegment(c.noNewlines, line, 0, line.next, 0, at, at + 1);
      } else {
        ExtractSegment(c.noNewlines, line, 0, line, |line.data|, at, at);
      }
    }

    /** cut_marked_region. */
    method CutMarked(noNewlines: bool, mark: Pos)
      requires Valid() && ValidPos(Lines(), mark) && x <= |Lines()[Row()]|
      modifies this, nodes, cut
      ensures var (t, cursor) := (old(Lines()), Pos(old(Row()), old(x)));
              var (p, q) := if Before(mark, cursor) then (mark, cursor) else (cursor, mark);
              && ValidPos(t, p) && ValidPos(t, q) && Before(p, q)
              && Valid() && ExtractedFrom(noNewlines, t, p, q, old(totsize), Lines(), Pos(Row(), x), totsize)
              && CutLines() == Gathered(old(CutLines()), t, p, q)
              && (p == q ==> x == old(x))
      ensures forall n | n in nodes || n in cut :: n in old(nodes) || n in old(cut) || fresh(n)
    {
      hide Valid, Lines, Row, CutLines, Chain, Extracted, Segment, ExtractedFrom, Gathered;
      Here();
      Parts();
      var markline := LineFromNumber(mark.row + 1);
      if Before(mark, Pos(current.lineno - 1, x)) {
        ExtractSegment(noNewlines, markline, mark.x, current, x, mark.row, Row());
      } else {
        ExtractSegment(noNewlines, current, x, markline, mark.x, Row(), mark.row);
      }
    }

    /** The same with another list in place of the cutbuffer, which then is what it
        was; the result is what that list holds at the end. */
    method SnipAside(c: EM.Config, prior: Option<Text>, ghost s: EM.State, mark: Option<Pos>, untilEof: bool,
                     cutFromCursor: bool)
      returns (result: Option<Text>)
      requires Valid() && s.lines == Lines() && s.row == Row() && s.x == x && s.cutFromCursor == cutFromCursor
      requires EM.ValidState(s) && (mark.Some? ==> ValidPos(s.lines, mark.value))
      modifies this, nodes
      ensures var (p, q) := EM.SnipRegion(s, mark, untilEof);
              && Valid() && ExtractedFrom(c.noNewlines, s.lines, p, q, old(totsize), Lines(), Pos(Row(), x), totsize)
              && result == Gathered(prior, s.lines, p, q)
              && (p == q ==> x == old(x))
      ensures CutLines() == old(CutLines())
    {
      hide Valid, Row, Lines, Spine, Chain, Distinct, Texts, Numbered, ExtractedFrom, Gathered, CutLines, CutSpine,
        EM.SnipRegion;
      Parts();
      CutParts();
      var wasbuffer, wasbottom := cutbuffer, cutbottom;
      ghost var wascut := cut;
      SetCutbuffer(prior);
      Snip(c, s, mark, untilEof, cutFromCursor);
      result := CutbufferText();
      forall i, j | 0 <= i < |nodes| && 0 <= j < |wascut|
        ensures nodes[i] != wascut[j]
      {
        assert nodes[i] in nodes;
      }
      RestoreCutbuffer(wasbuffer, wasbottom, wascut);
    }

    /** The text between two places, line by line. */
    method CopyRegion(p: Pos, q: Pos) returns (t: Text)
      requires Valid() && ValidPos(Lines(), p) && ValidPos(Lines(), q) && Before(p, q)
      ensures t == Segment(Lines(), p, q)
    {
      hide Valid, Row, CutLines, Spine, CutSpine, Texts;
      var first := RowData(p.row);
      if p.row == q.row {
        t := [first[p.x..q.x]];
      } else {
        t := [first[p.x..]];
        for row := p.row + 1 to q.row
          invariant t == [Lines()[p.row][p.x..]] + Lines()[p.row + 1..row]
        {
          var data := RowData(row);
          assert Lines()[p.row + 1..row + 1] == Lines()[p.row + 1..row] + [data];
          t := t + [data];
        }
        var data := RowData(q.row);
        t := t + [data[..q.x]];
      }
    }

    // ----- Indenting a region ------------------------------------------------------------

    /** Skip leading empty lines. */
    method SkipEmpty(top: nat, bot: nat) returns (first: nat)
      requires Valid() && top <= bot < |Lines()|
      ensures first == EM.SkipEmpty(Lines(), top, bot)
    {
      first := top;
      var data := RowData(first);
      while first != bot + 1 && data == []
        invariant top <= first <= bot + 1 && EM.SkipEmpty(Lines(), first, bot) == EM.SkipEmpty(Lines(), top, bot)
        invariant first <= bot ==> data == Lines()[first]
        decreases bot + 1 - first
      {
        first := first + 1;
        if first <= bot {
          data := RowData(first);
        }
      }
    }

    /** Skip leading lines that cannot be unindented. */
    method SkipUnindentable(c: EM.Config, top: nat, bot: nat) returns (first: nat)
      requires Valid() && top <= bot < |Lines()|
      ensures first == EM.SkipUnindentable(c, Lines(), top, bot)
    {
      hide EM.LengthOfWhite;
      first := top;
      var data := RowData(first);
      var length := LengthOfWhite(c, data);
      while first != bot + 1 && length == 0
        invariant top <= first <= bot + 1
        invariant EM.SkipUnindentable(c, Lines(), first, bot) == EM.SkipUnindentable(c, Lines(), top, bot)
        invariant first <= bot ==> length == EM.LengthOfWhite(c, Lines()[first])
        decreases bot + 1 - first
      {
        first := first + 1;
        if first <= bot {
          data := RowData(first);
          length := LengthOfWhite(c, data);
        }
      }
    }

    /** What do_indent puts before each line: nothing before an empty one. */
    method Indentations(top: nat, bot: nat, indentation: Line) returns (indents: seq<Line>)
      requires Valid() && top <= bot < |Lines()|
      ensures indents == EM.Indentations(Lines(), top, bot, indentation)
    {
      indents := [];
      for row := top to bot + 1
        invariant |indents| == row - top
        invariant forall k | 0 <= k < row - top ::
                    indents[k] == if Lines()[top + k] == [] then [] else indentation
      {
        var data := RowData(row);
        indents := indents + [if data == [] then [] else indentation];
      }
    }

    /** What do_unindent takes away from each line. */
    method Whites(c: EM.Config, top: nat, bot: nat) returns (indents: seq<Line>)
      requires Valid() && top <= bot < |Lines()|
      ensures indents == EM.Whites(c, Lines(), top, bot)
    {
      indents := [];
      for row := top to bot + 1
        invariant |indents| == row - top
        invariant forall k | 0 <= k < row - top :: indents[k] == EM.White(c, Lines()[top + k])
      {
        var data := RowData(row);
        var length := LengthOfWhite(c, data);
        indents := indents + [data[..length]];
      }
    }
  }

  /** length_of_white. */
  method LengthOfWhite(c: EM.Config, text: Line) returns (count: nat)
    ensures count == EM.LengthOfWhite(c, text)
  {
    count := 0;
    while count < |text|
      invariant count <= |text| && EM.LengthOfWhiteFrom(text, count, c.tabSize) == EM.LengthOfWhite(c, text)
      decreases |text| - count
    {
      if text[count] == 9 {
        return count + 1;
      }
      if text[count] != 32 {
        return;
      }
      count := count + 1;
      if count == c.tabSize {
        return;
      }
    }
  }

  lemma NoIndents(t: Text, row: nat, x: nat, top: nat)
    requires top <= |t|
    ensures EM.IndentRows(t, top, []) == t && EM.UnindentRows(t, top, []) == t
    ensures EM.ShiftRight(row, x, top, []) == x && EM.ShiftLeft(row, x, top, []) == x && EM.TotalLength([]) == 0
  {
  }

  lemma {:induction false} TotalLengthMore(indents: seq<Line>, l: Line)
    ensures EM.TotalLength(indents + [l]) == EM.TotalLength(indents) + |l|
  {
    if |indents| > 0 {
      assert (indents + [l])[1..] == indents[1..] + [l];
      TotalLengthMore(indents[1..], l);
    }
  }

  lemma IndentedMore(t: Text, row: nat, x: nat, top: nat, indents: seq<Line>, k: nat)
    requires k < |indents| && top + |indents| <= |t|
    ensures var before := EM.IndentRows(t, top, indents[..k]);
            && before[top + k] == t[top + k]
            && EM.IndentRows(t, top, indents[..k + 1]) == before[top + k := indents[k] + t[top + k]]
    ensures EM.ShiftRight(row, x, top, indents[..k + 1]) ==
            EM.ShiftRight(row, EM.ShiftRight(row, x, top, indents[..k]), top + k, [indents[k]])
    ensures EM.TotalLength(indents[..k + 1]) == EM.TotalLength(indents[..k]) + |indents[k]|
  {
    assert indents[..k + 1] == indents[..k] + [indents[k]];
    TotalLengthMore(indents[..k], indents[k]);
  }

  lemma UnindentedMore(t: Text, row: nat, x: nat, top: nat, indents: seq<Line>, k: nat)
    requires k < |indents| && EM.Indented(t, top, indents)
    ensures EM.Indented(t, top, indents[..k]) && EM.Indented(t, top, indents[..k + 1])
    ensures var before := EM.UnindentRows(t, top, indents[..k]);
            && before[top + k] == t[top + k]
            && EM.UnindentRows(t, top, indents[..k + 1]) == before[top + k := t[top + k][|indents[k]|..]]
    ensures EM.ShiftLeft(row, x, top, indents[..k + 1]) ==
            EM.ShiftLeft(row, EM.ShiftLeft(row, x, top, indents[..k]), top + k, [t[top + k][..|indents[k]|]])
    ensures EM.TotalLength(indents[..k + 1]) == EM.TotalLength(indents[..k]) + |indents[k]|
  {
    assert indents[..k + 1] == indents[..k] + [indents[k]];
    TotalLengthMore(indents[..k], indents[k]);
  }

  lemma DeletedIs(l: Line, x: nat, n: nat)
    requires x + n <= |l|
    ensures EM.DeleteFrom(l, x, n) == l[..x] + l[x + n..]
  {
  }

  lemma MergedIs(t: Text, r: nat, tail: Line)
    requires r + 1 < |t|
    ensures var t1: Text := t[r := t[r] + tail]; t1[..r + 1] + t1[r + 2..] == EM.MergeRow(t, r, tail)
  {
  }

  lemma DroppedIs(t: Text)
    ensures EM.RemoveMagic(t) == if Last(t) == [] && |t| > 1 then t[..|t| - 1] else t
  {
  }

  lemma InsertedIs(l: Line, x: nat, s: Line)
    requires x <= |l|
    ensures EM.InsertIn(l, x, s) == l[..x] + s + l[x..]
  {
  }

  lemma BrokenIs(t: Text, r: nat, x: nat, below: Line)
    requires r < |t| && x <= |t[r]|
    ensures var t1: Text := t[r := t[r][..x]];
            t1[..r + 1] + [below] + t1[r + 1..] == EM.BreakRow(t, r, x, below)
  {
  }
}

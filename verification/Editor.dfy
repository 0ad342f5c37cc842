/** The editor: the commands of nano.c, text.c and cut.c as methods that change
    the open file and its undo stack step by step.  Each is shown to do what the
    operation of the same name in EditModel says. */
module Editor {
  import opened Chars
  import opened Lines
  import EM = EditModel
  import opened Buffer
  import LL = LineList
  import opened Options

  class Editor {
    const c: EM.Config
    const file: OpenFile
    var stack: seq<EM.Item>
    var applied: nat
    var nextId: nat
    var saved: nat
    var last: EM.Kind
    var modified: bool
    var keep: bool
    var cutFromCursor: bool

    ghost predicate Valid()
      reads this, file, file.nodes, file.cut
    {
      file.Valid() && applied <= |stack|
    }

    /** The editor's state as a value. */
    ghost function State(): EM.State
      requires Valid()
      reads this, file, file.nodes, file.cut
    {
      EM.State(file.Lines(), file.Row(), file.x, file.totsize, stack, applied, nextId, saved, last, modified,
               file.CutLines(), keep, cutFromCursor)
    }

    /** An editor with a new buffer (make_new_buffer). */
    constructor (c: EM.Config)
      ensures this.c == c && Valid() && fresh(file) && fresh(file.nodes) && file.cut == []
      ensures State() == EM.Opened(EMPTY, 0)
    {
      this.c := c;
      file := new OpenFile();
      stack, applied, nextId, saved := [], 0, 1, 0;
      last, modified, keep, cutFromCursor := EM.OTHER, false, false, false;
    }

    /** What the fields say. */
    lemma Fields()
      requires Valid()
      ensures file.Valid() && file.CutSpine() && |file.nodes| > 0
      ensures State() == EM.State(file.Lines(), file.Row(), file.x, file.totsize, stack, applied, nextId, saved, last,
                                  modified, file.CutLines(), keep, cutFromCursor)
      ensures applied <= |stack| && file.Row() < |file.Lines()|
    {
    }

    lemma MakeValid()
      requires file.Valid() && applied <= |stack|
      ensures Valid()
    {
    }

    /** What the nodes say about the text. */
    lemma Here()
      requires Valid()
      ensures State().lines == file.Lines() && file.Valid()
      ensures var s := State();
              && s.row < |s.lines|
              && file.current.data == s.lines[s.row] && file.current.lineno == s.row + 1
              && (file.current == file.filebot <==> s.row == |s.lines| - 1)
              && (file.current == file.filetop <==> s.row == 0)
              && |s.lines| == |file.nodes|
              && (s.row < |s.lines| - 1 ==>
                    && file.current.next == file.nodes[s.row + 1]
                    && file.nodes[s.row + 1].data == s.lines[s.row + 1])
              && (s.row < |s.lines| - 1 ==>
                    && (file.current.next == file.filebot <==> s.row + 1 == |s.lines| - 1)
                    && file.current.next.lineno == s.row + 2)
              && (s.row == |s.lines| - 1 ==> file.current.next == null)
              && file.filebot.lineno == |s.lines|
              && (s.row > 0 ==> file.current.prev == file.nodes[s.row - 1])
    {
      file.Here();
    }

    // ----- Undo items ----------------------------------------------------------------

    lemma ItemFacts()
      requires Valid()
      ensures var s := State();
              && s.row < |s.lines| && file.current.data == s.lines[s.row] && file.current.lineno == s.row + 1
              && (file.current == file.filebot <==> s.row == |s.lines| - 1)
              && (file.current.next == file.filebot <==> s.row + 1 == |s.lines| - 1)
              && (file.current.next == null <==> s.row == |s.lines| - 1)
              && (file.current == file.filetop <==> s.row == 0)
              && s.x == file.x && s.size == file.totsize && s.nextId == nextId
              && file.Valid() && s.cutbuffer == file.CutLines()
    {
      file.Here();
    }

    /** The item that add_undo makes. */
    method NewItem(action: EM.Kind, mark: Option<Pos>) returns (u: EM.Item)
      requires Valid() && EM.ValidState(State()) && (mark.Some? ==> ValidPos(State().lines, mark.value))
      ensures u == EM.NewItem(State(), action, mark)
    {
      hide Valid, State, OpenFile.Valid, OpenFile.CutLines, EM.DeletionItem, EM.CutItem;
      ItemFacts();
      var thisline, cursor := file.current, Pos(file.current.lineno - 1, file.x);
      u := EM.Item(nextId, action, false, false, false, false, false, cursor.row, cursor.x, cursor.row, cursor.x,
                   [], file.totsize, file.totsize, 0, [], None);
      if action == EM.ADD || action == EM.INSERT {
        u := u.(includedLastLine := thisline == file.filebot);
      } else if action == EM.BACK || action == EM.DEL {
        if action == EM.BACK {
          u := u.(backspaceAtEof := thisline.next == file.filebot && thisline.data != []);
        }
        u := Deletion(u);
      } else if action == EM.REPLACE {
        u := u.(str := thisline.data);
      } else if action == EM.CUT_TO_EOF {
        u := u.(includedLastLine := true, cursorAtHead := true);
      } else if action == EM.ZAP || action == EM.CUT {
        u := CutItem(u, mark);
      } else if action == EM.PASTE {
        var copy := file.CutbufferText();
        u := u.(cut := copy, includedLastLine := thisline == file.filebot);
      }
    }

    /** add_undo. */
    method AddUndo(action: EM.Kind, mark: Option<Pos>)
      requires Valid() && EM.ValidState(State()) && (mark.Some? ==> ValidPos(State().lines, mark.value))
      modifies this`stack, this`applied, this`nextId, this`last
      ensures Valid() && State() == EM.AddUndo(old(State()), action, mark)
    {
      hide OpenFile.Valid, OpenFile.Row, OpenFile.Lines, OpenFile.CutLines, OpenFile.Spine, OpenFile.CutSpine, LL.Texts,
        LL.Chain, LL.Distinct, LL.Apart, LL.Numbered, EM.NewItem;
      var u := NewItem(action, mark);
      stack := stack[..applied] + [u];
      applied, nextId := applied + 1, nextId + 1;
      last := if u.kind == EM.JOIN then EM.JOIN else action;
    }

    /** The part of add_undo for a cut or a zap. */
    method CutItem(u: EM.Item, mark: Option<Pos>) returns (v: EM.Item)
      requires Valid()
      ensures v == EM.CutItem(State(), u, mark)
    {
      Here();
      Fields();
      var cursor := Pos(file.current.lineno - 1, file.x);
      v := u;
      if mark.Some? {
        if Before(mark.value, cursor) {
          v := v.(headRow := mark.value.row, headX := mark.value.x, markWasSet := true);
        } else {
          v := v.(tailRow := mark.value.row, tailX := mark.value.x, markWasSet := true, cursorAtHead := true);
        }
        v := v.(includedLastLine := v.tailRow == file.filebot.lineno - 1);
      } else if !cutFromCursor {
        v := v.(wholeLine := true, cursorAtHead := true, tailX := 0);
      } else {
        v := v.(cursorAtHead := true);
      }
    }

    /** The part of add_undo for a deletion: note the character, or else the line
        that will be joined. */
    method Deletion(u: EM.Item) returns (v: EM.Item)
      requires Valid() && EM.ValidState(State())
      ensures v == EM.DeletionItem(State(), u)
    {
      Here();
      Fields();
      hide OpenFile.Valid, OpenFile.Row, OpenFile.Lines, OpenFile.CutLines, OpenFile.Spine, OpenFile.CutSpine, LL.Texts,
        LL.Chain, LL.Distinct, LL.Apart, LL.Numbered, State, Valid;
      var thisline := file.current;
      v := u;
      if file.x < |thisline.data| {
        var charlen := CharLength(thisline.data, file.x);
        v := v.(str := thisline.data[file.x..file.x + charlen],
                tailX := if u.kind == EM.BACK then file.x + charlen else file.x);
      } else {
        v := v.(kind := EM.JOIN);
        if thisline.next != null {
          if u.kind == EM.BACK {
            v := v.(headRow := thisline.next.lineno - 1, headX := 0);
          }
          v := v.(str := thisline.next.data);
        }
      }
    }

    /** update_undo for an addition. */
    method UpdateAdd()
      requires Valid() && EM.ValidState(State()) && |State().stack| > 0
      modifies this`stack
      ensures Valid() && State() == EM.UpdateAdd(old(State()))
    {
      Here();
      Fields();
      hide OpenFile.Valid, OpenFile.Row, OpenFile.Lines, OpenFile.CutLines, OpenFile.Spine, OpenFile.CutSpine, LL.Texts,
        LL.Chain, LL.Distinct, LL.Apart, LL.Numbered;
      var u := stack[|stack| - 1];
      var str: Line := if u.headX <= file.x then file.current.data[u.headX..file.x] else [];
      stack := stack[|stack| - 1 := u.(newsize := file.totsize, str := str, tailX := file.x)];
    }

    method ContinuesTyping() returns (yes: bool)
      requires Valid()
      ensures yes == EM.ContinuesTyping(State())
    {
      Here();
      yes := last == EM.ADD && |stack| > 0 && stack[|stack| - 1].tailRow == file.current.lineno - 1
             && stack[|stack| - 1].tailX == file.x;
    }

    // ----- Typing -------------------------------------------------------------------------

    /** inject: the NUL bytes among what was typed are stored as newlines. */
    method Inject(typed: seq<EM.Raw>)
      requires Valid() && EM.ValidState(State())
      modifies this, file, file.nodes
      ensures Valid() && State() == EM.Inject(c, old(State()), EM.Encoded(typed))
    {
      var burst: Line := [];
      for index := 0 to |typed|
        invariant |burst| == index && forall i | 0 <= i < index :: burst[i] == EM.EncodedByte(typed[i])
      {
        burst := burst + [if typed[index] == 0 then 10 else typed[index]];
      }
      assert burst == EM.Encoded(typed);
      InjectBurst(burst);
    }

    method InjectBurst(burst: Line)
      requires Valid() && EM.ValidState(State())
      modifies this, file, file.nodes
      ensures Valid() && State() == EM.Inject(c, old(State()), burst)
    {
      hide *;
      InjectSteps(c, State(), burst);
      var continued := ContinuesTyping();
      if !continued {
        AddUndo(EM.ADD, None);
      }
      InsertAtCursor(burst);
      UpdateAdd();
    }

    method InsertAtCursor(burst: Line)
      requires Valid() && EM.ValidState(State())
      modifies this`modified, file, file.nodes
      ensures Valid() && var s := old(State());
              var t1 := s.lines[s.row := EM.InsertIn(s.lines[s.row], s.x, burst)];
              var magic := s.row == |s.lines| - 1 && !c.noNewlines;
              State() == s.(lines := if magic then t1 + [[]] else t1, x := s.x + |burst|,
                            size := s.size + Count(burst) + if magic then 1 else 0, modified := true)
    {
      hide *;
      Fields();
      CursorInText();
      file.InsertAtCursor(c.noNewlines, burst);
      modified := true;
      MakeValid();
      Fields();
    }

    lemma CursorInText()
      requires Valid() && EM.ValidState(State())
      ensures file.x <= |file.Lines()[file.Row()]|
    {
    }

    // ----- Breaking a line -----------------------------------------------------------------

    /** update_undo for a line break. */
    method UpdateEnter()
      requires Valid() && |State().stack| > 0
      modifies this`stack
      ensures Valid() && var s := old(State());
              State() == EM.SetTop(s, EM.Top(s).(newsize := s.size, str := s.lines[s.row], tailX := s.x))
    {
      ItemFacts();
      hide OpenFile.Valid, OpenFile.CutLines;
      var u := stack[|stack| - 1];
      stack := stack[|stack| - 1 := u.(newsize := file.totsize, str := file.current.data, tailX := file.x)];
    }

    /** do_enter. */
    method DoEnter(autoindent: bool)
      requires Valid() && EM.ValidState(State())
      modifies this, file, file.nodes
      ensures Valid() && State() == EM.Enter(c, old(State()), autoindent)
    {
      hide *;
      EnterSteps(c, State(), autoindent);
      ItemFacts();
      var (line, x, extra, allblanks) := (file.current.data, file.x, 0, false);
      if autoindent {
        extra := IndentLength(c, line);
        if extra > x {
          extra := x;
        } else if extra == x {
          allblanks := true;
        }
      }
      SplitLine(if allblanks then 0 else x, line[..extra] + line[x..], extra,
                1 + if autoindent && !allblanks then extra else 0);
    }

    /** The changes that do_enter makes, once it is known where the lines end. */
    method SplitLine(keepX: nat, below: Line, newX: nat, growth: int)
      requires Valid() && EM.ValidState(State()) && keepX <= State().x
      modifies this, file, file.nodes
      ensures Valid() && State() == Entered(old(State()), keepX, below, newX, growth)
    {
      hide *;
      EnteredSteps(State(), keepX, below, newX, growth);
      PutCursor(keepX);
      AddUndo(EM.ENTER, None);
      BreakAtCursor(keepX, below, newX, growth);
      UpdateEnter();
    }

    method PutCursor(x: nat)
      requires Valid()
      modifies file`x, file`totsize
      ensures Valid() && State() == old(State()).(x := x)
    {
      hide *;
      Fields();
      file.Adjust(x, file.totsize);
      MakeValid();
      Fields();
    }

    method BreakAtCursor(keepX: nat, below: Line, newX: nat, growth: int)
      requires Valid() && keepX <= |State().lines[State().row]|
      modifies this`modified, file, file.nodes
      ensures Valid() && var s := old(State());
              State() == s.(lines := EM.BreakRow(s.lines, s.row, keepX, below), row := s.row + 1, x := newX,
                            size := s.size + growth, modified := true)
    {
      hide *;
      Fields();
      file.BreakAtCursor(keepX, below, newX, file.totsize + growth);
      modified := true;
      MakeValid();
      Fields();
    }

    // ----- Deleting ------------------------------------------------------------------------

    /** Note the size in the newest item, for redoing. */
    method NoteSize()
      requires Valid() && |State().stack| > 0
      modifies this`stack
      ensures Valid() && var s := old(State()); State() == EM.SetTop(s, EM.Top(s).(newsize := s.size))
    {
      stack := stack[|stack| - 1 := stack[|stack| - 1].(newsize := file.totsize)];
    }

    /** update_undo for a deletion. */
    method UpdateDeletion()
      requires Valid() && EM.ValidState(State()) && |State().stack| > 0
      modifies this`stack, this`applied, this`nextId, this`last
      ensures Valid() && State() == EM.UpdateDeletion(old(State()))
    {
      hide *;
      UpdateDeletionSteps(State());
      ItemFacts();
      Fields();
      TopKnown();
      var (text, x, u) := (file.current.data, file.x, stack[|stack| - 1]);
      var charlen := CharLength(text, x);
      var gone := if x < |text| then text[x..x + charlen] else [];
      var size := file.totsize;
      NoteSize();
      if x == u.headX {
        SetTop(u.(newsize := size, str := u.str + gone, tailX := x));
      } else if x + charlen == u.headX {
        SetTop(u.(newsize := size, str := gone + u.str, headX := x));
      } else {
        AddUndo(u.kind, None);
      }
    }

    method SetTop(u: EM.Item)
      requires Valid() && |State().stack| > 0
      modifies this`stack
      ensures Valid() && State() == EM.SetTop(old(State()), u)
    {
      stack := stack[|stack| - 1 := u];
    }

    method DeleteAtCursor()
      requires Valid() && EM.ValidState(State()) && State().x < |State().lines[State().row]|
      modifies this`modified, file, file.nodes
      ensures Valid() && var s := old(State()); var l := s.lines[s.row];
              State() == s.(lines := s.lines[s.row := EM.DeleteFrom(l, s.x, CharLength(l, s.x))],
                            size := s.size - 1, modified := true)
    {
      hide *;
      Fields();
      file.DeleteAtCursor();
      modified := true;
      MakeValid();
      Fields();
    }

    method JoinWithNext()
      requires Valid() && State().row + 1 < |State().lines|
      modifies this`modified, file, file.nodes
      ensures Valid() && var s := old(State());
              State() == s.(lines := EM.MergeRow(s.lines, s.row, s.lines[s.row + 1]), size := s.size - 1,
                            modified := true)
    {
      hide *;
      Fields();
      file.JoinWithNext();
      modified := true;
      MakeValid();
      Fields();
    }

    /** expunge, within a line: a new item when the action changed or the cursor
        moved to another line, or else an update of the present one. */
    method ExpungeWithin(action: EM.Kind)
      requires Valid() && EM.ValidState(State()) && (action == EM.BACK || action == EM.DEL)
      requires State().x < |State().lines[State().row]|
      modifies this, file, file.nodes
      ensures Valid() && State() == EM.Expunge(c, old(State()), action)
    {
      hide *;
      WithinSteps(c, State(), action);
      StartDeletion(action);
      DeleteAtCursor();
      NoteSize();
    }

    method StartDeletion(action: EM.Kind)
      requires Valid() && EM.ValidState(State()) && (action == EM.BACK || action == EM.DEL)
      modifies this`stack, this`applied, this`nextId, this`last
      ensures Valid() && var s := old(State());
              State() == if action != s.last || |s.stack| == 0 || s.row != EM.Top(s).headRow
                         then EM.AddUndo(s, action, None)
                         else EM.UpdateDeletion(s)
    {
      hide *;
      ItemFacts();
      Fields();
      TopKnown();
      if action != last || |stack| == 0 || file.current.lineno - 1 != stack[|stack| - 1].headRow {
        AddUndo(action, None);
      } else {
        UpdateDeletion();
      }
    }

    /** expunge, at the end of a line. */
    method ExpungeAtEnd(action: EM.Kind)
      requires Valid() && EM.ValidState(State()) && (action == EM.BACK || action == EM.DEL)
      requires State().x == |State().lines[State().row]|
      modifies this, file, file.nodes
      ensures Valid() && State() == EM.Expunge(c, old(State()), action)
    {
      hide *;
      AtEndSteps(c, State(), action);
      ItemFacts();
      if file.current != file.filebot {
        if file.current.next == file.filebot && file.x != 0 && !c.noNewlines {
          if action == EM.BACK {
            AddUndo(EM.BACK, None);
          }
        } else {
          AddUndo(action, None);
          JoinWithNext();
          NoteSize();
        }
      }
    }

    /** expunge. */
    method Expunge(action: EM.Kind)
      requires Valid() && EM.ValidState(State()) && (action == EM.BACK || action == EM.DEL)
      modifies this, file, file.nodes
      ensures Valid() && State() == EM.Expunge(c, old(State()), action)
    {
      hide *;
      ItemFacts();
      if file.x < |file.current.data| {
        ExpungeWithin(action);
      } else {
        AtLineEnd();
        ExpungeAtEnd(action);
      }
    }

    lemma TopKnown()
      requires Valid()
      ensures |State().stack| == |stack| && (|stack| > 0 ==> EM.Top(State()) == stack[|stack| - 1])
      ensures EM.ValidState(State()) ==> State().x <= |State().lines[State().row]|
    {
    }

    lemma AtLineEnd()
      requires Valid() && EM.ValidState(State()) && file.x >= |file.current.data|
      ensures State().x == |State().lines[State().row]|
    {
      file.Here();
    }

    /** The end of the line above (do_left at the start of a line). */
    method MoveUp()
      requires Valid() && State().row > 0
      modifies file`current, file`x, file`totsize
      ensures Valid() && var s := old(State()); State() == s.(row := s.row - 1, x := |s.lines[s.row - 1]|)
    {
      hide *;
      Fields();
      file.Here();
      file.TextAbove();
      file.MoveTo(file.current.prev, |file.current.prev.data|, file.totsize, file.Row() - 1);
      MakeValid();
      Fields();
    }

    /** do_backspace, without a mark. */
    method DoBackspace()
      requires Valid() && EM.ValidState(State())
      modifies this, file, file.nodes
      ensures Valid() && State() == EM.Backspace(c, old(State()))
    {
      hide Valid, State, OpenFile.Valid, OpenFile.Lines, OpenFile.Row, OpenFile.CutLines, OpenFile.CutSpine,
        EM.Expunge, StepLeft;
      ItemFacts();
      if file.x > 0 {
        var p := StepLeftLoop(file.current.data, file.x);
        PutCursor(p);
        Expunge(EM.BACK);
      } else if file.current != file.filetop {
        MoveUp();
        Expunge(EM.BACK);
      }
    }

    // ----- Cutting -------------------------------------------------------------------------

    /** is_cuttable. */
    method IsCuttable(testCliff: bool, mark: Option<Pos>) returns (yes: bool)
      requires Valid() && EM.ValidState(State())
      ensures yes == EM.IsCuttable(c, State(), testCliff, mark)
    {
      hide Valid, State, OpenFile.Valid;
      ItemFacts();
      var from := if testCliff then file.x else 0;
      yes := !(|| (file.current.next == null && from == |file.current.data| && mark == None)
               || mark == Some(Pos(file.current.lineno - 1, file.x))
               || (from > 0 && !c.noNewlines && from == |file.current.data| && file.current.next == file.filebot));
    }

    method ClearCutbuffer()
      requires Valid()
      modifies file`cutbuffer, file`cutbottom, file`cut
      ensures Valid() && State() == old(State()).(cutbuffer := None) && fresh(file.cut)
    {
      hide *;
      Fields();
      file.SetCutbuffer(None);
      MakeValid();
      Fields();
    }

    /** The cutting in do_snip. */
    method CutRegion(mark: Option<Pos>, untilEof: bool)
      requires Valid() && EM.ValidState(State()) && (mark.Some? ==> ValidPos(State().lines, mark.value))
      modifies file, file.nodes, file.cut
      ensures Valid() && var s := old(State()); var (p, q) := EM.SnipRegion(s, mark, untilEof);
              State() == EM.TakeOut(c, s, p, q)
    {
      hide *;
      Fields();
      ghost var s := State();
      ghost var (p, q) := EM.SnipRegion(s, mark, untilEof);
      file.Snip(c, s, mark, untilEof, cutFromCursor);
      MakeValid();
      Fields();
      TakenOut(c, s, mark, untilEof, State());
    }

    /** set_modified. */
    method SetModified()
      requires Valid()
      modifies this`modified
      ensures Valid() && State() == old(State()).(modified := true)
    {
      modified := true;
    }

    method SetFlags(keep: bool, modified: bool)
      requires Valid()
      modifies this`keep, this`modified
      ensures Valid() && State() == old(State()).(keep := keep, modified := modified)
    {
      this.keep, this.modified := keep, modified;
    }

    /** do_snip. */
    method DoSnip(mark: Option<Pos>, untilEof: bool, append: bool)
      requires Valid() && EM.ValidState(State()) && (mark.Some? ==> ValidPos(State().lines, mark.value))
      modifies this`keep, this`modified, file, file.nodes, file.cut
      ensures Valid() && State() == EM.Snip(c, old(State()), mark, untilEof, append)
    {
      hide *;
      SnipSteps(c, State(), mark, untilEof, append);
      Fields();
      if (mark.Some? || untilEof || !(keep && last != EM.COPY)) && !append {
        ClearCutbuffer();
      }
      CutRegion(mark, untilEof);
      SetFlags(mark.None? && !untilEof, true);
    }

    /** update_undo for a cut or a zap: note what was cut, and where that ended. */
    method UpdateCut(cut: Option<Text>)
      requires Valid() && |State().stack| > 0
      modifies this`stack
      ensures Valid() && var s := old(State());
              State() == EM.UpdateCut(c, s.(cutbuffer := cut)).(cutbuffer := s.cutbuffer)
    {
      hide *;
      TopKnown();
      ItemFacts();
      Fields();
      UpdateCutSteps(c, State(), cut);
      var u := stack[|stack| - 1].(newsize := file.totsize);
      if cut.None? {
        SetTop(if u.kind == EM.ZAP then u.(cut := None) else u);
      } else {
        u := u.(cut := cut);
        if !u.markWasSet {
          var bottomline := cut.value[|cut.value| - 1];
          u := u.(tailRow := u.headRow + |cut.value| - 1);
          if cutFromCursor || u.kind == EM.CUT_TO_EOF {
            u := u.(tailX := |bottomline| + if |cut.value| == 1 then u.headX else 0);
          } else if file.current == file.filebot && c.noNewlines {
            u := u.(tailX := |bottomline|);
          }
        }
        SetTop(u);
      }
    }

    /** cut_text; a mark that is on is given. */
    method CutText(mark: Option<Pos>)
      requires Valid() && EM.ValidState(State()) && (mark.Some? ==> ValidPos(State().lines, mark.value))
      modifies this, file, file.nodes, file.cut
      ensures Valid() && State() == EM.CutText(c, old(State()), mark)
    {
      hide *;
      CutTextSteps(c, State(), mark);
      Fields();
      var cuttable := IsCuttable(cutFromCursor && mark.None?, mark);
      if cuttable {
        StartCut(mark);
        DoSnip(mark, false, false);
        NoteCut();
      }
    }

    /** A new item, unless this cut continues the last one. */
    method StartCut(mark: Option<Pos>)
      requires Valid() && EM.ValidState(State()) && (mark.Some? ==> ValidPos(State().lines, mark.value))
      modifies this`keep, this`modified, this`stack, this`applied, this`nextId, this`last
      ensures Valid() && State() == StartedCut(old(State()), mark)
    {
      hide *;
      StartedCutIs(State(), mark);
      Fields();
      if last != EM.CUT || !keep || |stack| == 0 {
        SetFlags(false, modified);
        AddUndo(EM.CUT, mark);
      }
    }

    /** update_undo for a cut that went to the cutbuffer. */
    method NoteCut()
      requires Valid() && |State().stack| > 0
      modifies this`stack
      ensures Valid() && State() == EM.UpdateCut(c, old(State()))
    {
      hide *;
      Fields();
      NotedCut(c, State());
      var cut := file.CutbufferText();
      UpdateCut(cut);
    }

    /** The cutting of zap_text, into the list of the undo item. */
    method SnipAside(prior: Option<Text>, mark: Option<Pos>) returns (result: Option<Text>)
      requires Valid() && EM.ValidState(State()) && (mark.Some? ==> ValidPos(State().lines, mark.value))
      modifies this`keep, this`modified, file, file.nodes
      ensures Valid() && var s := old(State()); var s' := EM.Snip(c, s.(cutbuffer := prior), mark, false, true);
              State() == s'.(cutbuffer := s.cutbuffer) && result == s'.cutbuffer
    {
      hide *;
      Fields();
      ghost var s := State();
      result := file.SnipAside(c, prior, s, mark, false, cutFromCursor);
      keep, modified := mark.None?, true;
      MakeValid();
      Fields();
      SnippedAside(c, s, prior, mark, State(), result);
    }

    /** zap_text. */
    method ZapText(mark: Option<Pos>)
      requires Valid() && EM.ValidState(State()) && (mark.Some? ==> ValidPos(State().lines, mark.value))
      modifies this, file, file.nodes
      ensures Valid() && State() == EM.ZapText(c, old(State()), mark)
    {
      hide *;
      ZapTextSteps(c, State(), mark);
      Fields();
      var cuttable := IsCuttable(cutFromCursor && mark.None?, mark);
      if cuttable {
        if last != EM.ZAP || !keep || |stack| == 0 {
          AddUndo(EM.ZAP, mark);
        }
        TopKnown();
        var cut := SnipAside(stack[|stack| - 1].cut, mark);
        UpdateCut(cut);
      }
    }

    /** cut_till_eof. */
    method CutTillEof()
      requires Valid() && EM.ValidState(State())
      modifies this, file, file.nodes, file.cut
      ensures Valid() && State() == EM.CutTillEof(c, old(State()))
    {
      hide *;
      CutTillEofSteps(c, State());
      ItemFacts();
      if !(file.x == |file.current.data| &&
           (file.current.next == null || (!c.noNewlines && file.x > 0 && file.current.next == file.filebot))) {
        AddUndo(EM.CUT_TO_EOF, None);
        DoSnip(None, true, false);
        NoteCut();
      }
    }

    // ----- Pasting, inserting, copying -------------------------------------------------------

    /** copy_from_buffer, for a text. */
    method PutIn(t: Text)
      requires Valid() && EM.ValidState(State())
      modifies file, file.nodes
      ensures Valid() && State() == EM.PutIn(c, old(State()), t)
    {
      hide *;
      Fields();
      CursorInText();
      ghost var s := State();
      file.CopyFrom(c.noNewlines, t);
      MakeValid();
      Fields();
      PutInPlace(c, s, t, State());
    }

    /** update_undo for a paste or an insertion. */
    method UpdatePaste()
      requires Valid() && |State().stack| > 0
      modifies this`stack
      ensures Valid() && State() == EM.UpdatePaste(old(State()))
    {
      ItemFacts();
      hide OpenFile.Valid, OpenFile.CutLines, OpenFile.Lines, OpenFile.Row;
      stack := stack[|stack| - 1 := stack[|stack| - 1].(newsize := file.totsize, tailRow := file.current.lineno - 1,
                                                        tailX := file.x)];
    }

    /** copy_from_buffer, for the cutbuffer. */
    method PutCutbuffer()
      requires Valid() && EM.ValidState(State()) && State().cutbuffer.Some?
      modifies file, file.nodes
      ensures Valid() && State() == EM.PutIn(c, old(State()), old(State()).cutbuffer.value)
    {
      hide *;
      Fields();
      CursorInText();
      ghost var s := State();
      file.CopyFromCutbuffer(c.noNewlines);
      MakeValid();
      Fields();
      PutInPlace(c, s, s.cutbuffer.value, State());
    }

    lemma CutbufferIs()
      requires Valid()
      ensures file.cutbuffer == null <==> State().cutbuffer.None?
    {
    }

    /** paste_text. */
    method PasteText()
      requires Valid() && EM.ValidState(State())
      modifies this, file, file.nodes
      ensures Valid() && State() == EM.PasteText(c, old(State()))
    {
      hide *;
      PasteSteps(c, State());
      Fields();
      CutbufferIs();
      if file.cutbuffer != null {
        AddUndo(EM.PASTE, None);
        PutCutbuffer();
        UpdatePaste();
        SetModified();
      }
    }

    /** The recording of an inserted file (insert_a_file_or, read_file). */
    method InsertText(t: Text)
      requires Valid() && EM.ValidState(State())
      modifies this, file, file.nodes
      ensures Valid() && State() == EM.InsertText(c, old(State()), t)
    {
      hide *;
      InsertSteps(c, State(), t);
      ItemFacts();
      var (wasLineno, wasX) := (file.current.lineno, file.x);
      AddUndo(EM.INSERT, None);
      PutIn(t);
      UpdatePaste();
      ItemFacts();
      if file.current.lineno != wasLineno || file.x != wasX {
        SetModified();
      }
    }

    /** Let the cutbuffer hold the given text, and note how copying may go on. */
    method PutInCutbuffer(t: Option<Text>, keep: bool, last: EM.Kind)
      requires Valid()
      modifies this`keep, this`last, file`cutbuffer, file`cutbottom, file`cut
      ensures Valid() && State() == old(State()).(cutbuffer := t, keep := keep, last := last)
    {
      hide *;
      Fields();
      file.SetCutbuffer(t);
      this.keep, this.last := keep, last;
      MakeValid();
      Fields();
    }

    method MoveDown()
      requires Valid() && State().row + 1 < |State().lines|
      modifies file`current, file`x, file`totsize
      ensures Valid() && var s := old(State()); State() == s.(row := s.row + 1, x := 0)
    {
      hide *;
      Fields();
      file.Here();
      file.RowInText();
      file.MoveTo(file.current.next, 0, file.totsize, file.Row() + 1);
      MakeValid();
      Fields();
    }

    /** copy_marked_region. */
    method CopyMarkedRegion(mark: Pos)
      requires Valid() && EM.ValidState(State()) && ValidPos(State().lines, mark)
      modifies this`keep, this`last, file`cutbuffer, file`cutbottom, file`cut
      ensures Valid() && State() == EM.CopyText(c, old(State()), Some(mark))
    {
      hide *;
      CopyMarkedSteps(c, State(), mark);
      ItemFacts();
      Fields();
      var cursor := Pos(file.current.lineno - 1, file.x);
      var (top, bot) := if BeforePos(mark, cursor) then (mark, cursor) else (cursor, mark);
      var copy := None;
      if top != bot {
        var t := file.CopyRegion(top, bot);
        copy := Some(t);
      }
      PutInCutbuffer(copy, false, EM.OTHER);
    }

    /** copy_text, without a mark. */
    method CopyLine()
      requires Valid() && EM.ValidState(State())
      modifies this`keep, this`last, file`current, file`x, file`totsize, file`cutbuffer, file`cutbottom, file`cut
      ensures Valid() && State() == EM.CopyText(c, old(State()), None)
    {
      hide *;
      CopyLineSteps(c, State());
      ItemFacts();
      Fields();
      var (line, x, bottom) := (file.current.data, file.x, file.current.next == null);
      var (goesOn, atEol) := (keep && last == EM.COPY, x == |line|);
      var prior := file.CutbufferText();
      prior := if goesOn then prior else None;
      if bottom && atEol && (cutFromCursor || x == 0 || prior.Some?) {
        PutInCutbuffer(prior, goesOn, last);
      } else {
        var addition := line[if cutFromCursor then x else 0..];
        var sansNewline := if cutFromCursor then !atEol else c.noNewlines && bottom;
        var moves := (!cutFromCursor || atEol) && !bottom;
        PutInCutbuffer(Some(Added(prior, addition, sansNewline, cutFromCursor)), true, EM.COPY);
        if moves {
          MoveDown();
        } else {
          PutCursor(|line|);
        }
      }
    }

    /** copy_text; a mark that is on is given. */
    method CopyText(mark: Option<Pos>)
      requires Valid() && EM.ValidState(State()) && (mark.Some? ==> ValidPos(State().lines, mark.value))
      modifies this`keep, this`last, file`current, file`x, file`totsize, file`cutbuffer, file`cutbottom, file`cut
      ensures Valid() && State() == EM.CopyText(c, old(State()), mark)
    {
      hide *;
      if mark.Some? {
        CopyMarkedRegion(mark.value);
      } else {
        CopyLine();
      }
    }

    // ----- Indenting, replacing ---------------------------------------------------------------

    method IndentRows(first: nat, indents: seq<Line>)
      requires Valid() && EM.ValidState(State()) && first + |indents| <= |State().lines|
      modifies file, file.nodes
      ensures Valid() && var s := old(State());
              State() == s.(lines := EM.IndentRows(s.lines, first, indents),
                            x := EM.ShiftRight(s.row, s.x, first, indents),
                            size := s.size + EM.TotalLength(indents))
    {
      hide *;
      Fields();
      file.IndentLines(first, indents);
      MakeValid();
      Fields();
    }

    method UnindentRows(first: nat, indents: seq<Line>)
      requires Valid() && EM.ValidState(State()) && EM.Indented(State().lines, first, indents)
      modifies file, file.nodes
      ensures Valid() && var s := old(State());
              State() == s.(lines := EM.UnindentRows(s.lines, first, indents),
                            x := EM.ShiftLeft(s.row, s.x, first, indents),
                            size := s.size - EM.TotalLength(indents))
    {
      hide *;
      Fields();
      file.UnindentLines(first, indents);
      MakeValid();
      Fields();
    }

    /** update_multiline_undo for all the lines of one group, and set_modified. */
    method UpdateMultiline(topRow: nat, indents: seq<Line>)
      requires Valid() && |State().stack| > 0
      modifies this`stack, this`modified
      ensures Valid() && var s := old(State()).(modified := true);
              State() == EM.SetTop(s, EM.Top(s).(topRow := topRow, indents := indents, newsize := s.size))
    {
      stack := stack[|stack| - 1 := stack[|stack| - 1].(topRow := topRow, indents := indents, newsize := file.totsize)];
      modified := true;
    }

    /** do_indent on the rows from top to bot. */
    method DoIndent(top: nat, bot: nat, indentation: Line)
      requires Valid() && EM.ValidState(State()) && top <= bot < |State().lines|
      modifies this, file, file.nodes
      ensures Valid() && State() == EM.Indent(old(State()), top, bot, indentation)
    {
      hide *;
      IndentSteps(State(), top, bot, indentation);
      Fields();
      var first := file.SkipEmpty(top, bot);
      if first != bot + 1 {
        var indents := file.Indentations(first, bot, indentation);
        IndentFrom(first, indents);
      }
    }

    /** Indent the rows from `first` on, each with its own text, and record that. */
    method IndentFrom(first: nat, indents: seq<Line>)
      requires Valid() && EM.ValidState(State()) && first + |indents| <= |State().lines|
      modifies this, file, file.nodes
      ensures Valid() && State() == IndentedFrom(old(State()), first, indents)
    {
      hide *;
      IndentedSteps(State(), first, indents);
      AddUndo(EM.INDENT, None);
      IndentRows(first, indents);
      UpdateMultiline(first, indents);
    }

    /** do_unindent on the rows from top to bot. */
    method DoUnindent(top: nat, bot: nat)
      requires Valid() && EM.ValidState(State()) && top <= bot < |State().lines|
      modifies this, file, file.nodes
      ensures Valid() && State() == EM.Unindent(c, old(State()), top, bot)
    {
      hide *;
      UnindentSteps(c, State(), top, bot);
      Fields();
      var first := file.SkipUnindentable(c, top, bot);
      if first != bot + 1 {
        var indents := file.Whites(c, first, bot);
        UnindentFrom(first, indents);
      }
    }

    /** The same for taking away whitespace. */
    method UnindentFrom(first: nat, indents: seq<Line>)
      requires Valid() && EM.ValidState(State()) && EM.Indented(State().lines, first, indents)
      modifies this, file, file.nodes
      ensures Valid() && State() == UnindentedFrom(old(State()), first, indents)
    {
      hide *;
      UnindentedSteps(State(), first, indents);
      AddUndo(EM.UNINDENT, None);
      UnindentRows(first, indents);
      UpdateMultiline(first, indents);
    }

    method SetData(data: Line, x: nat, growth: int)
      requires Valid()
      modifies this`modified, file, file.nodes
      ensures file.nodes == old(file.nodes)
      ensures Valid() && var s := old(State());
              State() == s.(lines := s.lines[s.row := data], x := x, size := s.size + growth, modified := true)
    {
      hide *;
      Fields();
      file.Here();
      file.SetData(file.current, data, file.Row());
      file.Adjust(x, file.totsize + growth);
      modified := true;
      MakeValid();
      Fields();
    }

    /** The replacing of one match in do_replace_loop (with replace_line). */
    method ReplaceMatch(matchLen: nat, answer: Line)
      requires Valid() && EM.ValidState(State()) && State().x + matchLen <= |State().lines[State().row]|
      modifies this, file, file.nodes
      ensures Valid() && State() == EM.Replace(old(State()), matchLen, answer)
      ensures file.nodes == old(file.nodes)
    {
      hide *;
      ReplaceSteps(State(), matchLen, answer);
      ItemFacts();
      var line := file.current.data;
      var x := file.x;
      var altered := line[..x] + answer + line[x + matchLen..];
      AddUndo(EM.REPLACE, None);
      var now: int := MbStrLen(altered);
      var was: int := MbStrLen(line);
      SetData(altered, x + |answer|, now - was);
    }

    // ----- Undo, redo, saving -------------------------------------------------------------------

    /** The switch of do_undo on the current item. */
    method UndoItem(u: EM.Item) returns (v: EM.Item)
      requires Valid() && EM.CanUndo(c.noNewlines, u, State().lines)
      modifies file, file.nodes
      ensures Valid() && var s := old(State()); var e := EM.UndoItem(c.noNewlines, u, s.lines);
              && State() == s.(lines := e.lines, row := e.row, x := e.x, size := State().size) && v == e.item
    {
      hide *;
      Fields();
      v := file.UndoItem(c.noNewlines, u);
      file.Shown(EM.UndoItem(c.noNewlines, u, old(State()).lines));
      MakeValid();
      Fields();
    }

    method RedoItem(u: EM.Item) returns (v: EM.Item)
      requires Valid() && EM.CanRedo(c.noNewlines, u, State().lines)
      modifies file, file.nodes
      ensures Valid() && var s := old(State()); var e := EM.RedoItem(c.noNewlines, u, s.lines);
              && State() == s.(lines := e.lines, row := e.row, x := e.x, size := State().size) && v == e.item
    {
      hide *;
      Fields();
      v := file.RedoItem(c.noNewlines, u);
      file.Shown(EM.RedoItem(c.noNewlines, u, old(State()).lines));
      MakeValid();
      Fields();
    }

    /** What do_undo and do_redo note afterwards. */
    method Settle(at: nat, v: EM.Item, applied: nat, size: int, modified: bool)
      requires Valid() && at < |State().stack| && applied <= |State().stack|
      modifies this`stack, this`applied, this`last, this`modified, file`x, file`totsize
      ensures Valid() && var s := old(State());
              State() == s.(stack := s.stack[at := v], applied := applied, last := EM.OTHER, size := size,
                            modified := modified)
    {
      hide *;
      Fields();
      file.Adjust(file.x, size);
      stack := stack[at := v];
      this.applied, last, this.modified := applied, EM.OTHER, modified;
      MakeValid();
      Fields();
    }

    /** do_undo. */
    method DoUndo()
      requires Valid() && (State().applied > 0 ==> EM.CanDoUndo(c, State()))
      modifies this, file, file.nodes
      ensures Valid() && State() == EM.DoUndo(c, old(State()))
    {
      hide Valid, State, OpenFile.Valid, OpenFile.Lines, OpenFile.Row, OpenFile.CutLines, OpenFile.CutSpine,
        EM.CanUndo, EM.UndoItem;
      Fields();
      if applied > 0 {
        var u := stack[applied - 1];
        var v := UndoItem(u);
        Settle(applied - 1, v, applied - 1, u.wassize, (if applied == 1 then 0 else stack[applied - 2].id) != saved);
      }
    }

    /** do_redo. */
    method DoRedo()
      requires Valid() && (State().applied < |State().stack| ==> EM.CanDoRedo(c, State()))
      modifies this, file, file.nodes
      ensures Valid() && State() == EM.DoRedo(c, old(State()))
    {
      hide Valid, State, OpenFile.Valid, OpenFile.Lines, OpenFile.Row, OpenFile.CutLines, OpenFile.CutSpine,
        EM.CanRedo, EM.RedoItem;
      Fields();
      if applied < |stack| {
        var u := stack[applied];
        var suppress := u.kind == EM.INSERT && u.cut.None?;
        var v := RedoItem(u);
        Settle(applied, v, applied + 1, u.newsize,
               if u.id == saved then false else if suppress then modified else true);
      }
    }

    /** The bookkeeping of write_file for a whole buffer. */
    method NoteSaved()
      requires Valid()
      modifies this`saved, this`last, this`modified
      ensures Valid() && State().applied <= |State().stack| && State() == EM.Saved(old(State()))
    {
      hide Valid, State, OpenFile.Valid, OpenFile.Lines, OpenFile.Row, OpenFile.CutLines, OpenFile.CutSpine;
      Fields();
      saved := if applied == 0 then 0 else stack[applied - 1].id;
      last, modified := EM.OTHER, false;
      MakeValid();
      Fields();
    }

    /** Where the cursor is. */
    method Where() returns (row: nat, x: nat)
      requires Valid()
      ensures row == State().row && x == State().x
    {
      Here();
      row, x := file.current.lineno - 1, file.x;
    }

    /** goto_line_posx. */
    method GoTo(row: nat, x: nat)
      requires Valid() && row < |State().lines|
      modifies file`current, file`x
      ensures Valid() && State() == old(State()).(row := row, x := x)
    {
      hide Valid, State, OpenFile.Valid, OpenFile.Lines, OpenFile.Row, OpenFile.CutLines, OpenFile.CutSpine;
      Fields();
      file.Goto(row, x);
      MakeValid();
      Fields();
    }

    /** The next command will not add to the cutbuffer. */
    method Release()
      requires Valid()
      modifies this`keep
      ensures Valid() && State() == old(State()).(keep := false)
    {
      keep := false;
    }

    method ToggleCutFromCursor()
      requires Valid()
      modifies this`keep, this`cutFromCursor
      ensures Valid() && var s := old(State()); State() == s.(keep := false, cutFromCursor := !s.cutFromCursor)
    {
      keep, cutFromCursor := false, !cutFromCursor;
    }
  }

  // ----- What the steps make together --------------------------------------------------

  /** indent_length. */
  method IndentLength(c: EM.Config, line: Line) returns (n: nat)
    ensures n == EM.IndentLengthFrom(c, line, 0)
  {
    n := 0;
    while n < |line| && EM.Blank(c, line, n)
      invariant n <= |line| && EM.IndentLengthFrom(c, line, n) == EM.IndentLengthFrom(c, line, 0)
      decreases |line| - n
    {
      n := n + CharLength(line, n);
    }
  }

  /** The state after a line break, given how the lines are cut. */
  function Entered(s: EM.State, keepX: nat, below: Line, newX: nat, growth: int): EM.State
    requires EM.ValidState(s) && keepX <= s.x
  {
    var s1 := EM.AddUndo(s.(x := keepX), EM.ENTER, None);
    var s2 := s1.(lines := EM.BreakRow(s.lines, s.row, keepX, below), row := s.row + 1, x := newX,
                  size := s.size + growth, modified := true);
    EM.SetTop(s2, EM.Top(s2).(newsize := s2.size, str := below, tailX := newX))
  }

  lemma EnterSteps(c: EM.Config, s: EM.State, autoindent: bool)
    requires EM.ValidState(s)
    ensures var line := s.lines[s.row];
            var indent := EM.IndentLengthFrom(c, line, 0);
            var extra := if !autoindent then 0 else if indent > s.x then s.x else indent;
            var allblanks := autoindent && indent == s.x;
            && extra <= s.x <= |line|
            && EM.Enter(c, s, autoindent) ==
               Entered(s, if allblanks then 0 else s.x, line[..extra] + line[s.x..], extra,
                       1 + if autoindent && !allblanks then extra else 0)
  {
    hide EM.IndentLengthFrom, EM.AddUndo, EM.BreakRow, EM.SetTop;
    var line := s.lines[s.row];
    var indent := EM.IndentLengthFrom(c, line, 0);
    var keepX := if autoindent && indent == s.x then 0 else s.x;
    var s0 := s.(x := keepX);
    EnterItem(s0, s.lines[s.row := line[..keepX]]);
    SizeKept(s0, EM.ENTER, None);
  }

  lemma EnteredSteps(s: EM.State, keepX: nat, below: Line, newX: nat, growth: int)
    requires EM.ValidState(s) && keepX <= s.x
    ensures var s0 := s.(x := keepX);
            && EM.ValidState(s0)
            && var s1 := EM.AddUndo(s0, EM.ENTER, None);
            && s1.row == s.row < |s1.lines| && s1.x == keepX <= |s1.lines[s.row]|
            && var s2 := s1.(lines := EM.BreakRow(s1.lines, s1.row, keepX, below), row := s1.row + 1, x := newX,
                             size := s1.size + growth, modified := true);
            && |s2.stack| > 0 && s2.row < |s2.lines|
            && Entered(s, keepX, below, newX, growth) ==
               EM.SetTop(s2, EM.Top(s2).(newsize := s2.size, str := s2.lines[s2.row], tailX := s2.x))
  {
    hide EM.AddUndo;
    SizeKept(s.(x := keepX), EM.ENTER, None);
  }

  /** The item of a line break does not depend on the text. */
  lemma EnterItem(s: EM.State, t: Text)
    requires EM.ValidState(s) && EM.ValidState(s.(lines := t))
    ensures EM.AddUndo(s.(lines := t), EM.ENTER, None) == EM.AddUndo(s, EM.ENTER, None).(lines := t)
  {
  }

  lemma SizeKept(s: EM.State, action: EM.Kind, mark: Option<Pos>)
    requires EM.ValidState(s) && (mark.Some? ==> ValidPos(s.lines, mark.value))
    ensures var s1 := EM.AddUndo(s, action, mark);
            && s1.lines == s.lines && s1.row == s.row && s1.x == s.x && s1.size == s.size && s1.saved == s.saved
            && s1.modified == s.modified && s1.cutbuffer == s.cutbuffer && s1.keep == s.keep
            && s1.cutFromCursor == s.cutFromCursor && |s1.stack| == s1.applied > 0
  {
    hide EM.NewItem;
  }

  lemma WithinSteps(c: EM.Config, s: EM.State, action: EM.Kind)
    requires EM.ValidState(s) && (action == EM.BACK || action == EM.DEL) && s.x < |s.lines[s.row]|
    ensures var l := s.lines[s.row];
            var s1 := if action != s.last || |s.stack| == 0 || s.row != EM.Top(s).headRow
                      then EM.AddUndo(s, action, None)
                      else EM.UpdateDeletion(s);
            && s1.lines == s.lines && s1.row == s.row && s1.x == s.x && EM.ValidState(s1) && |s1.stack| > 0
            && var s2 := s1.(lines := s1.lines[s1.row := EM.DeleteFrom(l, s1.x, CharLength(l, s1.x))],
                             size := s1.size - 1, modified := true);
            EM.Expunge(c, s, action) == EM.SetTop(s2, EM.Top(s2).(newsize := s2.size))
  {
    hide EM.AddUndo, EM.UpdateDeletion, EM.DeleteFrom, CharLength;
  }

  lemma AtEndSteps(c: EM.Config, s: EM.State, action: EM.Kind)
    requires EM.ValidState(s) && (action == EM.BACK || action == EM.DEL) && s.x == |s.lines[s.row]|
    ensures if s.row == |s.lines| - 1 then EM.Expunge(c, s, action) == s
            else if s.row + 1 == |s.lines| - 1 && s.x != 0 && !c.noNewlines then
              EM.Expunge(c, s, action) == if action == EM.BACK then EM.AddUndo(s, EM.BACK, None) else s
            else
              var s1 := EM.AddUndo(s, action, None);
              && s1.lines == s.lines && s1.row == s.row && |s1.stack| > 0
              && var s2 := s1.(lines := EM.MergeRow(s.lines, s.row, s.lines[s.row + 1]), size := s1.size - 1,
                               modified := true);
              EM.Expunge(c, s, action) == EM.SetTop(s2, EM.Top(s2).(newsize := s2.size))
  {
    SizeKept(s, action, None);
    hide EM.AddUndo, EM.MergeRow;
  }

  lemma UpdateDeletionSteps(s: EM.State)
    requires EM.ValidState(s) && |s.stack| > 0
    ensures var (l, u) := (s.lines[s.row], EM.Top(s));
            var n := CharLength(l, s.x);
            var gone := if s.x < |l| then l[s.x..s.x + n] else [];
            var s1 := EM.SetTop(s, u.(newsize := s.size));
            && EM.ValidState(s1) && |s1.stack| > 0
            && EM.UpdateDeletion(s) ==
               if s.x == u.headX then EM.SetTop(s1, u.(newsize := s.size, str := u.str + gone, tailX := s.x))
               else if s.x + n == u.headX then EM.SetTop(s1, u.(newsize := s.size, str := gone + u.str, headX := s.x))
               else EM.AddUndo(s1, u.kind, None)
  {
    var (l, u) := (s.lines[s.row], EM.Top(s));
    var n := CharLength(l, s.x);
    var gone := if s.x < |l| then l[s.x..s.x + n] else [];
    SetTopTwice(s, u.(newsize := s.size), u.(newsize := s.size, str := u.str + gone, tailX := s.x));
    SetTopTwice(s, u.(newsize := s.size), u.(newsize := s.size, str := gone + u.str, headX := s.x));
    hide EM.AddUndo, CharLength, EM.SetTop;
  }

  lemma SetTopTwice(s: EM.State, u: EM.Item, v: EM.Item)
    requires |s.stack| > 0
    ensures var s1 := EM.SetTop(s, u);
            && EM.SetTop(s1, v) == EM.SetTop(s, v) && |s1.stack| == |s.stack|
            && (EM.ValidState(s) ==> EM.ValidState(s1))
  {
  }

  lemma TakenOut(c: EM.Config, s: EM.State, mark: Option<Pos>, untilEof: bool, s': EM.State)
    requires EM.ValidState(s) && (mark.Some? ==> ValidPos(s.lines, mark.value))
    requires var (p, q) := EM.SnipRegion(s, mark, untilEof);
             && ExtractedFrom(c.noNewlines, s.lines, p, q, s.size, s'.lines, Pos(s'.row, s'.x), s'.size)
             && s'.cutbuffer == Gathered(s.cutbuffer, s.lines, p, q) && (p == q ==> s'.x == s.x)
    requires s' == s.(lines := s'.lines, row := s'.row, x := s'.x, size := s'.size, cutbuffer := s'.cutbuffer)
    ensures var (p, q) := EM.SnipRegion(s, mark, untilEof); s' == EM.TakeOut(c, s, p, q)
  {
    hide Segment, Join, Head, Rest, Characters;
  }

  lemma SnipSteps(c: EM.Config, s: EM.State, mark: Option<Pos>, untilEof: bool, append: bool)
    requires EM.ValidState(s) && (mark.Some? ==> ValidPos(s.lines, mark.value))
    ensures var s1 := if (mark.Some? || untilEof || !(s.keep && s.last != EM.COPY)) && !append
                      then s.(cutbuffer := None) else s;
            && EM.ValidState(s1)
            && var (p, q) := EM.SnipRegion(s1, mark, untilEof);
            EM.Snip(c, s, mark, untilEof, append) ==
            EM.TakeOut(c, s1, p, q).(keep := mark.None? && !untilEof, modified := true)
  {
    hide EM.TakeOut;
  }

  lemma UpdateCutSteps(c: EM.Config, s: EM.State, cut: Option<Text>)
    requires |s.stack| > 0
    ensures var u := EM.Top(s).(newsize := s.size);
            EM.UpdateCut(c, s.(cutbuffer := cut)).(cutbuffer := s.cutbuffer) ==
            if cut.None? then EM.SetTop(s, if u.kind == EM.ZAP then u.(cut := None) else u)
            else
              var v := u.(cut := cut);
              EM.SetTop(s, if u.markWasSet then v else
                v.(tailRow := u.headRow + |cut.value| - 1,
                   tailX := if s.cutFromCursor || u.kind == EM.CUT_TO_EOF then
                              |cut.value[|cut.value| - 1]| + if |cut.value| == 1 then u.headX else 0
                            else if s.row == |s.lines| - 1 && c.noNewlines then |cut.value[|cut.value| - 1]|
                            else u.tailX))
  {
  }

  function StartedCut(s: EM.State, mark: Option<Pos>): EM.State
    requires EM.ValidState(s) && (mark.Some? ==> ValidPos(s.lines, mark.value))
  {
    if s.last != EM.CUT || !s.keep || |s.stack| == 0 then EM.AddUndo(s.(keep := false), EM.CUT, mark) else s
  }

  lemma StartedCutIs(s: EM.State, mark: Option<Pos>)
    requires EM.ValidState(s) && (mark.Some? ==> ValidPos(s.lines, mark.value))
    ensures var s0 := s.(keep := false, modified := s.modified);
            && EM.ValidState(s0)
            && StartedCut(s, mark) ==
               if s.last != EM.CUT || !s.keep || |s.stack| == 0 then EM.AddUndo(s0, EM.CUT, mark) else s
  {
  }

  lemma NotedCut(c: EM.Config, s: EM.State)
    requires |s.stack| > 0
    ensures EM.UpdateCut(c, s.(cutbuffer := s.cutbuffer)).(cutbuffer := s.cutbuffer) == EM.UpdateCut(c, s)
  {
    hide EM.CutNoted;
  }

  lemma CutTextSteps(c: EM.Config, s: EM.State, mark: Option<Pos>)
    requires EM.ValidState(s) && (mark.Some? ==> ValidPos(s.lines, mark.value))
    ensures if !EM.IsCuttable(c, s, s.cutFromCursor && mark.None?, mark) then EM.CutText(c, s, mark) == s
            else
              var s1 := StartedCut(s, mark);
              && EM.ValidState(s1) && (mark.Some? ==> ValidPos(s1.lines, mark.value)) && |s1.stack| > 0
              && var s2 := EM.Snip(c, s1, mark, false, false);
              |s2.stack| > 0 && EM.CutText(c, s, mark) == EM.UpdateCut(c, s2)
  {
    hide EM.IsCuttable, EM.AddUndo, EM.Snip, EM.UpdateCut;
  }

  lemma SnippedAside(c: EM.Config, s: EM.State, prior: Option<Text>, mark: Option<Pos>, s': EM.State,
                     result: Option<Text>)
    requires EM.ValidState(s) && (mark.Some? ==> ValidPos(s.lines, mark.value))
    requires var (p, q) := EM.SnipRegion(s, mark, false);
             && ExtractedFrom(c.noNewlines, s.lines, p, q, s.size, s'.lines, Pos(s'.row, s'.x), s'.size)
             && result == Gathered(prior, s.lines, p, q) && (p == q ==> s'.x == s.x)
    requires s' == s.(lines := s'.lines, row := s'.row, x := s'.x, size := s'.size, keep := mark.None?,
             modified := true)
    ensures EM.ValidState(s.(cutbuffer := prior))
    ensures var s2 := EM.Snip(c, s.(cutbuffer := prior), mark, false, true);
            s' == s2.(cutbuffer := s.cutbuffer) && result == s2.cutbuffer
  {
    hide EM.TakeOut, ExtractedFrom, Gathered;
    var s1 := s.(cutbuffer := prior);
    TakenOut(c, s1, mark, false,
             s1.(lines := s'.lines, row := s'.row, x := s'.x, size := s'.size, cutbuffer := result));
  }

  lemma ZapTextSteps(c: EM.Config, s: EM.State, mark: Option<Pos>)
    requires EM.ValidState(s) && (mark.Some? ==> ValidPos(s.lines, mark.value))
    ensures if !EM.IsCuttable(c, s, s.cutFromCursor && mark.None?, mark) then EM.ZapText(c, s, mark) == s
            else
              var s1 := if s.last != EM.ZAP || !s.keep || |s.stack| == 0 then EM.AddUndo(s, EM.ZAP, mark) else s;
              && EM.ValidState(s1) && (mark.Some? ==> ValidPos(s1.lines, mark.value)) && |s1.stack| > 0
              && s1.cutbuffer == s.cutbuffer && EM.ValidState(s1.(cutbuffer := EM.Top(s1).cut))
              && var s2 := EM.Snip(c, s1.(cutbuffer := EM.Top(s1).cut), mark, false, true);
              var s3 := s2.(cutbuffer := s1.cutbuffer);
              && |s3.stack| > 0
              && EM.ZapText(c, s, mark) == EM.UpdateCut(c, s3.(cutbuffer := s2.cutbuffer)).(cutbuffer := s3.cutbuffer)
  {
    SizeKept(s, EM.ZAP, mark);
    hide EM.IsCuttable, EM.AddUndo, EM.Snip, EM.UpdateCut;
  }

  lemma CutTillEofSteps(c: EM.Config, s: EM.State)
    requires EM.ValidState(s)
    ensures if s.x == |s.lines[s.row]| &&
               (s.row == |s.lines| - 1 || (!c.noNewlines && s.x > 0 && s.row + 1 == |s.lines| - 1))
            then EM.CutTillEof(c, s) == s
            else
              var s1 := EM.AddUndo(s, EM.CUT_TO_EOF, None);
              && EM.ValidState(s1)
              && var s2 := EM.Snip(c, s1, None, true, false);
              |s2.stack| > 0 && EM.CutTillEof(c, s) == EM.UpdateCut(c, s2)
  {
    hide EM.AddUndo, EM.Snip, EM.UpdateCut;
  }

  lemma PutInPlace(c: EM.Config, s: EM.State, t: Text, s': EM.State)
    requires EM.ValidState(s)
    requires GraftedInto(c.noNewlines, s.lines, Pos(s.row, s.x), t, s.size, s'.lines, Pos(s'.row, s'.x), s'.size)
    requires s' == s.(lines := s'.lines, row := s'.row, x := s'.x, size := s'.size)
    ensures s' == EM.PutIn(c, s, t)
  {
    hide Join, Head, Rest, Characters, Grafted, EndAfter;
  }

  lemma PasteSteps(c: EM.Config, s: EM.State)
    requires EM.ValidState(s)
    ensures if s.cutbuffer.None? then EM.PasteText(c, s) == s
            else
              var s1 := EM.AddUndo(s, EM.PASTE, None);
              && EM.ValidState(s1) && s1.cutbuffer == s.cutbuffer
              && var s2 := EM.PutIn(c, s1, s.cutbuffer.value);
              && |s2.stack| > 0
              && var s3 := EM.UpdatePaste(s2);
              EM.PasteText(c, s) == s3.(modified := true)
  {
    SizeKept(s, EM.PASTE, None);
    hide EM.AddUndo, EM.PutIn, EM.UpdatePaste;
  }

  lemma InsertSteps(c: EM.Config, s: EM.State, t: Text)
    requires EM.ValidState(s)
    ensures var s1 := EM.AddUndo(s, EM.INSERT, None);
            && EM.ValidState(s1)
            && var s2 := EM.PutIn(c, s1, t);
            && |s2.stack| > 0
            && var s3 := EM.UpdatePaste(s2);
            && EM.InsertText(c, s, t) ==
               if s3.row != s.row || s3.x != s.x then s3.(modified := true) else s3
  {
    SizeKept(s, EM.INSERT, None);
    hide EM.AddUndo;
  }

  predicate BeforePos(p: Pos, q: Pos) {
    Before(p, q)
  }

  lemma CopyMarkedSteps(c: EM.Config, s: EM.State, mark: Pos)
    requires EM.ValidState(s) && ValidPos(s.lines, mark)
    ensures var cursor := EM.Cursor(s);
            var (p, q) := if BeforePos(mark, cursor) then (mark, cursor) else (cursor, mark);
            && ValidPos(s.lines, p) && ValidPos(s.lines, q) && Before(p, q) && cursor == Pos(s.row, s.x)
            && EM.CopyText(c, s, Some(mark)) ==
               s.(cutbuffer := if p == q then None else Some(Segment(s.lines, p, q)), keep := false, last := EM.OTHER)
  {
  }

  /** What is in the cutbuffer after a line, or a part of one, has been copied into it. */
  function Added(prior: Option<Text>, addition: Line, sansNewline: bool, cutFromCursor: bool): Text {
    if sansNewline then
      if prior.None? then [addition] else prior.value[..|prior.value| - 1] + [addition]
    else if prior.None? then [addition, []]
    else if cutFromCursor then prior.value + [addition]
    else prior.value[..|prior.value| - 1] + [addition, Last(prior.value)]
  }

  lemma CopyLineSteps(c: EM.Config, s: EM.State)
    requires EM.ValidState(s)
    ensures var line := s.lines[s.row];
            var (goesOn, atEol, bottom) := (s.keep && s.last == EM.COPY, s.x == |line|, s.row == |s.lines| - 1);
            var prior := if goesOn then s.cutbuffer else None;
            s.x <= |line| &&
            if bottom && atEol && (s.cutFromCursor || s.x == 0 || prior.Some?) then
              EM.CopyText(c, s, None) == s.(cutbuffer := prior, keep := goesOn, last := s.last)
            else
              var addition := line[if s.cutFromCursor then s.x else 0..];
              var sansNewline := if s.cutFromCursor then !atEol else c.noNewlines && bottom;
              var moves := (!s.cutFromCursor || atEol) && !bottom;
              var s1 := s.(cutbuffer := Some(Added(prior, addition, sansNewline, s.cutFromCursor)), keep := true,
                           last := EM.COPY);
              EM.CopyText(c, s, None) == if moves then s1.(row := s1.row + 1, x := 0) else s1.(x := |line|)
  {
  }

  function IndentedFrom(s: EM.State, first: nat, indents: seq<Line>): EM.State
    requires EM.ValidState(s) && first + |indents| <= |s.lines|
  {
    var s1 := EM.AddUndo(s, EM.INDENT, None);
    var s2 := s1.(lines := EM.IndentRows(s.lines, first, indents), x := EM.ShiftRight(s.row, s.x, first, indents),
                  size := s.size + EM.TotalLength(indents), modified := true);
    EM.SetTop(s2, EM.Top(s2).(topRow := first, indents := indents, newsize := s2.size))
  }

  function UnindentedFrom(s: EM.State, first: nat, indents: seq<Line>): EM.State
    requires EM.ValidState(s) && EM.Indented(s.lines, first, indents)
  {
    var s1 := EM.AddUndo(s, EM.UNINDENT, None);
    var s2 := s1.(lines := EM.UnindentRows(s.lines, first, indents), x := EM.ShiftLeft(s.row, s.x, first, indents),
                  size := s.size - EM.TotalLength(indents), modified := true);
    EM.SetTop(s2, EM.Top(s2).(topRow := first, indents := indents, newsize := s2.size))
  }

  lemma IndentedSteps(s: EM.State, first: nat, indents: seq<Line>)
    requires EM.ValidState(s) && first + |indents| <= |s.lines|
    ensures var s1 := EM.AddUndo(s, EM.INDENT, None);
            && EM.ValidState(s1) && first + |indents| <= |s1.lines|
            && var s2 := s1.(lines := EM.IndentRows(s1.lines, first, indents),
                             x := EM.ShiftRight(s1.row, s1.x, first, indents),
                             size := s1.size + EM.TotalLength(indents));
            && |s2.stack| > 0
            && var s3 := s2.(modified := true);
            IndentedFrom(s, first, indents) ==
            EM.SetTop(s3, EM.Top(s3).(topRow := first, indents := indents, newsize := s3.size))
  {
    SizeKept(s, EM.INDENT, None);
    hide EM.AddUndo, EM.IndentRows, EM.ShiftRight, EM.TotalLength;
  }

  lemma UnindentedSteps(s: EM.State, first: nat, indents: seq<Line>)
    requires EM.ValidState(s) && EM.Indented(s.lines, first, indents)
    ensures var s1 := EM.AddUndo(s, EM.UNINDENT, None);
            && EM.ValidState(s1) && EM.Indented(s1.lines, first, indents)
            && var s2 := s1.(lines := EM.UnindentRows(s1.lines, first, indents),
                             x := EM.ShiftLeft(s1.row, s1.x, first, indents),
                             size := s1.size - EM.TotalLength(indents));
            && |s2.stack| > 0
            && var s3 := s2.(modified := true);
            UnindentedFrom(s, first, indents) ==
            EM.SetTop(s3, EM.Top(s3).(topRow := first, indents := indents, newsize := s3.size))
  {
    SizeKept(s, EM.UNINDENT, None);
    hide EM.AddUndo, EM.UnindentRows, EM.ShiftLeft, EM.TotalLength;
  }

  lemma IndentSteps(s: EM.State, top: nat, bot: nat, indentation: Line)
    requires EM.ValidState(s) && top <= bot < |s.lines|
    ensures var first := EM.SkipEmpty(s.lines, top, bot);
            if first == bot + 1 then EM.Indent(s, top, bot, indentation) == s
            else
              && first <= bot
              && var indents := EM.Indentations(s.lines, first, bot, indentation);
              && first + |indents| <= |s.lines|
              && EM.Indent(s, top, bot, indentation) == IndentedFrom(s, first, indents)
  {
    hide EM.AddUndo, EM.IndentRows, EM.ShiftRight, EM.TotalLength, EM.SkipEmpty;
  }

  lemma UnindentSteps(c: EM.Config, s: EM.State, top: nat, bot: nat)
    requires EM.ValidState(s) && top <= bot < |s.lines|
    ensures var first := EM.SkipUnindentable(c, s.lines, top, bot);
            if first == bot + 1 then EM.Unindent(c, s, top, bot) == s
            else
              && first <= bot
              && var indents := EM.Whites(c, s.lines, first, bot);
              && EM.Indented(s.lines, first, indents)
              && EM.Unindent(c, s, top, bot) == UnindentedFrom(s, first, indents)
  {
    hide EM.AddUndo, EM.UnindentRows, EM.ShiftLeft, EM.TotalLength, EM.SkipUnindentable;
  }

  lemma ReplaceSteps(s: EM.State, matchLen: nat, answer: Line)
    requires EM.ValidState(s) && s.x + matchLen <= |s.lines[s.row]|
    ensures var line := s.lines[s.row];
            var altered := line[..s.x] + answer + line[s.x + matchLen..];
            var s1 := EM.AddUndo(s, EM.REPLACE, None);
            && s1.row == s.row && s1.lines == s.lines
            && EM.Replace(s, matchLen, answer) ==
               s1.(lines := s1.lines[s1.row := altered], x := s.x + |answer|,
                   size := s1.size + (Count(altered) - Count(line)), modified := true)
  {
    SizeKept(s, EM.REPLACE, None);
    hide EM.AddUndo, Count;
  }

  lemma InjectSteps(c: EM.Config, s: EM.State, burst: Line)
    requires EM.ValidState(s)
    ensures var s1 := if EM.ContinuesTyping(s) then s else EM.AddUndo(s, EM.ADD, None);
            && s1.row < |s1.lines| && s1.x <= |s1.lines[s1.row]|
            && var (t, r) := (s1.lines, s1.row);
            var t1 := t[r := EM.InsertIn(t[r], s1.x, burst)];
            var magic := r == |t| - 1 && !c.noNewlines;
            var s2 := s1.(lines := if magic then t1 + [[]] else t1, x := s1.x + |burst|,
                          size := s1.size + Count(burst) + if magic then 1 else 0, modified := true);
            && EM.ValidState(s2) && |s2.stack| > 0
            && EM.Inject(c, s, burst) == EM.UpdateAdd(s2)
  {
    hide EM.NewItem, EM.UpdateAdd;
  }
}

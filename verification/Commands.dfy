/** The commands of a user on a linked buffer: whatever is done, in whatever
    order, the undo stack goes on standing for a history of snapshots. */
module Commands {
  import opened Chars
  import opened Lines
  import EM = EditModel
  import History
  import Runs
  import opened Editor
  import opened Options

  /** Perform one command. */
  method Perform(e: Editor, m: History.Mode, op: Runs.Op, ghost h: History.History) returns (ghost h': History.History)
    requires e.Valid() && m.config == e.c
    requires History.Inv(m, e.State(), h) && Runs.Allowed(m, e.State(), op)
    modifies e, e.file, e.file.nodes, e.file.cut
    ensures e.Valid() && Runs.Possible(m.config, old(e.State()), op)
    ensures e.State() == Runs.Step(m.config, old(e.State()), op)
    ensures History.Inv(m, e.State(), h')
  {
    hide *;
    ghost var s := e.State();
    Runs.StepKeeps(m, s, h, op);
    h' := Runs.Follow(s, op, Runs.Step(m.config, s, op), h);
    Dispatch(e, m, op);
  }

  method Dispatch(e: Editor, m: History.Mode, op: Runs.Op)
    requires e.Valid() && m.config == e.c
    requires Runs.Possible(m.config, e.State(), op) && Runs.Allowed(m, e.State(), op)
    modifies e, e.file, e.file.nodes, e.file.cut
    ensures e.Valid() && e.State() == Runs.Step(m.config, old(e.State()), op)
  {
    hide *;
    StepIs(m, e.State(), op);
    if !(op.Cut? || op.Zap? || op.Copy?) {
      e.Release();
    }
    match op {
      case Move(row, x) => e.GoTo(row, x);
      case Type(burst) => e.Inject(burst);
      case BreakLine(autoindent) => e.DoEnter(autoindent);
      case Delete => e.Expunge(EM.DEL);
      case Backspace => e.DoBackspace();
      case Cut(mark) =>
        if mark.Some? { e.Release(); }
        e.CutText(mark);
      case Zap(mark) =>
        if mark.Some? { e.Release(); }
        e.ZapText(mark);
      case CutToEnd => e.CutTillEof();
      case Copy(mark) => e.CopyText(mark);
      case Paste => e.PasteText();
      case InsertFile(text) => e.InsertText(text);
      case IndentRegion(top, bot, indentation) => e.DoIndent(top, bot, indentation);
      case UnindentRegion(top, bot) => e.DoUnindent(top, bot);
      case ReplaceAt(row, x, len, answer) =>
        e.GoTo(row, x);
        e.ReplaceMatch(len, answer);
      case Undo => e.DoUndo();
      case Redo => e.DoRedo();
      case Save => e.NoteSaved();
      case ToggleCutFromCursor => e.ToggleCutFromCursor();
    }
  }

  /** What Step says, in the methods' terms. */
  lemma StepIs(m: History.Mode, s: EM.State, op: Runs.Op)
    requires Runs.Possible(m.config, s, op) && Runs.Allowed(m, s, op)
    ensures var (c, free) := (m.config, s.(keep := false));
            && EM.ValidState(s) && EM.ValidState(free)
            && match op
               case Move(row, x) => row < |free.lines| && Runs.Step(c, s, op) == free.(row := row, x := x)
               case Type(burst) => Runs.Step(c, s, op) == EM.Inject(c, free, EM.Encoded(burst))
               case BreakLine(autoindent) => Runs.Step(c, s, op) == EM.Enter(c, free, autoindent)
               case Delete => Runs.Step(c, s, op) == EM.Expunge(c, free, EM.DEL)
               case Backspace => Runs.Step(c, s, op) == EM.Backspace(c, free)
               case Cut(mark) =>
                 && (mark.Some? ==> ValidPos(s.lines, mark.value) && ValidPos(free.lines, mark.value))
                 && Runs.Step(c, s, op) == EM.CutText(c, if mark.Some? then free else s, mark)
               case Zap(mark) =>
                 && (mark.Some? ==> ValidPos(s.lines, mark.value) && ValidPos(free.lines, mark.value))
                 && Runs.Step(c, s, op) == EM.ZapText(c, if mark.Some? then free else s, mark)
               case CutToEnd => Runs.Step(c, s, op) == EM.CutTillEof(c, free)
               case Copy(mark) =>
                 && (mark.Some? ==> ValidPos(s.lines, mark.value))
                 && Runs.Step(c, s, op) == EM.CopyText(c, s, mark)
               case Paste => Runs.Step(c, s, op) == EM.PasteText(c, free)
               case InsertFile(text) => Runs.Step(c, s, op) == EM.InsertText(c, free, text)
               case IndentRegion(top, bot, indentation) =>
                 top <= bot < |free.lines| && Runs.Step(c, s, op) == EM.Indent(free, top, bot, indentation)
               case UnindentRegion(top, bot) =>
                 top <= bot < |free.lines| && Runs.Step(c, s, op) == EM.Unindent(c, free, top, bot)
               case ReplaceAt(row, x, len, answer) =>
                 && row < |free.lines|
                 && var there := free.(row := row, x := x);
                 && EM.ValidState(there) && there.x + len <= |there.lines[there.row]|
                 && Runs.Step(c, s, op) == EM.Replace(there, len, answer)
               case Undo => (free.applied > 0 ==> EM.CanDoUndo(c, free)) && Runs.Step(c, s, op) == EM.DoUndo(c, free)
               case Redo =>
                 && (free.applied < |free.stack| ==> EM.CanDoRedo(c, free))
                 && Runs.Step(c, s, op) == EM.DoRedo(c, free)
               case Save => free.applied <= |free.stack| && Runs.Step(c, s, op) == EM.Saved(free)
               case ToggleCutFromCursor =>
                 Runs.Step(c, s, op) == s.(keep := false, cutFromCursor := !s.cutFromCursor)
  {
    hide EM.Inject, EM.Enter, EM.Expunge, EM.Backspace, EM.CutText, EM.ZapText, EM.CutTillEof, EM.CopyText,
      EM.PasteText, EM.InsertText, EM.Indent, EM.Unindent, EM.Replace, EM.DoUndo, EM.DoRedo, EM.CanUndo, EM.CanRedo;
  }
}

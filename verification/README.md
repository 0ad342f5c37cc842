# KrakeOS: what its text editor and its own small cores promise

A verification project beside the KrakeOS repository.  It models the nano text
editor that KrakeOS ships (with undo compiled in) and five cores of the project's
own Rust code, and proves what they promise over all inputs and all runs.

`dafny verify dfyconfig.toml` checks everything.

## What is modelled

- **Characters and columns** (`Chars`, `Columns`): stepping through UTF-8 and through
  ill-formed bytes, and the arithmetic of columns.  A line is a sequence of bytes that
  are not NUL; a stored newline byte stands for a NUL of the file.
- **The line algebra** (`Lines`): a text is a list of lines, A + B joins the last line of
  A with the first of B, and one empty line is the unit.
- **The buffer** (`LineList`, `Buffer`): doubly linked nodes, edited in place, refine that
  algebra and keep their links, ends, numbers and size.
- **The editor** (`EditModel`, `Editor`, `Commands`): `EditModel` says on values what every
  command does to text, cursor, size, cutbuffer, flags and undo stack; the methods of
  `Editor` do it on the linked buffer, each proved equal to its function.
- **Undo and redo** (`History`, `Items`, `Edits`, `Cuts`, `Indents`, `Runs`): the invariant
  that makes the stack of small items a history of whole texts, kept by every command,
  and what follows for whole runs; with where undo and redo put the cursor and when they
  clear the Modified flag (`Cursors`, `Returns`).
- **What the commands do** (`Effects`, `CopyCut`, `Cutting`), row by row and without the
  functions of `EditModel` that they are made of.
- **Searching, replacing, files** (`Search`, `Replacing`, `ReplaceAll`, `FileIO`).
- **Drawing and text in inkui** (`DrawLine`, `Ansi`), its **layout** (`Layout`), the
  **spin lock** (`Mutex`) and the shell's **path resolution** (`Paths`).

Two parameters say what a statement about runs is about (`History.Mode`): `utf8` for
buffers of well-formed UTF-8 only, and `sized` for the recorded size as well as the text.

## Findings

Where a promise fails, the project gives an input and the exact condition.

- **Skipped occurrence.**  A search steps over the character at the cursor first, and so
  misses an occurrence that begins inside it; it is complete exactly when there is none
  (`Search.GoLooking`, `Search.SkippedOccurrence`).
- **Size after redoing a replacement.**  The item of a replacement never learns the size
  after it, so redoing one that changes the number of characters leaves a wrong size
  (`Runs.RedoneReplacement`, `Runs.RedoRestores`, `Runs.ReplacementMiscounted`).
- **Cursor and flag after undo and redo.**  Undo puts the cursor back to where the item's
  operation started, except after deletions in place; redoing a replacement puts it before
  the answer, not behind it; and redoing an insertion of nothing does not set the Modified
  flag (exactly: `Returns.UndoReturns`, `Returns.RedoReturns`, `Returns.FlagIsExact`; inputs:
  `Returns.DeletedInPlace`, `Returns.ReplacementRedone`, `Returns.NothingInserted`).
- **Size after breaking a line.**  Copied indentation is counted in bytes; wide blanks
  are counted too often (`Edits.EnterSize`, `Edits.EnterMiscounts`).
- **Disorderly drop.**  Dropping the first of two interrupt-masking guards first enables
  interrupts while the second is live, and a handler may then wait for ever; order is
  exactly what is needed (`Mutex.OrderIsExact`, `Mutex.Disorder`, `Mutex.StuckForEver`).
- **Path without a component.**  From a directory without a component, a path that names
  none leads to the default volume, which a longer path would not have had in it
  (`Paths.ComposesExactly`).
- **Copies and cuts.**  A copy on the empty last line empties the cutbuffer, a cut does
  not; and after a cut the next cut adds to it while a copy starts anew
  (`CopyCut.CopiesAsCuts`, `CopyCut.CopyEmpties`, `CopyCut.CutGoesOn`).

## Model

| member | source | states |
|---|---|---|
| `Chars.DecoderIsRfc3629` | apps/nano-master/src/chars.c:165-282 | at any place in any bytes, `mbtowide` accepts exactly a character of the grammar in section 4 of RFC 3629 and takes all of it; `char_length` agrees, and is 1 where `mbtowide` rejects |
| `Chars.DecodeEncode` | apps/nano-master/src/chars.c:165-208 | decoding the encoding of a Unicode scalar value gives the value, whatever bytes follow |
| `Chars.EncodeDecode` | apps/nano-master/src/chars.c:165-208 | whatever is accepted is the encoding of the scalar value it decodes to, so that acceptance is a bijection |
| `Chars.StepLeftIsPredecessor` | apps/nano-master/src/chars.c:355-397 | at every boundary of every byte string, ill-formed ones included, `step_left` gives the boundary that the walk by `step_right` from index 0 reaches just before |
| `Chars.StepLeftLoop` | apps/nano-master/src/chars.c:355-390 | the loop of `step_left`, with its look back of at most four bytes, computes the function that the previous row is about |
| `Chars.MbStrLen` | apps/nano-master/src/chars.c:285-297 | the counting loop counts the steps of the walk |
| `Chars.Concatenated` | apps/nano-master/src/chars.c:285-297 | joining two well-formed lines adds their character counts and keeps the boundaries of both, and no others |
| `Columns.AdvanceOver` | apps/nano-master/src/chars.c:311-351 | the length that `advance_over` returns is `char_length`, so it never passes the end of the string, and the column grows by the width, for any width function |
| `Columns.Wideness` | apps/nano-master/src/utils.c:384-402 | the loop sums the widths of the characters before an index |
| `Columns.ActualX` | apps/nano-master/src/utils.c:363-378 | the loop stops at the last character whose end is not beyond the column |
| `Columns.Adjoint` | apps/nano-master/src/utils.c:363-402 | for every boundary j and column c: j <= actual_x(text, c) if and only if wideness(text, j) <= c, with tabs, control characters and characters without width |
| `Columns.ThereAndBack` | apps/nano-master/src/utils.c:363-402 | going to the column of an index comes back to it or beyond it over characters without width; the column of `actual_x` never overshoots |
| `Columns.IndexOnStep` | apps/nano-master/src/utils.c:363-378 | `actual_x` always stops between characters |
| `Columns.LineWidth` | apps/nano-master/src/utils.c:384-402 | the width of a line of UTF-8 is that of its code points in turn: two columns for a control character, one for another of ASCII, what `wcwidth` says for others (one where it says -1), and a tab on to the next multiple of the tab size |
| `Columns.CharacterTakes` | apps/nano-master/src/chars.c:311-351 | an encoded code point takes those columns and steps over its own bytes, wherever in a line it is |
| `Columns.TabStops` | apps/nano-master/src/chars.c:340-342 | a tab leads to a multiple of the tab size, beyond the column it is in by at least one and at most the tab size |
| `Columns.PlainThenTab` | apps/nano-master/src/utils.c:384-402 | n printable ASCII characters and a tab are as wide as the first tab stop beyond n |
| `Columns.InvalidTakesOne` | apps/nano-master/src/chars.c:320-327 | a byte that begins no character is shown in one column |
| `Columns.BytesEnd` | apps/nano-master/src/chars.c:338-350 | without UTF-8 the width of a line is that of its bytes in turn |
| `Lines.SplitRegion` | apps/nano-master/src/cut.c:253-368 | a region splits a text into what is before it, the region and what is after it, which join to the text |
| `Lines.CutThenPaste` | apps/nano-master/src/cut.c:253-443 | cutting any region and grafting it back in place gives the text, followed by one empty line exactly when the cut had to add a magic line |
| `Lines.CutAddsMagic` | apps/nano-master/src/cut.c:253-368 | a cut has to add a magic line exactly when the region reaches into the last line and leaves something before it in its first line |
| `Lines.PasteThenCut` | apps/nano-master/src/cut.c:253-443 | cutting what was grafted gives that text and what was there before, followed by one empty line exactly when the graft had to add a magic line |
| `Lines.CharactersJoin` | apps/nano-master/src/utils.c:505-516 | the character count of joined well-formed texts is the sum of their counts |
| `LineList.LineNode.constructor` | apps/nano-master/src/nano.c:67-83 | a new node points back to its predecessor, to nothing ahead, and has the next line number |
| `LineList.NumberOfCharactersIn` | apps/nano-master/src/utils.c:505-516 | the walk counts the characters of the lines and one newline between each two |
| `LineList.CopyBuffer` | apps/nano-master/src/nano.c:147-186 | walking a list and copying its nodes gives a new chain of nodes with the same lines and line numbers |
| `LineList.SpliceNode` | apps/nano-master/src/nano.c:86-91 | after splicing, the nodes are a proper chain, both ways, with the new node in its place |
| `LineList.UnlinkNode` | apps/nano-master/src/nano.c:118-123 | after unlinking, the rest of the nodes are a proper chain, both ways |
| `LineList.RenumberFrom` | apps/nano-master/src/nano.c:188-196 | renumbering from a node on gives every node of the list its row, if those before had theirs |
| `LineList.Take` | apps/nano-master/src/cut.c:253-352 | by relinking nodes, a region leaves the list: the two lists hold Head joined with Rest, and the region; both are proper chains with true ends, apart from each other, and what remains is numbered |
| `LineList.Put` | apps/nano-master/src/cut.c:372-431 | by relinking nodes, a list is melded into another: the result holds the joined texts, is a proper chain with true ends, is numbered, and the cursor is at the end of what was put in |
| `Buffer.OpenFile.ExtractSegment` | apps/nano-master/src/cut.c:253-368 | from a buffer P+S+Q with cutbuffer C, it leaves P+Q (and one empty line exactly when newlines are automatic and the last line would not be empty) and C+S, with the cursor at the joint, the size reduced by what was taken, and the list, its ends and its numbers in good order |
| `Buffer.OpenFile.IngraftBuffer` | apps/nano-master/src/cut.c:372-443 | grafting T at the cursor leaves P+T+Q (and one empty line as above), the cursor at the end of T, the size increased by what was put in, and the list in good order |
| `Buffer.OpenFile.CopyFromCutbuffer` | apps/nano-master/src/cut.c:446-463 | the same for a copy of the list that the cutbuffer points to, which stays as it is |
| `Buffer.OpenFile.InsertLine` | apps/nano-master/src/nano.c:86-97 | a new line after a given one: the text gets the line in its place, and links, numbers and the end pointer are in good order again |
| `Buffer.OpenFile.RemoveLine` | apps/nano-master/src/nano.c:118-132 | the line after a given one goes, and links, numbers and the end pointer are in good order again |
| `Buffer.OpenFile.NewMagicLine` | apps/nano-master/src/utils.c:416-423 | one empty line is added at the end of the buffer and counted |
| `Buffer.OpenFile.RemoveMagicLine` | apps/nano-master/src/utils.c:427-437 | an empty last line that is not the only one goes, and is no longer counted |
| `Buffer.OpenFile.LineFromNumber` | apps/nano-master/src/utils.c:489-500 | the walk from the current line, in either direction, ends at the node of the given number |
| `Buffer.OpenFile.GotoLinePosx` | apps/nano-master/src/search.c:745-762 | the cursor is put into the given row, or the last one, at the given index |
| `Buffer.OpenFile.IndentALine` | apps/nano-master/src/text.c:89-112 | one line gets its indentation, and the cursor, if it is on that line and not at its start, moves along; the size grows by the indentation |
| `Buffer.OpenFile.UnindentALine` | apps/nano-master/src/text.c:201-235 | one line loses whitespace at its start, and the cursor moves back, but not past the start |
| `Buffer.LengthOfWhite` | apps/nano-master/src/text.c:170-198 | the loop finds the whitespace that an unindent takes: a tab, or up to a tab of blanks |
| `Buffer.OpenFile.HandleIndentAction` | apps/nano-master/src/text.c:275-303 | undoing or redoing an indentation changes every row of the group by its own text, which the pure model describes |
| `Buffer.OpenFile.UndoItem` | apps/nano-master/src/text.c:501-672 | on one undo item of any modelled kind, the code that relinks and edits lines leaves text and cursor as the pure model says |
| `Buffer.OpenFile.RedoItem` | apps/nano-master/src/text.c:684-842 | the same for redoing one item |
| `Buffer.OpenFile.UndoCut` | apps/nano-master/src/text.c:461-480 | undoing a cut puts the text back at its place and takes an extra magic line away |
| `Buffer.OpenFile.RedoCut` | apps/nano-master/src/text.c:483-498 | redoing a cut takes the text out again and keeps what was taken |
| `Editor.Editor.AddUndo` | apps/nano-master/src/text.c:961-1097 | items that were undone are dropped, and the new item holds the place, the sizes and the kind of the action |
| `Editor.Editor.Inject` | apps/nano-master/src/nano.c:1476-1572 | typing changes the buffer, its size and the newest undo item as the pure model says: a new item, or the last one extended |
| `Editor.Editor.DoEnter` | apps/nano-master/src/text.c:854-928 | breaking a line, with the indentation that is copied or trimmed, does what the pure model says |
| `Editor.Editor.Expunge` | apps/nano-master/src/cut.c:29-114 | deleting a character, or joining two lines, does what the pure model says, and extends the newest item when the place fits |
| `Editor.Editor.DoBackspace` | apps/nano-master/src/cut.c:138-149 | deleting the character or line break before the cursor |
| `Editor.Editor.IsCuttable` | apps/nano-master/src/cut.c:157-177 | tells whether there is anything to cut |
| `Editor.Editor.DoSnip` | apps/nano-master/src/cut.c:482-535 | takes out the marked region, the line, the rest of it or the rest of the file, and leaves the flags and the cutbuffer as the pure model says |
| `Editor.Editor.CutText` | apps/nano-master/src/cut.c:538-560 | cutting, with its undo item, new or extended |
| `Editor.Editor.CutTillEof` | apps/nano-master/src/cut.c:563-579 | cutting the rest of the file, with its undo item |
| `Editor.Editor.ZapText` | apps/nano-master/src/cut.c:582-604 | zapping: as cutting, but the text goes into the undo item and the cutbuffer stays |
| `Editor.Editor.CopyText` | apps/nano-master/src/cut.c:607-724 | copying a marked region, a line or the rest of it: only cutbuffer, cursor and flags change |
| `Editor.Editor.PasteText` | apps/nano-master/src/cut.c:727-786 | pasting, with its undo item |
| `Editor.Editor.InsertText` | apps/nano-master/src/files.c:678-865 | inserting the lines of a file, with its undo item |
| `Editor.Editor.DoIndent` | apps/nano-master/src/text.c:117-165 | indenting a range of rows, empty ones left out, with one undo item for all |
| `Editor.Editor.DoUnindent` | apps/nano-master/src/text.c:239-272 | unindenting a range of rows, with one undo item for all |
| `Editor.Editor.ReplaceMatch` | apps/nano-master/src/search.c:594-662 | replacing one match, with its undo item |
| `Editor.Editor.DoUndo` | apps/nano-master/src/text.c:501-681 | undo on the linked buffer: text, cursor, size, the position in the stack and the Modified flag are those of the pure model |
| `Editor.Editor.DoRedo` | apps/nano-master/src/text.c:684-850 | redo on the linked buffer, in the same sense |
| `Editor.Editor.NoteSaved` | apps/nano-master/src/files.c:2057-2062 | saving notes the newest applied item and clears the Modified flag |
| `Commands.Perform` | apps/nano-master/src/nano.c:1672-1680 | any allowed command, performed on the linked buffer, changes its state exactly as one step of the pure model and keeps the invariant that ties the undo stack to a history of whole texts; so every reachable list is well formed |
| `Items.CutApplied` | apps/nano-master/src/text.c:461-498 | an item of a cut stands for its step: undoing it puts the region back and takes away the magic line that the cut may have needed, redoing it cuts again |
| `Edits.InjectKeeps` | apps/nano-master/src/nano.c:1476-1572 | typing, with merging into the last item, keeps the invariant |
| `Edits.EnterKeeps` | apps/nano-master/src/text.c:854-928 | breaking a line keeps the invariant |
| `Edits.ExpungeKeeps` | apps/nano-master/src/cut.c:29-114 | deleting and joining, with merging, keeps the invariant |
| `Edits.EnterSize` | apps/nano-master/src/text.c:854-924 | after a line break the recorded size is the number of characters exactly when the copied indentation takes one byte a character, or is just what stood before the cursor and is trimmed there |
| `Edits.EnterMiscounts` | apps/nano-master/src/text.c:854-924 | an input where it is not: a line that starts with an ideographic space |
| `Cuts.CutKeeps` | apps/nano-master/src/cut.c:538-604 | cutting and zapping, with joining of consecutive cuts, keep the invariant |
| `Cuts.CutTillEofKeeps` | apps/nano-master/src/cut.c:563-579 | cutting the rest of the file keeps the invariant |
| `Cuts.PasteKeeps` | apps/nano-master/src/cut.c:727-786 | pasting keeps the invariant |
| `Cuts.InsertKeeps` | apps/nano-master/src/files.c:678-865 | inserting a file keeps the invariant |
| `Indents.IndentKeeps` | apps/nano-master/src/text.c:117-165 | indenting keeps the invariant |
| `Indents.UnindentKeeps` | apps/nano-master/src/text.c:239-272 | unindenting keeps the invariant |
| `History.UndoStep` | apps/nano-master/src/text.c:501-681 | under the invariant, undo gives the text and the size of the previous snapshot, keeps the invariant, and does nothing at the oldest |
| `History.RedoStep` | apps/nano-master/src/text.c:684-850 | under the invariant, redo gives the text and the size of the next snapshot, and keeps the invariant |
| `Runs.StepKeeps` | apps/nano-master/src/text.c:501-1226 | every allowed operation is possible and keeps the invariant, whose history it extends, amends, moves along or leaves alone |
| `Runs.RunGoesOn` | apps/nano-master/src/text.c:501-1226 | a run never gets stuck: the lines and positions that undo items speak of are always there |
| `Runs.UndoRestores` | apps/nano-master/src/text.c:501-1226 | after any run, replacements included, undoing k items gives the text, and the size, as they were in the state in which the k-th newest item was made |
| `Runs.RedoRestores` | apps/nano-master/src/text.c:501-1226 | after any run, undoing k items and redoing j of them gives the text that undoing k - j gives, so with j = k the text itself; the size is that of the same state too if and only if the item redone last is not a replacement that changed the size |
| `Runs.ModifiedIsSound` | apps/nano-master/src/text.c:675-680 | in every state of every run, if the Modified flag is off, the text is the one that was last saved or opened |
| `Runs.BufferIsWellFormed` | apps/nano-master/src/cut.c:29-114 | in every state of every run the text ends in an empty line unless newlines are not automatic, the cursor is at a character boundary of a line, and for well-formed UTF-8 the recorded size is the number of characters |
| `Runs.RedoneReplacement` | apps/nano-master/src/search.c:621-662 | undoing a replacement restores text and size; redoing it restores the text, and the size if and only if the line kept its number of characters |
| `Runs.ReplacementMiscounted` | apps/nano-master/src/search.c:621-662 | an input where it is not: one letter replaced by two |
| `Cursors.UndoGoesBack` | apps/nano-master/src/text.c:501-672 | an item that stands for its step, undone, puts the cursor where its fields say the step started; one lemma over all kinds of items |
| `Cursors.RedoGoesOn` | apps/nano-master/src/text.c:684-842 | and redone, where they say it ended; a replacement is redone to the match |
| `Cursors.StepTraced` | apps/nano-master/src/text.c:961-1226 | every editing step makes one item that notes where the step started and where it left the cursor, or extends the newest one so that it still does, or leaves the items alone |
| `Cursors.StartIsCursor` | apps/nano-master/src/cut.c:138-149 | with the cursor between characters, what an operation other than a replacement starts from is the cursor itself, for a backspace as well |
| `Returns.UndoReturns` | apps/nano-master/src/text.c:501-672 | after any run, undoing k items gives the text, the size and the cursor that the operation which made the k-th newest item started with; only where later deletions in place extended it, the cursor is where the last of these was made |
| `Returns.RedoReturns` | apps/nano-master/src/text.c:684-842 | after any run, undoing k items and redoing j of them leaves the cursor where the last operation that made or extended the last of these left it; at the match, if that was a replacement |
| `Returns.UndoAtOnce` | apps/nano-master/src/text.c:501-850 | when an operation makes a new item, undoing it at once gives back text and cursor, and redoing it gives the text and the cursor after it again, or the match of a replacement |
| `Returns.FlagIsExact` | apps/nano-master/src/text.c:675-681 | after an undo or a redo in any run the Modified flag is off if and only if the position in the history is the one last saved, which edits below it drop; but redoing an insertion of nothing also leaves it off where it was off |
| `Returns.FlagAfterEdits` | apps/nano-master/src/files.c:2057-2062 | saving puts the Modified flag off; an edit never does, and one that changes the text puts it on; moving and copying leave it |
| `Returns.DeletedInPlace` | apps/nano-master/src/text.c:1164-1169 | an input for the exception of undo: a backspace, then another one in place, undone together, leave the cursor where the second was made |
| `Returns.ReplacementRedone` | apps/nano-master/src/text.c:750-756 | a redone replacement leaves the cursor at the match, so where the replacement left it if and only if the answer is empty |
| `Returns.NothingInserted` | apps/nano-master/src/text.c:843-848 | an input for the exception of the flag: nothing is inserted into a saved buffer, undone and redone; the flag is off at a position that was not saved |
| `Effects.TypeLaw` | apps/nano-master/src/nano.c:1476-1572 | typing puts the bytes before those at the cursor, changes no other row, adds the magic line on the last row, and moves the cursor behind them |
| `Effects.TypedAtOnce` | apps/nano-master/src/nano.c:1476-1572 | typing two bursts of UTF-8 leaves exactly the state that typing them as one burst leaves, undo items included |
| `Effects.EnterLaw` | apps/nano-master/src/text.c:854-928 | what is behind the cursor becomes the next row, where the cursor goes, and no other row changes |
| `Effects.AutoindentLaw` | apps/nano-master/src/text.c:854-910 | with autoindent the next row begins with the leading blanks and tabs, as far as they are before the cursor; a row with only these before the cursor is left empty |
| `Effects.EnterThenBackspace` | apps/nano-master/src/cut.c:138-149 | a backspace after a line break gives text and cursor back |
| `Effects.TypeThenBackspace` | apps/nano-master/src/cut.c:138-149 | a backspace after one typed character gives text and cursor back, but for a magic line that typing added |
| `Effects.DeleteLaw` | apps/nano-master/src/cut.c:29-114 | inside a row a deletion takes out the one character at the cursor, at its end it joins the next row unless that is the magic line below a row that is not empty, at the end of the text it does nothing; the cursor and all other rows stay |
| `Effects.BackspaceInside` | apps/nano-master/src/cut.c:138-145 | a backspace takes out what is between the cursor and the last boundary before it, and the cursor goes there |
| `Effects.BackspaceAtStart` | apps/nano-master/src/cut.c:146-149 | at the start of a row it joins the row to the one above and goes to the joint, only goes there from the magic line below a row that is not empty, and does nothing at the start of the text |
| `Effects.DeleteGoesOn` | apps/nano-master/src/text.c:1159-1179 | a deletion where the last one was goes into the same undo item, behind the text there |
| `Effects.BackspaceGoesOn` | apps/nano-master/src/text.c:1159-1179 | a backspace next to the last one goes into the same undo item, in front of the text there |
| `Effects.IndentLaw` | apps/nano-master/src/text.c:117-165 | every row of the range that is not empty gets the indentation, every other row of the text stays, there is a new item if and only if there is such a row, and the cursor moves along unless it is at the start |
| `Effects.UnindentLaw` | apps/nano-master/src/text.c:239-272 | every row of the range loses its leading whitespace, every other row stays, there is a new item if and only if some row has such whitespace, and the cursor moves along, but not before the start |
| `Effects.WhiteIs` | apps/nano-master/src/text.c:170-198 | that whitespace is the leading blanks, up to a whole tab, with a tab that follows sooner: the longest such prefix |
| `Effects.PutLaw` | apps/nano-master/src/cut.c:727-786 | a paste or an insertion is put between what is before and behind the cursor, which goes to its end; inserting nothing leaves the Modified flag |
| `Effects.CutThenPasted` | apps/nano-master/src/cut.c:538-786 | what is cut with a mark and pasted at once is in its place again with the cursor at its end, and one empty line follows exactly when the cut had to add one |
| `Effects.ReplaceLaw` | apps/nano-master/src/search.c:594-662 | the answer is in the place of the match with the cursor behind it, and replacing it by the match gives the text back |
| `Search.RevStrStr` | apps/nano-master/src/chars.c:478-494 | the backward loop finds the last occurrence at or before an index |
| `Search.StrStrWrapper` | apps/nano-master/src/utils.c:217-236 | finds the first occurrence from an index on, or the last one up to it |
| `Search.FindNextStr` | apps/nano-master/src/search.c:174-343 | the loop over the lines looks at one after the other, around the end of the buffer and back to the first, and stops at the first line with a hit; it ends |
| `Search.GoLooking` | apps/nano-master/src/search.c:416-445 | in both directions the search lands on the next occurrence in cyclic order, the cursor's own last, and finds nothing if and only if every occurrence begins strictly inside the one character that is skipped |
| `Search.SearchIsComplete` | apps/nano-master/src/search.c:174-343 | when characters are single bytes, or the needle starts as a character does and the cursor is at a boundary, that means: if and only if no line contains the needle |
| `Search.SkippedOccurrence` | apps/nano-master/src/search.c:196-213 | an input where an occurrence is missed: the byte A9, searched from the start of the line C3 A9 |
| `ReplaceAll.DoReplaceLoop` | apps/nano-master/src/search.c:528-684 | replacing all on the linked buffer, from the first position, ends, whatever needle and answer are, makes of every line its leftmost substitution without overlaps or rescanning, counts the replacements and records as many undo items, and undoing these gives the first text back |
| `FileIO.RecodeNulToLf` | apps/nano-master/src/utils.c:160-168 | NUL bytes become newlines in place |
| `FileIO.RecodeLfToNul` | apps/nano-master/src/utils.c:172-183 | newlines become NUL bytes in place, and the length is returned |
| `FileIO.ReadFile` | apps/nano-master/src/files.c:705-815 | without format conversion, or without carriage returns, the byte loop and its growing buffer yield the lines between the newlines, NULs encoded as newlines |
| `FileIO.WriteFile` | apps/nano-master/src/files.c:1903-1949 | the line loop writes the decoded lines with newlines between them, counts them, and leaves the lines of the buffer as they were |
| `FileIO.WriteRead` | apps/nano-master/src/files.c:705-815 | writing the lines of what was read gives the same bytes, NULs included |
| `FileIO.ReadWrite` | apps/nano-master/src/files.c:1903-1949 | reading what was written for any text gives the same text |
| `FileIO.LoadSave` | apps/nano-master/src/files.c:705-1949 | opening and saving reproduces every file, with one newline added exactly when it is not empty, does not end in one, and newlines are automatic |
| `CopyCut.CutsGather` | apps/nano-master/src/cut.c:482-560 | k cuts of whole lines gather the next k lines, as many as there are, behind what the first goes on with |
| `CopyCut.CopiesGather` | apps/nano-master/src/cut.c:645-724 | k copies of whole lines gather the next k lines and leave the buffer unchanged |
| `CopyCut.CopiesAsCuts` | apps/nano-master/src/cut.c:482-724 | from any state, k copies leave in the cutbuffer what k cuts would if and only if a condition on the state before holds, and leave the buffer unchanged |
| `CopyCut.CutGoesOn` | apps/nano-master/src/cut.c:487-547 | after every cut of a line, unless nothing is left to cut, one more cut and one copy leave different cutbuffers: the cut adds, the copy starts anew |
| `CopyCut.CopyEmpties` | apps/nano-master/src/cut.c:653-680 | on the empty last line a cut leaves the cutbuffer, and a copy empties it unless it goes on copying |
| `CopyCut.CopyEmptiesThere` | apps/nano-master/src/cut.c:653-680 | such a state: one line copied, the cursor then moved to the end |
| `CopyCut.CutOne` | apps/nano-master/src/cut.c:505-530 | one cut of a whole line: the row goes, or is left empty if it is the last, the cursor is at its start, and the line with its newline is gathered |
| `CopyCut.CopyOne` | apps/nano-master/src/cut.c:645-724 | one copy of a whole line: nothing in the buffer changes, the line is gathered in its way, and the cursor goes to the next row, or to the end of the last |
| `Cutting.CutRestOfLine` | apps/nano-master/src/cut.c:508-509 | cutting or zapping from the cursor inside a line leaves the row up to the cursor, every other row and the cursor, and takes the rest of that row |
| `Cutting.CutNewline` | apps/nano-master/src/cut.c:510-513 | at the end of a row that is not the last, the next row joins and only the newline is taken; not for the magic line below a row that is not empty |
| `Cutting.CutNothing` | apps/nano-master/src/cut.c:157-177 | elsewhere at the end of a row cutting and zapping change nothing |
| `Cutting.CutMarked` | apps/nano-master/src/cut.c:501-503 | with a mark, exactly the text between mark and cursor is taken, whichever is first, and the cursor goes to where it was |
| `Cutting.CutToEndTakes` | apps/nano-master/src/cut.c:563-579 | cutting to the end of the file leaves what is before the cursor and gathers all the rest; or does nothing, at the end and before the magic line |
| `Cutting.CutsFromCursor` | apps/nano-master/src/cut.c:482-560 | k cuts from the cursor take what is between it and the k-th stop: the rest of the line, its newline, the next line, and so on, up to the end of the file or the magic line |
| `Cutting.CutsAreOneItem` | apps/nano-master/src/cut.c:544-549 | and they make at most one undo item |
| `Cutting.CopiesFromCursor` | apps/nano-master/src/cut.c:657-724 | k copies from the cursor gather the text up to the k-th stop, go there, and leave the buffer unchanged |
| `Cutting.CopyMarked` | apps/nano-master/src/cut.c:607-640 | a copy with a mark gathers exactly the text between mark and cursor, and changes nothing in the buffer |
| `DrawLine.Line` | inkui/src/graphics/primitives.rs:7-45 | the loop ends after max(dx, dy) + 1 points, from the start to the end, none beyond either; consecutive ones are one step apart and each is within half a pixel of the ideal line |
| `Ansi.ParseAnsiText` | inkui/src/graphics/primitives.rs:244-340 | for every text, broken sequences included: the clean text and the segments are the runs of the character-by-character interpreter: not empty, in order, contiguous, covering, of the right colour, and neighbours differ |
| `Ansi.RunsAreUnique` | inkui/src/graphics/primitives.rs:322-330 | there is only one way to divide the characters into such runs |
| `Ansi.Select` | inkui/src/graphics/primitives.rs:274-316 | the loop over the codes selects the colour that reading them from the front selects |
| `Ansi.ReadSequence` | inkui/src/graphics/primitives.rs:254-270 | the inner loop reads the longest run of parameters and consumes the character that ends or breaks the sequence |
| `Ansi.PlainText` | inkui/src/graphics/primitives.rs:317-336 | text without escape sequences is shown as it is in the default colour |
| `Ansi.WrittenIsShown` | inkui/src/graphics/primitives.rs:244-340 | every list of characters in opaque colours can be written with 24-bit sequences and is shown again exactly, even if it contains escape characters |
| `Ansi.CodeTells` | inkui/src/graphics/primitives.rs:278-311 | a sequence with one code shows nothing and gives what follows its colour: 30 to 37 and 90 to 97 are the sixteen colours by the bits of their numbers, dark yellow with half the green, 0 is the default colour, any other code changes nothing |
| `Ansi.CodesTell` | inkui/src/graphics/primitives.rs:276-316 | several codes act one after the other |
| `Ansi.EmptyResets` | inkui/src/graphics/primitives.rs:273-274 | an empty sequence goes back to the default colour |
| `Ansi.BrokenIsDropped` | inkui/src/graphics/primitives.rs:260-272 | a sequence that is broken off is dropped with the character that breaks it, and the colour stays |
| `Ansi.NumberedIsIgnored` | inkui/src/graphics/primitives.rs:306-308 | the three codes of a colour by number are passed over |
| `Ansi.NoCodeIsIgnored` | inkui/src/graphics/primitives.rs:279-313 | a code that is left out or too large for a byte is passed over |
| `Layout.Widget.UpdateLayout` | inkui/src/widget.rs:506-672 | laying out a tree of widgets in place gives every widget the geometry that the layout function gives, and touches nothing else |
| `Layout.LaidIsTidy` | inkui/src/widget.rs:506-672 | with default positions, in every frame, recursively: children that can be seen lie inside the frame's content, and in a grid or a wrapping flex pairwise apart |
| `Layout.Widget.NextPlace` | inkui/src/widget.rs:624-658 | in a wrapping flex the room left is never computed below zero, and the place of each child and of the next is the one of the row function |
| `Layout.FlexKeepsLength` | inkui/src/widget.rs:617-658 | the second layout of a child in a line keeps the length that the first one gave it |
| `Layout.Relaid` | inkui/src/widget.rs:506-672 | laying out again leaves nothing of an earlier layout |
| `Layout.LaidInLines` | inkui/src/widget.rs:604-658 | in a wrapping flex, by rows or by columns, a child begins where the one before it ends if and only if it fits there or nothing of the line is used; otherwise it begins a new line, directly below the highest child of that line; each has the size it asks for, as far as the content reaches |
| `Layout.LaidInCells` | inkui/src/widget.rs:585-603 | the cells of a grid have one size, the largest that fits; the first is in the corner, each next one to the right or first in the next row; there are min(children, rows * cols) |
| `Layout.PlacedFills` | inkui/src/widget.rs:506-578 | a widget is its margin and the padding away from the sides of its box; without a size of its own it fills the box up to there, with one it has that if there is room |
| `Mutex.OneGuardForEachLock` | std/src/sync.rs:25-98 | on any processors and with any interrupts: a lock is set exactly when one guard of it is live, and never two |
| `Mutex.OrderIsExact` | std/src/sync.rs:25-98 | a run from the start, on any processors, is orderly if and only if in none of its states an orderly continuation lets a context spin on a lock that a context it interrupted took by `int_lock`; orderly means that no drop enables interrupts while its context has another masking guard |
| `Mutex.DisorderWaits` | std/src/sync.rs:90-98 | after every single drop that is not orderly, from any sound state, an interrupt can come whose handler waits for the context it interrupted |
| `Mutex.ActedIsSound` | std/src/sync.rs:34-98 | a step keeps the inductive invariant `Sound` if and only if it is orderly; `Sound` says of a processor: interrupted contexts hold no masking guard and are not between cli and sti, the running one neither if interrupts are enabled, at most the first of its masking guards restores the flag, and none is about to be restored while another is held |
| `Mutex.NoneWaitsForInterrupted` | std/src/sync.rs:34-98 | over every orderly run, no interrupted context holds a mutex that is taken by `int_lock` alone, so none spins on a lock of the context it interrupted |
| `Mutex.NextTrySucceeds` | std/src/sync.rs:34-98 | on one processor, a context that spins on such a mutex gets it with its next try unless it holds it itself |
| `Mutex.NestedIsOrderly` | std/src/sync.rs:90-98 | a run in which every masking guard is dropped before those taken earlier is orderly |
| `Mutex.FlagIsGivenBack` | std/src/sync.rs:34-98 | from a context without masking guards, over every run with guards dropped in reverse order, any locks and any handlers in between: when it is the running context again, interrupts are off while it holds a masking guard, and as they were before when it holds none |
| `Mutex.FlagOverRun` | std/src/sync.rs:34-98 | that entry value survives every orderly run, with locks taken and dropped and handlers in between |
| `Mutex.Disorder` | std/src/sync.rs:90-98 | a run that is not orderly: the first of two guards is dropped first, and a handler waits for the second |
| `Mutex.StuckForEver` | std/src/sync.rs:34-49 | from there no step changes anything any more |
| `Paths.ResolvePath` | apps/shell/src/main.rs:14-50 | the loops compute the walk over the parts of the path |
| `Paths.ComposesExactly` | apps/shell/src/main.rs:14-50 | resolving a and then every b agrees with resolving a/b if and only if the directory has a component or a names one |
| `Paths.DoesNotCompose` | apps/shell/src/main.rs:40-42 | otherwise it fails already for the path "x", since the root comes in between |
| `Paths.VolumeStays` | apps/shell/src/main.rs:25-37 | the first component of the directory stays, however many parts lead up |
| `Paths.StaysNormal` | apps/shell/src/main.rs:14-50 | from a directory in normal form every path leads to one |
| `Paths.NormalIsResolved` | apps/shell/src/main.rs:14-50 | a path in normal form is resolved to itself from everywhere |
| `Paths.TrimIs` | apps/shell/src/main.rs:15-16 | trimming takes off blanks at both ends until there are none there |
| `Paths.BlanksDoNotMatter` | apps/shell/src/main.rs:15-16 | blanks around a path make no difference, and a path of blanks leads nowhere |
| `Paths.DownAndUp` | apps/shell/src/main.rs:28-38 | from a directory in normal form a name goes down, `..` from there comes back, and `..` from the volume and `.` stay |

## Left out

- Runs.StepKeeps: the operations are those of `Runs.Op`; hard-wrapping (SPLIT items), coupled items, comment items and line anchors are not among them, and neither is moving the mark, which is a parameter of the command that uses it.
- Runs.UndoRestores: leaves out the same kinds of items; where the recorded size matters (`sized`), a run has no redo of a replacement that changes the number of characters and no line break that copies wide blanks, as the findings say.
- Runs.RedoRestores: leaves out the same kinds of items, with the same conditions on the run.
- Returns.UndoReturns: leaves out the same kinds of items, with the same conditions on the run where it speaks of the size.
- Returns.RedoReturns: leaves out the same kinds of items.
- Effects.AutoindentLaw: for lines whose indentation is in ASCII; other blanks are those of the locale, a parameter.
- Effects.TypeThenBackspace: for a line and a character of well-formed UTF-8.
- Cutting.CopiesFromCursor: begun after anything but a copy.
- Runs.BufferIsWellFormed: speaks of the size under the same conditions on the run.
- Runs.RunGoesOn: leaves out the same kinds of items.
- Runs.ModifiedIsSound: leaves out the same kinds of items; undo items have distinct identities.
- History.UndoStep: leaves out SPLIT, COUPLE and comment items, anchors and the mark.
- History.RedoStep: leaves out SPLIT, COUPLE and comment items, anchors and the mark.
- Buffer.OpenFile.UndoItem: leaves out SPLIT, COUPLE and comment items, anchors and the mark.
- Buffer.OpenFile.RedoItem: leaves out SPLIT, COUPLE and comment items, anchors and the mark.
- Editor.Editor.DoUndo: leaves out SPLIT, COUPLE and comment items, anchors, the mark, and the messages.
- Editor.Editor.DoRedo: leaves out SPLIT, COUPLE and comment items, anchors, the mark, and the messages.
- Editor.Editor.AddUndo: leaves out SPLIT, COUPLE and comment items; the stack is a sequence of values and an item's cutbuffer a text, since nothing else points to that list.
- Editor.Editor.DoEnter: the sample line is the current one; taking it from the next line while hard-wrapping (BREAK_LONG_LINES) is left out.
- Editor.Editor.Expunge: the repetition of `do_delete` over characters without width is the same step several times and is left out.
- Editor.Editor.CopyText: builds the new lines of the cutbuffer instead of splitting and relinking lines of the buffer for a moment.
- Editor.Editor.DoIndent: collects the indentation of all lines first; the indentation text is a parameter.
- Editor.Editor.InsertText: the lines that were read are a parameter; reading them is `FileIO.ReadFile`.
- Editor.Editor.NoteSaved: writing a marked region, a backup or under another name is left out.
- LineList.Take: anchors and the mark are left out.
- LineList.Put: the mark is left out.
- Buffer.OpenFile.ExtractSegment: the mark, anchors and what is on the screen are left out.
- Buffer.OpenFile.IngraftBuffer: the mark is left out.
- Buffer.OpenFile.IndentALine: the mark is left out.
- Buffer.OpenFile.UnindentALine: the mark is left out.
- Buffer.OpenFile.UndoCut: anchors are left out; where the source puts the cutbuffer back alone, the pointer to its last line is put back with it, which is set again before it is next read.
- Editor.Editor.Inject: the mark and hard-wrapping are left out.
- Editor.Editor.DoBackspace: zapping a marked region is a command of its own.
- Editor.Editor.PasteText: anchors and hard-wrapping after a paste are left out.
- Editor.Editor.DoUnindent: the range is a parameter and the mark is left out.
- Editor.Editor.ReplaceMatch: the mark, and the place to come back to afterwards, are left out.
- Edits.InjectKeeps: hard-wrapping is left out.
- Edits.EnterKeeps: the indentation sample is the current line.
- Search.StrStrWrapper: plain case-sensitive needles.
- Commands.Perform: one method per command; prompts, key tables and the mark's own commands are left out, and NO_NEWLINES is constant in a run.
- Buffer.LengthOfWhite: a tab string set for a file type is left out.
- Columns.AdvanceOver: `wcwidth` is an arbitrary function.
- Search.FindNextStr: plain case-sensitive needles; regular expressions, whole words, the marked region, cancelling and the spinner are left out.
- ReplaceAll.DoReplaceLoop: begun at the first position with All and without a mark; the search looks at the lines read out of the list, and the answer is plain text.
- FileIO.ReadFile: with conversion of DOS and Mac files it runs the same branches, but what it makes of carriage returns is not specified.
- FileIO.WriteFile: files ended by newlines alone; errors of the disk, locks, backups, appending and prepending are left out.
- DrawLine.Line: the points that the loop visits; what is painted around each, and machine words, are left out.
- Ansi.ParseAnsiText: the text size is one constant for all segments and is left out.
- Layout.Widget.UpdateLayout: relative sizes, positions from the right and from below, flex without wrapping and the rasterising of images are left out; `usize` is unbounded.
- Layout.LaidIsTidy: children past the last cell of a grid keep an earlier place and are not spoken of.
- Mutex.NoneWaitsForInterrupted: other code may change the interrupt flag only while it holds no masking guard, and handlers drop their guards before they return; the data behind a lock and memory orderings are left out.
- Paths.ResolvePath: the rest of the shell is left out.
- malloc and free, the screen, the status bar, justifying, spelling, syntax colours, help and the browser of nano.
- Boot code, system calls, drivers and the other programs of KrakeOS.

/** Reading a file into lines and writing lines to a file (files.c, utils.c).  A
    file is a sequence of bytes; a line is a NUL-terminated string, in which a
    newline stands for a NUL byte of the file. */
module FileIO {
  import opened Chars
  import opened Lines
  import EM = EditModel

  type Raw = EM.Raw

  const LUMPSIZE := 120

  // ----- What reading and writing mean ---------------------------------------------------

  /** The lines of a file, taking its bytes one by one. */
  function Parsed(bytes: seq<Raw>): Text {
    if |bytes| == 0 then EMPTY
    else
      var (t, b) := (Parsed(bytes[..|bytes| - 1]), bytes[|bytes| - 1]);
      if b == 10 then t + [[]] else t[..|t| - 1] + [Last(t) + [EM.EncodedByte(b)]]
  }

  function DecodedByte(b: Byte): Raw {
    if b == 10 then 0 else b
  }

  function Decoded(l: Line): (r: seq<Raw>)
    ensures |r| == |l|
  {
    seq(|l|, i requires 0 <= i < |l| => DecodedByte(l[i]))
  }

  /** The bytes that are written for the lines of a buffer. */
  function Written(t: Text): seq<Raw>
    decreases |t|
  {
    if |t| == 1 then Decoded(t[0]) else Written(t[..|t| - 1]) + [10] + Decoded(Last(t))
  }

  // ----- Reading ----------------------------------------------------------------------------

  /** recode_NUL_to_LF. */
  method RecodeNulToLf(s: array<Raw>, length: nat)
    requires length <= s.Length
    modifies s
    ensures forall i | 0 <= i < length :: s[i] == EM.EncodedByte(old(s[i]))
    ensures forall i | length <= i < s.Length :: s[i] == old(s[i])
  {
    for i := 0 to length
      invariant forall k | 0 <= k < i :: s[k] == EM.EncodedByte(old(s[k]))
      invariant forall k | i <= k < s.Length :: s[k] == old(s[k])
    {
      if s[i] == 0 {
        s[i] := 10;
      }
    }
  }

  /** encode_data: a copy of the first bytes of the buffer, as a line. */
  method EncodeData(text: array<Raw>, length: nat) returns (line: Line)
    requires length <= text.Length
    modifies text
    ensures line == EM.Encoded(old(text[..length]))
  {
    ghost var was := text[..length];
    RecodeNulToLf(text, length);
    line := [];
    for i := 0 to length
      invariant line == EM.Encoded(was)[..i]
    {
      line := line + [text[i]];
    }
  }

  /** A longer buffer with the same bytes at its start. */
  method Grown(buf: array<Raw>) returns (longer: array<Raw>)
    ensures fresh(longer) && longer.Length == buf.Length + LUMPSIZE
    ensures longer[..buf.Length] == buf[..]
  {
    longer := new Raw[buf.Length + LUMPSIZE](_ => 0);
    for i := 0 to buf.Length
      invariant forall k | 0 <= k < i :: longer[k] == buf[k]
    {
      longer[i] := buf[i];
    }
  }

  datatype Format = Nix | Dos | Mac

  /** The lines read so far and the bytes of the line that is being read are what
      the bytes seen so far stand for. */
  ghost predicate Reading(bytes: seq<Raw>, lines: seq<Line>, line: seq<Raw>) {
    Parsed(bytes) == lines + [EM.Encoded(line)]
  }

  lemma ReadByte(bytes: seq<Raw>, at: nat, lines: seq<Line>, line: seq<Raw>)
    requires at < |bytes| && Reading(bytes[..at], lines, line)
    ensures bytes[at] == 10 ==> Reading(bytes[..at + 1], lines + [EM.Encoded(line)], [])
    ensures bytes[at] != 10 ==> Reading(bytes[..at + 1], lines, line + [bytes[at]])
  {
    assert bytes[..at + 1][..at] == bytes[..at];
    assert EM.Encoded(line + [bytes[at]]) == EM.Encoded(line) + [EM.EncodedByte(bytes[at])];
    assert EM.Encoded([]) == [];
  }

  /** The reading loop of read_file.  `convert` is the absence of NO_CONVERT; without
      conversion, or without carriage returns to convert, the lines are those of
      the file. */
  method ReadFile(bytes: seq<Raw>, convert: bool) returns (t: Text, format: Format)
    ensures !convert || 13 !in bytes ==> t == Parsed(bytes) && format == Nix
  {
    var lines: seq<Line> := [];
    var len: nat, bufsize: nat := 0, LUMPSIZE;
    var buf := new Raw[bufsize](_ => 0);
    format := Nix;
    ghost var plain := !convert || 13 !in bytes;
    assert EM.Encoded([]) == [];
    for at := 0 to |bytes|
      invariant len < bufsize == buf.Length && fresh(buf)
      invariant plain ==> Reading(bytes[..at], lines, buf[..len]) && format == Nix
      invariant plain && convert ==> 13 !in buf[..len]
    {
      var input := bytes[at];
      var afterCr := len > 0 && buf[len - 1] == 13 && convert;
      assert len > 0 ==> buf[len - 1] == buf[..len][len - 1];
      if plain {
        ReadByte(bytes, at, lines, buf[..len]);
      }
      if input == 10 || (afterCr && (lines == [] || format == Mac)) {
        if afterCr {
          if input != 10 {
            format := Mac;
          } else if lines == [] {
            format := Dos;
          }
          len := len - 1;
        }
        var line := EncodeData(buf, len);
        lines := lines + [line];
        len := 0;
        if input != 10 {
          buf[len] := input;
          len := len + 1;
        }
      } else {
        ghost var before := buf[..len];
        buf[len] := input;
        len := len + 1;
        assert buf[..len] == before + [input];
        if len == bufsize {
          ghost var whole := buf[..];
          buf := Grown(buf);
          assert buf[..len] == whole[..len];
          bufsize := bufsize + LUMPSIZE;
        }
      }
    }
    assert bytes[..|bytes|] == bytes;
    if len == 0 {
      t := lines + [[]];
    } else {
      var needsNewline := buf[len - 1] == 13 && convert;
      assert buf[len - 1] == buf[..len][len - 1];
      if needsNewline {
        if lines == [] {
          format := Mac;
        }
        len := len - 1;
      }
      var line := EncodeData(buf, len);
      t := lines + [line];
      if needsNewline {
        t := t + [[]];
      }
    }
  }

  // ----- Writing ------------------------------------------------------------------------------

  /** A NUL-terminated string without other NULs. */
  ghost predicate IsString(s: array<Raw>)
    reads s
  {
    s.Length > 0 && s[s.Length - 1] == 0 && forall i | 0 <= i < s.Length - 1 :: s[i] != 0
  }

  ghost function LineOf(s: array<Raw>): Line
    requires IsString(s)
    reads s
  {
    s[..s.Length - 1]
  }

  /** recode_LF_to_NUL. */
  method RecodeLfToNul(s: array<Raw>) returns (length: nat)
    requires IsString(s)
    modifies s
    ensures length == s.Length - 1 && s[length] == 0
    ensures s[..length] == Decoded(old(LineOf(s)))
  {
    length := 0;
    while s[length] != 0
      invariant length < s.Length
      invariant forall k | 0 <= k < length :: s[k] == if old(s[k]) == 10 then 0 else old(s[k])
      invariant forall k | length <= k < s.Length :: s[k] == old(s[k])
      decreases s.Length - length
    {
      if s[length] == 10 {
        s[length] := 0;
      }
      length := length + 1;
    }
  }

  ghost predicate AllStrings(lines: seq<array<Raw>>)
    reads lines
  {
    forall i | 0 <= i < |lines| :: IsString(lines[i])
  }

  ghost function TextOf(lines: seq<array<Raw>>): (t: seq<Line>)
    requires AllStrings(lines)
    reads lines
    ensures |t| == |lines| && forall i | 0 <= i < |lines| :: t[i] == LineOf(lines[i])
  {
    if |lines| == 0 then [] else TextOf(lines[..|lines| - 1]) + [LineOf(lines[|lines| - 1])]
  }

  /** Write one line: its newlines become NULs and then newlines again. */
  method WriteLine(s: array<Raw>) returns (data: seq<Raw>)
    requires IsString(s)
    modifies s
    ensures s[..] == old(s[..]) && data == Decoded(old(LineOf(s)))
  {
    ghost var was := s[..];
    var dataLen := RecodeLfToNul(s);
    data := s[..dataLen];
    RecodeNulToLf(s, dataLen);
    forall i | 0 <= i < s.Length
      ensures s[i] == was[i]
    {
      if i < dataLen {
        assert data[i] == DecodedByte(was[i]);
      }
    }
  }

  lemma SameString(s: seq<Raw>, a: array<Raw>)
    requires a[..] == s && |s| > 0 && s[|s| - 1] == 0 && forall i | 0 <= i < |s| - 1 :: s[i] != 0
    ensures IsString(a) && LineOf(a) == s[..|s| - 1]
  {
  }

  /** The writing loop of write_file, for lines ended by newlines.  It changes the
      lines while it writes them, and leaves them as they were. */
  method WriteFile(lines: seq<array<Raw>>) returns (bytes: seq<Raw>, lineswritten: nat)
    requires |lines| > 0 && AllStrings(lines)
    modifies lines
    ensures forall i | 0 <= i < |lines| :: lines[i][..] == old(lines[i][..])
    ensures AllStrings(lines) && TextOf(lines) == old(TextOf(lines))
    ensures bytes == Written(old(TextOf(lines)))
    ensures lineswritten == if old(TextOf(lines))[|lines| - 1] == [] then |lines| - 1 else |lines|
  {
    hide TextOf, Written;
    ghost var t: Text := TextOf(lines);
    bytes, lineswritten := [], 0;
    var line := 0;
    while true
      invariant line < |lines| && lineswritten == line
      invariant forall i | 0 <= i < |lines| :: lines[i][..] == old(lines[i][..])
      invariant forall i | 0 <= i < |lines| :: IsString(lines[i]) && LineOf(lines[i]) == t[i]
      invariant bytes == if line == 0 then [] else Written(t[..line]) + [10]
      decreases |lines| - line
    {
      ghost var was := lines[line][..];
      label before:
      var data := WriteLine(lines[line]);
      forall i | 0 <= i < |lines|
        ensures lines[i][..] == old@before(lines[i][..]) && IsString(lines[i]) && LineOf(lines[i]) == t[i]
      {
        SameString(old@before(lines[i][..]), lines[i]);
      }
      bytes := bytes + data;
      WrittenMore(t, line);
      if line + 1 == |lines| {
        if lines[line][0] != 0 {
          lineswritten := lineswritten + 1;
        }
        break;
      }
      bytes := bytes + [10];
      line, lineswritten := line + 1, lineswritten + 1;
    }
    assert t[..|lines|] == t;
    SameText(TextOf(lines), t);
  }

  lemma SameText(t: seq<Line>, t': seq<Line>)
    requires |t| == |t'| && forall i | 0 <= i < |t| :: t[i] == t'[i]
    ensures t == t'
  {
  }

  lemma WrittenMore(t: Text, line: nat)
    requires line < |t|
    ensures line == 0 ==> Written(t[..1]) == Decoded(t[0])
    ensures line > 0 ==> Written(t[..line + 1]) == Written(t[..line]) + [10] + Decoded(t[line])
  {
    if line > 0 {
      assert t[..line + 1][..line] == t[..line];
    }
  }

  // ----- Round trips --------------------------------------------------------------------------

  lemma WrittenLast(above: seq<Line>, l: Line)
    ensures Written(above + [l]) == if above == [] then Decoded(l) else Written(above) + [10] + Decoded(l)
  {
    assert (above + [l])[..|above|] == above;
  }

  lemma WrittenByte(above: seq<Line>, l: Line, b: Raw)
    requires b != 10
    ensures Written(above + [l + [EM.EncodedByte(b)]]) == Written(above + [l]) + [b]
  {
    WrittenLast(above, l);
    WrittenLast(above, l + [EM.EncodedByte(b)]);
    DecodedMore(l, b);
    hide Written, Decoded;
    if above != [] {
      Associated(Written(above) + [10], Decoded(l), [b]);
    }
  }

  lemma DecodedMore(l: Line, b: Raw)
    requires b != 10
    ensures Decoded(l + [EM.EncodedByte(b)]) == Decoded(l) + [b]
  {
  }

  lemma Associated<T>(a: seq<T>, b: seq<T>, c: seq<T>)
    ensures a + (b + c) == a + b + c
  {
  }

  lemma LastOff<T>(s: seq<T>)
    requires |s| > 0
    ensures s == s[..|s| - 1] + [s[|s| - 1]]
  {
  }

  /** Reading a file and writing its lines gives the same bytes, embedded NULs
      included. */
  lemma {:induction false} WriteRead(bytes: seq<Raw>)
    ensures Written(Parsed(bytes)) == bytes
  {
    if |bytes| > 0 {
      var (before, b) := (bytes[..|bytes| - 1], bytes[|bytes| - 1]);
      var t := Parsed(before);
      WriteRead(before);
      LastOff(bytes);
      LastOff(t);
      if b == 10 {
        WrittenLast(t, []);
        assert Decoded([]) == [];
      } else {
        WrittenByte(t[..|t| - 1], Last(t), b);
      }
      hide Written, Decoded;
    }
  }

  lemma ParsedByte(bytes: seq<Raw>, above: seq<Line>, before: Line, b: Byte)
    requires Parsed(bytes) == above + [before]
    ensures Parsed(bytes + [DecodedByte(b)]) == above + [before + [b]]
  {
    assert (bytes + [DecodedByte(b)])[..|bytes|] == bytes;
  }

  lemma ParsedNewline(bytes: seq<Raw>)
    ensures Parsed(bytes + [10]) == Parsed(bytes) + [[]]
  {
    assert (bytes + [10])[..|bytes|] == bytes;
  }

  lemma {:induction false} ParsedMore(bytes: seq<Raw>, above: seq<Line>, before: Line, l: Line)
    requires Parsed(bytes) == above + [before]
    ensures Parsed(bytes + Decoded(l)) == above + [before + l]
    decreases |l|
  {
    hide Parsed;
    if |l| == 0 {
      assert bytes + Decoded(l) == bytes && before + l == before;
    } else {
      var (front, b) := (l[..|l| - 1], l[|l| - 1]);
      ParsedMore(bytes, above, before, front);
      ParsedByte(bytes + Decoded(front), above, before + front, b);
      LastOff(l);
      assert Decoded(l) == Decoded(front) + [DecodedByte(b)];
      Associated(bytes, Decoded(front), [DecodedByte(b)]);
      Associated(before, front, [b]);
    }
  }

  /** Writing lines and reading them gives the same lines. */
  lemma {:induction false} ReadWrite(t: Text)
    ensures Parsed(Written(t)) == t
    decreases |t|
  {
    var (above, l) := (t[..|t| - 1], Last(t));
    LastOff(t);
    WrittenLast(above, l);
    if above == [] {
      assert Parsed([]) == [[]];
      ParsedMore([], [], [], l);
      assert [] + Decoded(l) == Decoded(l) && [] + l == l;
    } else {
      ReadWrite(above);
      ParsedNewline(Written(above));
      ParsedMore(Written(above) + [10], above, [], l);
      assert [] + l == l;
    }
  }

  /** Opening a file and saving it reproduces it, with one newline added exactly when
      the file is not empty, does not end in one, and newlines are automatic. */
  lemma LoadSave(bytes: seq<Raw>, noNewlines: bool)
    ensures var buffer := Grafted(noNewlines, EMPTY, Pos(0, 0), Parsed(bytes));
            Written(buffer) ==
            bytes + if !noNewlines && bytes != [] && bytes[|bytes| - 1] != 10 then [10] else []
  {
    hide Parsed, Written, Decoded, Grafted;
    var t := Parsed(bytes);
    WriteRead(bytes);
    LastParsed(bytes);
    GraftedAlone(noNewlines, t);
    OneMoreLine(t);
  }

  /** A text pasted into an empty buffer is the buffer's text. */
  lemma GraftedAlone(noNewlines: bool, t: Text)
    ensures Grafted(noNewlines, EMPTY, Pos(0, 0), t) == if noNewlines || Last(t) == [] then t else t + [[]]
  {
    assert Head(EMPTY, Pos(0, 0)) == EMPTY && Rest(EMPTY, Pos(0, 0)) == EMPTY;
    JoinUnit(t);
    hide Head, Rest, Join;
  }

  lemma OneMoreLine(t: Text)
    ensures Written(t + [[]]) == Written(t) + [10]
  {
    hide Written;
    WrittenLast(t, []);
    assert Decoded([]) == [];
    assert Written(t) + [10] + [] == Written(t) + [10];
  }

  lemma LastParsed(bytes: seq<Raw>)
    ensures Last(Parsed(bytes)) == [] <==> bytes == [] || bytes[|bytes| - 1] == 10
  {
  }
}

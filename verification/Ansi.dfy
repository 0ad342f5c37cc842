/** Coloured text in inkui (parse_ansi_text in graphics/primitives.rs): the loop that
    strips the escape sequences and collects the rest into runs of one colour. */
module Ansi {

  import opened Options

  type Byte = n: int | 0 <= n < 256

  datatype Color = Color(r: Byte, g: Byte, b: Byte, a: Byte)

  /** One run of characters: their positions in the clean text, and their colour. */
  datatype Segment = Segment(start: nat, end: nat, color: Color)

  /** A character that is shown, and the colour in force when it was read. */
  datatype Styled = Styled(ch: char, color: Color)

  const ESC := '\U{1B}'

  function Rgb(r: Byte, g: Byte, b: Byte): Color {
    Color(r, g, b, 255)
  }

  predicate IsDigit(c: char) {
    '0' <= c <= '9'
  }

  function Value(s: string): nat
    requires forall c | c in s :: IsDigit(c)
  {
    if s == "" then 0
    else
      assert IsDigit(s[|s| - 1]);
      10 * Value(s[..|s| - 1]) + (s[|s| - 1] - '0') as nat
  }

  /** parse::<u8> of the standard library, on digits. */
  function ParseByte(s: string): Option<Byte>
    requires forall c | c in s :: IsDigit(c)
  {
    if s != "" && Value(s) < 256 then Some(Value(s)) else None
  }

  function ByteOrZero(s: string): Byte
    requires forall c | c in s :: IsDigit(c)
  {
    match ParseByte(s) case Some(n) => n case None => 0
  }

  predicate AllDigits(parts: seq<string>) {
    forall k | 0 <= k < |parts| :: forall c | c in parts[k] :: IsDigit(c)
  }

  /** split(';') of the standard library. */
  function Split(s: string): (parts: seq<string>)
    requires forall c | c in s :: IsDigit(c) || c == ';'
    ensures |parts| > 0 && AllDigits(parts)
  {
    if s == "" then [""]
    else
      var rest := Split(s[1..]);
      if s[0] == ';' then [""] + rest else [[s[0]] + rest[0]] + rest[1..]
  }

  /** The colour that a single code selects, if it does select one. */
  function Coded(code: Byte, color: Color, plain: Color): Color {
    match code
    case 0 => plain
    case 30 => Rgb(0, 0, 0)
    case 31 => Rgb(170, 0, 0)
    case 32 => Rgb(0, 170, 0)
    case 33 => Rgb(170, 85, 0)
    case 34 => Rgb(0, 0, 170)
    case 35 => Rgb(170, 0, 170)
    case 36 => Rgb(0, 170, 170)
    case 37 => Rgb(170, 170, 170)
    case 90 => Rgb(85, 85, 85)
    case 91 => Rgb(255, 85, 85)
    case 92 => Rgb(85, 255, 85)
    case 93 => Rgb(255, 255, 85)
    case 94 => Rgb(85, 85, 255)
    case 95 => Rgb(255, 85, 255)
    case 96 => Rgb(85, 255, 255)
    case 97 => Rgb(255, 255, 255)
    case _ => color
  }

  /** The colour after a list of codes, read from the front. */
  function Selected(parts: seq<string>, color: Color, plain: Color): Color
    requires AllDigits(parts)
  {
    if parts == [] then color
    else
      var code := ParseByte(parts[0]);
      if code != Some(38) then
        Selected(parts[1..], if code.Some? then Coded(code.value, color, plain) else color, plain)
      else if |parts| > 4 && parts[1] == "2" then
        Selected(parts[5..], Rgb(ByteOrZero(parts[2]), ByteOrZero(parts[3]), ByteOrZero(parts[4])), plain)
      else if |parts| > 2 && parts[1] == "5" then
        Selected(parts[3..], color, plain)
      else
        Selected(parts[1..], color, plain)
  }

  /** The colour after an escape sequence with the given parameters. */
  function AfterEscape(params: string, color: Color, plain: Color): Color
    requires forall c | c in params :: IsDigit(c) || c == ';'
  {
    if params == "" then plain else Selected(Split(params), color, plain)
  }

  /** How many parameter characters the text begins with. */
  function Params(text: string): (n: nat)
    ensures n <= |text| && forall c | c in text[..n] :: IsDigit(c) || c == ';'
    ensures n < |text| ==> !(IsDigit(text[n]) || text[n] == ';')
  {
    if text == "" || !(IsDigit(text[0]) || text[0] == ';') then 0
    else
      var n := Params(text[1..]);
      assert text[..n + 1] == [text[0]] + text[1..][..n];
      n + 1
  }

  /** What is shown of a text, character by character.  A broken sequence is dropped
      together with the character that breaks it. */
  function Shown(text: string, color: Color, plain: Color): seq<Styled>
    decreases |text|
  {
    if text == "" then []
    else if text[0] == ESC && |text| > 1 && text[1] == '[' then
      var body := text[2..];
      var n := Params(body);
      if n == |body| then []
      else Shown(body[n + 1..], if body[n] == 'm' then AfterEscape(body[..n], color, plain) else color, plain)
    else
      [Styled(text[0], color)] + Shown(text[1..], color, plain)
  }

  function EndBefore(segments: seq<Segment>, k: nat): nat
    requires k <= |segments|
  {
    if k == 0 then 0 else segments[k - 1].end
  }

  /** The segments are the maximal runs of one colour: not empty, one after the other
      from the first character to the last, of the right colour, and of a colour
      other than their neighbours'. */
  predicate AreRuns(segments: seq<Segment>, shown: seq<Styled>) {
    && (forall k | 0 <= k < |segments| :: segments[k].start < segments[k].end <= |shown|)
    && (segments != [] ==> segments[0].start == 0)
    && (forall j, k | 0 <= j < |segments| && 0 <= k < |segments| && k == j + 1 ::
          segments[j].end == segments[k].start && segments[j].color != segments[k].color)
    && EndBefore(segments, |segments|) == |shown|
    && Coloured(segments, shown)
  }

  predicate Coloured(segments: seq<Segment>, shown: seq<Styled>) {
    forall k, i | 0 <= k < |segments| && segments[k].start <= i < segments[k].end && i < |shown| ::
      shown[i].color == segments[k].color
  }

  predicate AreChars(clean: string, shown: seq<Styled>) {
    |clean| == |shown| && forall i | 0 <= i < |clean| :: clean[i] == shown[i].ch
  }

  /** The loop over the codes of one sequence. */
  method Select(parts: seq<string>, color: Color, plain: Color) returns (current: Color)
    requires AllDigits(parts)
    ensures current == Selected(parts, color, plain)
  {
    current := color;
    var i := 0;
    while i < |parts|
      invariant i <= |parts|
      invariant Selected(parts[i..], current, plain) == Selected(parts, color, plain)
    {
      var code := ParseByte(parts[i]);
      ghost var rest := parts[i..];
      if code.Some? {
        if code.value == 38 {
          if i + 1 < |parts| {
            if parts[i + 1] == "2" && i + 4 < |parts| {
              current := Rgb(ByteOrZero(parts[i + 2]), ByteOrZero(parts[i + 3]), ByteOrZero(parts[i + 4]));
              i := i + 4;
              assert parts[i + 1..] == rest[5..];
            } else if parts[i + 1] == "5" && i + 2 < |parts| {
              i := i + 2;
              assert parts[i + 1..] == rest[3..];
            }
          }
        } else {
          current := Coded(code.value, current, plain);
        }
      }
      i := i + 1;
    }
  }

  /** The loop that reads an escape sequence, after its bracket: its parameters,
      whether it is a proper one, and where reading goes on. */
  method ReadSequence(text: string, from: nat) returns (params: string, valid: bool, next: nat)
    requires from <= |text|
    ensures var (body, n) := (text[from..], Params(text[from..]));
            && params == body[..n] && valid == (n < |body| && body[n] == 'm')
            && next == if n < |body| then from + n + 1 else |text|
  {
    params, valid, next := "", false, from;
    while next < |text|
      invariant from <= next <= |text| && params == text[from..next]
      invariant Params(text[from..]) == |params| + Params(text[next..])
      invariant !valid
      decreases |text| - next
    {
      var tc := text[next];
      assert text[next..][1..] == text[next + 1..];
      next := next + 1;
      if tc == 'm' {
        valid := true;
        break;
      }
      if !IsDigit(tc) && tc != ';' {
        break;
      }
      params := params + [tc];
    }
  }

  /** The segments after one more character. */
  function Grown(segments: seq<Segment>, at: nat, color: Color): seq<Segment> {
    var last := |segments| - 1;
    if segments != [] && segments[last].color == color && segments[last].end == at
    then segments[last := segments[last].(end := segments[last].end + 1)]
    else segments + [Segment(at, at + 1, color)]
  }

  method ParseAnsiText(text: string, plain: Color) returns (segments: seq<Segment>, clean: string)
    ensures AreChars(clean, Shown(text, plain, plain))
    ensures AreRuns(segments, Shown(text, plain, plain))
  {
    hide *;
    segments, clean := [], "";
    var current := plain;
    var pos, cleanPos := 0, 0;
    ghost var shown: seq<Styled> := [];
    Nothing(text, plain);
    while pos < |text|
      invariant pos <= |text| && cleanPos == |shown|
      invariant Shown(text, plain, plain) == shown + Shown(text[pos..], current, plain)
      invariant AreChars(clean, shown) && AreRuns(segments, shown)
      decreases |text| - pos
    {
      var c := text[pos];
      if c == ESC && pos + 1 < |text| && text[pos + 1] == '[' {
        var params, valid, next := ReadSequence(text, pos + 2);
        Escape(text, pos, current, plain);
        if valid {
          Selecting(params, current, plain);
          if params == "" {
            current := plain;
          } else {
            current := Select(Split(params), current, plain);
          }
        }
        pos := next;
      } else {
        More(segments, shown, clean, Styled(c, current));
        clean := clean + [c];
        segments := Grow(segments, cleanPos, current);
        cleanPos := cleanPos + 1;
        Plain(text, pos, current, plain, shown);
        shown := shown + [Styled(c, current)];
        pos := pos + 1;
      }
    }
    Done(text, current, plain);
    assert shown + [] == shown;
  }

  method Grow(segments: seq<Segment>, at: nat, color: Color) returns (grown: seq<Segment>)
    ensures grown == Grown(segments, at, color)
  {
    if segments != [] {
      var last := segments[|segments| - 1];
      if last.color == color && last.end == at {
        return segments[|segments| - 1 := last.(end := last.end + 1)];
      }
    }
    return segments + [Segment(at, at + 1, color)];
  }

  lemma Nothing(text: string, plain: Color)
    ensures AreChars("", []) && AreRuns([], [])
    ensures Shown(text, plain, plain) == [] + Shown(text[0..], plain, plain)
    ensures Shown("", plain, plain) == []
  {
    assert text[0..] == text;
  }

  /** Past the end nothing more is shown. */
  lemma Done(text: string, color: Color, plain: Color)
    ensures Shown(text[|text|..], color, plain) == []
  {
  }

  /** An escape sequence shows nothing, and may change the colour. */
  lemma Escape(text: string, pos: nat, color: Color, plain: Color)
    requires pos + 1 < |text| && text[pos] == ESC && text[pos + 1] == '['
    ensures var (body, n) := (text[pos + 2..], Params(text[pos + 2..]));
            Shown(text[pos..], color, plain)
            == if n == |body| then Shown(text[|text|..], color, plain)
               else if body[n] == 'm' then Shown(text[pos + n + 3..], AfterEscape(body[..n], color, plain), plain)
               else Shown(text[pos + n + 3..], color, plain)
  {
    hide *;
    SequenceShown(text[pos..], color, plain);
    Tail(text, pos, Params(text[pos + 2..]));
  }

  lemma SequenceShown(here: string, color: Color, plain: Color)
    requires |here| > 1 && here[0] == ESC && here[1] == '['
    ensures var (body, n) := (here[2..], Params(here[2..]));
            Shown(here, color, plain)
            == if n == |body| then []
               else if body[n] == 'm' then Shown(body[n + 1..], AfterEscape(body[..n], color, plain), plain)
               else Shown(body[n + 1..], color, plain)
    ensures Shown("", color, plain) == []
  {
    hide AfterEscape, Params;
  }

  lemma Tail(text: string, pos: nat, n: nat)
    requires pos + 2 <= |text|
    ensures text[pos..][2..] == text[pos + 2..] && text[|text|..] == ""
    ensures pos + 2 + n < |text| ==> text[pos + 2..][n + 1..] == text[pos + n + 3..]
  {
  }

  lemma Selecting(params: string, color: Color, plain: Color)
    requires forall c | c in params :: IsDigit(c) || c == ';'
    ensures AfterEscape(params, color, plain) == if params == "" then plain else Selected(Split(params), color, plain)
  {
  }

  /** Any other character shows itself. */
  lemma Plain(text: string, pos: nat, color: Color, plain: Color, shown: seq<Styled>)
    requires pos < |text| && !(text[pos] == ESC && pos + 1 < |text| && text[pos + 1] == '[')
    ensures shown + Shown(text[pos..], color, plain)
         == (shown + [Styled(text[pos], color)]) + Shown(text[pos + 1..], color, plain)
  {
    assert text[pos..][1..] == text[pos + 1..];
  }

  /** One more character either prolongs the last run or starts another. */
  lemma More(segments: seq<Segment>, shown: seq<Styled>, clean: string, s: Styled)
    requires AreRuns(segments, shown) && AreChars(clean, shown)
    ensures AreRuns(Grown(segments, |shown|, s.color), shown + [s])
    ensures AreChars(clean + [s.ch], shown + [s])
  {
    if segments != [] && segments[|segments| - 1].color == s.color {
      Prolonged(segments, shown, s);
    } else {
      Started(segments, shown, s);
    }
  }

  lemma Prolonged(segments: seq<Segment>, shown: seq<Styled>, s: Styled)
    requires AreRuns(segments, shown)
    requires segments != [] && segments[|segments| - 1].color == s.color
    ensures AreRuns(Grown(segments, |shown|, s.color), shown + [s])
  {
    var last := |segments| - 1;
    var grown := segments[last := Segment(segments[last].start, |shown| + 1, s.color)];
    assert grown == Grown(segments, |shown|, s.color);
    forall k, i | 0 <= k < |grown| && grown[k].start <= i < grown[k].end
      ensures (shown + [s])[i].color == grown[k].color
    {
      if i < |shown| {
        assert segments[k].start <= i < segments[k].end;
      }
    }
  }

  lemma ColouredMore(segments: seq<Segment>, shown: seq<Styled>, s: Styled, run: Segment)
    requires Coloured(segments, shown) && run == Segment(|shown|, |shown| + 1, s.color)
    requires forall k | 0 <= k < |segments| :: segments[k].end <= |shown|
    ensures Coloured(segments + [run], shown + [s])
  {
  }

  lemma RunAdded(segments: seq<Segment>, shown: seq<Styled>, s: Styled, run: Segment)
    requires AreRuns(segments, shown) && run == Segment(|shown|, |shown| + 1, s.color)
    requires segments != [] ==> segments[|segments| - 1].color != s.color
    ensures AreRuns(segments + [run], shown + [s])
  {
    ColouredMore(segments, shown, s, run);
    hide Coloured;
    var grown := segments + [run];
    assert grown[|segments|] == run && forall k | 0 <= k < |segments| :: grown[k] == segments[k];
  }

  lemma Started(segments: seq<Segment>, shown: seq<Styled>, s: Styled)
    requires AreRuns(segments, shown)
    requires segments != [] ==> segments[|segments| - 1].color != s.color
    ensures AreRuns(Grown(segments, |shown|, s.color), shown + [s])
  {
    var run := Segment(|shown|, |shown| + 1, s.color);
    assert segments + [run] == Grown(segments, |shown|, s.color);
    hide Grown;
    RunAdded(segments, shown, s, run);
  }

  // ---------------------------------------------------------------------------
  // What the runs mean
  // ---------------------------------------------------------------------------

  /** There is only one way to divide the characters into such runs. */
  lemma RunsAreUnique(s: seq<Segment>, t: seq<Segment>, shown: seq<Styled>)
    requires AreRuns(s, shown) && AreRuns(t, shown)
    ensures s == t
  {
    if |s| <= |t| {
      AllOfThem(s, t, shown);
    } else {
      AllOfThem(t, s, shown);
    }
  }

  lemma Follows(t: seq<Segment>, shown: seq<Styled>, k: nat)
    requires AreRuns(t, shown)
    ensures k < |t| ==> t[k].start < t[k].end <= |shown| && t[k].start == EndBefore(t, k)
  {
  }

  lemma AllOfThem(s: seq<Segment>, t: seq<Segment>, shown: seq<Styled>)
    requires AreRuns(s, shown) && AreRuns(t, shown) && |s| <= |t|
    ensures s == t
  {
    SameStart(s, t, shown, |s|);
    assert s == t[..|s|];
    if s != [] {
      assert s[|s| - 1] == t[|s| - 1];
    }
    Follows(t, shown, |s|);
    assert t[..|t|] == t;
  }

  lemma {:induction false} SameStart(s: seq<Segment>, t: seq<Segment>, shown: seq<Styled>, k: nat)
    requires AreRuns(s, shown) && AreRuns(t, shown) && k <= |s| <= |t|
    ensures s[..k] == t[..k]
  {
    hide AreRuns;
    if k > 0 {
      SameStart(s, t, shown, k - 1);
      if k > 1 {
        assert s[k - 2] == s[..k - 1][k - 2] == t[..k - 1][k - 2] == t[k - 2];
      }
      Follows(s, shown, k - 1);
      Follows(t, shown, k - 1);
      NotShorter(s, t, shown, k - 1);
      NotShorter(t, s, shown, k - 1);
      assert s[..k] == s[..k - 1] + [s[k - 1]] && t[..k] == t[..k - 1] + [t[k - 1]];
    }
  }

  /** A run cannot stop before another that starts where it does. */
  lemma NotShorter(s: seq<Segment>, t: seq<Segment>, shown: seq<Styled>, k: nat)
    requires AreRuns(s, shown) && AreRuns(t, shown) && k < |s| && k < |t| && s[k].start == t[k].start
    ensures s[k].end >= t[k].end && s[k].color == t[k].color
  {
    assert shown[s[k].start].color == s[k].color;
    if k == |s| - 1 {
      assert s[k].end == |shown|;
    } else {
      assert shown[s[k + 1].start].color == s[k + 1].color != s[k].color;
    }
  }

  /** Text without escape sequences is shown as it is, in the default colour. */
  lemma {:induction false} PlainText(text: string, color: Color, plain: Color)
    requires forall i | 0 <= i < |text| - 1 :: !(text[i] == ESC && text[i + 1] == '[')
    ensures AreChars(text, Shown(text, color, plain))
    ensures forall i | 0 <= i < |text| :: Shown(text, color, plain)[i].color == color
  {
    if text != "" {
      PlainText(text[1..], color, plain);
    }
  }

  // ---------------------------------------------------------------------------
  // Every list of coloured characters can be written
  // ---------------------------------------------------------------------------

  function Decimal(n: nat): (s: string)
    ensures s != "" && forall c | c in s :: IsDigit(c)
  {
    if n < 10 then ['0' + n as char] else Decimal(n / 10) + ['0' + (n % 10) as char]
  }

  lemma {:induction false} DecimalValue(n: nat)
    ensures Value(Decimal(n)) == n
  {
    if n >= 10 {
      DecimalValue(n / 10);
      var s := Decimal(n);
      assert s[..|s| - 1] == Decimal(n / 10);
    }
  }

  /** Every character in its own 24-bit colour. */
  function Written(shown: seq<Styled>): string {
    if shown == [] then ""
    else
      var c := shown[0].color;
      [ESC, '['] + (Parameters(c) + ("m" + ([shown[0].ch] + Written(shown[1..]))))
  }

  function Parameters(c: Color): (s: string)
    ensures forall c | c in s :: IsDigit(c) || c == ';'
  {
    "38;" + ("2;" + (Decimal(c.r) + (";" + (Decimal(c.g) + (";" + Decimal(c.b))))))
  }

  /** What is so written is shown again: the same characters, whatever they are, in
      the same colours, if they are opaque. */
  lemma {:induction false} WrittenIsShown(shown: seq<Styled>, color: Color, plain: Color)
    requires forall i | 0 <= i < |shown| :: shown[i].color.a == 255
    ensures Shown(Written(shown), color, plain) == shown
  {
    hide Shown, Params, AfterEscape, Parameters;
    if shown == [] {
      ShownNothing(color, plain);
    } else {
      var (s, rest) := (shown[0], Written(shown[1..]));
      var tail := [s.ch] + rest;
      ParametersEnd(Parameters(s.color), tail);
      ParametersSelect(s.color, color, plain);
      Escaped(Parameters(s.color), tail, color, plain);
      WrittenIsShown(shown[1..], s.color, plain);
      WrittenStart(shown[1..]);
      OneCharacter(s.ch, rest, s.color, plain);
    }
  }

  lemma ShownNothing(color: Color, plain: Color)
    ensures Shown("", color, plain) == []
  {
  }

  lemma WrittenStart(shown: seq<Styled>)
    ensures Written(shown) == "" || Written(shown)[0] == ESC
  {
  }

  /** Even an escape character shows itself, before another or at the end. */
  lemma OneCharacter(ch: char, rest: string, color: Color, plain: Color)
    requires rest == "" || rest[0] == ESC
    ensures Shown([ch] + rest, color, plain) == [Styled(ch, color)] + Shown(rest, color, plain)
  {
    assert ([ch] + rest)[1..] == rest;
  }

  lemma Escaped(params: string, tail: string, color: Color, plain: Color)
    requires forall c | c in params :: IsDigit(c) || c == ';'
    requires Params(params + ("m" + tail)) == |params|
    ensures Shown([ESC, '['] + (params + ("m" + tail)), color, plain)
         == Shown(tail, AfterEscape(params, color, plain), plain)
  {
    hide AfterEscape, Params;
    var body := params + ("m" + tail);
    assert ([ESC, '['] + body)[2..] == body;
    assert body[..|params|] == params && body[|params| + 1..] == tail;
  }

  lemma {:induction false} ParametersEnd(params: string, tail: string)
    requires forall c | c in params :: IsDigit(c) || c == ';'
    ensures Params(params + ("m" + tail)) == |params|
  {
    if params != "" {
      assert (params + ("m" + tail))[1..] == params[1..] + ("m" + tail);
      ParametersEnd(params[1..], tail);
    }
  }

  lemma {:induction false} SplitFirst(first: string, rest: string)
    requires forall c | c in first :: IsDigit(c)
    requires forall c | c in rest :: IsDigit(c) || c == ';'
    ensures Split(first + (";" + rest)) == [first] + Split(rest)
    ensures Split(first) == [first]
  {
    var whole := first + (";" + rest);
    if first == "" {
      assert whole[1..] == rest;
    } else {
      SplitFirst(first[1..], rest);
      assert whole[1..] == first[1..] + (";" + rest);
      assert [first[0]] + first[1..] == first;
      assert IsDigit(first[0]) && whole[0] == first[0];
      assert Split(whole) == [[first[0]] + Split(whole[1..])[0]] + Split(whole[1..])[1..];
    }
  }

  lemma ParametersSelect(c: Color, color: Color, plain: Color)
    requires c.a == 255
    ensures AfterEscape(Parameters(c), color, plain) == c
  {
    hide Split, Selected, Decimal;
    SplitParameters(c);
    DecimalByte(c.r);
    DecimalByte(c.g);
    DecimalByte(c.b);
    SelectedRgb(Decimal(c.r), Decimal(c.g), Decimal(c.b), color, plain);
  }

  lemma SplitParameters(c: Color)
    ensures Split(Parameters(c)) == ["38", "2", Decimal(c.r), Decimal(c.g), Decimal(c.b)]
  {
    hide Split, Decimal;
    var (r, g, b) := (Decimal(c.r), Decimal(c.g), Decimal(c.b));
    SplitFirst(b, "");
    SplitFirst(g, b);
    SplitFirst(r, g + (";" + b));
    var rgb := r + (";" + (g + (";" + b)));
    SplitFirst("2", rgb);
    SplitFirst("38", "2" + (";" + rgb));
    assert "2;" + rgb == "2" + (";" + rgb);
    assert "38;" + ("2;" + rgb) == "38" + (";" + ("2;" + rgb));
  }

  lemma DecimalByte(n: Byte)
    ensures ByteOrZero(Decimal(n)) == n
  {
    DecimalValue(n);
  }

  lemma SelectedRgb(r: string, g: string, b: string, color: Color, plain: Color)
    requires forall c | c in r :: IsDigit(c)
    requires forall c | c in g :: IsDigit(c)
    requires forall c | c in b :: IsDigit(c)
    ensures AllDigits(["38", "2", r, g, b])
    ensures Selected(["38", "2", r, g, b], color, plain) == Rgb(ByteOrZero(r), ByteOrZero(g), ByteOrZero(b))
  {
    hide ByteOrZero;
    var parts := ["38", "2", r, g, b];
    assert Value("38") == 38 by {
      assert "38"[..1] == "3" && "3"[..0] == "";
    }
    assert parts[5..] == [];
    assert parts[2] == r && parts[3] == g && parts[4] == b;
  }

  // ---------------------------------------------------------------------------
  // What a single sequence does
  // ---------------------------------------------------------------------------

  /** One of the sixteen colours, by the bits of its number: red, green and blue, dark or
      bright; dark yellow has only half the green and so is brown. */
  function Palette(n: nat): Color
    requires n < 16
  {
    var (low, step) := if n < 8 then (0, 170) else (85, 170);
    Rgb(low + step * (n % 2), if n == 3 then 85 else low + step * (n / 2 % 2), low + step * (n / 4 % 2))
  }

  /** The colour after the code alone: 30 to 37 and 90 to 97 are the sixteen colours, 0 is
      the default one, and all others leave the colour as it is. */
  function Told(code: Byte, color: Color, plain: Color): Color {
    if code == 0 then plain
    else if 30 <= code < 38 then Palette(code - 30)
    else if 90 <= code < 98 then Palette(code - 82)
    else color
  }

  lemma CodedIs(code: Byte, color: Color, plain: Color)
    ensures Coded(code, color, plain) == Told(code, color, plain)
  {
    if 30 <= code < 38 || 90 <= code < 98 {
      Palettes();
    }
  }

  lemma Palettes()
    ensures Palette(0) == Rgb(0, 0, 0) && Palette(1) == Rgb(170, 0, 0)
    ensures Palette(2) == Rgb(0, 170, 0) && Palette(3) == Rgb(170, 85, 0)
    ensures Palette(4) == Rgb(0, 0, 170) && Palette(5) == Rgb(170, 0, 170)
    ensures Palette(6) == Rgb(0, 170, 170) && Palette(7) == Rgb(170, 170, 170)
    ensures Palette(8) == Rgb(85, 85, 85) && Palette(9) == Rgb(255, 85, 85)
    ensures Palette(10) == Rgb(85, 255, 85) && Palette(11) == Rgb(255, 255, 85)
    ensures Palette(12) == Rgb(85, 85, 255) && Palette(13) == Rgb(255, 85, 255)
    ensures Palette(14) == Rgb(85, 255, 255) && Palette(15) == Rgb(255, 255, 255)
  {
  }

  /** A sequence with one code shows nothing and tells the colour of what follows. */
  lemma CodeTells(code: Byte, tail: string, color: Color, plain: Color)
    ensures Shown([ESC, '['] + (Decimal(code) + ("m" + tail)), color, plain)
         == Shown(tail, Told(code, color, plain), plain)
  {
    hide Shown, Params, Decimal, Split, Told, Selected;
    ParametersEnd(Decimal(code), tail);
    Escaped(Decimal(code), tail, color, plain);
    SplitFirst(Decimal(code), "");
    OneCode(code, color, plain);
  }

  lemma OneCode(code: Byte, color: Color, plain: Color)
    ensures Selected([Decimal(code)], color, plain) == Told(code, color, plain)
  {
    hide Decimal, Value, Told;
    DecimalValue(code);
    CodedIs(code, color, plain);
    assert [Decimal(code)][1..] == [];
    if code == 38 {
      NotTold(color, plain);
    }
  }

  lemma NotTold(color: Color, plain: Color)
    ensures Told(38, color, plain) == color
  {
  }

  /** Several codes are told one after the other. */
  lemma CodesTell(code: Byte, parts: seq<string>, color: Color, plain: Color)
    requires code != 38 && AllDigits(parts)
    ensures AllDigits([Decimal(code)] + parts)
    ensures Selected([Decimal(code)] + parts, color, plain) == Selected(parts, Told(code, color, plain), plain)
  {
    hide Decimal, Value, Told;
    DecimalValue(code);
    CodedIs(code, color, plain);
    assert ([Decimal(code)] + parts)[1..] == parts;
  }

  /** An empty sequence goes back to the default colour. */
  lemma EmptyResets(tail: string, color: Color, plain: Color)
    ensures Shown([ESC, '['] + ("" + ("m" + tail)), color, plain) == Shown(tail, plain, plain)
  {
    hide Shown, Params;
    ParametersEnd("", tail);
    Escaped("", tail, color, plain);
  }

  /** A sequence that anything but an m ends is dropped, with the character that ends it,
      and the colour stays. */
  lemma BrokenIsDropped(params: string, end: char, tail: string, color: Color, plain: Color)
    requires forall c | c in params :: IsDigit(c) || c == ';'
    requires end != 'm' && end != ';' && !IsDigit(end)
    ensures Shown([ESC, '['] + (params + ([end] + tail)), color, plain) == Shown(tail, color, plain)
  {
    hide Shown, Params, AfterEscape;
    var body := params + ([end] + tail);
    ParamsEnd(params, end, tail);
    assert ([ESC, '['] + body)[2..] == body && body[|params| + 1..] == tail;
    SequenceShown([ESC, '['] + body, color, plain);
  }

  lemma {:induction false} ParamsEnd(params: string, end: char, tail: string)
    requires forall c | c in params :: IsDigit(c) || c == ';'
    requires end != ';' && !IsDigit(end)
    ensures Params(params + ([end] + tail)) == |params|
  {
    if params != "" {
      assert (params + ([end] + tail))[1..] == params[1..] + ([end] + tail);
      ParamsEnd(params[1..], end, tail);
    }
  }

  /** A colour by number is not supported: its three codes are passed over. */
  lemma NumberedIsIgnored(n: string, rest: seq<string>, color: Color, plain: Color)
    requires (forall c | c in n :: IsDigit(c)) && AllDigits(rest)
    ensures AllDigits(["38", "5", n] + rest)
    ensures Selected(["38", "5", n] + rest, color, plain) == Selected(rest, color, plain)
  {
    var parts := ["38", "5", n] + rest;
    assert parts[3..] == rest && parts[1] == "5";
    DigitsOf38();
  }

  lemma DigitsOf38()
    ensures (forall c | c in "38" :: IsDigit(c)) && (forall c | c in "5" :: IsDigit(c)) && ParseByte("38") == Some(38)
  {
    assert "38"[..1] == "3" && "3"[..0] == "";
  }

  /** A code that is left out, or beyond a byte, is passed over. */
  lemma NoCodeIsIgnored(part: string, rest: seq<string>, color: Color, plain: Color)
    requires AllDigits(rest) && (part == "" || exists n :: n >= 256 && part == Decimal(n))
    ensures AllDigits([part] + rest)
    ensures Selected([part] + rest, color, plain) == Selected(rest, color, plain)
  {
    if part != "" {
      var n :| n >= 256 && part == Decimal(n);
      DecimalValue(n);
    }
    assert ([part] + rest)[1..] == rest;
    hide Decimal, Value;
  }
}

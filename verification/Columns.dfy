/** Columns and indices in a line (chars.c, utils.c): how wide the text before an
    index is, and which index a column falls on. */
module Columns {
  import opened Chars

  /** Whether UTF-8 is in use, the tab size, and the C library's wcwidth. */
  datatype Display = Display(utf8: bool, tabSize: nat, wcwidth: int -> int) {
    predicate Valid() {
      tabSize > 0
    }
  }

  /** char_length, in either mode. */
  function Length(d: Display, s: Line, i: nat): (n: nat)
    ensures 1 <= n && (i < |s| ==> i + n <= |s|)
  {
    if d.utf8 then CharLength(s, i) else 1
  }

  /** The column after the character at index i, when it starts at the given one. */
  function After(d: Display, s: Line, i: nat, column: nat): (c: nat)
    requires d.Valid() && i < |s|
    ensures column <= c
  {
    if d.utf8 && s[i] >= 0x80 then
      if s[i] == 0xC2 && 0x80 <= At(s, i + 1) < 0xA0 then column + 2
      else match MbToWide(s, i)
        case Invalid => column + 1
        case Wide(value, _) => column + if d.wcwidth(value) < 0 then 1 else d.wcwidth(value)
    else if s[i] == 9 then column + d.tabSize - column % d.tabSize
    else if s[i] < 0x20 || 0x7E < s[i] < 0xA0 then column + 2
    else column + 1
  }

  /** advance_over: it steps by exactly the character's length. */
  method AdvanceOver(d: Display, s: Line, i: nat, column: nat) returns (charlen: nat, newColumn: nat)
    requires d.Valid() && i < |s|
    ensures charlen == Length(d, s, i) && newColumn == After(d, s, i, column)
  {
    newColumn := column;
    if d.utf8 && s[i] >= 0x80 {
      if s[i] == 0xC2 && 0x80 <= At(s, i + 1) < 0xA0 {
        return 2, column + 2;
      }
      match MbToWide(s, i) {
        case Invalid =>
          DecoderIsRfc3629(s, i);
          return 1, column + 1;
        case Wide(value, length) =>
          DecoderIsRfc3629(s, i);
          var width := d.wcwidth(value);
          return length, column + if width < 0 then 1 else width;
      }
    }
    charlen := 1;
    if s[i] < 0x20 {
      if s[i] == 9 {
        newColumn := column + d.tabSize - column % d.tabSize;
      } else {
        newColumn := column + 2;
      }
    } else if 0x7E < s[i] < 0xA0 {
      newColumn := column + 2;
    } else {
      newColumn := column + 1;
    }
  }

  /** Index j is reached from index i by stepping over whole characters. */
  predicate Steps(d: Display, s: Line, i: nat, j: nat)
    decreases j - i
  {
    i == j || (i < j && Steps(d, s, i + Length(d, s, i), j))
  }

  /** In UTF-8 these are the boundaries of a line; otherwise they are all its
      indices. */
  lemma {:induction false} StepsAreBoundaries(d: Display, s: Line, i: nat, j: nat)
    requires i <= j <= |s|
    ensures d.utf8 ==> (Steps(d, s, i, j) <==> Reaches(s, i, j))
    ensures !d.utf8 ==> Steps(d, s, i, j)
    decreases j - i
  {
    if i < j && i + Length(d, s, i) <= j {
      StepsAreBoundaries(d, s, i + Length(d, s, i), j);
    } else if i < j {
      TooFar(d, s, i, j);
    }
  }

  lemma TooFar(d: Display, s: Line, i: nat, j: nat)
    requires i < j < i + Length(d, s, i)
    ensures !Steps(d, s, i, j) && (d.utf8 ==> !Reaches(s, i, j)) && d.utf8
  {
  }

  /** The column before index j, walking from index i in the given column; a
      character that starts before j counts in full. */
  function ColumnFrom(d: Display, s: Line, i: nat, column: nat, j: nat): nat
    requires d.Valid() && i <= |s|
    decreases |s| - i
  {
    if i == |s| || j <= i then column
    else ColumnFrom(d, s, i + Length(d, s, i), After(d, s, i, column), j)
  }

  method Wideness(d: Display, text: Line, maxlen: nat) returns (width: nat)
    requires d.Valid()
    ensures width == ColumnFrom(d, text, 0, 0, maxlen)
  {
    width := 0;
    if maxlen == 0 {
      return;
    }
    var (i, rest) := (0, maxlen);
    while i < |text|
      invariant i <= |text| && rest > 0 && i + rest == maxlen
      invariant ColumnFrom(d, text, i, width, maxlen) == ColumnFrom(d, text, 0, 0, maxlen)
      decreases |text| - i
    {
      var charlen;
      charlen, width := AdvanceOver(d, text, i, width);
      if rest <= charlen {
        break;
      }
      rest, i := rest - charlen, i + charlen;
    }
  }

  /** The index at which the next character would pass the given column. */
  function IndexFrom(d: Display, s: Line, i: nat, width: nat, column: nat): (j: nat)
    requires d.Valid() && i <= |s|
    ensures i <= j <= |s|
    decreases |s| - i
  {
    if i == |s| || After(d, s, i, width) > column then i
    else IndexFrom(d, s, i + Length(d, s, i), After(d, s, i, width), column)
  }

  method ActualX(d: Display, text: Line, column: nat) returns (x: nat)
    requires d.Valid()
    ensures x == IndexFrom(d, text, 0, 0, column)
  {
    x := 0;
    var width: nat := 0;
    while x < |text|
      invariant x <= |text| && IndexFrom(d, text, x, width, column) == IndexFrom(d, text, 0, 0, column)
      decreases |text| - x
    {
      var charlen, newWidth := AdvanceOver(d, text, x, width);
      width := newWidth;
      if width > column {
        break;
      }
      x := x + charlen;
    }
  }

  // ----- The two are adjoint ------------------------------------------------------------

  lemma {:induction false} ColumnGrows(d: Display, s: Line, i: nat, column: nat, j: nat)
    requires d.Valid() && i <= |s|
    ensures column <= ColumnFrom(d, s, i, column, j)
    decreases |s| - i
  {
    if i < |s| && i < j {
      ColumnGrows(d, s, i + Length(d, s, i), After(d, s, i, column), j);
    }
  }

  lemma {:induction false} AdjointFrom(d: Display, s: Line, i: nat, width: nat, j: nat, column: nat)
    requires d.Valid() && i <= j <= |s| && Steps(d, s, i, j)
    requires width <= column
    ensures j <= IndexFrom(d, s, i, width, column) <==> ColumnFrom(d, s, i, width, j) <= column
    decreases |s| - i
  {
    if i < j {
      var (next, w) := (i + Length(d, s, i), After(d, s, i, width));
      StepsForward(d, s, next, j);
      if w <= column {
        AdjointFrom(d, s, next, w, j, column);
      } else {
        ColumnGrows(d, s, next, w, j);
      }
    }
  }

  lemma StepsForward(d: Display, s: Line, i: nat, j: nat)
    requires Steps(d, s, i, j)
    ensures i <= j
  {
  }

  /** An index between characters is at or before actual_x of a column exactly when
      the text before it fits in that many columns: for tabs, control characters
      and zero-width characters, and whatever wcwidth says. */
  lemma Adjoint(d: Display, s: Line, j: nat, column: nat)
    requires d.Valid() && j <= |s| && Steps(d, s, 0, j)
    ensures j <= IndexFrom(d, s, 0, 0, column) <==> ColumnFrom(d, s, 0, 0, j) <= column
  {
    AdjointFrom(d, s, 0, 0, j, column);
  }

  /** actual_x always stops between characters. */
  lemma {:induction false} IndexOnStep(d: Display, s: Line, i: nat, width: nat, column: nat)
    requires d.Valid() && i <= |s|
    ensures Steps(d, s, i, IndexFrom(d, s, i, width, column))
    decreases |s| - i
  {
    if i < |s| && After(d, s, i, width) <= column {
      IndexOnStep(d, s, i + Length(d, s, i), After(d, s, i, width), column);
    }
  }

  /** So going to the column of an index comes back to it, or beyond it over
      characters without width; and the column of actual_x never overshoots. */
  lemma ThereAndBack(d: Display, s: Line, j: nat, column: nat)
    requires d.Valid() && j <= |s| && Steps(d, s, 0, j)
    ensures var back := IndexFrom(d, s, 0, 0, ColumnFrom(d, s, 0, 0, j));
            j <= back && ColumnFrom(d, s, 0, 0, back) == ColumnFrom(d, s, 0, 0, j)
    ensures ColumnFrom(d, s, 0, 0, IndexFrom(d, s, 0, 0, column)) <= column
  {
    var c := ColumnFrom(d, s, 0, 0, j);
    var back := IndexFrom(d, s, 0, 0, c);
    IndexOnStep(d, s, 0, 0, c);
    IndexOnStep(d, s, 0, 0, column);
    Adjoint(d, s, j, c);
    Adjoint(d, s, back, c);
    Adjoint(d, s, IndexFrom(d, s, 0, 0, column), column);
    FurtherIsWider(d, s, 0, 0, j, back);
  }

  lemma {:induction false} FurtherIsWider(d: Display, s: Line, i: nat, width: nat, j: nat, k: nat)
    requires d.Valid() && i <= |s| && j <= k
    ensures ColumnFrom(d, s, i, width, j) <= ColumnFrom(d, s, i, width, k)
    decreases |s| - i
  {
    if i < |s| && i < j {
      FurtherIsWider(d, s, i + Length(d, s, i), After(d, s, i, width), j, k);
    } else {
      ColumnGrows(d, s, i, width, k);
    }
  }

  // ----- How wide characters are -----------------------------------------------------------

  /** The columns of a character, by its code point: control characters are shown in two,
      and the C library says how wide the others are. */
  function Cells(d: Display, v: int): nat {
    if v < 0x20 || 0x7F <= v < 0xA0 then 2
    else if v < 0x80 then 1
    else if d.wcwidth(v) < 0 then 1
    else d.wcwidth(v)
  }

  /** A tab leads to the next multiple of the tab size. */
  function Advanced(d: Display, v: int, column: nat): nat
    requires d.Valid()
  {
    if v == 9 then (column / d.tabSize + 1) * d.tabSize else column + Cells(d, v)
  }

  /** The column where a text of these code points ends. */
  function EndColumn(d: Display, vs: seq<int>, column: nat): nat
    requires d.Valid()
  {
    if vs == [] then column else EndColumn(d, vs[1..], Advanced(d, vs[0], column))
  }

  lemma NextTab(d: Display, column: nat)
    requires d.Valid()
    ensures var c := (column / d.tabSize + 1) * d.tabSize;
            && c == column + d.tabSize - column % d.tabSize
            && c % d.tabSize == 0 && column < c <= column + d.tabSize
  {
    var (q, r) := (column / d.tabSize, column % d.tabSize);
    assert column == q * d.tabSize + r;
    assert (q + 1) * d.tabSize == q * d.tabSize + d.tabSize;
    Multiple(q + 1, d.tabSize);
  }

  lemma Multiple(q: nat, n: nat)
    requires n > 0
    ensures (q * n) % n == 0
  {
    var (d, r) := ((q * n) / n, (q * n) % n);
    assert q * n == d * n + r;
    assert (q - d) * n == q * n - d * n;
    Scaled(q - d, n);
  }

  lemma Scaled(k: int, n: int)
    requires n > 0
    ensures k > 0 ==> k * n >= n
    ensures k < 0 ==> k * n <= -n
  {
  }

  /** A tab goes to a multiple of the tab size, beyond the column it is in and by no more
      than the tab size. */
  lemma TabStops(d: Display, s: Line, i: nat, column: nat)
    requires d.Valid() && i < |s| && s[i] == 9
    ensures var c := After(d, s, i, column); c % d.tabSize == 0 && column < c <= column + d.tabSize
  {
    NextTab(d, column);
  }

  /** In UTF-8 a character takes as many columns as its code point says, wherever it is. */
  lemma CharacterTakes(d: Display, before: Line, v: int, after: Line, column: nat)
    requires d.Valid() && d.utf8 && Scalar(v)
    ensures var s := before + Encode(v) + after;
            After(d, s, |before|, column) == Advanced(d, v, column) && Length(d, s, |before|) == |Encode(v)|
  {
    DecodeEncode(v, before, after);
    NextTab(d, column);
  }

  /** A byte that begins no character is shown in one column. */
  lemma InvalidTakesOne(d: Display, s: Line, i: nat, column: nat)
    requires d.Valid() && d.utf8 && i < |s| && MbToWide(s, i).Invalid?
    ensures After(d, s, i, column) == column + 1
  {
  }

  /** And without UTF-8 every byte is a character. */
  lemma ByteTakes(d: Display, s: Line, i: nat, column: nat)
    requires d.Valid() && !d.utf8 && i < |s|
    ensures After(d, s, i, column) ==
            Advanced(d.(wcwidth := _ => 1), s[i], column) && Length(d, s, i) == 1
  {
    NextTab(d, column);
  }

  function EncodeAll(vs: seq<int>): Line
    requires forall k | 0 <= k < |vs| :: Scalar(vs[k])
  {
    if vs == [] then [] else Encode(vs[0]) + EncodeAll(vs[1..])
  }

  lemma {:induction false} TextEnds(d: Display, before: Line, vs: seq<int>, column: nat)
    requires d.Valid() && d.utf8 && forall k | 0 <= k < |vs| :: Scalar(vs[k])
    ensures var s := before + EncodeAll(vs);
            ColumnFrom(d, s, |before|, column, |s|) == EndColumn(d, vs, column)
    decreases |vs|
  {
    hide After, Encode;
    var s := before + EncodeAll(vs);
    if vs != [] {
      var head := before + Encode(vs[0]);
      assert s == before + Encode(vs[0]) + EncodeAll(vs[1..]) == head + EncodeAll(vs[1..]);
      CharacterTakes(d, before, vs[0], EncodeAll(vs[1..]), column);
      TextEnds(d, head, vs[1..], Advanced(d, vs[0], column));
    }
  }

  /** So the width of a line of UTF-8 is that of its code points, tabs going on to the next
      tab stop. */
  lemma LineWidth(d: Display, vs: seq<int>)
    requires d.Valid() && d.utf8 && forall k | 0 <= k < |vs| :: Scalar(vs[k])
    ensures ColumnFrom(d, EncodeAll(vs), 0, 0, |EncodeAll(vs)|) == EndColumn(d, vs, 0)
  {
    assert [] + EncodeAll(vs) == EncodeAll(vs);
    TextEnds(d, [], vs, 0);
  }

  /** Without UTF-8 it is that of its bytes. */
  lemma {:induction false} BytesEnd(d: Display, s: Line, i: nat, column: nat)
    requires d.Valid() && !d.utf8 && i <= |s|
    ensures ColumnFrom(d, s, i, column, |s|) == EndColumn(d.(wcwidth := _ => 1), s[i..], column)
    decreases |s| - i
  {
    hide After;
    if i < |s| {
      ByteTakes(d, s, i, column);
      BytesEnd(d, s, i + 1, After(d, s, i, column));
      assert s[i..][1..] == s[i + 1..];
    }
  }

  /** A line of n letters, digits and the like and then a tab is as wide as the first tab
      stop beyond n; in either mode. */
  lemma PlainThenTab(d: Display, s: Line, n: nat)
    requires d.Valid() && |s| == n + 1 && s[n] == 9 && forall k | 0 <= k < n :: 0x20 <= s[k] < 0x7F
    ensures ColumnFrom(d, s, 0, 0, n) == n
    ensures ColumnFrom(d, s, 0, 0, n + 1) == (n / d.tabSize + 1) * d.tabSize
  {
    PlainFrom(d, s, 0, n);
    NextTab(d, n);
  }

  lemma {:induction false} PlainFrom(d: Display, s: Line, i: nat, n: nat)
    requires d.Valid() && |s| == n + 1 && s[n] == 9 && i <= n && forall k | 0 <= k < n :: 0x20 <= s[k] < 0x7F
    ensures ColumnFrom(d, s, i, i, n) == n
    ensures ColumnFrom(d, s, i, i, n + 1) == After(d, s, n, n)
    decreases n - i
  {
    if i < n {
      PlainFrom(d, s, i + 1, n);
    } else {
      assert ColumnFrom(d, s, n + 1, After(d, s, n, n), n + 1) == After(d, s, n, n);
    }
  }
}

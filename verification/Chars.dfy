/** Characters in a line of text: the UTF-8 stepping rules of chars.c.

    A line is a NUL-terminated string in C; here it is a sequence of
    non-NUL bytes, and reading one position past its end yields the NUL. */
module Chars {

  type Byte = b: int | 1 <= b <= 255 witness 1

  type Line = seq<Byte>

  /** The byte at index i of the string, counting the terminating NUL. */
  function At(s: Line, i: nat): (b: int)
    ensures 0 <= b <= 255
  {
    if i < |s| then s[i] else 0
  }

  /** The value of b ^ 0x80 for a byte b. */
  function Flip(b: int): int {
    if b >= 0x80 then b - 0x80 else b + 0x80
  }

  predicate Continuation(b: int) {
    Flip(b) <= 0x3F && b >= 0x80
  }

  // ----- char_length and mbtowide ------------------------------------------

  function CharLength(s: Line, i: nat): (n: nat)
    ensures 1 <= n <= 4
    ensures i < |s| ==> i + n <= |s|
  {
    var c1 := At(s, i);
    var c2 := At(s, i + 1);
    if c1 <= 0xC1 then 1
    else if Flip(c2) > 0x3F then 1
    else if c1 < 0xE0 then 2
    else if Flip(At(s, i + 2)) > 0x3F then 1
    else if c1 < 0xF0 then
      if (c1 > 0xE0 || c2 >= 0xA0) && (c1 != 0xED || c2 < 0xA0) then 3 else 1
    else if Flip(At(s, i + 3)) > 0x3F then 1
    else if c1 > 0xF4 then 1
    else if (c1 > 0xF0 || c2 >= 0x90) && (c1 != 0xF4 || c2 < 0x90) then 4
    else 1
  }

  datatype Wide = Invalid | Wide(value: int, length: nat)

  /** Convert the multibyte sequence at index i; Invalid stands for the result -1. */
  function MbToWide(s: Line, i: nat): Wide {
    var v1 := At(s, i);
    if v1 < 0x80 then Wide(v1, 1) else
    var v2 := Flip(At(s, i + 1));
    if v2 > 0x3F || v1 < 0xC2 then Invalid
    else if v1 < 0xE0 then Wide(v1 % 0x20 * 0x40 + v2, 2) else
    var v3 := Flip(At(s, i + 2));
    if v3 > 0x3F then Invalid
    else if v1 < 0xF0 then
      if (v1 > 0xE0 || v2 >= 0x20) && (v1 != 0xED || v2 < 0x20) then
        Wide(v1 % 0x10 * 0x1000 + v2 * 0x40 + v3, 3)
      else Invalid
    else
      var v4 := Flip(At(s, i + 3));
      if v4 > 0x3F || v1 > 0xF4 then Invalid
      else if (v1 > 0xF0 || v2 >= 0x10) && (v1 != 0xF4 || v2 < 0x10) then
        Wide(v1 % 0x08 * 0x40000 + v2 * 0x1000 + v3 * 0x40 + v4, 4)
      else Invalid
  }

  /** A Unicode scalar value other than U+0000, which a line cannot hold. */
  predicate Scalar(v: int) {
    1 <= v < 0xD800 || 0xE000 <= v <= 0x10FFFF
  }

  /** The encoder of section 3 of RFC 3629. */
  function Encode(v: int): Line
    requires Scalar(v)
  {
    if v < 0x80 then [v]
    else if v < 0x800 then [0xC0 + v / 0x40, 0x80 + v % 0x40]
    else if v < 0x10000 then
      [0xE0 + v / 0x40 / 0x40, 0x80 + v / 0x40 % 0x40, 0x80 + v % 0x40]
    else
      [0xF0 + v / 0x40 / 0x40 / 0x40, 0x80 + v / 0x40 / 0x40 % 0x40, 0x80 + v / 0x40 % 0x40, 0x80 + v % 0x40]
  }

  /** The UTF8-char rules of section 4 of RFC 3629, for a string of exactly one
      character (the rule UTF8-1 without NUL). */
  predicate Rfc3629(s: Line) {
    || (|s| == 1 && s[0] <= 0x7F)
    || (|s| == 2 && 0xC2 <= s[0] <= 0xDF && Tail(s[1]))
    || (|s| == 3 && Tail(s[2]) && (
        || (s[0] == 0xE0 && 0xA0 <= s[1] <= 0xBF)
        || (0xE1 <= s[0] <= 0xEC && Tail(s[1]))
        || (s[0] == 0xED && 0x80 <= s[1] <= 0x9F)
        || (0xEE <= s[0] <= 0xEF && Tail(s[1]))))
    || (|s| == 4 && Tail(s[2]) && Tail(s[3]) && (
        || (s[0] == 0xF0 && 0x90 <= s[1] <= 0xBF)
        || (0xF1 <= s[0] <= 0xF3 && Tail(s[1]))
        || (s[0] == 0xF4 && 0x80 <= s[1] <= 0x8F)))
  }

  predicate EncodedAt(s: Line, i: nat, n: nat) {
    i + n <= |s| && Rfc3629(s[i..i + n])
  }

  predicate Tail(b: int) {
    0x80 <= b <= 0xBF
  }

  /** mbtowide accepts, at any place in any string, exactly a character of the
      RFC's grammar, and takes all of it; char_length agrees, and says 1 where
      mbtowide rejects. */
  lemma DecoderIsRfc3629(s: Line, i: nat)
    requires i < |s|
    ensures MbToWide(s, i).Wide? <==> exists n :: EncodedAt(s, i, n)
    ensures MbToWide(s, i).Wide? ==>
              EncodedAt(s, i, MbToWide(s, i).length) && CharLength(s, i) == MbToWide(s, i).length
    ensures MbToWide(s, i).Invalid? ==> CharLength(s, i) == 1
  {
    if MbToWide(s, i).Wide? {
      assert EncodedAt(s, i, MbToWide(s, i).length);
    }
    forall n | EncodedAt(s, i, n)
      ensures MbToWide(s, i).Wide?
    {
      var c := s[i..i + n];
      assert c[0] == At(s, i);
      if n > 1 { assert c[1] == At(s, i + 1); }
      if n > 2 { assert c[2] == At(s, i + 2); }
      if n > 3 { assert c[3] == At(s, i + 3); }
    }
  }

  /** Decoding inverts encoding, whatever follows in the string. */
  lemma DecodeEncode(v: int, before: Line, after: Line)
    requires Scalar(v)
    ensures MbToWide(before + Encode(v) + after, |before|) == Wide(v, |Encode(v)|)
  {
    var s := before + Encode(v) + after;
    var e := Encode(v);
    var q1, q2, q3 := v / 0x40, v / 0x40 / 0x40, v / 0x40 / 0x40 / 0x40;
    var lead: int := e[0];
    assert At(s, |before|) == lead;
    if v >= 0x80 { assert At(s, |before| + 1) == e[1]; }
    if v >= 0x800 { assert At(s, |before| + 2) == e[2]; }
    if v >= 0x10000 { assert At(s, |before| + 3) == e[3]; }
    if v < 0x80 {
    } else if v < 0x800 {
      assert lead % 0x20 == q1;
    } else if v < 0x10000 {
      assert lead % 0x10 == q2;
    } else {
      assert lead % 0x08 == q3;
    }
  }

  /** Encoding inverts decoding: every accepted sequence is the encoding of a
      scalar value, so acceptance is a bijection. */
  lemma EncodeDecode(s: Line, i: nat)
    requires i < |s| && MbToWide(s, i).Wide?
    ensures var w := MbToWide(s, i);
            Scalar(w.value) && i + w.length <= |s| && s[i..i + w.length] == Encode(w.value)
  {
    var v1 := s[i];
    if v1 < 0x80 {
      assert s[i..i + 1] == [v1];
    } else if v1 < 0xE0 {
      assert s[i..i + 2] == [v1, s[i + 1]];
      Encode2(v1, Flip(s[i + 1]));
    } else if v1 < 0xF0 {
      assert s[i..i + 3] == [v1, s[i + 1], s[i + 2]];
      hide Encode;
      Encode3(v1, Flip(s[i + 1]), Flip(s[i + 2]));
    } else {
      assert s[i..i + 4] == [v1, s[i + 1], s[i + 2], s[i + 3]];
      hide Encode;
      Encode4(v1, Flip(s[i + 1]), Flip(s[i + 2]), Flip(s[i + 3]));
    }
  }

  lemma Encode2(v1: int, v2: int)
    requires 0xC2 <= v1 < 0xE0 && 0 <= v2 < 0x40
    ensures var v := v1 % 0x20 * 0x40 + v2;
            Scalar(v) && Encode(v) == [v1, 0x80 + v2]
  {
    DivMod(v1 % 0x20, v2);
  }

  lemma Encode3(v1: int, v2: int, v3: int)
    requires 0xE0 <= v1 < 0xF0 && 0 <= v2 < 0x40 && 0 <= v3 < 0x40
    requires (v1 > 0xE0 || v2 >= 0x20) && (v1 != 0xED || v2 < 0x20)
    ensures var v := v1 % 0x10 * 0x1000 + v2 * 0x40 + v3;
            Scalar(v) && Encode(v) == [v1, 0x80 + v2, 0x80 + v3]
  {
    DivMod(v1 % 0x10, v2);
    DivMod(v1 % 0x10 * 0x40 + v2, v3);
  }

  lemma Encode4(v1: int, v2: int, v3: int, v4: int)
    requires 0xF0 <= v1 <= 0xF4 && 0 <= v2 < 0x40 && 0 <= v3 < 0x40 && 0 <= v4 < 0x40
    requires (v1 > 0xF0 || v2 >= 0x10) && (v1 != 0xF4 || v2 < 0x10)
    ensures var v := v1 % 0x08 * 0x40000 + v2 * 0x1000 + v3 * 0x40 + v4;
            Scalar(v) && Encode(v) == [v1, 0x80 + v2, 0x80 + v3, 0x80 + v4]
  {
    DivMod(v1 % 0x08, v2);
    DivMod(v1 % 0x08 * 0x40 + v2, v3);
    DivMod(v1 % 0x08 * 0x1000 + v2 * 0x40 + v3, v4);
  }

  lemma DivMod(q: int, r: int)
    requires 0 <= r < 0x40
    ensures (q * 0x40 + r) / 0x40 == q && (q * 0x40 + r) % 0x40 == r
  {
  }

  // ----- Boundaries: the positions reached by step_right from the start ------

  function StepRight(s: Line, i: nat): nat {
    i + CharLength(s, i)
  }

  /** Position i is reached from position `from` by repeated step_right. */
  predicate Reaches(s: Line, from: nat, i: nat)
    decreases i - from
  {
    from == i || (from < i && Reaches(s, StepRight(s, from), i))
  }

  predicate Boundary(s: Line, i: nat) {
    i <= |s| && Reaches(s, 0, i)
  }

  /** A character never has a non-continuation byte after its first. */
  lemma CharInterior(s: Line, i: nat, k: nat)
    requires i < k < StepRight(s, i)
    ensures Continuation(At(s, k)) && At(s, i) >= 0xC2
  {
  }

  lemma {:induction false} ReachesTransitive(s: Line, a: nat, b: nat, c: nat)
    requires Reaches(s, a, b) && Reaches(s, b, c)
    ensures Reaches(s, a, c)
    decreases b - a
  {
    ReachesForward(s, b, c);
    if a != b {
      ReachesTransitive(s, StepRight(s, a), b, c);
    }
  }

  lemma {:induction false} ReachesForward(s: Line, a: nat, b: nat)
    requires Reaches(s, a, b)
    ensures a <= b
    decreases b - a
  {
  }

  /** Two positions on one walk reach each other in order. */
  lemma {:induction false} ReachesLinear(s: Line, a: nat, b: nat, c: nat)
    requires Reaches(s, a, b) && Reaches(s, a, c) && b <= c
    ensures Reaches(s, b, c)
    decreases b - a
  {
    if a != b {
      ReachesForward(s, StepRight(s, a), b);
      ReachesLinear(s, StepRight(s, a), b, c);
    }
  }

  /** Every position that holds no continuation byte is on the walk from any
      earlier position of the string. */
  lemma {:induction false} StarterReached(s: Line, a: nat, i: nat)
    requires a <= i <= |s| && (i < |s| ==> !Continuation(s[i]))
    ensures Reaches(s, a, i)
    decreases i - a
  {
    if a < i {
      if StepRight(s, a) > i {
        CharInterior(s, a, i);
      }
      StarterReached(s, StepRight(s, a), i);
    }
  }

  lemma EndIsBoundary(s: Line)
    ensures Boundary(s, 0) && Boundary(s, |s|)
  {
    StarterReached(s, 0, |s|);
  }

  lemma StepRightBoundary(s: Line, i: nat)
    requires Boundary(s, i) && i < |s|
    ensures Boundary(s, StepRight(s, i))
  {
    assert Reaches(s, i, StepRight(s, i));
    ReachesTransitive(s, 0, i, StepRight(s, i));
  }

  // ----- step_left ----------------------------------------------------------

  /** The position at which step_left starts to walk forward again. */
  function ProbeLeft(s: Line, pos: nat): (before: nat)
    requires pos <= |s|
    ensures before <= pos && (pos > 0 ==> before < pos)
  {
    if pos < 4 then 0
    else if !Continuation(s[pos - 1]) then pos - 1
    else if !Continuation(s[pos - 2]) then pos - 2
    else if !Continuation(s[pos - 3]) then pos - 3
    else if !Continuation(s[pos - 4]) then pos - 4
    else pos - 1
  }

  /** The start of the character at which the walk from `before` meets or
      passes pos. */
  function LastStart(s: Line, before: nat, pos: nat): (start: nat)
    requires before < pos
    ensures before <= start < pos && Reaches(s, before, start) && pos <= StepRight(s, start)
    decreases pos - before
  {
    if StepRight(s, before) >= pos then before
    else LastStart(s, StepRight(s, before), pos)
  }

  function StepLeft(s: Line, pos: nat): (p: nat)
    requires pos <= |s|
    ensures pos == 0 ==> p == 0
    ensures pos > 0 ==> p < pos
  {
    if pos == 0 then 0 else LastStart(s, ProbeLeft(s, pos), pos)
  }

  method StepLeftLoop(s: Line, pos: nat) returns (p: nat)
    requires pos <= |s|
    ensures p == StepLeft(s, pos)
  {
    var charlen, before := 0, ProbeLeft(s, pos);
    ghost var start := before;
    while before < pos
      invariant charlen <= before
      invariant before < pos ==> StepLeft(s, pos) == LastStart(s, before, pos)
      invariant before >= pos ==> before - charlen == StepLeft(s, pos)
      decreases pos - before
    {
      charlen := CharLength(s, before);
      before := before + charlen;
    }
    p := before - charlen;
  }

  /** Looking back at most four bytes, step_left finds the predecessor of any
      boundary in the walk from the start, also in ill-formed text. */
  lemma StepLeftIsPredecessor(s: Line, pos: nat)
    requires Boundary(s, pos) && pos > 0
    ensures Boundary(s, StepLeft(s, pos)) && StepRight(s, StepLeft(s, pos)) == pos
    ensures forall b | StepLeft(s, pos) < b < pos :: !Boundary(s, b)
  {
    var before := ProbeLeft(s, pos);
    ProbeOnWalk(s, pos);
    ReachesLinear(s, 0, before, pos);
    var p := LastStart(s, before, pos);
    ReachesTransitive(s, 0, before, p);
    ReachesLinear(s, 0, p, pos);
    ReachesForward(s, StepRight(s, p), pos);
    forall b | p < b < pos
      ensures !Boundary(s, b)
    {
      if Boundary(s, b) {
        ReachesLinear(s, 0, p, b);
        ReachesForward(s, StepRight(s, p), b);
      }
    }
  }

  /** The probe always starts at a boundary: at a starter byte, or at a lone
      continuation byte that no lead byte within reach can own. */
  lemma ProbeOnWalk(s: Line, pos: nat)
    requires Boundary(s, pos) && pos > 0
    ensures Reaches(s, 0, ProbeLeft(s, pos))
  {
    var before := ProbeLeft(s, pos);
    if before == 0 {
    } else if Continuation(s[before]) {
      var p := LastStart(s, 0, pos);
      ReachesLinear(s, 0, p, pos);
      ReachesForward(s, StepRight(s, p), pos);
      if p != pos - 1 {
        CharInterior(s, p, p + 1);
        assert false;
      }
    } else {
      StarterReached(s, 0, before);
    }
  }

  // ----- mbstrlen ------------------------------------------------------------

  /** The number of characters from position i on. */
  function CountFrom(s: Line, i: nat): nat
    requires i <= |s|
    decreases |s| - i
  {
    if i == |s| then 0 else 1 + CountFrom(s, StepRight(s, i))
  }

  function Count(s: Line): nat {
    CountFrom(s, 0)
  }

  method MbStrLen(s: Line) returns (count: nat)
    ensures count == Count(s)
  {
    count := 0;
    var i := 0;
    while i < |s|
      invariant i <= |s| && count + CountFrom(s, i) == Count(s)
      decreases |s| - i
    {
      i := i + CharLength(s, i);
      count := count + 1;
    }
  }

  // ----- Well-formed lines ----------------------------------------------------

  /** Every character of the line from position i on is one that mbtowide accepts. */
  predicate WellFormedFrom(s: Line, i: nat)
    requires i <= |s|
    decreases |s| - i
  {
    i == |s| || (MbToWide(s, i).Wide? && WellFormedFrom(s, StepRight(s, i)))
  }

  predicate WellFormed(s: Line) {
    WellFormedFrom(s, 0)
  }

  /** A character that mbtowide accepts is the same in any context. */
  lemma CharLocal(s: Line, i: nat, t: Line, j: nat)
    requires i < |s| && MbToWide(s, i).Wide?
    requires j + CharLength(s, i) <= |t| && t[j..j + CharLength(s, i)] == s[i..StepRight(s, i)]
    ensures MbToWide(t, j) == MbToWide(s, i) && CharLength(t, j) == CharLength(s, i)
  {
    var n := CharLength(s, i);
    var c := s[i..i + n];
    assert t[j] == c[0] == s[i];
    if n > 1 { assert t[j + 1] == c[1] == s[i + 1]; }
    if n > 2 { assert t[j + 2] == c[2] == s[i + 2]; }
    if n > 3 { assert t[j + 3] == c[3] == s[i + 3]; }
  }

  /** Well-formed text can be embedded anywhere: its characters, their number
      and its boundaries are unaffected by what surrounds it. */
  lemma {:induction false} Embedded(a: Line, s: Line, b: Line, i: nat)
    requires i <= |s| && WellFormedFrom(s, i)
    ensures WellFormedFrom(b, 0) ==> WellFormedFrom(a + s + b, |a| + i)
    ensures CountFrom(a + s + b, |a| + i) == CountFrom(s, i) + CountFrom(a + s + b, |a| + |s|)
    ensures Reaches(a + s + b, |a| + i, |a| + |s|)
    ensures forall x: nat | i <= x <= |s| ::
              Reaches(s, i, x) <==> Reaches(a + s + b, |a| + i, |a| + x)
    decreases |s| - i
  {
    var t := a + s + b;
    if i == |s| {
      if WellFormedFrom(b, 0) {
        Suffixed(a + s, b, 0);
      }
    } else {
      assert t[|a| + i..|a| + StepRight(s, i)] == s[i..StepRight(s, i)];
      CharLocal(s, i, t, |a| + i);
      Embedded(a, s, b, StepRight(s, i));
      hide CharLength, MbToWide;
    }
  }

  lemma CharShifted(a: Line, b: Line, i: nat)
    requires i < |b|
    ensures CharLength(a + b, |a| + i) == CharLength(b, i)
    ensures MbToWide(a + b, |a| + i) == MbToWide(b, i)
  {
    var s := a + b;
    assert At(s, |a| + i) == At(b, i) && At(s, |a| + i + 1) == At(b, i + 1);
    assert At(s, |a| + i + 2) == At(b, i + 2) && At(s, |a| + i + 3) == At(b, i + 3);
  }

  /** What follows a position decides the walk from it. */
  lemma {:induction false} Suffixed(a: Line, b: Line, i: nat)
    requires i <= |b|
    ensures WellFormedFrom(a + b, |a| + i) <==> WellFormedFrom(b, i)
    ensures CountFrom(a + b, |a| + i) == CountFrom(b, i)
    ensures forall x: nat | i <= x <= |b| :: Reaches(b, i, x) <==> Reaches(a + b, |a| + i, |a| + x)
    decreases |b| - i
  {
    if i < |b| {
      CharShifted(a, b, i);
      Suffixed(a, b, StepRight(b, i));
    }
  }

  /** Joining well-formed lines keeps them well formed, adds their character
      counts, and keeps the boundaries of both. */
  lemma Concatenated(a: Line, b: Line)
    requires WellFormed(a) && WellFormed(b)
    ensures WellFormed(a + b)
    ensures Count(a + b) == Count(a) + Count(b)
    ensures Boundary(a + b, |a|)
    ensures forall x: nat | x <= |a| :: Boundary(a + b, x) <==> Boundary(a, x)
    ensures forall x: nat | x <= |b| :: Boundary(a + b, |a| + x) <==> Boundary(b, x)
  {
    assert [] + a + b == a + b;
    Embedded([], a, b, 0);
    Suffixed(a, b, 0);
    hide CharLength, MbToWide, WellFormedFrom;
    forall x: nat | x <= |b|
      ensures Boundary(a + b, |a| + x) <==> Boundary(b, x)
    {
      if Reaches(a + b, |a|, |a| + x) {
        ReachesTransitive(a + b, 0, |a|, |a| + x);
      }
      if Boundary(a + b, |a| + x) {
        ReachesLinear(a + b, 0, |a|, |a| + x);
      }
    }
  }

  /** A well-formed line splits at a boundary into two well-formed lines. */
  lemma {:induction false} SplitFrom(s: Line, i: nat, x: nat)
    requires i <= x <= |s| && WellFormedFrom(s, i) && Reaches(s, i, x)
    ensures WellFormedFrom(s[..x], i) && WellFormedFrom(s, x)
    ensures CountFrom(s, i) == CountFrom(s[..x], i) + CountFrom(s, x)
    decreases x - i
  {
    if i < x {
      ReachesForward(s, StepRight(s, i), x);
      assert s[..x][i..StepRight(s, i)] == s[i..StepRight(s, i)];
      CharLocal(s, i, s[..x], i);
      SplitFrom(s, StepRight(s, i), x);
    }
  }

  lemma Split(s: Line, x: nat)
    requires WellFormed(s) && Boundary(s, x)
    ensures WellFormed(s[..x]) && WellFormed(s[x..])
    ensures Count(s) == Count(s[..x]) + Count(s[x..])
  {
    SplitFrom(s, 0, x);
    assert s[..x] + s[x..] == s;
    Suffixed(s[..x], s[x..], 0);
  }

  /** A well-formed line has at each boundary a whole character. */
  lemma {:induction false} CharAtFrom(s: Line, i: nat, x: nat)
    requires i <= x < |s| && WellFormedFrom(s, i) && Reaches(s, i, x)
    ensures MbToWide(s, x).Wide? && CharLength(s, x) == MbToWide(s, x).length
    decreases x - i
  {
    if i < x {
      ReachesForward(s, StepRight(s, i), x);
      CharAtFrom(s, StepRight(s, i), x);
    }
  }
}

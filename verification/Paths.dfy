/** How the shell finds out which path is meant (resolve_path in apps/shell/src/main.rs). */
module Paths {

  const ROOT := "@0xE0"

  /** White_Space of the Unicode standard. */
  predicate IsBlank(c: char) {
    || '\t' <= c <= '\r' || c == ' ' || c == '\U{85}' || c == '\U{A0}' || c == '\U{1680}'
    || '\U{2000}' <= c <= '\U{200A}' || c == '\U{2028}' || c == '\U{2029}' || c == '\U{202F}'
    || c == '\U{205F}' || c == '\U{3000}'
  }

  /** trim of the standard library. */
  function Trim(s: string): string {
    if s != "" && IsBlank(s[0]) then Trim(s[1..])
    else if s != "" && IsBlank(s[|s| - 1]) then Trim(s[..|s| - 1])
    else s
  }

  /** split('/') of the standard library. */
  function Split(s: string): (parts: seq<string>)
    ensures |parts| > 0
  {
    if s == "" then [""]
    else if s[0] == '/' then [""] + Split(s[1..])
    else
      var rest := Split(s[1..]);
      [[s[0]] + rest[0]] + rest[1..]
  }

  /** The components of a path: its parts that are not empty. */
  function Components(parts: seq<string>): (c: seq<string>)
    ensures forall k | 0 <= k < |c| :: c[k] != "" && c[k] in parts
  {
    if parts == [] then []
    else (if parts[0] == "" then [] else [parts[0]]) + Components(parts[1..])
  }

  /** One part after another: up, nowhere, or down. */
  function Walk(at: seq<string>, parts: seq<string>): seq<string>
    decreases |parts|
  {
    if parts == [] then at
    else Walk(Moved(at, parts[0]), parts[1..])
  }

  function Moved(at: seq<string>, part: string): seq<string> {
    if part == "" || part == "." then at
    else if part == ".." then (if |at| > 1 then at[..|at| - 1] else at)
    else at + [part]
  }

  function Join(parts: seq<string>): string
    requires parts != []
  {
    if |parts| == 1 then parts[0] else parts[0] + ("/" + Join(parts[1..]))
  }

  function Start(cwd: string, path: string): seq<string> {
    if path != "" && path[0] == '@' then [] else Components(Split(cwd))
  }

  function Resolved(cwd: string, path: string): string {
    var trimmed := Trim(path);
    if trimmed == "" then cwd
    else
      var parts := Walk(Start(cwd, trimmed), Split(trimmed));
      if parts == [] then ROOT else Join(parts)
  }

  method ResolvePath(cwd: string, path: string) returns (res: string)
    ensures res == Resolved(cwd, path)
  {
    hide *;
    var trimmed := Trim(path);
    Unfolded(cwd, path);
    if trimmed == "" {
      return cwd;
    }
    var parts: seq<string> := [];
    if trimmed[0] != '@' {
      var all := Split(cwd);
      NoParts(all);
      for i := 0 to |all|
        invariant parts + Components(all[i..]) == Components(all)
      {
        NextPart(all, i, parts);
        if all[i] != "" {
          parts := parts + [all[i]];
        }
      }
      EndOfParts(all, parts);
    }
    var all := Split(trimmed);
    ghost var start := parts;
    NoSteps(parts, all);
    for i := 0 to |all|
      invariant Walk(parts, all[i..]) == Walk(start, all)
    {
      NextStep(all, i, parts);
      var part := all[i];
      if part == "" || part == "." {
        continue;
      } else if part == ".." {
        if |parts| > 1 {
          parts := parts[..|parts| - 1];
        }
      } else {
        parts := parts + [part];
      }
    }
    EndOfSteps(all, parts);
    if parts == [] {
      return ROOT;
    }
    res := "";
    for i := 0 to |parts|
      invariant i == 0 ==> res == ""
      invariant i > 0 ==> res == Join(parts[..i])
    {
      JoinNext(parts, i);
      if i > 0 {
        res := res + "/";
      }
      res := res + parts[i];
    }
    assert parts[..|parts|] == parts;
  }

  lemma Unfolded(cwd: string, path: string)
    ensures var trimmed := Trim(path);
            Resolved(cwd, path) == if trimmed == "" then cwd else
              var parts := Walk(if trimmed[0] == '@' then [] else Components(Split(cwd)), Split(trimmed));
              if parts == [] then ROOT else Join(parts)
  {
  }

  lemma NoParts(all: seq<string>)
    ensures [] + Components(all[0..]) == Components(all)
  {
    assert all[0..] == all;
  }

  lemma NextPart(all: seq<string>, i: nat, parts: seq<string>)
    requires i < |all|
    ensures parts + Components(all[i..])
         == (if all[i] == "" then parts else parts + [all[i]]) + Components(all[i + 1..])
  {
    assert all[i..][1..] == all[i + 1..];
  }

  lemma EndOfParts(all: seq<string>, parts: seq<string>)
    ensures parts + Components(all[|all|..]) == parts
  {
  }

  lemma NoSteps(parts: seq<string>, all: seq<string>)
    ensures Walk(parts, all[0..]) == Walk(parts, all)
  {
    assert all[0..] == all;
  }

  lemma NextStep(all: seq<string>, i: nat, parts: seq<string>)
    requires i < |all|
    ensures Walk(parts, all[i..]) == Walk(Moved(parts, all[i]), all[i + 1..])
    ensures Moved(parts, all[i]) == if all[i] == "" || all[i] == "." then parts
                                    else if all[i] == ".." then (if |parts| > 1 then parts[..|parts| - 1] else parts)
                                    else parts + [all[i]]
  {
    assert all[i..][1..] == all[i + 1..];
  }

  lemma EndOfSteps(all: seq<string>, parts: seq<string>)
    ensures Walk(parts, all[|all|..]) == parts
  {
  }

  lemma JoinNext(parts: seq<string>, i: nat)
    requires i < |parts|
    ensures i == 0 ==> Join(parts[..1]) == "" + parts[0]
    ensures i > 0 ==> Join(parts[..i + 1]) == (Join(parts[..i]) + "/") + parts[i]
  {
    if i > 0 {
      JoinOneMore(parts[..i], parts[i]);
      assert parts[..i + 1] == parts[..i] + [parts[i]];
    }
  }

  lemma {:induction false} JoinOneMore(parts: seq<string>, last: string)
    requires parts != []
    ensures Join(parts + [last]) == (Join(parts) + "/") + last
  {
    var more := parts + [last];
    if |parts| == 1 {
      assert more[1..] == [last];
    } else {
      JoinOneMore(parts[1..], last);
      assert more[1..] == parts[1..] + [last];
    }
  }

  // ---------------------------------------------------------------------------
  // Composition
  // ---------------------------------------------------------------------------

  predicate Trimmed(s: string) {
    s != "" && !IsBlank(s[0]) && !IsBlank(s[|s| - 1])
  }

  /** A part that says where to go. */
  predicate Plain(part: string) {
    part != "" && part != "." && part != ".."
  }

  /** The directory has a component, or the path names one. */
  predicate Leads(cwd: string, path: string) {
    Components(Split(cwd)) != [] || exists k | 0 <= k < |Split(path)| :: Plain(Split(path)[k])
  }

  predicate Composed(cwd: string, a: string, b: string) {
    Resolved(Resolved(cwd, a), b) == Resolved(cwd, a + ("/" + b))
  }

  /** Going along a and then along b is going along a/b, if a leads somewhere. */
  lemma Composes(cwd: string, a: string, b: string)
    requires Trimmed(a) && Trimmed(b) && b[0] != '@' && Leads(cwd, a)
    ensures Composed(cwd, a, b)
  {
    hide Walk, Join, Split, Components, ROOT;
    var ab := a + ("/" + b);
    assert ab[0] == a[0] && ab[|ab| - 1] == b[|b| - 1];
    SplitAt(a, b);
    WalkOn(Start(cwd, a), Split(a), Split(b));
    var parts := Walk(Start(cwd, a), Split(a));
    EmptyOrNot(cwd, a);
    WalkComponents(cwd, a);
    JoinedAgain(parts);
  }

  /** If it does not, the root comes in between: the second step starts from there,
      while a/b starts from nothing. */
  lemma DoesNotCompose(cwd: string, a: string)
    requires Trimmed(a) && !Leads(cwd, a)
    ensures !Composed(cwd, a, "x")
  {
    hide Walk, Join, Split, Trim, Components;
    EmptyOrNot(cwd, a);
    SplitOne("x");
    SplitOne(ROOT);
    SplitAt(a, "x");
    WalkOn(Start(cwd, a), Split(a), ["x"]);
    Short();
    var ax := a + ("/" + "x");
    assert ax[0] == a[0] && ax[|ax| - 1] == 'x';
    assert Trimmed("x") && Trimmed(ax);
    NothingToTrim(a);
    NothingToTrim("x");
    NothingToTrim(ax);
    assert Resolved(cwd, a) == ROOT;
    assert Resolved(ROOT, "x") == "@0xE0/x";
    assert Resolved(cwd, ax) == "x";
  }

  /** So that is exactly when every further path can be joined to it. */
  lemma ComposesExactly(cwd: string, a: string)
    requires Trimmed(a)
    ensures (forall b | Trimmed(b) && b[0] != '@' :: Composed(cwd, a, b)) <==> Leads(cwd, a)
  {
    hide Resolved, Leads, Composed;
    if Leads(cwd, a) {
      forall b | Trimmed(b) && b[0] != '@'
        ensures Composed(cwd, a, b)
      {
        Composes(cwd, a, b);
      }
    } else {
      DoesNotCompose(cwd, a);
      assert Trimmed("x") && "x"[0] != '@';
    }
  }

  lemma NothingToTrim(s: string)
    requires Trimmed(s)
    ensures Trim(s) == s
  {
  }

  lemma Short()
    ensures Walk([ROOT], ["x"]) == [ROOT, "x"] && Walk([], ["x"]) == ["x"]
    ensures Join([ROOT, "x"]) == "@0xE0/x" && Join(["x"]) == "x"
    ensures Components([ROOT]) == [ROOT]
  {
    assert [ROOT][1..] == [] && ["x"][1..] == [] && [ROOT, "x"][1..] == ["x"];
  }

  /** The volume stays, however many parts lead up. */
  lemma VolumeStays(cwd: string, path: string)
    requires Components(Split(cwd)) != [] && (Trim(path) == "" || Trim(path)[0] != '@')
    ensures var c := Components(Split(Resolved(cwd, path))); c != [] && c[0] == Components(Split(cwd))[0]
  {
    hide Walk, Join, Split, Components;
    if Trim(path) != "" {
      FirstStays(Components(Split(cwd)), Split(Trim(path)));
      WalkComponents(cwd, Trim(path));
      JoinedAgain(Walk(Components(Split(cwd)), Split(Trim(path))));
    }
  }

  /** A component: not empty, and in one piece. */
  predicate Whole(parts: seq<string>) {
    forall k | 0 <= k < |parts| :: parts[k] != "" && '/' !in parts[k]
  }

  lemma Glued(x: seq<string>, y: seq<string>, c: char)
    requires x != []
    ensures [""] + (x + y) == ([""] + x) + y
    ensures [[c] + (x + y)[0]] + (x + y)[1..] == ([[c] + x[0]] + x[1..]) + y
  {
  }

  lemma {:induction false} SplitAt(a: string, b: string)
    ensures Split(a + ("/" + b)) == Split(a) + Split(b)
  {
    var ab := a + ("/" + b);
    if a == "" {
      assert ab[1..] == b;
    } else {
      SplitAt(a[1..], b);
      assert ab[1..] == a[1..] + ("/" + b) && ab[0] == a[0];
      Glued(Split(a[1..]), Split(b), a[0]);
    }
  }

  lemma {:induction false} WalkOn(at: seq<string>, a: seq<string>, b: seq<string>)
    ensures Walk(at, a + b) == Walk(Walk(at, a), b)
    decreases |a|
  {
    if a == [] {
      assert a + b == b;
    } else {
      WalkOn(Moved(at, a[0]), a[1..], b);
      assert (a + b)[1..] == a[1..] + b;
    }
  }

  lemma {:induction false} FirstStays(at: seq<string>, parts: seq<string>)
    requires at != []
    ensures Walk(at, parts) != [] && Walk(at, parts)[0] == at[0]
    decreases |parts|
  {
    if parts != [] {
      FirstStays(Moved(at, parts[0]), parts[1..]);
    }
  }

  lemma {:induction false} WalkEmpty(at: seq<string>, parts: seq<string>)
    ensures Walk(at, parts) == [] <==> at == [] && forall k | 0 <= k < |parts| :: !Plain(parts[k])
    decreases |parts|
  {
    if parts != [] {
      WalkEmpty(Moved(at, parts[0]), parts[1..]);
      assert forall k | 1 <= k < |parts| :: parts[k] == parts[1..][k - 1];
      if Moved(at, parts[0]) == [] {
        assert (forall k | 0 <= k < |parts[1..]| :: !Plain(parts[1..][k])) ==>
                 forall k | 1 <= k < |parts| :: !Plain(parts[k]);
      }
    }
  }

  lemma EmptyOrNot(cwd: string, a: string)
    requires a != ""
    ensures Walk(Start(cwd, a), Split(a)) != [] <==> Leads(cwd, a)
  {
    hide Walk;
    WalkEmpty(Start(cwd, a), Split(a));
    if a[0] == '@' {
      assert Split(a)[0][0] == '@' && Plain(Split(a)[0]);
    }
  }

  lemma {:induction false} SplitWhole(s: string)
    ensures forall k | 0 <= k < |Split(s)| :: '/' !in Split(s)[k]
  {
    if s != "" {
      SplitWhole(s[1..]);
    }
  }

  lemma {:induction false} WalkWhole(at: seq<string>, parts: seq<string>)
    requires Whole(at) && forall k | 0 <= k < |parts| :: '/' !in parts[k]
    ensures Whole(Walk(at, parts))
    decreases |parts|
  {
    if parts != [] {
      WalkWhole(Moved(at, parts[0]), parts[1..]);
    }
  }

  lemma WalkComponents(cwd: string, path: string)
    ensures Whole(Walk(Start(cwd, path), Split(path))) && Whole(Components(Split(cwd)))
  {
    hide Walk, Split, Components;
    SplitWhole(cwd);
    SplitWhole(path);
    WalkWhole(Start(cwd, path), Split(path));
  }

  /** Joining and splitting gives the components back. */
  lemma {:induction false} JoinedAgain(parts: seq<string>)
    requires parts != [] && Whole(parts)
    ensures Split(Join(parts)) == parts && Components(parts) == parts
  {
    hide Split;
    if |parts| == 1 {
      SplitOne(parts[0]);
    } else {
      JoinedAgain(parts[1..]);
      SplitAt(parts[0], Join(parts[1..]));
      SplitOne(parts[0]);
      assert [parts[0]] + parts[1..] == parts;
    }
  }

  lemma {:induction false} SplitOne(s: string)
    requires '/' !in s
    ensures Split(s) == [s]
  {
    if s != "" {
      assert s[0] in s;
      SplitOne(s[1..]);
      assert [s[0]] + s[1..] == s;
    }
  }

  // ---------------------------------------------------------------------------
  // Normal form
  // ---------------------------------------------------------------------------

  /** A path from a volume, with no part that is empty or leads up or nowhere. */
  predicate Normal(s: string) {
    s != "" && s[0] == '@' && forall k | 0 <= k < |Split(s)| :: Plain(Split(s)[k])
  }

  /** Whatever is typed, the directory the shell is in stays in normal form. */
  lemma StaysNormal(cwd: string, path: string)
    requires Normal(cwd)
    ensures Normal(Resolved(cwd, path))
  {
    hide Walk, Join, Split, Components, Plain;
    var t := Trim(path);
    if t != "" {
      var start := Start(cwd, t);
      FromVolume(cwd, t);
      WalkPlain(start, Split(t));
      WalkComponents(cwd, t);
      JoinedAgain(Walk(start, Split(t)));
      JoinStart(Walk(start, Split(t)));
    }
  }

  /** The walk starts at the volume of the directory, or of the path itself. */
  lemma FromVolume(cwd: string, path: string)
    requires Normal(cwd) && path != ""
    ensures Components(Split(cwd)) == Split(cwd) && Split(cwd)[0] != "" && Split(cwd)[0][0] == '@'
    ensures var start := Start(cwd, path);
            && (forall k | 0 <= k < |start| :: Plain(start[k]))
            && var all := Walk(start, Split(path)); all != [] && all[0] != "" && all[0][0] == '@'
  {
    AllComponents(Split(cwd));
    var start := Start(cwd, path);
    if path[0] == '@' {
      var parts := Split(path);
      assert parts[0][0] == '@';
      FirstStays(Moved([], parts[0]), parts[1..]);
    } else {
      FirstStays(start, Split(path));
    }
  }

  lemma {:induction false} AllComponents(parts: seq<string>)
    requires forall k | 0 <= k < |parts| :: Plain(parts[k])
    ensures Components(parts) == parts
  {
    if parts != [] {
      assert Plain(parts[0]);
      AllComponents(parts[1..]);
      assert [parts[0]] + parts[1..] == parts;
    }
  }

  lemma {:induction false} WalkPlain(at: seq<string>, parts: seq<string>)
    requires forall k | 0 <= k < |at| :: Plain(at[k])
    ensures forall k | 0 <= k < |Walk(at, parts)| :: Plain(Walk(at, parts)[k])
    decreases |parts|
  {
    if parts != [] {
      WalkPlain(Moved(at, parts[0]), parts[1..]);
    }
  }

  lemma JoinStart(parts: seq<string>)
    requires parts != [] && parts[0] != ""
    ensures Join(parts) != "" && Join(parts)[0] == parts[0][0]
  {
  }

  /** A path in normal form is what it says, from any directory. */
  lemma NormalIsResolved(cwd: string, path: string)
    requires Normal(path) && Trimmed(path)
    ensures Resolved(cwd, path) == path
  {
    hide Walk, Join, Split, Plain;
    WalkAlong([], Split(path));
    assert [] + Split(path) == Split(path);
    SplitJoined(path);
  }

  lemma {:induction false} WalkAlong(at: seq<string>, parts: seq<string>)
    requires forall k | 0 <= k < |parts| :: Plain(parts[k])
    ensures Walk(at, parts) == at + parts
    decreases |parts|
  {
    if parts != [] {
      assert Plain(parts[0]);
      WalkAlong(at + [parts[0]], parts[1..]);
      assert (at + [parts[0]]) + parts[1..] == at + parts;
    }
  }

  lemma {:induction false} SplitJoined(s: string)
    ensures Join(Split(s)) == s
  {
    if s != "" {
      SplitJoined(s[1..]);
      var rest := Split(s[1..]);
      if s[0] == '/' {
        assert ([""] + rest)[1..] == rest;
      } else {
        LongerFirst(s[0], rest);
      }
      assert [s[0]] + s[1..] == s;
    }
  }

  lemma LongerFirst(c: char, parts: seq<string>)
    requires parts != []
    ensures Join([[c] + parts[0]] + parts[1..]) == [c] + Join(parts)
  {
    var longer := [[c] + parts[0]] + parts[1..];
    if |parts| > 1 {
      assert longer[1..] == parts[1..];
      assert ([c] + parts[0]) + ("/" + Join(parts[1..])) == [c] + (parts[0] + ("/" + Join(parts[1..])));
    }
  }

  // ---------------------------------------------------------------------------
  // Single steps
  // ---------------------------------------------------------------------------

  predicate Blanks(s: string) {
    forall c | c in s :: IsBlank(c)
  }

  /** Trimming takes off blanks at both ends, until there are none. */
  lemma {:induction false} TrimIs(s: string) returns (a: string, b: string)
    ensures s == a + Trim(s) + b && Blanks(a) && Blanks(b)
    ensures Trim(s) == "" || Trimmed(Trim(s))
    decreases |s|
  {
    if s != "" && IsBlank(s[0]) {
      a, b := TrimIs(s[1..]);
      a := [s[0]] + a;
      assert s == [s[0]] + s[1..];
    } else if s != "" && IsBlank(s[|s| - 1]) {
      a, b := TrimIs(s[..|s| - 1]);
      b := b + [s[|s| - 1]];
      assert s == s[..|s| - 1] + [s[|s| - 1]];
    } else {
      a, b := "", "";
    }
  }

  /** And nothing else: what is between blanks stays. */
  lemma {:induction false} TrimsBlanks(a: string, s: string, b: string)
    requires Blanks(a) && Blanks(b) && (s == "" || Trimmed(s))
    ensures Trim(a + s + b) == s
    decreases |a| + |b|
  {
    var whole := a + s + b;
    if a != "" {
      assert whole[0] == a[0] && a[0] in a && whole[1..] == a[1..] + s + b;
      TrimsBlanks(a[1..], s, b);
    } else if b != "" {
      var last := |b| - 1;
      assert whole[|whole| - 1] == b[last] && b[last] in b;
      if s == "" {
        assert whole == b && b[0] in b && whole[1..] == a + s + b[1..];
        TrimsBlanks(a, s, b[1..]);
      } else {
        assert whole[..|whole| - 1] == a + s + b[..last] && whole[0] == s[0];
        TrimsBlanks(a, s, b[..last]);
      }
    } else {
      assert whole == s;
    }
  }

  /** A path of blanks leads nowhere, and blanks around a path make no difference. */
  lemma BlanksDoNotMatter(cwd: string, a: string, path: string, b: string)
    requires Blanks(a) && Blanks(b) && (path == "" || Trimmed(path))
    ensures Resolved(cwd, a + path + b) == if path == "" then cwd else Resolved(cwd, path)
  {
    hide Walk, Join, Split, Components, Trim;
    TrimsBlanks(a, path, b);
    TrimsBlanks("", path, "");
    assert "" + path + "" == path;
  }

  /** From a directory in normal form, a name goes down to what has that name; `..` from
      there comes back; `..` from the volume and `.` stay. */
  lemma DownAndUp(cwd: string, name: string)
    requires Normal(cwd)
    requires Trimmed(name) && Plain(name) && '/' !in name && name[0] != '@'
    ensures Resolved(cwd, name) == cwd + ("/" + name)
    ensures Resolved(cwd + ("/" + name), "..") == cwd
    ensures Resolved(cwd, ".") == cwd
    ensures '/' !in cwd ==> Resolved(cwd, "..") == cwd
  {
    hide Walk, Split, Components, Trim, Join;
    var parts := Split(cwd);
    var down := cwd + ("/" + name);
    AllComponents(parts);
    SplitJoined(cwd);
    SplitOne(name);
    SplitAt(cwd, name);
    SplitJoined(down);
    AllComponents(parts + [name]);
    Dots();
    NothingToTrim(name);
    OneStep(parts, name);
    OneStep(parts, ".");
    OneStep(parts, "..");
    OneStep(parts + [name], "..");
    if '/' !in cwd {
      SplitOne(cwd);
    }
  }

  lemma Dots()
    ensures Trim(".") == "." && Trim("..") == ".." && Split(".") == ["."] && Split("..") == [".."]
  {
    SplitOne(".");
    SplitOne("..");
  }

  lemma OneStep(at: seq<string>, part: string)
    ensures Walk(at, [part]) == Moved(at, part)
    ensures Plain(part) ==> Moved(at, part) == at + [part]
    ensures Moved(at, ".") == at
    ensures |at| == 1 ==> Moved(at, "..") == at
    ensures |at| > 1 ==> Moved(at, "..") == at[..|at| - 1]
  {
    assert [part][1..] == [];
  }
}

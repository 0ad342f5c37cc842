/** The spin lock of the standard library of programs and kernel alike (sync.rs), as
    steps of processors that interrupts may come between: which guards are live,
    which locks are set, and when a processor may be interrupted. */
module Mutex {

  /** A guard that is live: the lock it stands for and, when it was taken by int_lock,
      whether interrupts were enabled before (bit 0x200 of the saved flags). */
  datatype Guard = Plain(lock: nat) | Masked(lock: nat, saved: bool)

  /** Where a context is in taking or dropping a lock. */
  datatype Phase =
    | Idle
    | Waiting(lock: nat)                      // lock: spinning
    | Saved(lock: nat, flag: bool)            // int_lock: the flags are read
    | MaskedWaiting(lock: nat, flag: bool)    // int_lock: cli is done, spinning
    | Released(flag: bool)                    // drop: the lock is stored, sti is not done

  datatype Context = Context(phase: Phase, guards: seq<Guard>)

  /** The last of the contexts is the running one, the others wait for the one that
      interrupted them to return. */
  datatype Cpu = Cpu(contexts: seq<Context>, enabled: bool)

  datatype State = State(cpus: seq<Cpu>, locks: set<nat>)

  datatype Action =
    | Interrupt                  // the processor takes an interrupt
    | Return                     // the handler is done
    | Sti                        // other code enables interrupts
    | Cli
    | Lock(lock: nat)            // lock is called
    | Save(lock: nat)            // int_lock is called and saves the flags
    | Mask                       // int_lock disables interrupts
    | Try                        // one compare_exchange
    | Drop(k: nat)               // a guard is dropped: the lock is stored
    | Restore                    // the guard's drop enables interrupts, or not

  datatype Step = Step(cpu: nat, action: Action)

  // ---------------------------------------------------------------------------
  // What the steps do
  // ---------------------------------------------------------------------------

  function Top(c: Cpu): Context
    requires c.contexts != []
  {
    c.contexts[|c.contexts| - 1]
  }

  function WithTop(c: Cpu, top: Context): Cpu
    requires c.contexts != []
  {
    c.(contexts := c.contexts[|c.contexts| - 1 := top])
  }

  predicate HasMasked(c: Context) {
    exists k | 0 <= k < |c.guards| :: c.guards[k].Masked?
  }

  /** What a processor can do.  Handlers drop their guards before they return, and
      other code leaves the interrupt flag alone while it holds masking guards. */
  predicate CanDo(c: Cpu, a: Action) {
    && c.contexts != []
    && var (phase, guards) := (Top(c).phase, Top(c).guards);
       match a
       case Interrupt => c.enabled
       case Return => |c.contexts| > 1 && phase.Idle? && guards == []
       case Sti | Cli => phase.Idle? && !HasMasked(Top(c))
       case Lock(_) | Save(_) => phase.Idle?
       case Mask => phase.Saved?
       case Try => phase.Waiting? || phase.MaskedWaiting?
       case Drop(k) => phase.Idle? && k < |guards|
       case Restore => phase.Released?
  }

  function Without(guards: seq<Guard>, k: nat): seq<Guard>
    requires k < |guards|
  {
    guards[..k] + guards[k + 1..]
  }

  /** The processor after an action, when the given locks are set. */
  function Acted(c: Cpu, a: Action, locks: set<nat>): Cpu
    requires CanDo(c, a)
  {
    var top := Top(c);
    match a
    case Interrupt => Cpu(c.contexts + [Context(Idle, [])], false)
    case Return => Cpu(c.contexts[..|c.contexts| - 1], true)
    case Sti => c.(enabled := true)
    case Cli => c.(enabled := false)
    case Lock(m) => WithTop(c, top.(phase := Waiting(m)))
    case Save(m) => WithTop(c, top.(phase := Phase.Saved(m, c.enabled)))
    case Mask => WithTop(c, top.(phase := MaskedWaiting(top.phase.lock, top.phase.flag))).(enabled := false)
    case Try =>
      if top.phase.lock in locks then c
      else WithTop(c, Context(Idle, top.guards + [if top.phase.Waiting? then Plain(top.phase.lock)
                                                  else Masked(top.phase.lock, top.phase.flag)]))
    case Drop(k) =>
      WithTop(c, Context(if top.guards[k].Masked? then Released(top.guards[k].saved) else Idle, Without(top.guards, k)))
    case Restore => WithTop(c, top.(phase := Idle)).(enabled := c.enabled || top.phase.flag)
  }

  function LocksAfter(c: Cpu, a: Action, locks: set<nat>): set<nat>
    requires CanDo(c, a)
  {
    if a.Try? then locks + {Top(c).phase.lock}
    else if a.Drop? then locks - {Top(c).guards[a.k].lock}
    else locks
  }

  predicate Enabled(s: State, step: Step) {
    step.cpu < |s.cpus| && CanDo(s.cpus[step.cpu], step.action)
  }

  function Next(s: State, step: Step): State
    requires Enabled(s, step)
  {
    var c := s.cpus[step.cpu];
    State(s.cpus[step.cpu := Acted(c, step.action, s.locks)], LocksAfter(c, step.action, s.locks))
  }

  predicate Possible(s: State, steps: seq<Step>)
    decreases |steps|
  {
    steps == [] || (Enabled(s, steps[0]) && Possible(Next(s, steps[0]), steps[1..]))
  }

  function After(s: State, steps: seq<Step>): State
    requires Possible(s, steps)
    decreases |steps|
  {
    if steps == [] then s else After(Next(s, steps[0]), steps[1..])
  }

  function Boot(cpus: nat): State {
    State(seq(cpus, i => Cpu([Context(Idle, [])], true)), {})
  }

  // ---------------------------------------------------------------------------
  // One live guard for every lock that is set
  // ---------------------------------------------------------------------------

  function LocksOf(guards: seq<Guard>): multiset<nat> {
    if guards == [] then multiset{} else multiset{guards[0].lock} + LocksOf(guards[1..])
  }

  function HeldBy(contexts: seq<Context>): multiset<nat> {
    if contexts == [] then multiset{} else LocksOf(contexts[0].guards) + HeldBy(contexts[1..])
  }

  /** The locks of all live guards. */
  function Held(cpus: seq<Cpu>): multiset<nat> {
    if cpus == [] then multiset{} else HeldBy(cpus[0].contexts) + Held(cpus[1..])
  }

  /** On any processors, however interrupts come and locks are taken and dropped: a
      lock is set exactly when one guard of it is live, and never are two. */
  lemma {:induction false} OneGuardForEachLock(cpus: nat, steps: seq<Step>)
    requires Possible(Boot(cpus), steps)
    ensures var s := After(Boot(cpus), steps); Held(s.cpus) == multiset(s.locks)
  {
    NothingHeld(Boot(cpus).cpus);
    HeldKept(Boot(cpus), steps);
  }

  lemma {:induction false} NothingHeld(cpus: seq<Cpu>)
    requires forall i | 0 <= i < |cpus| :: cpus[i].contexts == [Context(Idle, [])]
    ensures Held(cpus) == multiset{}
  {
    if cpus != [] {
      assert HeldBy([Context(Idle, [])]) == multiset{};
      NothingHeld(cpus[1..]);
    }
  }

  lemma {:induction false} HeldKept(s: State, steps: seq<Step>)
    requires Held(s.cpus) == multiset(s.locks) && Possible(s, steps)
    ensures Held(After(s, steps).cpus) == multiset(After(s, steps).locks)
    decreases |steps|
  {
    if steps != [] {
      StepKeepsHeld(s, steps[0]);
      HeldKept(Next(s, steps[0]), steps[1..]);
    }
  }

  lemma StepKeepsHeld(s: State, step: Step)
    requires Held(s.cpus) == multiset(s.locks) && Enabled(s, step)
    ensures Held(Next(s, step).cpus) == multiset(Next(s, step).locks)
  {
    hide HeldBy, Held, CanDo, Acted;
    var c := s.cpus[step.cpu];
    var c' := Acted(c, step.action, s.locks);
    HeldUpdated(s.cpus, step.cpu, c');
    ActedHeld(c, step.action, s.locks);
  }

  lemma {:induction false} HeldUpdated(cpus: seq<Cpu>, i: nat, c: Cpu)
    requires i < |cpus|
    ensures HeldBy(cpus[i].contexts) <= Held(cpus)
    ensures Held(cpus[i := c]) == Held(cpus) - HeldBy(cpus[i].contexts) + HeldBy(c.contexts)
  {
    hide HeldBy;
    var (was, now) := (HeldBy(cpus[i].contexts), HeldBy(c.contexts));
    HeldFirst(cpus);
    HeldFirst(cpus[i := c]);
    hide Held;
    if i > 0 {
      HeldUpdated(cpus[1..], i - 1, c);
      assert cpus[i := c][1..] == cpus[1..][i - 1 := c];
      Regroup(HeldBy(cpus[0].contexts), Held(cpus[1..]), was, now);
    } else {
      assert cpus[0 := c][1..] == cpus[1..];
      Replaced(was, Held(cpus[1..]), now);
    }
  }

  lemma HeldFirst(cpus: seq<Cpu>)
    requires cpus != []
    ensures Held(cpus) == HeldBy(cpus[0].contexts) + Held(cpus[1..])
  {
  }

  lemma Replaced(was: multiset<nat>, rest: multiset<nat>, now: multiset<nat>)
    ensures was <= was + rest && (was + rest) - was + now == now + rest
  {
  }

  lemma Regroup(a: multiset<nat>, b: multiset<nat>, was: multiset<nat>, now: multiset<nat>)
    requires was <= b
    ensures was <= a + b && (a + b) - was + now == a + (b - was + now)
  {
  }

  /** What an action does to the guards of its processor, it does to the locks. */
  lemma ActedHeld(c: Cpu, a: Action, locks: set<nat>)
    requires CanDo(c, a)
    ensures Follows(HeldBy(c.contexts), HeldBy(Acted(c, a, locks).contexts), locks, LocksAfter(c, a, locks))
  {
    hide LocksOf, HeldBy, Follows;
    var c' := Acted(c, a, locks);
    match a
    case Interrupt => SameHeld(c, c', locks);
    case Return =>
      SameHeld(c', c, locks);
      Same(HeldBy(c.contexts), locks);
    case Try => TryHeld(c, locks);
    case Drop(k) => DropHeld(c, k, locks);
    case _ =>
      Untouched(c, a, locks);
      hide *;
      GuardsHeld(c, c', locks);
  }

  lemma Untouched(c: Cpu, a: Action, locks: set<nat>)
    requires CanDo(c, a) && !a.Interrupt? && !a.Return? && !a.Try? && !a.Drop?
    ensures var c' := Acted(c, a, locks);
            && c.contexts != [] && c'.contexts != [] && Below(c') == Below(c) && Top(c').guards == Top(c).guards
            && LocksAfter(c, a, locks) == locks
  {
  }

  /** The contexts below the running one. */
  function Below(c: Cpu): seq<Context>
    requires c.contexts != []
  {
    c.contexts[..|c.contexts| - 1]
  }

  lemma Parts(c: Cpu)
    requires c.contexts != []
    ensures HeldBy(c.contexts) == HeldBy(Below(c)) + LocksOf(Top(c).guards)
    ensures forall t: Context :: Below(WithTop(c, t)) == Below(c) && Top(WithTop(c, t)) == t
  {
    assert c.contexts == Below(c) + [Top(c)];
    HeldByTop(Below(c), Top(c));
  }

  lemma GuardsHeld(c: Cpu, c': Cpu, locks: set<nat>)
    requires c.contexts != [] && c'.contexts != [] && Below(c') == Below(c) && Top(c').guards == Top(c).guards
    ensures Follows(HeldBy(c.contexts), HeldBy(c'.contexts), locks, locks)
  {
    Parts(c);
    Parts(c');
  }

  lemma DropHeld(c: Cpu, k: nat, locks: set<nat>)
    requires CanDo(c, Drop(k))
    ensures Follows(HeldBy(c.contexts), HeldBy(Acted(c, Drop(k), locks).contexts), locks, LocksAfter(c, Drop(k), locks))
  {
    hide LocksOf, HeldBy, Follows, Below;
    var c' := Acted(c, Drop(k), locks);
    Parts(c);
    Parts(c');
    OneLess(Top(c).guards, k);
    Fewer(HeldBy(Below(c)), LocksOf(Top(c).guards), Top(c).guards[k].lock, locks);
  }

  lemma TryHeld(c: Cpu, locks: set<nat>)
    requires CanDo(c, Try)
    ensures Follows(HeldBy(c.contexts), HeldBy(Acted(c, Try, locks).contexts), locks, LocksAfter(c, Try, locks))
  {
    hide LocksOf, HeldBy, Follows, Below;
    var (c', m) := (Acted(c, Try, locks), Top(c).phase.lock);
    if m in locks {
      assert locks + {m} == locks;
      Same(HeldBy(c.contexts), locks);
    } else {
      Parts(c);
      Parts(c');
      OneMore(Top(c).guards, if Top(c).phase.Waiting? then Plain(m) else Masked(m, Top(c).phase.flag));
      More(HeldBy(Below(c)), LocksOf(Top(c).guards), m, locks);
    }
  }

  /** A context that holds nothing makes no difference. */
  lemma SameHeld(c: Cpu, c': Cpu, locks: set<nat>)
    requires |c'.contexts| == |c.contexts| + 1 && c'.contexts[..|c.contexts|] == c.contexts && Top(c').guards == []
    ensures HeldBy(c'.contexts) == HeldBy(c.contexts) && Follows(HeldBy(c.contexts), HeldBy(c'.contexts), locks, locks)
  {
    HeldByTop(c.contexts, Top(c'));
    assert c'.contexts == c.contexts + [Top(c')];
    NoLocks();
    assert HeldBy(c.contexts) + multiset{} == HeldBy(c.contexts);
  }

  /** What is held changes as the set of locks does. */
  ghost predicate Follows(was: multiset<nat>, now: multiset<nat>, locks: set<nat>, locks': set<nat>) {
    || (now == was && locks' == locks)
    || (exists m :: m !in locks && locks' == locks + {m} && now == was + multiset{m})
    || (exists m :: m in was && locks' == locks - {m} && now == was - multiset{m})
  }

  lemma Same(was: multiset<nat>, locks: set<nat>)
    ensures Follows(was, was, locks, locks)
  {
  }

  lemma Fewer(rest: multiset<nat>, top: multiset<nat>, m: nat, locks: set<nat>)
    requires m in top
    ensures Follows(rest + top, rest + (top - multiset{m}), locks, locks - {m})
  {
    assert rest + (top - multiset{m}) == (rest + top) - multiset{m};
  }

  lemma More(rest: multiset<nat>, top: multiset<nat>, m: nat, locks: set<nat>)
    requires m !in locks
    ensures Follows(rest + top, rest + (top + multiset{m}), locks, locks + {m})
  {
    assert rest + (top + multiset{m}) == (rest + top) + multiset{m};
  }

  lemma NoLocks()
    ensures LocksOf([]) == multiset{}
  {
  }

  lemma {:induction false} HeldByTop(rest: seq<Context>, top: Context)
    ensures HeldBy(rest + [top]) == HeldBy(rest) + LocksOf(top.guards)
  {
    hide LocksOf;
    if rest != [] {
      HeldByTop(rest[1..], top);
      assert (rest + [top])[1..] == rest[1..] + [top];
    } else {
      assert ([] + [top])[1..] == [];
    }
  }

  lemma {:induction false} OneMore(guards: seq<Guard>, g: Guard)
    ensures LocksOf(guards + [g]) == LocksOf(guards) + multiset{g.lock}
  {
    if guards != [] {
      OneMore(guards[1..], g);
      assert (guards + [g])[1..] == guards[1..] + [g];
    }
  }

  lemma {:induction false} OneLess(guards: seq<Guard>, k: nat)
    requires k < |guards|
    ensures guards[k].lock in LocksOf(guards)
    ensures LocksOf(Without(guards, k)) == LocksOf(guards) - multiset{guards[k].lock}
  {
    var left := Without(guards, k);
    if k > 0 {
      OneLess(guards[1..], k - 1);
      assert left[0] == guards[0] && left[1..] == Without(guards[1..], k - 1);
      OneOut(guards[0].lock, LocksOf(guards[1..]), guards[k].lock);
    } else {
      assert left == guards[1..];
      OneOut(guards[0].lock, LocksOf(guards[1..]), guards[0].lock);
    }
  }

  lemma OneOut(first: nat, rest: multiset<nat>, m: nat)
    ensures m in rest ==> multiset{first} + (rest - multiset{m}) == (multiset{first} + rest) - multiset{m}
    ensures (multiset{first} + rest) - multiset{first} == rest
  {
  }

  // ---------------------------------------------------------------------------
  // No context waits for the one it interrupted
  // ---------------------------------------------------------------------------

  /** The flags that masking guards restore: true for the first of them at most. */
  predicate FirstRestores(guards: seq<Guard>) {
    forall j, k | 0 <= j < k < |guards| && guards[j].Masked? && guards[k].Masked? :: !guards[k].saved
  }

  /** The given mutexes are taken by int_lock alone. */
  predicate OnlyMasked(c: Context, mutexes: set<nat>) {
    && (c.phase.Waiting? ==> c.phase.lock !in mutexes)
    && forall k | 0 <= k < |c.guards| && c.guards[k].Plain? :: c.guards[k].lock !in mutexes
  }

  /** A context that may be interrupted, and so one that is: it holds no masking
      guard, and is not taking or dropping one in between cli and sti. */
  predicate Open(c: Context) {
    !HasMasked(c) && !c.phase.MaskedWaiting? && !c.phase.Released? && (c.phase.Saved? ==> c.phase.flag)
  }

  /** The context that runs, and whether interrupts are enabled. */
  predicate Running(c: Context, enabled: bool) {
    && FirstRestores(c.guards)
    && (enabled ==> Open(c))
    && (c.phase.Saved? ==> c.phase.flag == enabled)
    && (HasMasked(c) && (c.phase.MaskedWaiting? || c.phase.Released?) ==> !c.phase.flag)
  }

  predicate Sound(c: Cpu, mutexes: set<nat>) {
    && c.contexts != []
    && (forall i | 0 <= i < |c.contexts| - 1 :: Open(c.contexts[i]))
    && (forall i | 0 <= i < |c.contexts| :: OnlyMasked(c.contexts[i], mutexes))
    && Running(Top(c), c.enabled)
  }

  /** A drop that does not enable interrupts while another masking guard is live. */
  predicate Orderly(c: Cpu, a: Action) {
    a.Drop? && c.contexts != [] && a.k < |Top(c).guards| && Top(c).guards[a.k].Masked? && Top(c).guards[a.k].saved
    ==> !HasMasked(Context(Idle, Without(Top(c).guards, a.k)))
  }

  /** An action that takes none of the mutexes by lock. */
  predicate Disciplined(a: Action, mutexes: set<nat>) {
    a.Lock? ==> a.lock !in mutexes
  }

  lemma ActedIsSound(c: Cpu, a: Action, locks: set<nat>, mutexes: set<nat>)
    requires Sound(c, mutexes) && CanDo(c, a) && Disciplined(a, mutexes)
    ensures Sound(Acted(c, a, locks), mutexes) <==> Orderly(c, a)
  {
  }

  predicate AllSound(s: State, mutexes: set<nat>) {
    forall i | 0 <= i < |s.cpus| :: Sound(s.cpus[i], mutexes)
  }

  /** Every step of the run is disciplined and every drop in it is orderly. */
  predicate WellRun(s: State, steps: seq<Step>, mutexes: set<nat>)
    requires Possible(s, steps)
    decreases |steps|
  {
    steps == [] || (&& Disciplined(steps[0].action, mutexes)
                    && Orderly(s.cpus[steps[0].cpu], steps[0].action)
                    && WellRun(Next(s, steps[0]), steps[1..], mutexes))
  }

  lemma {:induction false} RunIsSound(s: State, steps: seq<Step>, mutexes: set<nat>)
    requires AllSound(s, mutexes) && Possible(s, steps) && WellRun(s, steps, mutexes)
    ensures AllSound(After(s, steps), mutexes)
    decreases |steps|
  {
    hide Sound, Orderly, Acted, CanDo;
    if steps != [] {
      ActedIsSound(s.cpus[steps[0].cpu], steps[0].action, s.locks, mutexes);
      RunIsSound(Next(s, steps[0]), steps[1..], mutexes);
    }
  }

  /** The context at the given depth of a processor holds the lock. */
  predicate Holds(c: Context, m: nat) {
    exists k | 0 <= k < |c.guards| :: c.guards[k].lock == m
  }

  predicate Wants(c: Context, m: nat) {
    (c.phase.Waiting? || c.phase.MaskedWaiting?) && c.phase.lock == m
  }

  /** From the start of the machine, whatever processors do: a context does not hold
      any of the mutexes while another has interrupted it, so none ever spins on a
      lock that the context it interrupted holds. */
  lemma NoneWaitsForInterrupted(cpus: nat, steps: seq<Step>, mutexes: set<nat>, i: nat, j: nat, m: nat)
    requires Possible(Boot(cpus), steps) && WellRun(Boot(cpus), steps, mutexes)
    requires i < |After(Boot(cpus), steps).cpus| && m in mutexes
    ensures var contexts := After(Boot(cpus), steps).cpus[i].contexts;
            j < |contexts| - 1 ==> !Holds(contexts[j], m)
  {
    RunIsSound(Boot(cpus), steps, mutexes);
  }

  /** On one processor, then, a context that spins on one of the mutexes gets it with
      its next try, unless it holds it itself. */
  lemma NextTrySucceeds(steps: seq<Step>, mutexes: set<nat>, m: nat)
    requires Possible(Boot(1), steps) && WellRun(Boot(1), steps, mutexes) && m in mutexes
    ensures var s := After(Boot(1), steps);
            && |s.cpus| == 1 && s.cpus[0].contexts != []
            && (Wants(Top(s.cpus[0]), m) && !Holds(Top(s.cpus[0]), m) ==>
                  Enabled(s, Step(0, Try)) && Holds(Top(Next(s, Step(0, Try)).cpus[0]), m))
  {
    hide Acted, Possible, After, WellRun, HeldBy, Holds;
    var s := After(Boot(1), steps);
    RunIsSound(Boot(1), steps, mutexes);
    SameCpus(Boot(1), steps);
    OneGuardForEachLock(1, steps);
    var c := s.cpus[0];
    assert Held(s.cpus) == HeldBy(c.contexts) by {
      assert s.cpus[1..] == [];
      assert Held([]) == multiset{};
    }
    if Wants(Top(c), m) && !Holds(Top(c), m) {
      if m in s.locks {
        assert m in multiset(s.locks);
        var j := Holder(c.contexts, m);
        NoneWaitsForInterrupted(1, steps, mutexes, 0, j, m);
      }
      TakenIfFree(c, m, s.locks);
    }
  }

  lemma {:induction false} SameCpus(s: State, steps: seq<Step>)
    requires Possible(s, steps)
    ensures |After(s, steps).cpus| == |s.cpus|
    decreases |steps|
  {
    if steps != [] {
      SameCpus(Next(s, steps[0]), steps[1..]);
    }
  }

  lemma {:induction false} Holder(contexts: seq<Context>, m: nat) returns (j: nat)
    requires m in HeldBy(contexts)
    ensures j < |contexts| && Holds(contexts[j], m)
  {
    if m in LocksOf(contexts[0].guards) {
      j := 0;
      HolderOf(contexts[0].guards, m);
    } else {
      j := Holder(contexts[1..], m);
      j := j + 1;
    }
  }

  lemma {:induction false} HolderOf(guards: seq<Guard>, m: nat)
    requires m in LocksOf(guards)
    ensures exists k :: 0 <= k < |guards| && guards[k].lock == m
  {
    if guards[0].lock != m {
      HolderOf(guards[1..], m);
      var k :| 0 <= k < |guards[1..]| && guards[1..][k].lock == m;
      assert guards[k + 1].lock == m;
    }
  }

  lemma TakenIfFree(c: Cpu, m: nat, locks: set<nat>)
    requires c.contexts != [] && Wants(Top(c), m)
    ensures CanDo(c, Try) && (m !in locks ==> Holds(Top(Acted(c, Try, locks)), m))
  {
    if m !in locks {
      var guards := Top(Acted(c, Try, locks)).guards;
      assert guards[|guards| - 1].lock == m;
    }
  }

  // ---------------------------------------------------------------------------
  // The interrupt flag is given back
  // ---------------------------------------------------------------------------

  function FirstSaved(guards: seq<Guard>): bool {
    guards != [] && if guards[0].Masked? then guards[0].saved else FirstSaved(guards[1..])
  }

  /** Whether interrupts were enabled in a context before it took the first of the
      masking guards that it now holds, is taking or is dropping. */
  function Entry(c: Context, enabled: bool): bool {
    if HasMasked(c) then FirstSaved(c.guards)
    else if c.phase.MaskedWaiting? || c.phase.Released? then c.phase.flag
    else enabled
  }

  function EntryAt(c: Cpu, j: nat): bool
    requires j < |c.contexts|
  {
    Entry(c.contexts[j], j < |c.contexts| - 1 || c.enabled)
  }

  /** No step changes it but a change of the flag by the context itself: neither what
      the context does with locks, nor a handler that interrupts it and returns. */
  lemma ActedKeepsEntry(c: Cpu, a: Action, locks: set<nat>, mutexes: set<nat>, j: nat)
    requires Sound(c, mutexes) && CanDo(c, a) && Orderly(c, a)
    requires j < |c.contexts| && j < |Acted(c, a, locks).contexts|
    requires (a.Sti? || a.Cli?) ==> j < |c.contexts| - 1
    ensures EntryAt(Acted(c, a, locks), j) == EntryAt(c, j)
  {
    if a.Drop? && j == |c.contexts| - 1 {
      Remaining(Top(c).guards, a.k);
    }
    if a.Try? {
      Added(Top(c).guards, Masked(Top(c).phase.lock, true));
      Added(Top(c).guards, Masked(Top(c).phase.lock, false));
      Added(Top(c).guards, Plain(Top(c).phase.lock));
    }
  }

  lemma {:induction false} Added(guards: seq<Guard>, g: Guard)
    ensures HasMasked(Context(Idle, guards + [g])) == (HasMasked(Context(Idle, guards)) || g.Masked?)
    ensures FirstSaved(guards + [g])
         == if HasMasked(Context(Idle, guards)) then FirstSaved(guards) else g.Masked? && g.saved
  {
    MaskedFirst(guards + [g]);
    MaskedFirst(guards);
    if guards != [] {
      Added(guards[1..], g);
      assert (guards + [g])[1..] == guards[1..] + [g];
    } else {
      assert ([] + [g])[1..] == [];
    }
  }

  lemma MaskedFirst(guards: seq<Guard>)
    ensures HasMasked(Context(Idle, guards))
        <==> guards != [] && (guards[0].Masked? || HasMasked(Context(Idle, guards[1..])))
  {
    forall k | 1 <= k < |guards|
      ensures guards[k] == guards[1..][k - 1]
    {
    }
  }

  lemma {:induction false} Remaining(guards: seq<Guard>, k: nat)
    requires k < |guards| && FirstRestores(guards)
    ensures var (was, left) := (Context(Idle, guards), Context(Idle, Without(guards, k)));
            && HasMasked(was) == (HasMasked(left) || guards[k].Masked?)
            && (HasMasked(left) && !(guards[k].Masked? && guards[k].saved) ==>
                  FirstSaved(left.guards) == FirstSaved(guards))
            && (!HasMasked(left) ==> FirstSaved(guards) == (guards[k].Masked? && guards[k].saved))
  {
    MaskedFirst(guards);
    MaskedFirst(Without(guards, k));
    if k > 0 {
      assert Without(guards, k)[1..] == Without(guards[1..], k - 1);
      Remaining(guards[1..], k - 1);
    } else {
      assert Without(guards, 0) == guards[1..];
      NoneMasked(guards[1..]);
    }
  }

  lemma {:induction false} NoneMasked(guards: seq<Guard>)
    ensures (forall k | 0 <= k < |guards| && guards[k].Masked? :: !guards[k].saved) ==> !FirstSaved(guards)
  {
    if guards != [] {
      NoneMasked(guards[1..]);
    }
  }

  /** In every step of the run the context at the given depth of the processor lives
      on, and does not set the flag by itself. */
  predicate LivesOn(s: State, steps: seq<Step>, i: nat, j: nat)
    requires Possible(s, steps)
    decreases |steps|
  {
    && i < |s.cpus| && j < |s.cpus[i].contexts|
    && (steps == [] ||
        (&& (steps[0].cpu == i && (steps[0].action.Sti? || steps[0].action.Cli?) ==> j < |s.cpus[i].contexts| - 1)
         && LivesOn(Next(s, steps[0]), steps[1..], i, j)))
  }

  /** Over every run, with any number of locks taken and dropped and any interrupts
      in between: when a context has dropped all its masking guards the interrupt
      flag is again what it was when it had none before. */
  lemma {:induction false} FlagOverRun(s: State, steps: seq<Step>, mutexes: set<nat>, i: nat, j: nat)
    requires AllSound(s, mutexes) && Possible(s, steps) && WellRun(s, steps, mutexes) && LivesOn(s, steps, i, j)
    ensures i < |After(s, steps).cpus| && j < |After(s, steps).cpus[i].contexts|
    ensures EntryAt(After(s, steps).cpus[i], j) == EntryAt(s.cpus[i], j)
    decreases |steps|
  {
    hide Sound, Orderly, Acted, CanDo, EntryAt;
    if steps != [] {
      var (c, a) := (s.cpus[steps[0].cpu], steps[0].action);
      ActedIsSound(c, a, s.locks, mutexes);
      assert LivesOn(Next(s, steps[0]), steps[1..], i, j);
      if steps[0].cpu == i {
        ActedKeepsEntry(c, a, s.locks, mutexes, j);
      }
      FlagOverRun(Next(s, steps[0]), steps[1..], mutexes, i, j);
    }
  }

  /** Every masking guard is dropped before those that its context took earlier. */
  predicate Nested(s: State, steps: seq<Step>)
    requires Possible(s, steps)
    decreases |steps|
  {
    steps == [] ||
    (&& InReverse(s.cpus[steps[0].cpu], steps[0].action)
     && Nested(Next(s, steps[0]), steps[1..]))
  }

  predicate InReverse(c: Cpu, a: Action) {
    a.Drop? && c.contexts != [] && a.k < |Top(c).guards| && Top(c).guards[a.k].Masked? ==>
      forall l | a.k < l < |Top(c).guards| :: Top(c).guards[l].Plain?
  }

  /** Dropping the masking guards in the reverse of the order they were taken in is
      orderly. */
  lemma ReverseIsOrderly(c: Cpu, a: Action, mutexes: set<nat>)
    requires Sound(c, mutexes) && CanDo(c, a) && InReverse(c, a)
    ensures Orderly(c, a)
  {
    if a.Drop? && Top(c).guards[a.k].Masked? && Top(c).guards[a.k].saved {
      var guards := Top(c).guards;
      var left := Without(guards, a.k);
      forall l | 0 <= l < |left|
        ensures left[l].Plain?
      {
        assert left[l] == if l < a.k then guards[l] else guards[l + 1];
      }
    }
  }

  /** A run that takes none of the mutexes by lock. */
  predicate AllDisciplined(steps: seq<Step>, mutexes: set<nat>) {
    forall k | 0 <= k < |steps| :: Disciplined(steps[k].action, mutexes)
  }

  lemma {:induction false} NestedIsOrderly(s: State, steps: seq<Step>, mutexes: set<nat>)
    requires AllSound(s, mutexes) && Possible(s, steps) && Nested(s, steps) && AllDisciplined(steps, mutexes)
    ensures WellRun(s, steps, mutexes)
    decreases |steps|
  {
    hide Sound, Orderly, Acted, CanDo, InReverse, Disciplined;
    if steps != [] {
      var (c, a) := (s.cpus[steps[0].cpu], steps[0].action);
      assert InReverse(c, a) && Disciplined(a, mutexes);
      ReverseIsOrderly(c, a, mutexes);
      ActedIsSound(c, a, s.locks, mutexes);
      NestedIsOrderly(Next(s, steps[0]), steps[1..], mutexes);
    }
  }

  /** Guards dropped in the reverse order of taking them give the interrupt flag back:
      from a context that holds no masking guard, after any run in which it lives on
      and is the running one again, the flag is off while it holds any, and is what
      it was before when it holds none. */
  lemma FlagIsGivenBack(s: State, steps: seq<Step>, i: nat)
    requires AllSound(s, {}) && Possible(s, steps) && Nested(s, steps)
    requires i < |s.cpus| && Top(s.cpus[i]).phase.Idle? && !HasMasked(Top(s.cpus[i]))
    requires LivesOn(s, steps, i, |s.cpus[i].contexts| - 1)
    ensures i < |After(s, steps).cpus| && |After(s, steps).cpus[i].contexts| >= |s.cpus[i].contexts|
    ensures var (was, now) := (s.cpus[i], After(s, steps).cpus[i]);
            |now.contexts| == |was.contexts| && Top(now).phase.Idle? ==>
              now.enabled == (!HasMasked(Top(now)) && was.enabled)
  {
    hide After, Possible, LivesOn, Nested, AllSound;
    SoundAt(s, {}, i);
    NestedIsOrderly(s, steps, {});
    FlagOverRun(s, steps, {}, i, |s.cpus[i].contexts| - 1);
    RunIsSound(s, steps, {});
    SoundAt(After(s, steps), {}, i);
  }

  lemma SoundAt(s: State, mutexes: set<nat>, i: nat)
    requires AllSound(s, mutexes) && i < |s.cpus|
    ensures Sound(s.cpus[i], mutexes)
  {
  }

  // ---------------------------------------------------------------------------
  // Without order
  // ---------------------------------------------------------------------------

  /** A program that drops the first of its two guards first, and a handler that comes
      in then and takes the second one's mutex. */
  function Taking(m: nat): seq<Step> {
    [Step(0, Save(m)), Step(0, Mask), Step(0, Try)]
  }

  function Handling(m: nat): seq<Step> {
    [Step(0, Interrupt), Step(0, Save(m)), Step(0, Mask)]
  }

  function Single(guards: seq<Guard>, enabled: bool, locks: set<nat>): State {
    State([Cpu([Context(Idle, guards)], enabled)], locks)
  }

  function Stuck(): State {
    State([Cpu([Context(Idle, [Masked(1, false)]), Context(MaskedWaiting(1, false), [])], false)], {1})
  }

  lemma Disorder()
    ensures var steps := Taking(0) + (Taking(1) + ([Step(0, Drop(0)), Step(0, Restore)] + Handling(1)));
            Possible(Boot(1), steps) && After(Boot(1), steps) == Stuck()
    ensures var contexts := Stuck().cpus[0].contexts; Wants(contexts[1], 1) && Holds(contexts[0], 1)
  {
    hide Possible, After, Taking, Handling;
    assert Boot(1).cpus == [Cpu([Context(Idle, [])], true)];
    assert Boot(1) == Single([], true, {});
    assert [] + [Masked(0, true)] == [Masked(0, true)];
    assert [Masked(0, true)] + [Masked(1, false)] == [Masked(0, true), Masked(1, false)];
    Took([], true, {}, 0);
    Took([Masked(0, true)], false, {0}, 1);
    Dropped();
    Handled();
    var drop := [Step(0, Drop(0)), Step(0, Restore)];
    assert {0} + {1} == {0, 1} && {} + {0} == {0};
    Chain(Single([Masked(0, true), Masked(1, false)], false, {0, 1}), drop, Handling(1));
    Chain(Single([Masked(0, true)], false, {0}), Taking(1), drop + Handling(1));
    Chain(Boot(1), Taking(0), Taking(1) + (drop + Handling(1)));
    assert Stuck().cpus[0].contexts[0].guards[0].lock == 1;
  }

  lemma {:induction false} Chain(s: State, first: seq<Step>, rest: seq<Step>)
    requires Possible(s, first) && Possible(After(s, first), rest)
    ensures Possible(s, first + rest) && After(s, first + rest) == After(After(s, first), rest)
    decreases |first|
  {
    if first == [] {
      assert [] + rest == rest;
    } else {
      assert (first + rest)[1..] == first[1..] + rest;
      Chain(Next(s, first[0]), first[1..], rest);
    }
  }

  lemma OneStep(s: State, step: Step)
    requires Enabled(s, step)
    ensures Possible(s, [step]) && After(s, [step]) == Next(s, step)
  {
  }

  /** On one processor with one context. */
  lemma Alone(top: Context, enabled: bool, locks: set<nat>, a: Action)
    requires CanDo(Cpu([top], enabled), a) && !a.Interrupt?
    ensures var c := Cpu([top], enabled);
            Next(State([c], locks), Step(0, a)) == State([Acted(c, a, locks)], LocksAfter(c, a, locks))
    ensures forall t: Context :: WithTop(Cpu([top], enabled), t) == Cpu([t], enabled)
  {
    forall t: Context
      ensures [top][0 := t] == [t]
    {
    }
  }

  lemma Took(guards: seq<Guard>, enabled: bool, locks: set<nat>, m: nat)
    requires m !in locks
    ensures var s := Single(guards, enabled, locks);
            Possible(s, Taking(m)) && After(s, Taking(m)) == Single(guards + [Masked(m, enabled)], false, locks + {m})
  {
    var s := Single(guards, enabled, locks);
    Alone(Context(Idle, guards), enabled, locks, Save(m));
    Alone(Context(Phase.Saved(m, enabled), guards), enabled, locks, Mask);
    Alone(Context(MaskedWaiting(m, enabled), guards), false, locks, Try);
    Three(s, Step(0, Save(m)), Step(0, Mask), Step(0, Try));
  }

  lemma Three(s: State, a: Step, b: Step, c: Step)
    requires Enabled(s, a) && Enabled(Next(s, a), b) && Enabled(Next(Next(s, a), b), c)
    ensures Possible(s, [a, b, c]) && After(s, [a, b, c]) == Next(Next(Next(s, a), b), c)
  {
    hide Enabled, Next;
    OneStep(s, a);
    OneStep(Next(s, a), b);
    OneStep(Next(Next(s, a), b), c);
    Chain(s, [a], [b]);
    Chain(s, [a] + [b], [c]);
    assert [a] + [b] + [c] == [a, b, c];
  }

  lemma Dropped()
    ensures var s := Single([Masked(0, true), Masked(1, false)], false, {0, 1});
            var drop := [Step(0, Drop(0)), Step(0, Restore)];
            Possible(s, drop) && After(s, drop) == Single([Masked(1, false)], true, {1})
  {
    var guards := [Masked(0, true), Masked(1, false)];
    var s := Single(guards, false, {0, 1});
    Alone(Context(Idle, guards), false, {0, 1}, Drop(0));
    assert Without(guards, 0) == [Masked(1, false)];
    assert {0, 1} - {0} == {1};
    Alone(Context(Released(true), [Masked(1, false)]), false, {1}, Restore);
    var s1 := Next(s, Step(0, Drop(0)));
    OneStep(s, Step(0, Drop(0)));
    OneStep(s1, Step(0, Restore));
    Chain(s, [Step(0, Drop(0))], [Step(0, Restore)]);
  }

  lemma Handled()
    ensures var s := Single([Masked(1, false)], true, {1});
            Possible(s, Handling(1)) && After(s, Handling(1)) == Stuck()
  {
    var s := Single([Masked(1, false)], true, {1});
    var s1 := Next(s, Step(0, Interrupt));
    var (below, handler) := (Context(Idle, [Masked(1, false)]), Context(Idle, []));
    assert [below] + [handler] == [below, handler];
    assert s1.cpus == [Cpu([below, handler], false)];
    assert s1 == State([Cpu([below, handler], false)], {1});
    var s2 := Next(s1, Step(0, Save(1)));
    assert [below, handler][1 := Context(Phase.Saved(1, false), [])] == [below, Context(Phase.Saved(1, false), [])];
    assert s2.cpus == [Cpu([below, Context(Phase.Saved(1, false), [])], false)];
    assert s2 == State([Cpu([below, Context(Phase.Saved(1, false), [])], false)], {1});
    var s3 := Next(s2, Step(0, Mask));
    assert s3.cpus[0].contexts == [below, Context(MaskedWaiting(1, false), [])];
    assert s3 == Stuck();
    Three(s, Step(0, Interrupt), Step(0, Save(1)), Step(0, Mask));
  }

  /** From there on nothing ever changes. */
  lemma {:induction false} StuckForEver(steps: seq<Step>)
    requires Possible(Stuck(), steps)
    ensures After(Stuck(), steps) == Stuck()
    decreases |steps|
  {
    if steps != [] {
      assert steps[0].action == Try;
      assert Next(Stuck(), steps[0]) == Stuck();
      StuckForEver(steps[1..]);
    }
  }

  // ---------------------------------------------------------------------------
  // Order is exactly what is needed
  // ---------------------------------------------------------------------------

  predicate HoldsMasked(c: Context, m: nat) {
    exists k | 0 <= k < |c.guards| :: c.guards[k] in {Masked(m, true), Masked(m, false)}
  }

  /** The running context of a processor spins on a lock that a context which it
      interrupted has taken by int_lock. */
  ghost predicate Deadlocked(c: Cpu) {
    c.contexts != [] && exists j, m :: 0 <= j < |c.contexts| - 1 && HoldsMasked(c.contexts[j], m) && Wants(Top(c), m)
  }

  ghost predicate SomeoneWaits(s: State) {
    exists i :: 0 <= i < |s.cpus| && Deadlocked(s.cpus[i])
  }

  /** However the processors go on, with orderly drops: no context ever spins on a
      lock that a context which it interrupted has taken. */
  ghost predicate NoneWillWait(s: State) {
    forall more | Possible(s, more) && WellRun(s, more, {}) :: !SomeoneWaits(After(s, more))
  }

  /** And that all along a run. */
  ghost predicate NoneWillWaitAlong(s: State, steps: seq<Step>)
    requires Possible(s, steps)
    decreases |steps|
  {
    NoneWillWait(s) && (steps == [] || NoneWillWaitAlong(Next(s, steps[0]), steps[1..]))
  }

  lemma SoundNeverWaits(s: State)
    requires AllSound(s, {})
    ensures NoneWillWait(s)
  {
    forall more | Possible(s, more) && WellRun(s, more, {})
      ensures !SomeoneWaits(After(s, more))
    {
      RunIsSound(s, more, {});
      hide Possible, After, WellRun;
    }
  }

  /** After a drop that is not orderly, an interrupt can come whose handler waits for
      the context that it interrupted. */
  lemma DisorderWaits(s: State, i: nat, k: nat)
    requires AllSound(s, {}) && Enabled(s, Step(i, Drop(k))) && !Orderly(s.cpus[i], Drop(k))
    ensures !NoneWillWait(Next(s, Step(i, Drop(k))))
  {
    var dropped := Next(s, Step(i, Drop(k)));
    var left := Without(Top(s.cpus[i]).guards, k);
    var l :| 0 <= l < |left| && left[l].Masked?;
    var m := left[l].lock;
    Interrupted(dropped, i, m);
  }

  lemma Interrupted(s: State, i: nat, m: nat)
    requires i < |s.cpus| && s.cpus[i].contexts != [] && Top(s.cpus[i]).phase == Released(true)
    requires HoldsMasked(Top(s.cpus[i]), m)
    ensures !NoneWillWait(s)
  {
    var (restore, more) := (Step(i, Restore), [Step(i, Interrupt), Step(i, Save(m)), Step(i, Mask)]);
    var open := Next(s, restore);
    var below := Top(open.cpus[i]);
    assert open.cpus[i].enabled && HoldsMasked(below, m);
    var s1 := Next(open, Step(i, Interrupt));
    var s2 := Next(s1, Step(i, Save(m)));
    var s3 := Next(s2, Step(i, Mask));
    OneStep(s, restore);
    Three(open, Step(i, Interrupt), Step(i, Save(m)), Step(i, Mask));
    Chain(s, [restore], more);
    NoDrops(s, [restore] + more);
    var n := |open.cpus[i].contexts|;
    assert s3.cpus[i].contexts[n - 1] == below && Wants(Top(s3.cpus[i]), m);
    assert Deadlocked(s3.cpus[i]);
  }

  lemma {:induction false} NoDrops(s: State, steps: seq<Step>)
    requires Possible(s, steps) && forall k | 0 <= k < |steps| :: !steps[k].action.Drop?
    ensures WellRun(s, steps, {})
    decreases |steps|
  {
    if steps != [] {
      NoDrops(Next(s, steps[0]), steps[1..]);
    }
  }

  /** From the start of the machine: a run is orderly if and only if in none of its
      states an orderly continuation makes a context wait for one it interrupted. */
  lemma OrderIsExact(cpus: nat, steps: seq<Step>)
    requires Possible(Boot(cpus), steps)
    ensures WellRun(Boot(cpus), steps, {}) <==> NoneWillWaitAlong(Boot(cpus), steps)
  {
    OrderIsExactFrom(Boot(cpus), steps);
  }

  lemma {:induction false} OrderIsExactFrom(s: State, steps: seq<Step>)
    requires AllSound(s, {}) && Possible(s, steps)
    ensures WellRun(s, steps, {}) <==> NoneWillWaitAlong(s, steps)
    decreases |steps|
  {
    hide Sound, Orderly, Acted, CanDo, NoneWillWait;
    SoundNeverWaits(s);
    if steps != [] {
      var (i, a) := (steps[0].cpu, steps[0].action);
      ActedIsSound(s.cpus[i], a, s.locks, {});
      if Orderly(s.cpus[i], a) {
        OrderIsExactFrom(Next(s, steps[0]), steps[1..]);
      } else {
        OnlyDrops(s.cpus[i], a);
        DisorderWaits(s, i, a.k);
        assert steps[0] == Step(i, Drop(a.k));
      }
    }
  }

  lemma OnlyDrops(c: Cpu, a: Action)
    ensures !Orderly(c, a) ==> a.Drop?
  {
  }
}

/** Access to per-CPU variables on one CPU: the borrow cells, the preemption counter
    and the hardware-interrupt flag, under any nesting of accesses and any placement
    of interrupts. */
module PerCpuBorrow {
  import opened Bytes

  datatype Borrow = Immutable(count: nat) | Mutable

  /** The number of a per-CPU variable. */
  type Var = nat

  /** What runs on the CPU. `Access` is `with` or `with_mut` around a closure; the two
      gaps hold what interrupts run between the read and the write of the borrow cell,
      on taking the borrow and on giving it back. */
  datatype Program =
    | Done
    | Access(target: Var, exclusive: bool, gapIn: Program, body: Program, gapOut: Program, next: Program)
    | Guarded(body: Program, next: Program)       // the lifetime of a PreemptGuard
    | Interrupt(body: Program, next: Program)     // a hardware interrupt and its handler

  /** What a closure finds when it starts: its cell and the preemption counter. */
  datatype Seen = Seen(target: Var, exclusive: bool, cell: Borrow, preempt: nat)

  // ----- The reference: counting open accesses ------------------------------------

  /** The accesses open at some moment: (variable, exclusive). */
  type Open = multiset<(Var, bool)>

  ghost predicate Conflicts(open: Open, target: Var, exclusive: bool) {
    (target, true) in open || (exclusive && (target, false) in open)
  }

  /** What the cell of a variable must say. */
  ghost function CellOf(open: Open, v: Var): Borrow {
    if (v, true) in open then Mutable else Immutable(open[(v, false)])
  }

  /** Shared or exclusive, never both, and at most one exclusive. */
  ghost predicate Exclusion(open: Open) {
    forall v: Var :: (v, true) in open ==> open[(v, true)] == 1 && (v, false) !in open
  }

  /** The cell alone tells whether an access conflicts with the open ones. */
  lemma CellDecides(open: Open, v: Var, exclusive: bool)
    ensures Conflicts(open, v, exclusive) <==>
            if exclusive then CellOf(open, v) != Immutable(0) else CellOf(open, v) == Mutable
  {
  }

  /** Opening an access changes its own cell by one step and no other. */
  lemma Opened(open: Open, v: Var, exclusive: bool)
    requires Exclusion(open) && !Conflicts(open, v, exclusive)
    ensures var inside := open + multiset{(v, exclusive)};
            && Exclusion(inside)
            && (forall w: Var :: w != v ==> CellOf(inside, w) == CellOf(open, w))
            && CellOf(open, v).Immutable?
            && CellOf(inside, v) == (if exclusive then Mutable else Immutable(CellOf(open, v).count + 1))
            && (exclusive ==> CellOf(open, v) == Immutable(0))
  {
  }

  /** How a run ends, and what every closure that started has seen. */
  datatype Outcome = Outcome(completed: bool, seen: seq<Seen>)

  /** How a program behaves after `seen`, told from the open accesses, the number of
      live guards and the interrupt flag alone; it panics on a conflicting access and
      on an interrupt inside an interrupt, and on nothing else. */
  ghost function Behaviour(p: Program, open: Open, guards: nat, inHwirq: bool, seen: seq<Seen>): Outcome
    decreases p, 1
  {
    match p
    case Done => Outcome(true, seen)
    case Guarded(body, next) =>
      var inner := Behaviour(body, open, guards + 1, inHwirq, seen);
      if inner.completed then Behaviour(next, open, guards, inHwirq, inner.seen) else inner
    case Interrupt(body, next) =>
      if inHwirq then Outcome(false, seen)
      else
        var handler := Behaviour(body, open, guards, true, seen);
        if handler.completed then Behaviour(next, open, guards, false, handler.seen) else handler
    case Access(_, _, _, _, _, next) =>
      var access := AccessBehaviour(p, open, guards, inHwirq, seen);
      if access.completed then Behaviour(next, open, guards, inHwirq, access.seen) else access
  }

  /** One access without what follows it. */
  ghost function AccessBehaviour(p: Program, open: Open, guards: nat, inHwirq: bool, seen: seq<Seen>): Outcome
    requires p.Access?
    decreases p, 0
  {
    if Conflicts(open, p.target, p.exclusive) then Outcome(false, seen)
    else
      var inside := open + multiset{(p.target, p.exclusive)};
      var taking := Behaviour(p.gapIn, open, guards + 1, inHwirq, seen);
      if !taking.completed then taking
      else
        var start := Seen(p.target, p.exclusive, CellOf(inside, p.target), guards + 1);
        var closure := Behaviour(p.body, inside, guards + 1, inHwirq, taking.seen + [start]);
        if !closure.completed then closure
        else Behaviour(p.gapOut, inside, guards + 1, inHwirq, closure.seen)
  }

  /** Inside the closure preemption is off and the cell shows the access: exactly one
      exclusive one, or at least one shared one. */
  ghost predicate Protected(seen: Seen) {
    && seen.preempt > 0
    && if seen.exclusive then seen.cell == Mutable else seen.cell.Immutable? && seen.cell.count > 0
  }

  ghost predicate AllProtected(seen: seq<Seen>) {
    forall i :: 0 <= i < |seen| ==> Protected(seen[i])
  }

  /** Every closure of every program is protected, also in a run that panics later. */
  lemma {:induction false} ClosuresAreProtected(p: Program, open: Open, guards: nat, inHwirq: bool, seen: seq<Seen>)
    requires Exclusion(open) && AllProtected(seen)
    ensures AllProtected(Behaviour(p, open, guards, inHwirq, seen).seen)
    decreases p, 1
  {
    match p
    case Done =>
    case Guarded(body, next) =>
      ClosuresAreProtected(body, open, guards + 1, inHwirq, seen);
      ClosuresAreProtected(next, open, guards, inHwirq, Behaviour(body, open, guards + 1, inHwirq, seen).seen);
    case Interrupt(body, next) =>
      ClosuresAreProtected(body, open, guards, true, seen);
      ClosuresAreProtected(next, open, guards, false, Behaviour(body, open, guards, true, seen).seen);
    case Access(_, _, _, _, _, next) =>
      AccessIsProtected(p, open, guards, inHwirq, seen);
      ClosuresAreProtected(next, open, guards, inHwirq, AccessBehaviour(p, open, guards, inHwirq, seen).seen);
  }

  lemma {:induction false} AccessIsProtected(p: Program, open: Open, guards: nat, inHwirq: bool, seen: seq<Seen>)
    requires p.Access? && Exclusion(open) && AllProtected(seen)
    ensures AllProtected(AccessBehaviour(p, open, guards, inHwirq, seen).seen)
    decreases p, 0
  {
    if !Conflicts(open, p.target, p.exclusive) {
      Opened(open, p.target, p.exclusive);
      var inside := open + multiset{(p.target, p.exclusive)};
      ClosuresAreProtected(p.gapIn, open, guards + 1, inHwirq, seen);
      var taken := Behaviour(p.gapIn, open, guards + 1, inHwirq, seen).seen;
      var started := taken + [Seen(p.target, p.exclusive, CellOf(inside, p.target), guards + 1)];
      ClosuresAreProtected(p.body, inside, guards + 1, inHwirq, started);
      var ended := Behaviour(p.body, inside, guards + 1, inHwirq, started).seen;
      ClosuresAreProtected(p.gapOut, inside, guards + 1, inHwirq, ended);
    }
  }

  // ----- The program as a tree of sites -----------------------------------------------

  /** The four places a program has parts in. */
  datatype Part = GapIn | Body | GapOut | Next

  function Child(p: Program, part: Part): Option<Program> {
    match p
    case Done => None
    case Guarded(body, next) => if part == Body then Some(body) else if part == Next then Some(next) else None
    case Interrupt(body, next) => if part == Body then Some(body) else if part == Next then Some(next) else None
    case Access(_, _, gapIn, body, gapOut, next) =>
      match part
      case GapIn => Some(gapIn)
      case Body => Some(body)
      case GapOut => Some(gapOut)
      case Next => Some(next)
  }

  /** What lies at the end of a path through the program. */
  function At(p: Program, path: seq<Part>): Option<Program>
    decreases |path|
  {
    if path == [] then Some(p)
    else if Child(p, path[0]).None? then None
    else At(Child(p, path[0]).value, path[1..])
  }

  /** The accesses open inside a part, the live guards there, and whether an interrupt is
      being handled: an access is open in its closure and until it is given back, and holds
      a guard from before its own read of the cell. */
  ghost function OpenIn(p: Program, part: Part, open: Open): Open {
    if p.Access? && (part == Body || part == GapOut) then open + multiset{(p.target, p.exclusive)} else open
  }

  ghost function GuardsIn(p: Program, part: Part, guards: nat): nat {
    if (p.Access? && part != Next) || (p.Guarded? && part == Body) then guards + 1 else guards
  }

  ghost predicate HwirqIn(p: Program, part: Part, inHwirq: bool) {
    inHwirq || (p.Interrupt? && part == Body)
  }

  /** The same at the end of a path. */
  ghost function OpenAt(p: Program, path: seq<Part>, open: Open): Open
    requires At(p, path).Some?
    decreases |path|
  {
    if path == [] then open else OpenAt(Child(p, path[0]).value, path[1..], OpenIn(p, path[0], open))
  }

  ghost function GuardsAt(p: Program, path: seq<Part>, guards: nat): nat
    requires At(p, path).Some?
    decreases |path|
  {
    if path == [] then guards else GuardsAt(Child(p, path[0]).value, path[1..], GuardsIn(p, path[0], guards))
  }

  ghost predicate HwirqAt(p: Program, path: seq<Part>, inHwirq: bool)
    requires At(p, path).Some?
    decreases |path|
  {
    if path == [] then inHwirq else HwirqAt(Child(p, path[0]).value, path[1..], HwirqIn(p, path[0], inHwirq))
  }

  /** An access that conflicts with the accesses around it, or an interrupt inside one. */
  ghost predicate Offends(node: Program, open: Open, inHwirq: bool) {
    || (node.Access? && Conflicts(open, node.target, node.exclusive))
    || (node.Interrupt? && inHwirq)
  }

  ghost predicate OffendsAt(p: Program, path: seq<Part>, open: Open, inHwirq: bool)
    requires At(p, path).Some?
  {
    Offends(At(p, path).value, OpenAt(p, path, open), HwirqAt(p, path, inHwirq))
  }

  /** No site of the program offends. */
  ghost predicate Harmless(p: Program, open: Open, inHwirq: bool) {
    forall path :: At(p, path).Some? ==> !OffendsAt(p, path, open, inHwirq)
  }

  lemma HarmlessPart(p: Program, part: Part, open: Open, inHwirq: bool)
    requires Harmless(p, open, inHwirq) && Child(p, part).Some?
    ensures Harmless(Child(p, part).value, OpenIn(p, part, open), HwirqIn(p, part, inHwirq))
  {
    var child := Child(p, part).value;
    forall path | At(child, path).Some?
      ensures !OffendsAt(child, path, OpenIn(p, part, open), HwirqIn(p, part, inHwirq))
    {
      var whole := [part] + path;
      assert whole[1..] == path;
      assert At(p, whole).Some? && !OffendsAt(p, whole, open, inHwirq);
    }
  }

  lemma HarmlessParts(p: Program, open: Open, inHwirq: bool)
    requires !Offends(p, open, inHwirq)
    requires forall part :: Child(p, part).Some? ==>
               Harmless(Child(p, part).value, OpenIn(p, part, open), HwirqIn(p, part, inHwirq))
    ensures Harmless(p, open, inHwirq)
  {
    forall path | At(p, path).Some? ensures !OffendsAt(p, path, open, inHwirq) {
      if path != [] {
        var child := Child(p, path[0]).value;
        assert Harmless(child, OpenIn(p, path[0], open), HwirqIn(p, path[0], inHwirq));
        assert !OffendsAt(child, path[1..], OpenIn(p, path[0], open), HwirqIn(p, path[0], inHwirq));
      }
    }
  }

  /** A program is harmless if and only if it does not offend itself and its parts are
      harmless where they stand. */
  lemma HarmlessIffParts(p: Program, open: Open, inHwirq: bool)
    ensures Harmless(p, open, inHwirq) <==>
            && !Offends(p, open, inHwirq)
            && forall part :: Child(p, part).Some? ==>
                 Harmless(Child(p, part).value, OpenIn(p, part, open), HwirqIn(p, part, inHwirq))
  {
    if Harmless(p, open, inHwirq) {
      assert At(p, []).Some? && !OffendsAt(p, [], open, inHwirq);
      forall part | Child(p, part).Some?
        ensures Harmless(Child(p, part).value, OpenIn(p, part, open), HwirqIn(p, part, inHwirq))
      {
        HarmlessPart(p, part, open, inHwirq);
      }
    } else {
      if !Offends(p, open, inHwirq) && forall part :: Child(p, part).Some? ==>
           Harmless(Child(p, part).value, OpenIn(p, part, open), HwirqIn(p, part, inHwirq))
      {
        HarmlessParts(p, open, inHwirq);
      }
    }
  }

  lemma HarmlessGuarded(body: Program, next: Program, open: Open, inHwirq: bool)
    ensures Harmless(Guarded(body, next), open, inHwirq) <==>
            Harmless(body, open, inHwirq) && Harmless(next, open, inHwirq)
  {
    hide Harmless;
    var p := Guarded(body, next);
    HarmlessIffParts(p, open, inHwirq);
    assert Child(p, Body) == Some(body) && Child(p, Next) == Some(next);
  }

  lemma HarmlessInterrupt(body: Program, next: Program, open: Open, inHwirq: bool)
    ensures Harmless(Interrupt(body, next), open, inHwirq) <==>
            !inHwirq && Harmless(body, open, true) && Harmless(next, open, false)
  {
    hide Harmless;
    var p := Interrupt(body, next);
    HarmlessIffParts(p, open, inHwirq);
    assert Child(p, Body) == Some(body) && Child(p, Next) == Some(next);
  }

  lemma HarmlessAccess(p: Program, open: Open, inHwirq: bool)
    requires p.Access?
    ensures var inside := open + multiset{(p.target, p.exclusive)};
            Harmless(p, open, inHwirq) <==>
              && !Conflicts(open, p.target, p.exclusive)
              && Harmless(p.gapIn, open, inHwirq) && Harmless(p.body, inside, inHwirq)
              && Harmless(p.gapOut, inside, inHwirq) && Harmless(p.next, open, inHwirq)
  {
    hide Harmless, Conflicts;
    HarmlessIffParts(p, open, inHwirq);
    assert Child(p, GapIn) == Some(p.gapIn) && Child(p, Body) == Some(p.body);
    assert Child(p, GapOut) == Some(p.gapOut) && Child(p, Next) == Some(p.next);
  }

  /** The reference completes exactly the harmless programs. */
  lemma {:induction false} CompletesIffHarmless(p: Program, open: Open, guards: nat, inHwirq: bool, seen: seq<Seen>)
    ensures Behaviour(p, open, guards, inHwirq, seen).completed <==> Harmless(p, open, inHwirq)
    decreases p
  {
    hide Harmless, Conflicts;
    match p
    case Done => HarmlessIffParts(p, open, inHwirq);
    case Guarded(body, next) =>
      HarmlessGuarded(body, next, open, inHwirq);
      CompletesIffHarmless(body, open, guards + 1, inHwirq, seen);
      CompletesIffHarmless(next, open, guards, inHwirq, Behaviour(body, open, guards + 1, inHwirq, seen).seen);
    case Interrupt(body, next) =>
      HarmlessInterrupt(body, next, open, inHwirq);
      CompletesIffHarmless(body, open, guards, true, seen);
      CompletesIffHarmless(next, open, guards, false, Behaviour(body, open, guards, true, seen).seen);
    case Access(v, exclusive, gapIn, body, gapOut, next) =>
      HarmlessAccess(p, open, inHwirq);
      var inside := open + multiset{(v, exclusive)};
      var taken := Behaviour(gapIn, open, guards + 1, inHwirq, seen).seen;
      var started := taken + [Seen(v, exclusive, CellOf(inside, v), guards + 1)];
      var ended := Behaviour(body, inside, guards + 1, inHwirq, started).seen;
      CompletesIffHarmless(gapIn, open, guards + 1, inHwirq, seen);
      CompletesIffHarmless(body, inside, guards + 1, inHwirq, started);
      CompletesIffHarmless(gapOut, inside, guards + 1, inHwirq, ended);
      CompletesIffHarmless(next, open, guards, inHwirq, AccessBehaviour(p, open, guards, inHwirq, seen).seen);
  }

  /** One access with nothing after it. */
  function Alone(p: Program): Program
    requires p.Access?
  {
    Access(p.target, p.exclusive, p.gapIn, p.body, p.gapOut, Done)
  }

  lemma AloneCompletesIffHarmless(p: Program, open: Open, guards: nat, inHwirq: bool, seen: seq<Seen>)
    requires p.Access?
    ensures AccessBehaviour(p, open, guards, inHwirq, seen).completed <==> Harmless(Alone(p), open, inHwirq)
  {
    hide Harmless, Conflicts;
    var alone := Alone(p);
    CompletesIffHarmless(alone, open, guards, inHwirq, seen);
    assert AccessBehaviour(alone, open, guards, inHwirq, seen) == AccessBehaviour(p, open, guards, inHwirq, seen);
  }

  /** What the closures of a program see, in the order in which they start. */
  ghost function Closures(p: Program, open: Open, guards: nat): seq<Seen> {
    match p
    case Done => []
    case Guarded(body, next) => Closures(body, open, guards + 1) + Closures(next, open, guards)
    case Interrupt(body, next) => Closures(body, open, guards) + Closures(next, open, guards)
    case Access(v, exclusive, gapIn, body, gapOut, next) =>
      var inside := open + multiset{(v, exclusive)};
      Closures(gapIn, open, guards + 1) + [Seen(v, exclusive, CellOf(inside, v), guards + 1)]
      + Closures(body, inside, guards + 1) + Closures(gapOut, inside, guards + 1) + Closures(next, open, guards)
  }

  /** The accesses of the program, in the order of its text. */
  function Accesses(p: Program): seq<(Var, bool)> {
    match p
    case Done => []
    case Guarded(body, next) => Accesses(body) + Accesses(next)
    case Interrupt(body, next) => Accesses(body) + Accesses(next)
    case Access(v, exclusive, gapIn, body, gapOut, next) =>
      Accesses(gapIn) + [(v, exclusive)] + Accesses(body) + Accesses(gapOut) + Accesses(next)
  }

  /** Which variables were accessed and how. */
  function Pairs(seen: seq<Seen>): (pairs: seq<(Var, bool)>)
    ensures |pairs| == |seen|
    ensures forall i :: 0 <= i < |seen| ==> pairs[i] == (seen[i].target, seen[i].exclusive)
  {
    if seen == [] then [] else [(seen[0].target, seen[0].exclusive)] + Pairs(seen[1..])
  }

  lemma PairsConcat(a: seq<Seen>, b: seq<Seen>)
    ensures Pairs(a + b) == Pairs(a) + Pairs(b)
  {
    hide Pairs;
  }

  /** The closures are those of the accesses of the text, each once and in order. */
  lemma {:induction false} ClosuresAreAccesses(p: Program, open: Open, guards: nat)
    ensures Pairs(Closures(p, open, guards)) == Accesses(p)
  {
    hide Pairs;
    match p
    case Done =>
    case Guarded(body, next) =>
      ClosuresAreAccesses(body, open, guards + 1);
      ClosuresAreAccesses(next, open, guards);
      PairsConcat(Closures(body, open, guards + 1), Closures(next, open, guards));
    case Interrupt(body, next) =>
      ClosuresAreAccesses(body, open, guards);
      ClosuresAreAccesses(next, open, guards);
      PairsConcat(Closures(body, open, guards), Closures(next, open, guards));
    case Access(v, exclusive, gapIn, body, gapOut, next) =>
      var inside := open + multiset{(v, exclusive)};
      var start := [Seen(v, exclusive, CellOf(inside, v), guards + 1)];
      var a, b := Closures(gapIn, open, guards + 1), Closures(body, inside, guards + 1);
      var c, d := Closures(gapOut, inside, guards + 1), Closures(next, open, guards);
      ClosuresAreAccesses(gapIn, open, guards + 1);
      ClosuresAreAccesses(body, inside, guards + 1);
      ClosuresAreAccesses(gapOut, inside, guards + 1);
      ClosuresAreAccesses(next, open, guards);
      PairsConcat(a, start);
      PairsConcat(a + start, b);
      PairsConcat(a + start + b, c);
      PairsConcat(a + start + b + c, d);
      assert Pairs(start) == [(v, exclusive)];
  }

  /** The run started the first of these closures, and all of them if it completed. */
  ghost predicate Ran(r: Outcome, seen: seq<Seen>, closures: seq<Seen>) {
    if r.completed then r.seen == seen + closures else seen <= r.seen <= seen + closures
  }

  lemma RanThen(r: Outcome, seen: seq<Seen>, first: seq<Seen>, last: Outcome, rest: seq<Seen>)
    requires Ran(r, seen, first) && (if r.completed then Ran(last, r.seen, rest) else last == r)
    ensures Ran(last, seen, first + rest)
  {
    if r.completed { assert seen + first + rest == seen + (first + rest); }
  }

  /** A run starts the closures in order, and all of them when it completes. */
  lemma {:induction false} StartsInOrder(p: Program, open: Open, guards: nat, inHwirq: bool, seen: seq<Seen>)
    ensures Ran(Behaviour(p, open, guards, inHwirq, seen), seen, Closures(p, open, guards))
    decreases p, 1
  {
    hide Conflicts, Ran;
    var all := Behaviour(p, open, guards, inHwirq, seen);
    match p
    case Done => NothingRan(seen);
    case Guarded(body, next) =>
      var inner := Behaviour(body, open, guards + 1, inHwirq, seen);
      StartsInOrder(body, open, guards + 1, inHwirq, seen);
      StartsInOrder(next, open, guards, inHwirq, inner.seen);
      RanThen(inner, seen, Closures(body, open, guards + 1), all, Closures(next, open, guards));
    case Interrupt(body, next) =>
      if inHwirq {
        StoppedAtOnce(seen, Closures(p, open, guards));
      } else {
        var handler := Behaviour(body, open, guards, true, seen);
        StartsInOrder(body, open, guards, true, seen);
        StartsInOrder(next, open, guards, false, handler.seen);
        RanThen(handler, seen, Closures(body, open, guards), all, Closures(next, open, guards));
      }
    case Access(_, _, _, _, _, next) =>
      var access := AccessBehaviour(p, open, guards, inHwirq, seen);
      AccessStartsInOrder(p, open, guards, inHwirq, seen);
      StartsInOrder(next, open, guards, inHwirq, access.seen);
      RanThen(access, seen, OwnClosures(p, open, guards), all, Closures(next, open, guards));
  }

  /** Those of one access, without what follows it. */
  ghost function OwnClosures(p: Program, open: Open, guards: nat): seq<Seen>
    requires p.Access?
  {
    var inside := open + multiset{(p.target, p.exclusive)};
    Closures(p.gapIn, open, guards + 1) + [Seen(p.target, p.exclusive, CellOf(inside, p.target), guards + 1)]
    + Closures(p.body, inside, guards + 1) + Closures(p.gapOut, inside, guards + 1)
  }

  lemma {:induction false} AccessStartsInOrder(p: Program, open: Open, guards: nat, inHwirq: bool, seen: seq<Seen>)
    requires p.Access?
    ensures Ran(AccessBehaviour(p, open, guards, inHwirq, seen), seen, OwnClosures(p, open, guards))
    decreases p, 0
  {
    hide Conflicts, Ran;
    if Conflicts(open, p.target, p.exclusive) {
      StoppedAtOnce(seen, OwnClosures(p, open, guards));
    } else {
      var inside := open + multiset{(p.target, p.exclusive)};
      var start := Seen(p.target, p.exclusive, CellOf(inside, p.target), guards + 1);
      var a, b := Closures(p.gapIn, open, guards + 1), Closures(p.body, inside, guards + 1);
      var c := Closures(p.gapOut, inside, guards + 1);
      var taking := Behaviour(p.gapIn, open, guards + 1, inHwirq, seen);
      StartsInOrder(p.gapIn, open, guards + 1, inHwirq, seen);
      var taken := if taking.completed then Outcome(true, taking.seen + [start]) else taking;
      OneStarted(taking.seen, start);
      RanThen(taking, seen, a, taken, [start]);
      var closure := if taken.completed then Behaviour(p.body, inside, guards + 1, inHwirq, taken.seen) else taken;
      StartsInOrder(p.body, inside, guards + 1, inHwirq, taken.seen);
      RanThen(taken, seen, a + [start], closure, b);
      StartsInOrder(p.gapOut, inside, guards + 1, inHwirq, closure.seen);
      RanThen(closure, seen, a + [start] + b, AccessBehaviour(p, open, guards, inHwirq, seen), c);
    }
  }

  lemma NothingRan(seen: seq<Seen>)
    ensures Ran(Outcome(true, seen), seen, [])
  {
  }

  lemma OneStarted(seen: seq<Seen>, start: Seen)
    ensures Ran(Outcome(true, seen + [start]), seen, [start])
  {
  }

  lemma StoppedAtOnce(seen: seq<Seen>, closures: seq<Seen>)
    ensures Ran(Outcome(false, seen), seen, closures)
  {
  }

  /** What the closure of the access at a site sees. */
  ghost function SeenAt(p: Program, path: seq<Part>, open: Open, guards: nat): Seen
    requires At(p, path).Some? && At(p, path).value.Access?
  {
    var node := At(p, path).value;
    var inside := OpenAt(p, path, open) + multiset{(node.target, node.exclusive)};
    Seen(node.target, node.exclusive, CellOf(inside, node.target), GuardsAt(p, path, guards) + 1)
  }

  ghost predicate SeenSomewhere(p: Program, open: Open, guards: nat, seen: Seen) {
    exists path :: At(p, path).Some? && At(p, path).value.Access? && SeenAt(p, path, open, guards) == seen
  }

  /** A site of a part is a site of the whole, and the other way round. */
  lemma SeenInPart(p: Program, part: Part, open: Open, guards: nat, seen: Seen)
    requires Child(p, part).Some?
    requires SeenSomewhere(Child(p, part).value, OpenIn(p, part, open), GuardsIn(p, part, guards), seen)
    ensures SeenSomewhere(p, open, guards, seen)
  {
    hide SeenAt, OpenIn, GuardsIn;
    var child := Child(p, part).value;
    var path :| && At(child, path).Some? && At(child, path).value.Access?
                && SeenAt(child, path, OpenIn(p, part, open), GuardsIn(p, part, guards)) == seen;
    SeenBelow(p, part, path, open, guards);
  }

  lemma SeenBelow(p: Program, part: Part, path: seq<Part>, open: Open, guards: nat)
    requires Child(p, part).Some? && At(Child(p, part).value, path).Some?
    requires At(Child(p, part).value, path).value.Access?
    ensures At(p, [part] + path) == At(Child(p, part).value, path)
    ensures SeenAt(p, [part] + path, open, guards) ==
            SeenAt(Child(p, part).value, path, OpenIn(p, part, open), GuardsIn(p, part, guards))
  {
    hide CellOf, Child, OpenIn, GuardsIn;
    var whole := [part] + path;
    assert whole[0] == part && whole[1..] == path;
  }

  lemma SeenInSomePart(p: Program, open: Open, guards: nat, seen: Seen)
    requires SeenSomewhere(p, open, guards, seen)
    ensures || (p.Access? && seen == SeenAt(p, [], open, guards))
            || exists part :: Child(p, part).Some?
                 && SeenSomewhere(Child(p, part).value, OpenIn(p, part, open), GuardsIn(p, part, guards), seen)
  {
    var path :| At(p, path).Some? && At(p, path).value.Access? && SeenAt(p, path, open, guards) == seen;
    if path != [] {
      var child := Child(p, path[0]).value;
      assert At(child, path[1..]) == At(p, path);
      assert SeenAt(child, path[1..], OpenIn(p, path[0], open), GuardsIn(p, path[0], guards)) == seen;
      assert SeenSomewhere(child, OpenIn(p, path[0], open), GuardsIn(p, path[0], guards), seen);
    }
  }

  /** The closures that a completed run starts are exactly those of the access sites, each
      with the cell of the accesses open around it and the guards live there. */
  lemma {:induction false} ClosuresAreSites(p: Program, open: Open, guards: nat, seen: Seen)
    ensures seen in Closures(p, open, guards) <==> SeenSomewhere(p, open, guards, seen)
    decreases p
  {
    hide SeenSomewhere, Closures, SeenAt;
    forall part | Child(p, part).Some?
      ensures StartsInPart(p, part, open, guards, seen) <==>
              SeenSomewhere(Child(p, part).value, OpenIn(p, part, open), GuardsIn(p, part, guards), seen)
      ensures StartsInPart(p, part, open, guards, seen) ==> SeenSomewhere(p, open, guards, seen)
    {
      ClosuresAreSites(Child(p, part).value, OpenIn(p, part, open), GuardsIn(p, part, guards), seen);
      if StartsInPart(p, part, open, guards, seen) { SeenInPart(p, part, open, guards, seen); }
    }
    if SeenSomewhere(p, open, guards, seen) { SeenInSomePart(p, open, guards, seen); }
    if p.Access? { SeenAtRoot(p, open, guards); }
    ClosuresByPart(p, open, guards, seen);
  }

  lemma SeenAtRoot(p: Program, open: Open, guards: nat)
    requires p.Access?
    ensures SeenSomewhere(p, open, guards, SeenAt(p, [], open, guards))
  {
    assert At(p, []) == Some(p);
  }

  ghost predicate StartsInPart(p: Program, part: Part, open: Open, guards: nat, seen: Seen) {
    && Child(p, part).Some?
    && seen in Closures(Child(p, part).value, OpenIn(p, part, open), GuardsIn(p, part, guards))
  }

  lemma InConcat(a: seq<Seen>, b: seq<Seen>, seen: Seen)
    ensures seen in a + b <==> seen in a || seen in b
  {
  }

  lemma ClosuresByPart(p: Program, open: Open, guards: nat, seen: Seen)
    ensures seen in Closures(p, open, guards) <==>
            || (p.Access? && seen == SeenAt(p, [], open, guards))
            || StartsInPart(p, GapIn, open, guards, seen) || StartsInPart(p, Body, open, guards, seen)
            || StartsInPart(p, GapOut, open, guards, seen) || StartsInPart(p, Next, open, guards, seen)
  {
    match p
    case Done =>
    case Guarded(body, next) => InConcat(Closures(body, open, guards + 1), Closures(next, open, guards), seen);
    case Interrupt(body, next) => InConcat(Closures(body, open, guards), Closures(next, open, guards), seen);
    case Access(_, _, _, _, _, _) => AccessByPart(p, open, guards, seen);
  }

  lemma AccessByPart(p: Program, open: Open, guards: nat, seen: Seen)
    requires p.Access?
    ensures seen in Closures(p, open, guards) <==>
            || seen == SeenAt(p, [], open, guards)
            || StartsInPart(p, GapIn, open, guards, seen) || StartsInPart(p, Body, open, guards, seen)
            || StartsInPart(p, GapOut, open, guards, seen) || StartsInPart(p, Next, open, guards, seen)
  {
    var inside := open + multiset{(p.target, p.exclusive)};
    var start := SeenAt(p, [], open, guards);
    var a, b := Closures(p.gapIn, open, guards + 1), Closures(p.body, inside, guards + 1);
    var c, d := Closures(p.gapOut, inside, guards + 1), Closures(p.next, open, guards);
    assert Closures(p, open, guards) == a + [start] + b + c + d;
    hide Closures, CellOf, SeenAt;
    assert StartsInPart(p, GapIn, open, guards, seen) <==> seen in a;
    assert StartsInPart(p, Body, open, guards, seen) <==> seen in b;
    assert StartsInPart(p, GapOut, open, guards, seen) <==> seen in c;
    assert StartsInPart(p, Next, open, guards, seen) <==> seen in d;
    InFive(a, start, b, c, d, seen);
  }

  lemma InFive(a: seq<Seen>, start: Seen, b: seq<Seen>, c: seq<Seen>, d: seq<Seen>, seen: Seen)
    ensures seen in a + [start] + b + c + d <==>
            seen == start || seen in a || seen in b || seen in c || seen in d
  {
    InConcat(a, [start], seen);
    InConcat(a + [start], b, seen);
    InConcat(a + [start] + b, c, seen);
    InConcat(a + [start] + b + c, d, seen);
  }

  predicate Fits(p: Program, vars: nat) {
    match p
    case Done => true
    case Guarded(body, next) => Fits(body, vars) && Fits(next, vars)
    case Interrupt(body, next) => Fits(body, vars) && Fits(next, vars)
    case Access(v, _, gapIn, body, gapOut, next) =>
      v < vars && Fits(gapIn, vars) && Fits(body, vars) && Fits(gapOut, vars) && Fits(next, vars)
  }

  // ----- The machine ----------------------------------------------------------------

  class Cpu {
    var cells: seq<Borrow>
    var core: Borrow          // the cell of CORE_LOCAL
    var preempt: nat
    var inHwirq: bool
    ghost var seen: seq<Seen>

    constructor (vars: nat)
      ensures |cells| == vars && Represents(multiset{}, 0) && !inHwirq && seen == []
    {
      cells := seq(vars, _ => Immutable(0));
      core := Immutable(0);
      preempt := 0;
      inHwirq := false;
      seen := [];
    }

    /** The cells are those of the open accesses and the counter that of the live guards. */
    ghost predicate Represents(open: Open, guards: nat)
      reads this
    {
      && Exclusion(open) && core == Immutable(0) && preempt == guards
      && forall v: Var :: v < |cells| ==> cells[v] == CellOf(open, v)
    }

    /** `PreemptGuard::new`: an exclusive access to the core-local cell with interrupts
        disabled, so nothing can come between its steps. */
    method GuardNew()
      requires core == Immutable(0)
      modifies this`core, this`preempt
      ensures core == Immutable(0) && preempt == old(preempt) + 1
    {
      core := Mutable;
      preempt := preempt + 1;
      core := Immutable(0);
    }

    /** Dropping a guard; the checked decrement cannot fail while the guard is live. */
    method GuardDrop()
      requires core == Immutable(0) && preempt > 0
      modifies this`core, this`preempt
      ensures core == Immutable(0) && preempt == old(preempt) - 1
    {
      core := Mutable;
      preempt := preempt - 1;
      core := Immutable(0);
    }

    method SetInHwirq(value: bool)
      requires core == Immutable(0)
      modifies this`core, this`inHwirq
      ensures core == Immutable(0) && inHwirq == value
    {
      core := Mutable;
      inHwirq := value;
      core := Immutable(0);
    }

    /** Runs a program on the cells. It completes exactly when no site of the program
        offends; it starts the closures of the text in order, all of them when it completes;
        and on completion every cell, the counter and the flag are back to what they were. */
    method Run(p: Program, ghost open: Open, ghost guards: nat) returns (completed: bool)
      requires Fits(p, |cells|) && Represents(open, guards)
      modifies this
      ensures Outcome(completed, seen) == Behaviour(p, open, guards, old(inHwirq), old(seen))
      ensures completed ==> cells == old(cells) && Represents(open, guards) && inHwirq == old(inHwirq)
      ensures completed <==> Harmless(p, open, old(inHwirq))
      ensures completed ==> seen == old(seen) + Closures(p, open, guards)
      ensures !completed ==> old(seen) <= seen <= old(seen) + Closures(p, open, guards)
      decreases p, 1
    {
      hide Harmless, Closures;
      CompletesIffHarmless(p, open, guards, inHwirq, seen);
      StartsInOrder(p, open, guards, inHwirq, seen);
      match p
      case Done =>
        completed := true;
      case Guarded(body, next) =>
        GuardNew();
        completed := Run(body, open, guards + 1);
        if !completed { return; }
        GuardDrop();
        completed := Run(next, open, guards);
      case Interrupt(body, next) =>
        if inHwirq { return false; }
        SetInHwirq(true);
        completed := Run(body, open, guards);
        if !completed { return; }
        SetInHwirq(false);
        completed := Run(next, open, guards);
      case Access(_, _, _, _, _, next) =>
        completed := RunAccess(p, open, guards);
        if !completed { return; }
        completed := Run(next, open, guards);
    }

    /** The write that takes a borrow whose cell was read as `taken`. */
    method Take(v: Var, exclusive: bool, taken: Borrow, ghost open: Open, ghost guards: nat)
      requires v < |cells| && Represents(open, guards) && taken == cells[v] && !Conflicts(open, v, exclusive)
      modifies this`cells
      ensures |cells| == |old(cells)| && Represents(open + multiset{(v, exclusive)}, guards)
      ensures cells == old(cells)[v := cells[v]]
    {
      Opened(open, v, exclusive);
      cells := cells[v := if exclusive then Mutable else Immutable(taken.count + 1)];
    }

    /** The write that gives back a borrow whose cell was read as `given`; none of the
        three failures of `unborrow` and `unborrow_mut` can occur. */
    method Give(v: Var, exclusive: bool, given: Borrow, ghost open: Open, ghost guards: nat)
      requires v < |cells| && Exclusion(open) && !Conflicts(open, v, exclusive)
      requires Represents(open + multiset{(v, exclusive)}, guards) && given == cells[v]
      modifies this`cells
      ensures |cells| == |old(cells)| && Represents(open, guards)
    {
      Opened(open, v, exclusive);
      assert if exclusive then given == Mutable else given.Immutable? && given.count > 0;
      cells := cells[v := if exclusive then Immutable(0) else Immutable(given.count - 1)];
    }

    /** One `with` or `with_mut`. */
    method RunAccess(p: Program, ghost open: Open, ghost guards: nat) returns (completed: bool)
      requires p.Access? && Fits(p, |cells|) && Represents(open, guards)
      modifies this
      ensures Outcome(completed, seen) == AccessBehaviour(p, open, guards, old(inHwirq), old(seen))
      ensures completed ==> cells == old(cells) && Represents(open, guards) && inHwirq == old(inHwirq)
      ensures completed <==> Harmless(Alone(p), open, old(inHwirq))
      ensures completed ==> seen == old(seen) + OwnClosures(p, open, guards)
      decreases p, 0
    {
      hide Conflicts, Exclusion, Harmless, Closures, OwnClosures;
      AloneCompletesIffHarmless(p, open, guards, inHwirq, seen);
      AccessStartsInOrder(p, open, guards, inHwirq, seen);
      var v, exclusive := p.target, p.exclusive;
      GuardNew();
      var taken := cells[v];
      CellDecides(open, v, exclusive);
      if (if exclusive then taken != Immutable(0) else taken == Mutable) { return false; }
      completed := Run(p.gapIn, open, guards + 1);
      if !completed { return; }
      Take(v, exclusive, taken, open, guards + 1);
      ghost var inside := open + multiset{(v, exclusive)};
      seen := seen + [Seen(v, exclusive, cells[v], preempt)];
      completed := Run(p.body, inside, guards + 1);
      if !completed { return; }
      var given := cells[v];
      completed := Run(p.gapOut, inside, guards + 1);
      if !completed { return; }
      Give(v, exclusive, given, open, guards + 1);
      GuardDrop();
    }
  }
}

/**
 * The update-and-prune pass the render loop runs over the falling hearts and
 * over the mini-hearts: `list.forEach((p, index) => { p.update(); if (dead(p))
 * list.splice(index, 1) })`.
 *
 * Because splice shifts the rest of the array left while forEach's index keeps
 * counting, the element that slides into a removed slot is not visited in that
 * pass: it stays in the list as it was. `Pass` is that behaviour, read from the
 * front of the list; `FateAt` says independently, position by position, what
 * happens to each element, and `PassFollowsFates` proves the two agree.
 */
module Sweep {

  /** What one pass does to one element of the list. */
  datatype Fate = Updated | Removed | Skipped

  /** One forEach pass: the list after updating and splicing. */
  function Pass<T>(s: seq<T>, step: T -> T, expired: T -> bool): (r: seq<T>)
    ensures |r| <= |s|
    decreases |s|
  {
    if |s| == 0 then []
    else if expired(step(s[0])) then
      if |s| == 1 then [] else [s[1]] + Pass(s[2..], step, expired)
    else [step(s[0])] + Pass(s[1..], step, expired)
  }

  /** The fate of the element at position i: skipped when its predecessor was
      spliced out, otherwise updated and then removed exactly when expired. */
  function FateAt<T>(s: seq<T>, step: T -> T, expired: T -> bool, i: nat): Fate
    requires i < |s|
  {
    if i > 0 && FateAt(s, step, expired, i - 1) == Removed then Skipped
    else if expired(step(s[i])) then Removed
    else Updated
  }

  /** What an element with a given fate leaves in the list. */
  function Outcome<T>(x: T, f: Fate, step: T -> T): seq<T> {
    match f
    case Updated => [step(x)]
    case Skipped => [x]
    case Removed => []
  }

  /** The outcomes of the elements from position i on, in list order. */
  function Assemble<T>(s: seq<T>, step: T -> T, expired: T -> bool, i: nat): seq<T>
    requires i <= |s|
    decreases |s| - i
  {
    if i == |s| then []
    else Outcome(s[i], FateAt(s, step, expired, i), step) + Assemble(s, step, expired, i + 1)
  }

  /** The pass leaves exactly the outcomes of the fates, in the original order. */
  lemma PassFollowsFates<T>(s: seq<T>, step: T -> T, expired: T -> bool)
    ensures Pass(s, step, expired) == Assemble(s, step, expired, 0)
  {
    PassFrom(s, step, expired, 0);
  }

  lemma {:induction false} PassFrom<T>(s: seq<T>, step: T -> T, expired: T -> bool, i: nat)
    requires i <= |s|
    requires i == 0 || i == |s| || FateAt(s, step, expired, i - 1) != Removed
    ensures Pass(s[i..], step, expired) == Assemble(s, step, expired, i)
    decreases |s| - i
  {
    if i < |s| {
      var t := s[i..];
      assert t[0] == s[i];
      if expired(step(s[i])) {
        assert FateAt(s, step, expired, i) == Removed;
        if i + 1 < |s| {
          assert FateAt(s, step, expired, i + 1) == Skipped;
          assert t[1] == s[i + 1];
          assert t[2..] == s[i + 2..];
          PassFrom(s, step, expired, i + 2);
        }
      } else {
        assert FateAt(s, step, expired, i) == Updated;
        assert t[1..] == s[i + 1..];
        PassFrom(s, step, expired, i + 1);
      }
    }
  }

  /** The fate rules spelled out: an element is skipped exactly when its
      predecessor was removed, and removed only when its update expired it. */
  lemma FateRules<T>(s: seq<T>, step: T -> T, expired: T -> bool, i: nat)
    requires i < |s|
    ensures FateAt(s, step, expired, i) == Skipped <==> i > 0 && FateAt(s, step, expired, i - 1) == Removed
    ensures FateAt(s, step, expired, i) == Removed <==>
              FateAt(s, step, expired, i) != Skipped && expired(step(s[i]))
    ensures FateAt(s, step, expired, i) == Updated ==> !expired(step(s[i]))
  {
  }

  /** No two removals are adjacent: the successor of a removed element is never itself removed. */
  lemma NoAdjacentRemovals<T>(s: seq<T>, step: T -> T, expired: T -> bool, i: nat)
    requires i + 1 < |s|
    requires FateAt(s, step, expired, i) == Removed
    ensures FateAt(s, step, expired, i + 1) == Skipped
  {
  }

  /** The element right after a removed one survives the pass unchanged, even
      when its own update would have expired it. */
  lemma SkipsSuccessor<T>(x: T, y: T, rest: seq<T>, step: T -> T, expired: T -> bool)
    requires expired(step(x))
    ensures Pass([x, y] + rest, step, expired) == [y] + Pass(rest, step, expired)
  {
    var s := [x, y] + rest;
    assert s[0] == x && s[1] == y && s[2..] == rest;
  }

  /** When no element expires, the pass is the plain map of the update. */
  lemma {:induction false} PassWithoutRemovals<T>(s: seq<T>, step: T -> T, expired: T -> bool)
    requires forall i :: 0 <= i < |s| ==> !expired(step(s[i]))
    ensures |Pass(s, step, expired)| == |s|
    ensures forall i :: 0 <= i < |s| ==> Pass(s, step, expired)[i] == step(s[i])
    decreases |s|
  {
    if |s| > 0 {
      assert !expired(step(s[0]));
      PassWithoutRemovals(s[1..], step, expired);
      var r := Pass(s[1..], step, expired);
      assert forall i :: 1 <= i < |s| ==> Pass(s, step, expired)[i] == r[i - 1];
    }
  }

  /** An invariant that every element has and that the update keeps on the
      survivors of each update holds of every element after the pass. */
  lemma {:induction false} PassKeeps<T>(s: seq<T>, step: T -> T, expired: T -> bool, inv: T -> bool)
    requires forall i :: 0 <= i < |s| ==> inv(s[i])
    requires forall x :: inv(x) && !expired(step(x)) ==> inv(step(x))
    ensures forall i :: 0 <= i < |Pass(s, step, expired)| ==> inv(Pass(s, step, expired)[i])
    decreases |s|
  {
    if |s| > 0 {
      if expired(step(s[0])) {
        if |s| > 1 {
          PassKeeps(s[2..], step, expired, inv);
          assert inv(s[1]);
        }
      } else {
        PassKeeps(s[1..], step, expired, inv);
        assert inv(step(s[0]));
      }
    }
  }

  function Min(a: int, b: int): int { if a <= b then a else b }

  /** The list after a forEach callback at index k: the element updated in
      place, then spliced out when expired. */
  function Visit<T>(s: seq<T>, k: nat, step: T -> T, expired: T -> bool): (t: seq<T>)
    requires k < |s|
    ensures |t| == |s| || |t| == |s| - 1
  {
    if expired(step(s[k])) then s[..k] + s[k + 1..] else s[..k] + [step(s[k])] + s[k + 1..]
  }

  /** The invariant of the in-place loop before its callback at index k
      over the current list `t`: what is done, followed by the pass over
      what is left, is the pass over the original list `s`. */
  ghost predicate PassLoop<T>(s: seq<T>, t: seq<T>, k: nat, step: T -> T, expired: T -> bool) {
    k <= |t| + 1
    && Pass(s, step, expired) == t[..Min(k, |t|)] + Pass(t[Min(k, |t|)..], step, expired)
  }

  lemma PassLoopStart<T>(s: seq<T>, step: T -> T, expired: T -> bool)
    ensures PassLoop(s, s, 0, step, expired)
  {
    assert s[..0] == [] && s[0..] == s;
  }

  /** One callback keeps the invariant: the loop then moves on to index k + 1
      (or stops, when the last element was just spliced out). */
  lemma PassLoopStep<T>(s: seq<T>, t: seq<T>, k: nat, step: T -> T, expired: T -> bool)
    requires PassLoop(s, t, k, step, expired) && k < |t|
    ensures PassLoop(s, Visit(t, k, step, expired), k + 1, step, expired)
  {
    PassAt(t, k, step, expired);
    var u := Visit(t, k, step, expired);
    if !expired(step(t[k])) {
      KeptPass(t, k, step, expired);
    } else if k + 1 < |t| {
      RemovedPass(t, k, step, expired);
    } else {
      LastRemovedStep(t, k, step, expired);
    }
  }

  lemma KeptPass<T>(t: seq<T>, k: nat, step: T -> T, expired: T -> bool)
    requires k < |t| && !expired(step(t[k]))
    ensures var u := Visit(t, k, step, expired);
            u[..k + 1] + Pass(u[k + 1..], step, expired)
            == t[..k] + ([step(t[k])] + Pass(t[k + 1..], step, expired))
  {
    KeptStep(t, k, step, expired);
  }

  lemma RemovedPass<T>(t: seq<T>, k: nat, step: T -> T, expired: T -> bool)
    requires k + 1 < |t| && expired(step(t[k]))
    ensures var u := Visit(t, k, step, expired);
            u[..k + 1] + Pass(u[k + 1..], step, expired)
            == t[..k] + ([t[k + 1]] + Pass(t[k + 2..], step, expired))
  {
    RemovedStep(t, k, step, expired);
  }

  /** A callback that keeps its element leaves the rest of the list in place. */
  lemma KeptStep<T>(t: seq<T>, k: nat, step: T -> T, expired: T -> bool)
    requires k < |t| && !expired(step(t[k]))
    ensures var u := Visit(t, k, step, expired);
            u[..k + 1] == t[..k] + [step(t[k])] && u[k + 1..] == t[k + 1..]
  {
    var u := Visit(t, k, step, expired);
    var done := t[..k] + [step(t[k])];
    assert u == done + t[k + 1..];
  }

  /** A callback that splices its element out moves its successor into index
      k, where the loop has already been. */
  lemma RemovedStep<T>(t: seq<T>, k: nat, step: T -> T, expired: T -> bool)
    requires k + 1 < |t| && expired(step(t[k]))
    ensures var u := Visit(t, k, step, expired);
            u[..k + 1] == t[..k] + [t[k + 1]] && u[k + 1..] == t[k + 2..]
  {
    var u := Visit(t, k, step, expired);
    var done := t[..k] + [t[k + 1]];
    assert t[k + 1..] == [t[k + 1]] + t[k + 2..];
    assert u == done + t[k + 2..];
  }

  lemma LastRemovedStep<T>(t: seq<T>, k: nat, step: T -> T, expired: T -> bool)
    requires k + 1 == |t| && expired(step(t[k]))
    ensures var u := Visit(t, k, step, expired);
            |u| == k && u[..k] == t[..k] && u[k..] == []
  {
  }

  /** When the loop stops, the list it leaves is the pass. */
  lemma PassLoopDone<T>(s: seq<T>, t: seq<T>, k: nat, step: T -> T, expired: T -> bool)
    requires PassLoop(s, t, k, step, expired) && k >= |t|
    ensures t == Pass(s, step, expired)
  {
    assert t[..|t|] == t;
    assert t[|t|..] == [];
  }

  /** Where the pass stands after handling position k of the list (as a loop sees it). */
  lemma PassAt<T>(s: seq<T>, k: nat, step: T -> T, expired: T -> bool)
    requires k < |s|
    ensures Pass(s[k..], step, expired) ==
              if expired(step(s[k])) then
                if k + 1 == |s| then [] else [s[k + 1]] + Pass(s[k + 2..], step, expired)
              else [step(s[k])] + Pass(s[k + 1..], step, expired)
  {
    var t := s[k..];
    assert t[0] == s[k];
    assert t[1..] == s[k + 1..];
    if k + 1 < |s| {
      assert t[1] == s[k + 1];
      assert t[2..] == s[k + 2..];
    }
  }

  // ---------------------------------------------------------------- what a pass emits

  /** What one pass emits, in order: each element the callback visits emits
      `emit` of itself as it was before its update; the element that slides
      into a removed slot is not visited and emits nothing. The first element
      is always visited, so its emission comes first. */
  function Emit<T, U>(s: seq<T>, step: T -> T, expired: T -> bool, emit: T -> seq<U>): (r: seq<U>)
    ensures |s| > 0 ==> emit(s[0]) <= r
    decreases |s|
  {
    if |s| == 0 then []
    else if expired(step(s[0])) then
      emit(s[0]) + (if |s| == 1 then [] else Emit(s[2..], step, expired, emit))
    else emit(s[0]) + Emit(s[1..], step, expired, emit)
  }

  /** The emissions of the elements from position i on that the pass visits. */
  function Gather<T, U>(s: seq<T>, step: T -> T, expired: T -> bool, emit: T -> seq<U>, i: nat): seq<U>
    requires i <= |s|
    decreases |s| - i
  {
    if i == |s| then []
    else (if FateAt(s, step, expired, i) == Skipped then [] else emit(s[i]))
         + Gather(s, step, expired, emit, i + 1)
  }

  /** The pass emits exactly for the elements whose fate is not Skipped, in list order. */
  lemma EmitFollowsFates<T, U>(s: seq<T>, step: T -> T, expired: T -> bool, emit: T -> seq<U>)
    ensures Emit(s, step, expired, emit) == Gather(s, step, expired, emit, 0)
  {
    EmitFrom(s, step, expired, emit, 0);
  }

  lemma {:induction false} EmitFrom<T, U>(s: seq<T>, step: T -> T, expired: T -> bool, emit: T -> seq<U>, i: nat)
    requires i <= |s|
    requires i == 0 || i == |s| || FateAt(s, step, expired, i - 1) != Removed
    ensures Emit(s[i..], step, expired, emit) == Gather(s, step, expired, emit, i)
    decreases |s| - i
  {
    if i < |s| {
      var t := s[i..];
      assert t[0] == s[i];
      if expired(step(s[i])) {
        assert FateAt(s, step, expired, i) == Removed;
        if i + 1 < |s| {
          assert FateAt(s, step, expired, i + 1) == Skipped;
          assert Gather(s, step, expired, emit, i + 1) == Gather(s, step, expired, emit, i + 2);
          assert t[2..] == s[i + 2..];
          EmitFrom(s, step, expired, emit, i + 2);
        } else {
          assert Gather(s, step, expired, emit, i + 1) == [];
        }
      } else {
        assert FateAt(s, step, expired, i) == Updated;
        assert t[1..] == s[i + 1..];
        EmitFrom(s, step, expired, emit, i + 1);
      }
    }
  }

  /** Where the emissions stand after handling position k of the list. */
  lemma EmitAt<T, U>(s: seq<T>, k: nat, step: T -> T, expired: T -> bool, emit: T -> seq<U>)
    requires k < |s|
    ensures Emit(s[k..], step, expired, emit) ==
              if expired(step(s[k])) then
                emit(s[k]) + (if k + 1 == |s| then [] else Emit(s[k + 2..], step, expired, emit))
              else emit(s[k]) + Emit(s[k + 1..], step, expired, emit)
  {
    var t := s[k..];
    assert t[0] == s[k];
    assert t[1..] == s[k + 1..];
    if k + 1 < |s| {
      assert t[2..] == s[k + 2..];
    }
  }

  /** The emission half of the in-place loop's invariant: `e`, emitted so
      far, followed by what the rest of the list emits, is what the whole
      pass over `s` emits. */
  ghost predicate EmitLoop<T, U>(s: seq<T>, t: seq<T>, k: nat, step: T -> T, expired: T -> bool,
                                 emit: T -> seq<U>, e: seq<U>) {
    Emit(s, step, expired, emit) == e + Emit(t[Min(k, |t|)..], step, expired, emit)
  }

  lemma EmitLoopStart<T, U>(s: seq<T>, step: T -> T, expired: T -> bool, emit: T -> seq<U>)
    ensures EmitLoop(s, s, 0, step, expired, emit, [])
  {
    assert s[0..] == s;
  }

  /** One callback emits `emit(t[k])` and keeps the invariant; what it emits
      fits within what the whole pass emits. */
  lemma EmitLoopStep<T, U>(s: seq<T>, t: seq<T>, k: nat, step: T -> T, expired: T -> bool,
                           emit: T -> seq<U>, e: seq<U>)
    requires EmitLoop(s, t, k, step, expired, emit, e) && k < |t|
    ensures |e| + |emit(t[k])| <= |Emit(s, step, expired, emit)|
    ensures EmitLoop(s, Visit(t, k, step, expired), k + 1, step, expired, emit, e + emit(t[k]))
  {
    EmitAt(t, k, step, expired, emit);
    var u := Visit(t, k, step, expired);
    if !expired(step(t[k])) {
      KeptStep(t, k, step, expired);
    } else if k + 1 < |t| {
      RemovedStep(t, k, step, expired);
    } else {
      LastRemovedStep(t, k, step, expired);
    }
    var rest := Emit(u[Min(k + 1, |u|)..], step, expired, emit);
    assert Emit(t[k..], step, expired, emit) == emit(t[k]) + rest;
    assert e + (emit(t[k]) + rest) == (e + emit(t[k])) + rest;
  }

  lemma EmitLoopDone<T, U>(s: seq<T>, t: seq<T>, k: nat, step: T -> T, expired: T -> bool,
                           emit: T -> seq<U>, e: seq<U>)
    requires EmitLoop(s, t, k, step, expired, emit, e) && k >= |t|
    ensures e == Emit(s, step, expired, emit)
  {
    assert t[Min(k, |t|)..] == [];
  }
}

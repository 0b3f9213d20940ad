/** The shape shared by the three retry loops of the core (download, upload and
    the resource probe): `for i in range(limit)`, each attempt answered by the
    network, the loop left at the first answer that decides the outcome.

    The network is an oracle: `answer(i)` is what attempt `i` meets. Waiting is
    recorded, not performed: a run leaves a trace of `Attempt` and `Pause` steps. */
module Retry {
  import opened Wrappers

  datatype Step = Attempt | Pause

  /** `n` attempts back to back, with no wait between them. */
  function Immediate(n: nat): (t: seq<Step>)
    ensures |t| == n
    ensures forall i :: 0 <= i < n ==> t[i] == Attempt
  {
    if n == 0 then [] else Immediate(n - 1) + [Attempt]
  }

  /** `n` attempts with one pause between each two of them and none after the last. */
  function Spaced(n: nat): (t: seq<Step>)
    ensures |t| == if n == 0 then 0 else 2 * n - 1
    ensures forall i :: 0 <= i < |t| ==> t[i] == if i % 2 == 0 then Attempt else Pause
  {
    if n <= 1 then Immediate(n) else Spaced(n - 1) + [Pause, Attempt]
  }

  /** Number of occurrences of `s` in the trace `t`. */
  function Count(t: seq<Step>, s: Step): nat {
    if t == [] then 0 else Count(t[..|t| - 1], s) + (if t[|t| - 1] == s then 1 else 0)
  }

  lemma {:induction false} CountAppend(a: seq<Step>, b: seq<Step>, s: Step)
    ensures Count(a + b, s) == Count(a, s) + Count(b, s)
    decreases |b|
  {
    if b == [] {
      assert a + b == a;
    } else {
      assert (a + b)[..|a + b| - 1] == a + b[..|b| - 1];
      CountAppend(a, b[..|b| - 1], s);
    }
  }

  /** Appending one pause and one attempt adds one of each. */
  lemma CountGapAppend(init: seq<Step>)
    ensures Count(init + [Pause, Attempt], Attempt) == Count(init, Attempt) + 1
    ensures Count(init + [Pause, Attempt], Pause) == Count(init, Pause) + 1
  {
    assert [Pause, Attempt][..1] == [Pause];
    assert [Pause][..0] == [];
    CountAppend(init, [Pause, Attempt], Attempt);
    CountAppend(init, [Pause, Attempt], Pause);
  }

  /** A spaced run of `n` attempts waits exactly `n - 1` times. */
  lemma {:induction false} SpacedCounts(n: nat)
    ensures Count(Spaced(n), Attempt) == n
    ensures Count(Spaced(n), Pause) == if n == 0 then 0 else n - 1
  {
    if n == 1 {
      assert Spaced(1) == [Attempt];
      assert [Attempt][..0] == [];
    } else if n > 1 {
      SpacedCounts(n - 1);
      CountGapAppend(Spaced(n - 1));
    }
  }

  /** An immediate run never waits. */
  lemma {:induction false} ImmediateNeverPauses(n: nat)
    ensures Count(Immediate(n), Pause) == 0
    ensures Count(Immediate(n), Attempt) == n
  {
    if n > 0 {
      ImmediateNeverPauses(n - 1);
      assert Immediate(n)[..n - 1] == Immediate(n - 1);
    }
  }

  /** The first attempt among `from .. limit - 1` whose answer satisfies `hit`. */
  function FirstHitFrom<A>(answer: nat -> A, from: nat, limit: int, hit: A -> bool): (r: Option<nat>)
    ensures r.Some? ==> from <= r.value < limit && hit(answer(r.value))
    ensures r.Some? ==> forall j :: from <= j < r.value ==> !hit(answer(j))
    ensures r.None? ==> forall j :: from <= j < limit ==> !hit(answer(j))
    decreases limit - from
  {
    if limit <= from then None
    else if hit(answer(from)) then Some(from)
    else FirstHitFrom(answer, from + 1, limit, hit)
  }

  /** The attempt that decides a retry loop of `limit` attempts, if any does:
      the first one whose answer satisfies `hit`. */
  function FirstHit<A>(answer: nat -> A, limit: int, hit: A -> bool): (r: Option<nat>)
    ensures r.Some? ==> r.value < limit && hit(answer(r.value))
    ensures r.Some? ==> forall j :: 0 <= j < r.value ==> !hit(answer(j))
    ensures r.None? ==> forall j :: 0 <= j < limit ==> !hit(answer(j))
  {
    FirstHitFrom(answer, 0, limit, hit)
  }

  /** How many attempts a loop of `limit` attempts makes when `decided` is the
      attempt that ends it early (`range(limit)` is empty when `limit <= 0`). */
  function Tries(decided: Option<nat>, limit: int): nat {
    if decided.Some? then decided.value + 1 else if limit > 0 then limit else 0
  }

  /** A retry loop makes at most `limit` attempts, at least one when `limit > 0`,
      and all `limit` of them exactly when no earlier attempt decides it. */
  lemma TriesBounded<A>(answer: nat -> A, limit: int, hit: A -> bool)
    ensures Tries(FirstHit(answer, limit, hit), limit) <= if limit > 0 then limit else 0
    ensures limit > 0 ==> Tries(FirstHit(answer, limit, hit), limit) >= 1
    ensures limit > 0 ==>
      (Tries(FirstHit(answer, limit, hit), limit) == limit <==>
        forall j :: 0 <= j < limit - 1 ==> !hit(answer(j)))
  {
    var r := FirstHit(answer, limit, hit);
    if r.Some? && r.value < limit - 1 {
      assert hit(answer(r.value));
    }
  }
}

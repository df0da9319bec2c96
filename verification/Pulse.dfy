/** Instants at which something recurs. beats[i] is Some(t) when event i of a run is such a beat,
    at instant t; other events are None. */
module Pulse {
  import opened Common

  type Beats = seq<Option<int>>

  /** The instant of the last beat in [a, i), or start if there is none. */
  function Prev(beats: Beats, a: nat, i: nat, start: int): int
    requires a <= i <= |beats|
  {
    if i == a then start else if beats[i - 1].Some? then beats[i - 1].value else Prev(beats, a, i - 1, start)
  }

  /** From start on, beats are at most d apart. */
  predicate Within(beats: Beats, a: nat, b: nat, start: int, d: int) {
    && a <= b <= |beats|
    && forall i | a <= i < b && beats[i].Some? :: beats[i].value <= Prev(beats, a, i, start) + d
  }

  /** Event x is a beat at or after due. */
  predicate Hits(beats: Beats, x: nat, due: int)
    requires x < |beats|
  {
    beats[x].Some? && beats[x].value >= due
  }

  predicate NoHit(beats: Beats, a: nat, i: nat, due: int)
    requires i <= |beats|
  {
    forall x: nat | a <= x < i :: !Hits(beats, x, due)
  }

  lemma {:induction false} PrevBeforeHit(beats: Beats, a: nat, i: nat, start: int, due: int)
    requires a <= i <= |beats| && NoHit(beats, a, i, due)
    ensures Prev(beats, a, i, start) < due || Prev(beats, a, i, start) == start
  {
    if i > a && beats[i - 1].None? {
      PrevBeforeHit(beats, a, i - 1, start, due);
    } else if i > a {
      assert !Hits(beats, i - 1, due);
    }
  }

  /** Among beats at most d apart, the first one that reaches a deadline comes less than d after
      it, or, when the deadline has passed already, at most d after the start. */
  lemma {:induction false} FirstHit(beats: Beats, a: nat, b: nat, i: nat, k: nat, start: int, d: int, due: int)
    returns (j: nat)
    requires Within(beats, a, b, start, d) && a <= i <= k < b && NoHit(beats, a, i, due) && Hits(beats, k, due)
    ensures i <= j <= k && Hits(beats, j, due) && NoHit(beats, a, j, due)
    ensures beats[j].value < due + d || (due <= start && beats[j].value <= start + d)
    decreases k - i
  {
    if Hits(beats, i, due) {
      j := i;
      PrevBeforeHit(beats, a, i, start, due);
    } else {
      j := FirstHit(beats, a, b, i + 1, k, start, d, due);
    }
  }

  /** No beat from a up to i. */
  predicate Silent(beats: Beats, a: nat, i: nat)
    requires i <= |beats|
  {
    forall x: nat | a <= x < i :: beats[x].None?
  }

  lemma {:induction false} PrevFrom(beats: Beats, x: nat, a: nat, i: nat, start: int)
    requires x <= a <= i <= |beats| && Silent(beats, x, a)
    ensures Prev(beats, x, i, start) == Prev(beats, a, i, start)
    decreases i
  {
    if a < i && beats[i - 1].None? {
      PrevFrom(beats, x, a, i - 1, start);
    } else if x < a == i {
      PrevFrom(beats, x, a - 1, a - 1, start);
    }
  }

  /** Silence at the beginning may be left out. */
  lemma WithinFrom(beats: Beats, x: nat, a: nat, b: nat, start: int, d: int)
    requires x <= a <= b && Within(beats, x, b, start, d) && Silent(beats, x, a)
    ensures Within(beats, a, b, start, d)
  {
    forall i | a <= i < b && beats[i].Some?
      ensures beats[i].value <= Prev(beats, a, i, start) + d
    {
      PrevFrom(beats, x, a, i, start);
    }
  }

  /** The first beat comes at most d after the start. */
  lemma {:induction false} FirstBeat(beats: Beats, a: nat, b: nat, i: nat, k: nat, start: int, d: int) returns (j: nat)
    requires Within(beats, a, b, start, d) && a <= i <= k < b && Silent(beats, a, i) && beats[k].Some?
    ensures i <= j <= k && beats[j].Some? && beats[j].value <= start + d
    decreases k - i
  {
    if beats[i].Some? {
      j := i;
      PrevFrom(beats, a, i, i, start);
    } else {
      j := FirstBeat(beats, a, b, i + 1, k, start, d);
    }
  }
}

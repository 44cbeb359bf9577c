/** The discrete part of turning a pointer position into a placement: the
    beat snapped to the quarter-beat grid and clamped into the measure, and
    the staff position closest to the pointer with its pitch name. Beats are
    counted in quarter-beats, as in module Durations. */
module Placement {

  /** The pitch names of the nine staff positions, top line to bottom line. */
  const NoteNames: seq<string> := ["f/5", "e/5", "d/5", "c/5", "b/4", "a/4", "g/4", "f/4", "e/4"]

  /** The name of staff position `index`, falling back to "b/4" for an index
      the table does not cover. */
  function NoteNameFor(index: int): (name: string)
    ensures name in NoteNames
    ensures 0 <= index < |NoteNames| ==> name == NoteNames[index]
  {
    if 0 <= index < |NoteNames| then NoteNames[index] else "b/4"
  }

  /** The raw beat, given in quarter-beats as num/den (den > 0), rounded to
      the nearest quarter-beat with halves rounding up: the result q
      satisfies q - 1/2 <= num/den < q + 1/2. */
  function Snap(num: int, den: int): (q: int)
    requires den > 0
    ensures 2 * den * q - den <= 2 * num < 2 * den * q + den
  {
    (2 * num + den) / (2 * den)
  }

  /** A quarter-beat clamped to [0, beats - 1], i.e. to the last quarter-beat
      that still starts inside a measure of `beats` quarter-beats. */
  function Clamp(q: int, beats: nat): (c: int)
    requires beats > 0
    ensures 0 <= c < beats
    ensures 0 <= q < beats ==> c == q
    ensures q < 0 ==> c == 0
    ensures q >= beats ==> c == beats - 1
  {
    if q < 0 then 0 else if q > beats - 1 then beats - 1 else q
  }

  function Abs(x: int): nat
  {
    if x < 0 then -x else x
  }

  /** Position `index` is the first of the candidates closest to y. */
  predicate IsFirstClosest(candidates: seq<int>, y: int, index: nat)
  {
    index < |candidates| &&
    (forall j :: 0 <= j < |candidates| ==> Abs(candidates[index] - y) <= Abs(candidates[j] - y)) &&
    (forall j :: 0 <= j < index ==> Abs(candidates[index] - y) < Abs(candidates[j] - y))
  }

  /** The scan for the closest candidate: a later candidate replaces the one
      kept so far only when it is strictly closer. */
  method ClosestCandidate(candidates: seq<int>, y: int) returns (index: nat)
    requires |candidates| > 0
    ensures IsFirstClosest(candidates, y, index)
  {
    var closest := candidates[0];
    index := 0;
    for i := 1 to |candidates|
      invariant index < i && closest == candidates[index]
      invariant forall j :: 0 <= j < i ==> Abs(closest - y) <= Abs(candidates[j] - y)
      invariant forall j :: 0 <= j < index ==> Abs(closest - y) < Abs(candidates[j] - y)
    {
      if Abs(candidates[i] - y) < Abs(closest - y) {
        closest := candidates[i];
        index := i;
      }
    }
  }

  /** There is one first-closest position. */
  lemma FirstClosestUnique(candidates: seq<int>, y: int, i: nat, j: nat)
    requires IsFirstClosest(candidates, y, i) && IsFirstClosest(candidates, y, j)
    ensures i == j
  {
    assert Abs(candidates[i] - y) <= Abs(candidates[j] - y);
    assert Abs(candidates[j] - y) <= Abs(candidates[i] - y);
  }
}

/** The measure as a value: an ordered list of rest and note entries whose
    beat lengths tile the measure, how a reset fills it and how a note is
    inserted at a beat. Beats are counted in quarter-beats, as in module
    Durations. */
module Measure {
  import opened Durations

  /** A pitch token such as "c/4" (letter and octave). */
  type Pitch = string

  datatype Entry = Rest(dur: Duration) | Note(pitch: Pitch, dur: Duration)

  function Beats(e: Entry): nat
  {
    Length(e.dur)
  }

  /** The total beat length of a list of entries. */
  function Total(es: seq<Entry>): nat
  {
    if es == [] then 0 else Beats(es[0]) + Total(es[1..])
  }

  /** The start beat of entry k: the length of the entries before it. */
  function Start(es: seq<Entry>, k: nat): int
    requires k <= |es|
  {
    Total(es[..k])
  }

  /** Each duration wrapped as a rest entry, in order. */
  function Rests(ds: seq<Duration>): (es: seq<Entry>)
    ensures |es| == |ds|
    ensures forall i :: 0 <= i < |ds| ==> es[i] == Rest(ds[i])
  {
    if ds == [] then [] else [Rest(ds[0])] + Rests(ds[1..])
  }

  lemma {:induction false} TotalConcat(a: seq<Entry>, b: seq<Entry>)
    ensures Total(a + b) == Total(a) + Total(b)
  {
    if a == [] {
      assert a + b == b;
    } else {
      assert (a + b)[1..] == a[1..] + b;
      TotalConcat(a[1..], b);
    }
  }

  lemma {:induction false} TotalRests(ds: seq<Duration>)
    ensures Total(Rests(ds)) == SumLengths(ds)
  {
    if ds != [] {
      assert Rests(ds)[1..] == Rests(ds[1..]);
      TotalRests(ds[1..]);
    }
  }

  /** The entries of a freshly reset measure of `beats` quarter-beats. */
  function ResetEntries(beats: nat): seq<Entry>
  {
    Rests(Split(beats))
  }

  /** One step of the reset loop: the longest rest that fits comes first. */
  lemma ResetEntriesStep(beats: nat)
    requires beats > 0
    ensures Length(Largest(beats)) <= beats
    ensures ResetEntries(beats) == [Rest(Largest(beats))] + ResetEntries(beats - Length(Largest(beats)))
  {
    var d := Largest(beats);
    assert Split(beats) == [d] + Split(beats - Length(d));
    assert Split(beats)[1..] == Split(beats - Length(d));
  }

  /** One step of a loop that builds the reset entries rest by rest: after
      the longest rest that fits, what remains is the reset of the rest. */
  lemma ResetLoopStep(done: seq<Entry>, remaining: nat, beats: nat, d: Duration)
    requires remaining > 0 && d == Largest(remaining)
    requires done + ResetEntries(remaining) == ResetEntries(beats)
    ensures Length(d) <= remaining
    ensures (done + [Rest(d)]) + ResetEntries(remaining - Length(d)) == ResetEntries(beats)
  {
    ResetEntriesStep(remaining);
    var later := ResetEntries(remaining - Length(d));
    assert (done + [Rest(d)]) + later == done + ([Rest(d)] + later);
  }

  /** A reset measure holds only rests, longest first, and they add up to the
      measure's length; a 4-beat measure is a single whole rest. */
  lemma ResetEntriesTile(beats: nat)
    ensures Total(ResetEntries(beats)) == beats
    ensures forall i :: 0 <= i < |ResetEntries(beats)| ==> ResetEntries(beats)[i].Rest?
    ensures forall i, j :: 0 <= i < j < |ResetEntries(beats)| ==>
      Beats(ResetEntries(beats)[j]) <= Beats(ResetEntries(beats)[i])
    ensures beats == 16 ==> ResetEntries(beats) == [Rest(Whole)]
  {
    TotalRests(Split(beats));
    SplitSum(beats);
    SplitNonIncreasing(beats);
  }

  /** What the entry that contains the target, starting at beat `start`,
      becomes when a note of `dur` is inserted at `target`: kept when the note
      would overflow it; otherwise rests for the gap before the note, the
      note, and rests for what is left of the entry's span. */
  function Insert(e: Entry, start: int, target: int, pitch: Pitch, dur: Duration): seq<Entry>
  {
    if (target - start) + Length(dur) > Beats(e) then [e]
    else Rests(Split(target - start)) + [Note(pitch, dur)]
         + Rests(Split(Beats(e) - Length(dur) - (target - start)))
  }

  /** Insert with the note fixed, as a function of the entry and its start. */
  function InsertAt(target: int, pitch: Pitch, dur: Duration): (Entry, int) -> seq<Entry>
  {
    (e: Entry, start: int) => Insert(e, start, target, pitch, dur)
  }

  /** The insertion scan over entries that start at beat `start`: an entry
      whose span contains the target becomes `f` of it and its start; every
      other entry is carried over. The scan takes the rewrite `f` as a
      parameter only so that the lemmas about its structure do not unfold
      Insert; Replace always passes InsertAt. */
  function ScanFrom(es: seq<Entry>, start: int, target: int, f: (Entry, int) -> seq<Entry>): seq<Entry>
  {
    if es == [] then []
    else (if start <= target < start + Beats(es[0]) then f(es[0], start) else [es[0]])
         + ScanFrom(es[1..], start + Beats(es[0]), target, f)
  }

  /** One step of a loop that builds the scan's result piece by piece. */
  lemma ScanLoopStep(done: seq<Entry>, es: seq<Entry>, i: nat, start: int, target: int,
                     f: (Entry, int) -> seq<Entry>, piece: seq<Entry>, r: seq<Entry>)
    requires i < |es|
    requires piece == if start <= target < start + Beats(es[i]) then f(es[i], start) else [es[i]]
    requires done + ScanFrom(es[i..], start, target, f) == r
    ensures (done + piece) + ScanFrom(es[i + 1..], start + Beats(es[i]), target, f) == r
  {
    var rest := ScanFrom(es[i + 1..], start + Beats(es[i]), target, f);
    assert es[i..][0] == es[i] && es[i..][1..] == es[i + 1..];
    assert ScanFrom(es[i..], start, target, f) == piece + rest;
    assert (done + piece) + rest == done + (piece + rest);
  }

  /** Inserting a note of `dur` and `pitch` at beat `target` of a measure. */
  function Replace(es: seq<Entry>, target: int, pitch: Pitch, dur: Duration): seq<Entry>
  {
    ScanFrom(es, 0, target, InsertAt(target, pitch, dur))
  }

  /** The replacement of the containing entry has the length of the entry. */
  lemma InsertKeepsLength(e: Entry, start: int, target: int, pitch: Pitch, dur: Duration)
    requires start <= target
    ensures Total(Insert(e, start, target, pitch, dur)) == Beats(e)
  {
    if (target - start) + Length(dur) <= Beats(e) {
      var before := Split(target - start);
      var after := Split(Beats(e) - Length(dur) - (target - start));
      TotalConcat(Rests(before), [Note(pitch, dur)]);
      TotalConcat(Rests(before) + [Note(pitch, dur)], Rests(after));
      TotalRests(before);
      TotalRests(after);
      SplitSum(target - start);
      SplitSum(Beats(e) - Length(dur) - (target - start));
    } else {
      assert [e][1..] == [];
    }
  }

  /** Insertion keeps the measure's total length, on the overflow path and on
      the split path alike. */
  lemma {:induction false} ReplaceKeepsTotal(es: seq<Entry>, start: int, target: int, pitch: Pitch, dur: Duration)
    ensures Total(ScanFrom(es, start, target, InsertAt(target, pitch, dur))) == Total(es)
  {
    if es != [] {
      var f := InsertAt(target, pitch, dur);
      var head := if start <= target < start + Beats(es[0]) then f(es[0], start) else [es[0]];
      if start <= target < start + Beats(es[0]) {
        InsertKeepsLength(es[0], start, target, pitch, dur);
      } else {
        assert [es[0]][1..] == [];
      }
      ReplaceKeepsTotal(es[1..], start + Beats(es[0]), target, pitch, dur);
      TotalConcat(head, ScanFrom(es[1..], start + Beats(es[0]), target, f));
    }
  }

  /** A target outside the span the entries cover changes nothing. */
  lemma {:induction false} ScanOutside(es: seq<Entry>, start: int, target: int, f: (Entry, int) -> seq<Entry>)
    requires target < start || start + Total(es) <= target
    ensures ScanFrom(es, start, target, f) == es
  {
    if es != [] {
      ScanOutside(es[1..], start + Beats(es[0]), target, f);
      assert [es[0]] + es[1..] == es;
    }
  }

  lemma StartNext(es: seq<Entry>, k: nat)
    requires k < |es|
    ensures Start(es, k + 1) == Start(es, k) + Beats(es[k])
  {
    assert es[..k + 1] == es[..k] + [es[k]];
    TotalConcat(es[..k], [es[k]]);
  }

  /** Start beats strictly increase along the measure. */
  lemma {:induction false} StartIncreasing(es: seq<Entry>, i: nat, j: nat)
    requires i < j <= |es|
    ensures Start(es, i) + Beats(es[i]) <= Start(es, j)
    decreases j - i
  {
    StartNext(es, i);
    if i + 1 < j {
      StartIncreasing(es, i + 1, j);
    }
  }

  /** The span of entry k of es. */
  predicate Contains(es: seq<Entry>, k: nat, target: int)
    requires k < |es|
  {
    Start(es, k) <= target < Start(es, k) + Beats(es[k])
  }

  /** At most one entry's span contains a beat. */
  lemma ContainingEntryUnique(es: seq<Entry>, i: nat, j: nat, target: int)
    requires i < |es| && j < |es|
    requires Contains(es, i, target) && Contains(es, j, target)
    ensures i == j
  {
    if i < j {
      StartIncreasing(es, i, j);
    } else if j < i {
      StartIncreasing(es, j, i);
    }
  }

  /** The entry whose span contains a beat inside the measure. */
  function Locate(es: seq<Entry>, target: int): (k: nat)
    requires 0 <= target < Total(es)
    ensures k < |es| && Contains(es, k, target)
  {
    if target < Beats(es[0]) then
      StartNext(es, 0);
      assert es[..0] == [];
      0
    else
      var k' := Locate(es[1..], target - Beats(es[0]));
      assert es[..k' + 1] == [es[0]] + es[1..][..k'];
      assert es[..k' + 2] == [es[0]] + es[1..][..k' + 1];
      TotalConcat([es[0]], es[1..][..k']);
      TotalConcat([es[0]], es[1..][..k' + 1]);
      StartNext(es[1..], k');
      k' + 1
  }

  /** The start of entry k > 0 is the first entry's length plus its start
      among the entries after the first. */
  lemma StartFirst(es: seq<Entry>, k: nat)
    requires 0 < k <= |es|
    ensures Start(es, k) == Beats(es[0]) + Start(es[1..], k - 1)
  {
    assert es[..k][0] == es[0];
    assert es[..k][1..] == es[1..][..k - 1];
  }

  /** The scan hands exactly the entry that contains the target to `f` and
      carries every other entry over unchanged and in order. */
  lemma {:induction false} ScanAt(es: seq<Entry>, start: int, k: nat, target: int, f: (Entry, int) -> seq<Entry>)
    requires k < |es|
    requires start + Start(es, k) <= target < start + Start(es, k) + Beats(es[k])
    ensures ScanFrom(es, start, target, f) == es[..k] + f(es[k], start + Start(es, k)) + es[k + 1..]
    decreases k
  {
    var next := start + Beats(es[0]);
    if k == 0 {
      assert es[..0] == [];
      ScanOutside(es[1..], next, target, f);
    } else {
      StartFirst(es, k);
      StartIncreasing(es, 0, k);
      assert es[..0] == [];
      var tail := ScanFrom(es[1..], next, target, f);
      assert ScanFrom(es, start, target, f) == [es[0]] + tail;
      ScanAt(es[1..], next, k - 1, target, f);
      var y := f(es[k], start + Start(es, k));
      assert es[1..][k - 1] == es[k];
      assert tail == es[1..][..k - 1] + y + es[1..][k..];
      assert es[1..][k..] == es[k + 1..];
      assert [es[0]] + es[1..][..k - 1] == es[..k];
      assert [es[0]] + (es[1..][..k - 1] + y + es[k + 1..]) == ([es[0]] + es[1..][..k - 1]) + y + es[k + 1..];
    }
  }

  /** A target outside the measure leaves the measure unchanged. */
  lemma InsertOutsideKeeps(es: seq<Entry>, target: int, pitch: Pitch, dur: Duration)
    requires target < 0 || Total(es) <= target
    ensures Replace(es, target, pitch, dur) == es
  {
    ScanOutside(es, 0, target, InsertAt(target, pitch, dur));
  }

  /** A note that would overflow the entry containing the target leaves the
      measure unchanged. */
  lemma InsertOverflowKeeps(es: seq<Entry>, k: nat, target: int, pitch: Pitch, dur: Duration)
    requires k < |es| && Contains(es, k, target)
    requires (target - Start(es, k)) + Length(dur) > Beats(es[k])
    ensures Replace(es, target, pitch, dur) == es
  {
    ScanAt(es, 0, k, target, InsertAt(target, pitch, dur));
    assert es[..k] + [es[k]] + es[k + 1..] == es;
  }

  /** Insertion hands the entry k that contains the target to Insert and
      carries every other entry over unchanged and in order. */
  lemma InsertReplacesEntry(es: seq<Entry>, k: nat, target: int, pitch: Pitch, dur: Duration)
    requires k < |es| && Contains(es, k, target)
    ensures Replace(es, target, pitch, dur)
         == es[..k] + Insert(es[k], Start(es, k), target, pitch, dur) + es[k + 1..]
  {
    var f := InsertAt(target, pitch, dur);
    ScanAt(es, 0, k, target, f);
    assert f(es[k], Start(es, k)) == Insert(es[k], Start(es, k), target, pitch, dur);
  }

  /** Building a fitting insertion from its three parts: the rests before
      the note, left out when the gap is empty, the note, and the rests
      after it, left out when nothing is left over. */
  lemma InsertFromParts(e: Entry, start: int, target: int, pitch: Pitch, dur: Duration,
                        before: seq<Entry>, after: seq<Entry>)
    requires start <= target && (target - start) + Length(dur) <= Beats(e)
    requires start < target ==> before == Rests(Split(target - start))
    requires start == target ==> before == []
    requires Beats(e) - Length(dur) - (target - start) > 0 ==>
               after == Rests(Split(Beats(e) - Length(dur) - (target - start)))
    requires Beats(e) - Length(dur) - (target - start) == 0 ==> after == []
    ensures before + [Note(pitch, dur)] + after == Insert(e, start, target, pitch, dur)
  {
    SplitSum(target - start);
    SplitSum(Beats(e) - Length(dur) - (target - start));
    assert Insert(e, start, target, pitch, dur)
        == Rests(Split(target - start)) + [Note(pitch, dur)]
           + Rests(Split(Beats(e) - Length(dur) - (target - start)));
  }

  /** Within the replacement of the containing entry, the note comes right
      after the Split(gap) rests, and so starts gap beats into the entry. */
  lemma InsertNoteAtGap(e: Entry, start: int, target: int, pitch: Pitch, dur: Duration)
    requires start <= target && (target - start) + Length(dur) <= Beats(e)
    ensures var i := |Split(target - start)|;
            var p := Insert(e, start, target, pitch, dur);
            i < |p| && p[i] == Note(pitch, dur) && Total(p[..i]) == target - start
  {
    var before := Rests(Split(target - start));
    var p := Insert(e, start, target, pitch, dur);
    assert Insert(e, start, target, pitch, dur)
        == Rests(Split(target - start)) + [Note(pitch, dur)]
           + Rests(Split(Beats(e) - Length(dur) - (target - start)));
    assert |before| == |Split(target - start)|;
    assert p[..|before|] == before;
    TotalRests(Split(target - start));
    SplitSum(target - start);
  }

  /** An index into the middle part of pre + p + post. */
  lemma SpliceIndex(r: seq<Entry>, pre: seq<Entry>, p: seq<Entry>, post: seq<Entry>, i: nat)
    requires r == pre + p + post && i < |p|
    ensures |pre| + i < |r| && r[|pre| + i] == p[i]
    ensures Start(r, |pre| + i) == Total(pre) + Total(p[..i])
  {
    assert r[..|pre| + i] == pre + p[..i];
    TotalConcat(pre, p[..i]);
  }

  /** The inserted note starts exactly at the target beat. */
  lemma InsertedNoteStartsAtTarget(es: seq<Entry>, k: nat, target: int, pitch: Pitch, dur: Duration)
    requires k < |es| && Contains(es, k, target)
    requires (target - Start(es, k)) + Length(dur) <= Beats(es[k])
    ensures var j := k + |Split(target - Start(es, k))|;
            var r := Replace(es, target, pitch, dur);
            j < |r| && r[j] == Note(pitch, dur) && Start(r, j) == target
  {
    var s := Start(es, k);
    InsertReplacesEntry(es, k, target, pitch, dur);
    InsertNoteAtGap(es[k], s, target, pitch, dur);
    SpliceIndex(Replace(es, target, pitch, dur), es[..k], Insert(es[k], s, target, pitch, dur), es[k + 1..],
                |Split(target - s)|);
  }

  /** Every beat of the measure lies in exactly one entry, so the three
      lemmas above cover every insertion. */
  lemma ContainingEntryExactlyOne(es: seq<Entry>, target: int)
    requires 0 <= target < Total(es)
    ensures exists k :: 0 <= k < |es| && Contains(es, k, target)
    ensures forall i, j :: 0 <= i < |es| && 0 <= j < |es| && Contains(es, i, target) && Contains(es, j, target) ==> i == j
  {
    var k := Locate(es, target);
    forall i, j | 0 <= i < |es| && 0 <= j < |es| && Contains(es, i, target) && Contains(es, j, target)
      ensures i == j
    {
      ContainingEntryUnique(es, i, j, target);
    }
  }

  /** A quarter note at beat 1 of a whole rest splits it into a quarter rest,
      the note and a half rest. */
  lemma QuarterAtBeatOne(pitch: Pitch)
    ensures Replace([Rest(Whole)], 4, pitch, Quarter) == [Rest(Quarter), Note(pitch, Quarter), Rest(Half)]
  {
  }

  /** A 4/4 measure: reset, a quarter note at beat 1, an eighth note at the
      downbeat, then a whole note at beat 3.75, which overflows. */
  lemma CommonTimeScenario()
    ensures ResetEntries(16) == [Rest(Whole)]
    ensures Replace([Rest(Whole)], 4, "c/4", Quarter)
         == [Rest(Quarter), Note("c/4", Quarter), Rest(Half)]
    ensures Replace([Rest(Quarter), Note("c/4", Quarter), Rest(Half)], 0, "e/4", Eighth)
         == [Note("e/4", Eighth), Rest(Eighth), Note("c/4", Quarter), Rest(Half)]
    ensures Replace([Note("e/4", Eighth), Rest(Eighth), Note("c/4", Quarter), Rest(Half)], 15, "g/4", Whole)
         == [Note("e/4", Eighth), Rest(Eighth), Note("c/4", Quarter), Rest(Half)]
  {
  }
}

/** The duration table and the greedy duration splitter.

    Beat lengths are counted in quarter-beats (sixteenth notes), so that every
    length the editor produces is an integer: a whole note is 16, a half 8, a
    quarter 4, an eighth 2 and a sixteenth 1. With integers the splitter's
    floating-point tolerance and its rounding to four decimals are not needed:
    comparison and subtraction are exact. */
module Durations {
  import opened Wrappers

  datatype Duration = Whole | Half | Quarter | Eighth | Sixteenth

  /** The beat length of a duration, in quarter-beats. */
  function Length(d: Duration): (n: nat)
    ensures 1 <= n <= 16 && 16 % n == 0
  {
    match d
    case Whole => 16
    case Half => 8
    case Quarter => 4
    case Eighth => 2
    case Sixteenth => 1
  }

  /** The symbol the editor uses for a duration (the keys of its table). */
  function Symbol(d: Duration): (s: string)
    ensures s in ["w", "h", "q", "8", "16"]
  {
    match d
    case Whole => "w"
    case Half => "h"
    case Quarter => "q"
    case Eighth => "8"
    case Sixteenth => "16"
  }

  /** Looking a symbol up in the duration table; an unknown symbol has no
      entry. */
  function FromSymbol(s: string): (r: Option<Duration>)
    ensures r.Some? ==> Symbol(r.value) == s
    ensures r.None? ==> forall d: Duration :: Symbol(d) != s
  {
    if s == "w" then Some(Whole)
    else if s == "h" then Some(Half)
    else if s == "q" then Some(Quarter)
    else if s == "8" then Some(Eighth)
    else if s == "16" then Some(Sixteenth)
    else None
  }

  lemma SymbolRoundTrip(d: Duration)
    ensures FromSymbol(Symbol(d)) == Some(d)
  {
  }

  /** The splitter's fixed table, longest to shortest. */
  const Allowed: seq<Duration> := [Whole, Half, Quarter, Eighth, Sixteenth]

  /** The table lists every duration once, strictly decreasing in length, and
      each length divides the one before it: the chain that lets the greedy
      splitter cover every remainder exactly. */
  lemma AllowedIsDivisibilityChain()
    ensures |Allowed| == 5
    ensures forall d: Duration :: d in Allowed
    ensures forall i, j :: 0 <= i < j < |Allowed| ==> Allowed[i] != Allowed[j]
    ensures forall i :: 0 < i < |Allowed| ==>
      Length(Allowed[i]) < Length(Allowed[i - 1]) &&
      Length(Allowed[i - 1]) % Length(Allowed[i]) == 0
    ensures Length(Allowed[|Allowed| - 1]) == 1
  {
    forall d: Duration ensures d in Allowed {
      match d
      case Whole => assert Allowed[0] == d;
      case Half => assert Allowed[1] == d;
      case Quarter => assert Allowed[2] == d;
      case Eighth => assert Allowed[3] == d;
      case Sixteenth => assert Allowed[4] == d;
    }
  }

  /** The longest duration that fits in a positive remainder (the sixteenth
      when nothing fits). */
  function Largest(r: int): (d: Duration)
    ensures r >= 1 ==> Length(d) <= r
    ensures r < 2 * Length(d) || d == Whole
  {
    if r >= 16 then Whole
    else if r >= 8 then Half
    else if r >= 4 then Quarter
    else if r >= 2 then Eighth
    else Sixteenth
  }

  /** Largest(r) is the longest duration that fits in r. */
  lemma LargestIsLongestFitting(r: int, e: Duration)
    requires Length(e) <= r
    ensures Length(e) <= Length(Largest(r))
  {
  }

  /** The greedy decomposition of a remainder, longest durations first. A
      remainder that is zero or negative gives no durations. */
  function Split(r: int): seq<Duration>
    decreases r
  {
    if r <= 0 then [] else [Largest(r)] + Split(r - Length(Largest(r)))
  }

  function SumLengths(ds: seq<Duration>): int
  {
    if ds == [] then 0 else Length(ds[0]) + SumLengths(ds[1..])
  }

  lemma {:induction false} SumLengthsConcat(a: seq<Duration>, b: seq<Duration>)
    ensures SumLengths(a + b) == SumLengths(a) + SumLengths(b)
  {
    if a == [] {
      assert a + b == b;
    } else {
      assert (a + b)[1..] == a[1..] + b;
      SumLengthsConcat(a[1..], b);
    }
  }

  /** The splitter covers a non-negative remainder exactly, and gives the
      empty list exactly when there is nothing to cover. */
  lemma {:induction false} SplitSum(r: int)
    ensures SumLengths(Split(r)) == if r > 0 then r else 0
    ensures Split(r) == [] <==> r <= 0
  {
    if r > 0 {
      var d := Largest(r);
      SplitSum(r - Length(d));
      assert Split(r)[1..] == Split(r - Length(d));
    }
  }

  /** Every duration of Split(r) is at most the longest one that fits in r. */
  lemma {:induction false} SplitBoundedBy(r: int)
    ensures forall i :: 0 <= i < |Split(r)| ==> Length(Split(r)[i]) <= Length(Largest(r))
  {
    if r > 0 {
      var d := Largest(r);
      var rest := r - Length(d);
      SplitBoundedBy(rest);
      assert Split(r) == [d] + Split(rest);
      assert Length(Largest(rest)) <= Length(d);
    }
  }

  /** The splitter's output is non-increasing in length. */
  lemma {:induction false} SplitNonIncreasing(r: int)
    ensures forall i, j :: 0 <= i < j < |Split(r)| ==> Length(Split(r)[j]) <= Length(Split(r)[i])
  {
    if r > 0 {
      var d := Largest(r);
      var rest := r - Length(d);
      SplitNonIncreasing(rest);
      SplitBoundedBy(rest);
      assert Split(r) == [d] + Split(rest);
      assert Length(Largest(rest)) <= Length(d);
      forall i, j | 0 <= i < j < |Split(r)|
        ensures Length(Split(r)[j]) <= Length(Split(r)[i])
      {
        if i > 0 {
          assert Split(r)[i] == Split(rest)[i - 1];
        }
        assert Split(r)[j] == Split(rest)[j - 1];
      }
    }
  }

  /** Only a whole duration can repeat in the splitter's output: each shorter
      duration occurs at most once. */
  lemma {:induction false} SplitShortDurationsOnce(r: int)
    ensures forall i, j :: 0 <= i < j < |Split(r)| && Split(r)[i] == Split(r)[j] ==> Split(r)[i] == Whole
  {
    if r > 0 {
      var d := Largest(r);
      var rest := r - Length(d);
      SplitShortDurationsOnce(rest);
      SplitBoundedBy(rest);
      assert Split(r) == [d] + Split(rest);
      if d != Whole && rest > 0 {
        assert rest < Length(d);
        assert Length(Largest(rest)) < Length(d);
      }
      forall i, j | 0 <= i < j < |Split(r)| && Split(r)[i] == Split(r)[j]
        ensures Split(r)[i] == Whole
      {
        assert Split(r)[j] == Split(rest)[j - 1];
        if i > 0 {
          assert Split(r)[i] == Split(rest)[i - 1];
        }
      }
    }
  }

  /** Where the table loop stands: while the remainder is below the length of
      the entry before `i` and at least that of entry `i`, the greedy choice is
      entry `i`. */
  lemma LargestAt(r: int, i: nat)
    requires i < |Allowed| && Length(Allowed[i]) <= r
    requires i > 0 ==> r < Length(Allowed[i - 1])
    ensures Largest(r) == Allowed[i]
  {
  }

  /** The splitter as the editor runs it: for each table entry, longest
      first, emit it while it still fits in what remains. */
  method SplitDuration(remainder: int) returns (durations: seq<Duration>)
    ensures durations == Split(remainder)
  {
    durations := [];
    var remaining := remainder;
    for i := 0 to |Allowed|
      invariant durations + Split(remaining) == Split(remainder)
      invariant i > 0 ==> remaining < Length(Allowed[i - 1])
    {
      var d := Allowed[i];
      while remaining >= Length(d)
        invariant durations + Split(remaining) == Split(remainder)
        invariant i > 0 ==> remaining < Length(Allowed[i - 1])
        decreases remaining
      {
        LargestAt(remaining, i);
        assert Split(remaining) == [d] + Split(remaining - Length(d));
        durations := durations + [d];
        remaining := remaining - Length(d);
      }
    }
    assert Split(remaining) == [];
  }
}

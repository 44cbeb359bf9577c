/** The editor's state: one measure of entries, its meter, and the hover
    state that a click turns into an insertion. Beats are counted in
    quarter-beats, as in module Durations. */
module Editor {
  import opened Wrappers
  import opened Durations
  import opened Measure
  import opened Placement

  class SheetMusicEditor {
    var notes: seq<Entry>
    /** The meter's denominator; only rendering reads it. */
    var beatValue: nat
    var beatsPerMeasure: nat
    var currentBeats: int
    /** The snapped beat under the pointer, if any. */
    var hoverBeat: Option<int>
    /** The pitch name of the staff position under the pointer, if any. */
    var hoverNoteName: Option<Pitch>

    /** The entries tile the measure exactly, the running count agrees, and
        a pending placement names a beat inside the measure and a staff
        pitch. */
    ghost predicate Valid()
      reads this
    {
      beatsPerMeasure > 0 &&
      Total(notes) == beatsPerMeasure && currentBeats == beatsPerMeasure &&
      hoverBeat.Some? == hoverNoteName.Some? &&
      (hoverBeat.Some? ==> 0 <= hoverBeat.value < beatsPerMeasure) &&
      (hoverNoteName.Some? ==> hoverNoteName.value in NoteNames)
    }

    /** A new editor: one 4/4 measure (16 quarter-beats) filled with rests,
        which is a single whole rest, and no pending placement. */
    constructor ()
      ensures Valid()
      ensures beatsPerMeasure == 16 && beatValue == 4
      ensures notes == ResetEntries(16) == [Rest(Whole)]
      ensures hoverBeat == None && hoverNoteName == None
    {
      beatsPerMeasure := 16;
      beatValue := 4;
      notes := [];
      currentBeats := 0;
      hoverBeat := None;
      hoverNoteName := None;
      new;
      InitializeWithRests();
      ResetEntriesTile(16);
    }

    /** Fill the whole measure with rests, longest first. The old entries and
        count are discarded first, so the result depends on the measure's
        length alone. */
    method InitializeWithRests()
      modifies this`notes, this`currentBeats
      ensures notes == ResetEntries(beatsPerMeasure)
      ensures forall i :: 0 <= i < |notes| ==> notes[i].Rest?
      ensures currentBeats == beatsPerMeasure == Total(notes)
    {
      var measureBeats := beatsPerMeasure;
      var newNotes: seq<Entry> := [];
      var beats := 0;
      var remainingBeats: int := measureBeats;
      while remainingBeats > 0
        invariant 0 <= remainingBeats
        invariant newNotes + ResetEntries(remainingBeats) == ResetEntries(measureBeats)
        invariant beats + remainingBeats == measureBeats
        decreases remainingBeats
      {
        var restDuration;
        if remainingBeats >= 16 {
          restDuration := Whole;
        } else if remainingBeats >= 8 {
          restDuration := Half;
        } else if remainingBeats >= 4 {
          restDuration := Quarter;
        } else if remainingBeats >= 2 {
          restDuration := Eighth;
        } else {
          restDuration := Sixteenth;
        }
        ResetLoopStep(newNotes, remainingBeats, measureBeats, restDuration);
        newNotes := newNotes + [Rest(restDuration)];
        remainingBeats := remainingBeats - Length(restDuration);
        beats := beats + Length(restDuration);
      }
      assert ResetEntries(0) == [];
      assert newNotes == ResetEntries(measureBeats);
      ResetEntriesTile(measureBeats);
      notes := newNotes;
      currentBeats := beats;
    }

    /** The reset button: the measure goes back to rests only. */
    method ResetMeasure()
      requires Valid()
      modifies this`notes, this`currentBeats
      ensures Valid()
      ensures notes == ResetEntries(beatsPerMeasure)
    {
      InitializeWithRests();
    }

    /** Insert a note of `duration` and pitch `noteName` at `targetBeat`,
        scanning the entries with a running start beat. */
    method ReplaceNoteAtPosition(targetBeat: int, noteName: Pitch, duration: Duration)
      requires Valid()
      modifies this`notes
      ensures Valid()
      ensures notes == Replace(old(notes), targetBeat, noteName, duration)
    {
      var es := notes;
      var f := InsertAt(targetBeat, noteName, duration);
      var newNotes: seq<Entry> := [];
      var currentBeat := 0;
      for i := 0 to |es|
        invariant newNotes + ScanFrom(es[i..], currentBeat, targetBeat, f) == Replace(es, targetBeat, noteName, duration)
      {
        var note := es[i];
        var noteBeatValue := Beats(note);
        var piece: seq<Entry>;
        if currentBeat <= targetBeat && currentBeat + noteBeatValue > targetBeat {
          piece := InsertIntoEntry(note, currentBeat, targetBeat, noteName, duration);
        } else {
          piece := [note];
        }
        ScanLoopStep(newNotes, es, i, currentBeat, targetBeat, f, piece,
                     Replace(es, targetBeat, noteName, duration));
        newNotes := newNotes + piece;
        currentBeat := currentBeat + noteBeatValue;
      }
      assert es[|es|..] == [];
      assert newNotes == Replace(es, targetBeat, noteName, duration);
      ReplaceKeepsTotal(es, 0, targetBeat, noteName, duration);
      assert Total(newNotes) == Total(es);
      notes := newNotes;
    }

    /** The entry `note`, starting at `currentBeat`, contains `targetBeat`:
        if the new note would run past the entry's end the entry is kept,
        otherwise it becomes the rests before the note, the note and the
        rests after it. */
    static method InsertIntoEntry(note: Entry, currentBeat: int, targetBeat: int,
                                  noteName: Pitch, duration: Duration)
      returns (piece: seq<Entry>)
      requires currentBeat <= targetBeat < currentBeat + Beats(note)
      ensures piece == Insert(note, currentBeat, targetBeat, noteName, duration)
    {
      var noteBeatValue := Beats(note);
      if (targetBeat - currentBeat) + Length(duration) > noteBeatValue {
        return [note];
      }
      var before: seq<Entry> := [];
      if currentBeat < targetBeat {
        var beforeDurations := SplitDuration(targetBeat - currentBeat);
        before := Rests(beforeDurations);
      }
      var after: seq<Entry> := [];
      var afterBeatValue := noteBeatValue - Length(duration) - (targetBeat - currentBeat);
      if afterBeatValue > 0 {
        var afterDurations := SplitDuration(afterBeatValue);
        after := Rests(afterDurations);
      }
      piece := before + [Note(noteName, duration)] + after;
      InsertFromParts(note, currentBeat, targetBeat, noteName, duration, before, after);
    }

    /** A pointer move over the score. Without a rendered score nothing
        happens; outside the note area the pending placement is cleared;
        inside it, the raw beat (in quarter-beats, rawNum / rawDen) is
        snapped and clamped into the measure and the closest of the staff
        positions `candidates` to the pointer's height `mouseY` picks the
        pitch name. */
    method HandleMouseMove(svgPresent: bool, inNoteArea: bool, rawNum: int, rawDen: int,
                           candidates: seq<int>, mouseY: int)
      requires Valid()
      requires rawDen > 0 && |candidates| == |NoteNames|
      modifies this`hoverBeat, this`hoverNoteName
      ensures Valid()
      ensures !svgPresent ==> hoverBeat == old(hoverBeat) && hoverNoteName == old(hoverNoteName)
      ensures svgPresent && !inNoteArea ==> hoverBeat == None && hoverNoteName == None
      ensures svgPresent && inNoteArea ==>
        hoverBeat == Some(Clamp(Snap(rawNum, rawDen), beatsPerMeasure)) &&
        exists index: nat :: IsFirstClosest(candidates, mouseY, index) && hoverNoteName == Some(NoteNameFor(index))
    {
      if !svgPresent {
        return;
      }
      if !inNoteArea {
        hoverBeat := None;
        hoverNoteName := None;
        return;
      }
      var snappedBeat := Clamp(Snap(rawNum, rawDen), beatsPerMeasure);
      var closestIndex := ClosestCandidate(candidates, mouseY);
      var noteName := NoteNameFor(closestIndex);
      hoverBeat := Some(snappedBeat);
      hoverNoteName := Some(noteName);
    }

    /** The pointer leaves the score: the pending placement is cleared. */
    method HandleMouseLeave()
      requires Valid()
      modifies this`hoverBeat, this`hoverNoteName
      ensures Valid()
      ensures hoverBeat == None && hoverNoteName == None
    {
      hoverBeat := None;
      hoverNoteName := None;
    }

    /** A click: without a pending placement nothing happens; otherwise the
        note of the chosen `duration` is inserted at the pending beat and
        pitch, and the placement is cleared. */
    method HandleClick(duration: Duration)
      requires Valid()
      modifies this`notes, this`hoverBeat, this`hoverNoteName
      ensures Valid()
      ensures old(hoverBeat).None? || old(hoverNoteName).None? ==>
        notes == old(notes) && hoverBeat == old(hoverBeat) && hoverNoteName == old(hoverNoteName)
      ensures old(hoverBeat).Some? && old(hoverNoteName).Some? ==>
        notes == Replace(old(notes), old(hoverBeat).value, old(hoverNoteName).value, duration) &&
        hoverBeat == None && hoverNoteName == None
    {
      if hoverBeat.None? || hoverNoteName.None? {
        return;
      }
      ReplaceNoteAtPosition(hoverBeat.value, hoverNoteName.value, duration);
      hoverBeat := None;
      hoverNoteName := None;
    }
  }

  /** A hover over beat 1 at the lowest staff position followed by a click
      places a quarter note e/4 there; a second click, with nothing pending,
      changes nothing. */
  method HoverThenClick() returns (editor: SheetMusicEditor)
    ensures editor.notes == [Rest(Quarter), Note("e/4", Quarter), Rest(Half)]
    ensures editor.hoverBeat == None && editor.hoverNoteName == None
  {
    editor := new SheetMusicEditor();
    var candidates := [0, 10, 20, 30, 40, 50, 60, 70, 80];
    editor.HandleMouseMove(true, true, 4, 1, candidates, 78);
    assert editor.hoverBeat == Some(4);
    var index: nat :| IsFirstClosest(candidates, 78, index) && editor.hoverNoteName == Some(NoteNameFor(index));
    assert IsFirstClosest(candidates, 78, 8);
    FirstClosestUnique(candidates, 78, index, 8);
    editor.HandleClick(Quarter);
    QuarterAtBeatOne("e/4");
    editor.HandleClick(Half);
  }
}

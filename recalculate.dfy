/**
 * The batch rewrite: every note record's `beat_position` is recomputed from its `bar` and
 * `beat` and overwritten in place, and the records whose stored position differed are counted
 * and reported. A record whose position cannot be computed stops the run; the collection is
 * then never written back.
 */
module Recalculate {
  import opened Options
  import opened BeatPosition

  /** The `note` type assumed for a record without one. */
  const DEFAULT_NOTE_TYPE: string := "quarter"
  /** The stored position assumed, for comparison only, for a record without one. */
  const MISSING_POSITION: int := -1

  /**
   * A note record. `bar` and `beat` are `None` when the key is absent; `others` holds every
   * field the rewrite does not read, keyed by name, as opaque JSON text.
   */
  datatype Note = Note(
    bar: Option<int>,
    beat: Option<Beat>,
    note: Option<string>,
    beatPosition: Option<int>,
    others: map<string, string>)

  /** One reported change: the record's bar, beat and note type, and its old and new position. */
  datatype Change = Change(bar: int, beat: Beat, noteType: string, oldPosition: int, newPosition: int)

  /**
   * The result of a pass: completed with its change count and report, or stopped at a record
   * with the report of the changes found before it.
   */
  datatype Outcome = Completed(changes: nat, log: seq<Change>) | Aborted(at: nat, log: seq<Change>)

  function NoteType(n: Note): string {
    match n.note
    case Some(t) => t
    case None => DEFAULT_NOTE_TYPE
  }

  function OldPosition(n: Note): int {
    match n.beatPosition
    case Some(p) => p
    case None => MISSING_POSITION
  }

  /** The position recomputed from `bar` and `beat`; `None` when either is missing or the beat does not parse. */
  function NewPosition(n: Note): (r: Option<int>)
    ensures r.Some? <==> n.bar.Some? && n.beat.Some? && ParseBeat(n.beat.value).Some?
    ensures r.Some? ==> r.value == Position(n.bar.value, ParseBeat(n.beat.value).value)
  {
    match (n.bar, n.beat)
    case (Some(bar), Some(beat)) => BarBeatToPosition(bar, beat)
    case _ => None
  }

  /** A record counts as changed when it has a new position that differs from its old one. */
  predicate Changed(n: Note) {
    NewPosition(n).Some? && OldPosition(n) != NewPosition(n).value
  }

  /** A record whose stored position is the one its bar and beat give. */
  predicate Current(n: Note) {
    n.beatPosition.Some? && NewPosition(n) == n.beatPosition
  }

  /** The record with its position overwritten by the recomputed one (unchanged if there is none). */
  function Refresh(n: Note): Note {
    if NewPosition(n).Some? then n.(beatPosition := NewPosition(n)) else n
  }

  function RefreshAll(s: seq<Note>): seq<Note> {
    seq(|s|, i requires 0 <= i < |s| => Refresh(s[i]))
  }

  /** The index of the first record whose position cannot be computed, or `|s|` if there is none. */
  function FirstUnparsable(s: seq<Note>): (k: nat)
    ensures k <= |s|
    ensures forall i :: 0 <= i < k ==> NewPosition(s[i]).Some?
    ensures k < |s| ==> NewPosition(s[k]).None?
  {
    if s == [] || NewPosition(s[0]).None? then 0 else 1 + FirstUnparsable(s[1..])
  }

  function LogEntry(n: Note): Change
    requires Changed(n)
  {
    Change(n.bar.value, n.beat.value, NoteType(n), OldPosition(n), NewPosition(n).value)
  }

  /** The number of changed records. */
  function CountChanges(s: seq<Note>): nat {
    if s == [] then 0
    else CountChanges(s[..|s| - 1]) + (if Changed(s[|s| - 1]) then 1 else 0)
  }

  /** The report of the changed records, in record order. */
  function ChangeLog(s: seq<Note>): seq<Change> {
    if s == [] then []
    else ChangeLog(s[..|s| - 1]) + (if Changed(s[|s| - 1]) then [LogEntry(s[|s| - 1])] else [])
  }

  /** Extending a prefix by one record adds that record's change, if any, to the count and the report. */
  lemma PrefixStep(s: seq<Note>, i: nat)
    requires i < |s|
    ensures CountChanges(s[..i + 1]) == CountChanges(s[..i]) + (if Changed(s[i]) then 1 else 0)
    ensures ChangeLog(s[..i + 1]) == ChangeLog(s[..i]) + (if Changed(s[i]) then [LogEntry(s[i])] else [])
  {
    assert s[..i + 1][..i] == s[..i];
  }

  /** What a pass over `s` reports. */
  function PassOutcome(s: seq<Note>): Outcome {
    if FirstUnparsable(s) < |s| then Aborted(FirstUnparsable(s), ChangeLog(s[..FirstUnparsable(s)]))
    else Completed(CountChanges(s), ChangeLog(s))
  }

  /** The records after a pass: refreshed up to the first record that stops it, untouched from there. */
  function AfterPass(s: seq<Note>): seq<Note> {
    var k := FirstUnparsable(s);
    RefreshAll(s[..k]) + s[k..]
  }

  // ---------------------------------------------------------------------------------------
  // What a pass promises

  /** The position depends on `bar` and `beat` only: not on the note type, the old position or any other field. */
  lemma PositionIgnoresOtherFields(n: Note, t: Option<string>, p: Option<int>, o: map<string, string>)
    ensures NewPosition(n.(note := t, beatPosition := p, others := o)) == NewPosition(n)
  {
  }

  /** Refreshing a record changes its position field and nothing else, and leaves it current. */
  lemma RefreshProperties(n: Note)
    requires NewPosition(n).Some?
    ensures Refresh(n).bar == n.bar && Refresh(n).beat == n.beat
    ensures Refresh(n).note == n.note && Refresh(n).others == n.others
    ensures Refresh(n).beatPosition == NewPosition(n)
    ensures Current(Refresh(n)) && !Changed(Refresh(n))
  {
  }

  /**
   * A pass keeps the number and order of the records and every field but the position; up to
   * the record that stops it the position is the recomputed one, and from there on nothing changes.
   */
  lemma AfterPassFields(s: seq<Note>)
    ensures |AfterPass(s)| == |s|
    ensures forall i :: 0 <= i < |s| ==>
      AfterPass(s)[i].bar == s[i].bar && AfterPass(s)[i].beat == s[i].beat &&
      AfterPass(s)[i].note == s[i].note && AfterPass(s)[i].others == s[i].others
    ensures forall i :: 0 <= i < FirstUnparsable(s) ==> AfterPass(s)[i] == Refresh(s[i]) && Current(AfterPass(s)[i])
    ensures forall i :: FirstUnparsable(s) <= i < |s| ==> AfterPass(s)[i] == s[i]
  {
  }

  /** After a completed pass every record's position is the one its bar and beat give. */
  lemma CompletedPassIsCurrent(s: seq<Note>)
    requires PassOutcome(s).Completed?
    ensures AfterPass(s) == RefreshAll(s)
    ensures forall i :: 0 <= i < |s| ==> Current(RefreshAll(s)[i])
  {
  }

  /** The change count is at most the number of records, and the report has one line per change. */
  lemma {:induction false} CountBounded(s: seq<Note>)
    ensures CountChanges(s) <= |s|
    ensures |ChangeLog(s)| == CountChanges(s)
  {
    if s != [] {
      CountBounded(s[..|s| - 1]);
    }
  }

  /** No change is counted exactly when no record is changed. */
  lemma {:induction false} CountZero(s: seq<Note>)
    ensures CountChanges(s) == 0 <==> forall i :: 0 <= i < |s| ==> !Changed(s[i])
  {
    if s != [] {
      var t := s[..|s| - 1];
      CountZero(t);
      assert forall i :: 0 <= i < |t| ==> t[i] == s[i];
    }
  }

  /** The indices of the changed records. */
  function ChangedIndices(s: seq<Note>): set<int> {
    set i | 0 <= i < |s| && Changed(s[i])
  }

  /** The change count is the number of records that are changed. */
  lemma {:induction false} CountIsCardinality(s: seq<Note>)
    ensures CountChanges(s) == |ChangedIndices(s)|
  {
    if s != [] {
      var last := |s| - 1;
      CountIsCardinality(s[..last]);
      ChangedIndicesStep(s);
      assert last !in ChangedIndices(s[..last]);
    }
  }

  /** The changed indices of a non-empty sequence: those of its prefix, and the last one if it is changed. */
  lemma ChangedIndicesStep(s: seq<Note>)
    requires s != []
    ensures ChangedIndices(s) == ChangedIndices(s[..|s| - 1]) + (if Changed(s[|s| - 1]) then {|s| - 1} else {})
  {
    var t := s[..|s| - 1];
    forall i | i in ChangedIndices(s) ensures i in ChangedIndices(t) || i == |s| - 1 {
      if i < |s| - 1 { assert t[i] == s[i]; }
    }
    forall i | i in ChangedIndices(t) ensures i in ChangedIndices(s) {
      assert t[i] == s[i];
    }
  }

  /** A second pass over the output of a completed pass reports no change and rewrites nothing. */
  lemma Idempotent(s: seq<Note>)
    requires PassOutcome(s).Completed?
    ensures PassOutcome(RefreshAll(s)) == Completed(0, [])
    ensures AfterPass(RefreshAll(s)) == RefreshAll(s)
  {
    var r := RefreshAll(s);
    forall i | 0 <= i < |r|
      ensures NewPosition(r[i]).Some? && !Changed(r[i]) && Refresh(r[i]) == r[i]
    {
      RefreshProperties(s[i]);
    }
    CountZero(r);
    CountBounded(r);
    assert FirstUnparsable(r) == |r|;
    assert r[..|r|] == r;
    assert RefreshAll(r) == r;
  }

  /** A record without a stored position and with a beat from "1" to "4a" of a bar from 1 on is always counted as changed. */
  lemma MissingPositionIsChange(n: Note)
    requires n.beatPosition.None?
    requires n.bar.Some? && n.bar.value >= 1
    requires n.beat.Some? && ParseBeat(n.beat.value).Some? && InBar(ParseBeat(n.beat.value).value)
    ensures Changed(n)
  {
  }

  /**
   * The sentinel -1 for a missing position is itself a position: beat "0a" of bar 1. Such a
   * record without a stored position is not counted as changed, yet its position is written.
   */
  lemma SentinelIsAPosition()
    ensures var n := Note(Some(1), Some(Label("0a")), None, None, map[]);
      NewPosition(n) == Some(MISSING_POSITION) && !Changed(n) && Refresh(n).beatPosition == Some(MISSING_POSITION)
  {
    AndLabelPosition(1, 0);
    assert Decimal(0) + "a" == "0a";
  }

  // ---------------------------------------------------------------------------------------
  // The rewrite loop

  /**
   * Walks the records in order, recomputes each position, counts and logs the records whose
   * old position differs, and overwrites the position in place.
   */
  method Recalculate(notes: array<Note>) returns (outcome: Outcome)
    modifies notes
    ensures outcome == PassOutcome(old(notes[..]))
    ensures notes[..] == AfterPass(old(notes[..]))
  {
    ghost var s := notes[..];
    var changes := 0;
    var log := [];
    var i := 0;
    while i < notes.Length
      invariant 0 <= i <= notes.Length
      invariant i <= FirstUnparsable(s)
      invariant forall j :: 0 <= j < i ==> notes[j] == Refresh(s[j])
      invariant forall j :: i <= j < notes.Length ==> notes[j] == s[j]
      invariant changes == CountChanges(s[..i]) && log == ChangeLog(s[..i])
    {
      var note := notes[i];
      var newPosition := NewPosition(note);
      if newPosition.None? {
        outcome := Aborted(i, log);
        assert FirstUnparsable(s) == i;
        assert notes[..] == RefreshAll(s[..i]) + s[i..];
        return;
      }
      assert note == s[i] && NewPosition(s[i]) == newPosition;
      var oldPosition := OldPosition(note);
      PrefixStep(s, i);
      if oldPosition != newPosition.value {
        log := log + [Change(note.bar.value, note.beat.value, NoteType(note), oldPosition, newPosition.value)];
        changes := changes + 1;
      }
      notes[i] := note.(beatPosition := Some(newPosition.value));
      assert notes[i] == Refresh(s[i]);
      i := i + 1;
    }
    assert s[..i] == s;
    outcome := Completed(changes, log);
    assert FirstUnparsable(s) == |s|;
    assert notes[..] == RefreshAll(s[..|s|]) + s[|s|..];
  }

  /**
   * The whole run: load the stored records, rewrite them, and write them back only when the
   * pass completed. A run that stops leaves the stored records as they were.
   */
  method RunScript(stored: seq<Note>) returns (saved: seq<Note>, outcome: Outcome)
    ensures outcome == PassOutcome(stored)
    ensures saved == if outcome.Completed? then RefreshAll(stored) else stored
  {
    var notes := new Note[|stored|](i requires 0 <= i < |stored| => stored[i]);
    assert notes[..] == stored;
    outcome := Recalculate(notes);
    if outcome.Completed? {
      saved := notes[..];
    } else {
      saved := stored;
    }
  }
}

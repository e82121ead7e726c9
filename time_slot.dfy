/** The meeting time interval: an immutable pair of instants, validated when it
    is built, with the strict overlap test that lets back-to-back slots coexist.
    Instants are integers (for example minutes since an epoch). */
module TimeSlots {
  import opened Wrappers

  datatype Slot = Slot(start: int, end: int)
  {
    /** Strict intersection test: start1 < end2 and start2 < end1. */
    predicate Overlaps(other: Slot)
    {
      start < other.end && other.start < end
    }

    /** The instant t lies in the half-open interval [start, end). */
    predicate Contains(t: int)
    {
      start <= t < end
    }

    /** Structural equality against a possibly absent slot. */
    predicate Equals(other: Option<Slot>)
    {
      other.Some? && start == other.value.start && end == other.value.end
    }
  }

  /** Every slot that construction lets through starts strictly before it ends. */
  type TimeSlot = s: Slot | s.start < s.end witness Slot(0, 1)

  /** Why construction refused a pair of instants. */
  datatype SlotError = StartAfterEnd | StartEqualsEnd | StartInPast

  /** The constructor with its guards, checked in the order of `TimeSlot.java`; `now`
      stands for the clock reading taken during validation. */
  function NewTimeSlot(start: int, end: int, now: int): (r: Result<TimeSlot, SlotError>)
    ensures r.Success? <==> start < end && now <= start
    ensures r.Success? ==> r.value.start == start && r.value.end == end
    ensures start > end ==> r == Failure(StartAfterEnd)
    ensures start == end ==> r == Failure(StartEqualsEnd)
    ensures start < end && start < now ==> r == Failure(StartInPast)
  {
    if start > end then Failure(StartAfterEnd)
    else if start == end then Failure(StartEqualsEnd)
    else if start < now then Failure(StartInPast)
    else Success(Slot(start, end))
  }

  /** `overlaps(null)` is false. */
  function OverlapsOrNull(a: Slot, other: Option<Slot>): (r: bool)
    ensures other.None? ==> !r
    ensures other.Some? ==> (r <==> other.value.Overlaps(a))
  {
    other.Some? && a.Overlaps(other.value)
  }

  lemma OverlapsSymmetric(a: Slot, b: Slot)
    ensures a.Overlaps(b) <==> b.Overlaps(a)
  {
  }

  /** A slot ending at or before another begins never meets it; in particular
      back-to-back slots (a.end == b.start) do not conflict. */
  lemma EndBeforeStartDisjoint(a: Slot, b: Slot)
    requires a.end <= b.start
    ensures !a.Overlaps(b) && !b.Overlaps(a)
  {
  }

  /** A non-empty slot overlaps itself. */
  lemma OverlapsSelf(a: TimeSlot)
    ensures a.Overlaps(a)
  {
  }

  /** Two slots overlap exactly when they share an instant of the half-open
      interval [start, end). */
  lemma OverlapsIffSharedInstant(a: TimeSlot, b: TimeSlot)
    ensures a.Overlaps(b) <==> exists t :: a.Contains(t) && b.Contains(t)
  {
    if a.Overlaps(b) {
      var t := if a.start < b.start then b.start else a.start;
      assert a.Contains(t) && b.Contains(t);
    }
  }

  /** Equality of slots is equality of both endpoints. */
  lemma EqualsIsStructural(a: Slot, b: Slot)
    ensures a.Equals(Some(b)) <==> a == b
    ensures !a.Equals(None)
  {
  }

  /** The demo's case: 14:00-15:00 then 15:00-16:00 (in minutes) do not
      overlap, while 14:30-15:30 overlaps the first. */
  lemma DemoAfternoon()
    ensures !Slot(840, 900).Overlaps(Slot(900, 960))
    ensures Slot(840, 900).Overlaps(Slot(870, 930))
  {
  }
}

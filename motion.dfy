/** The movement data of one car: its floor, its direction and its two
    pending-request sets, and the pure step functions that specify how
    `addDestination`, `processMovement` and `emergencyMoveToGround` change
    them.

    Each request set is a Java `TreeSet<Integer>`, an ordered set: the up
    set in natural order and the down set in reverse order. Both are
    modelled as strictly sorted sequences, so `first()` is the head. */
module Motions {
  import opened ElevatorConstants

  /** The order of a tree set: natural when `ascending`, else reversed. */
  predicate Before(a: int, b: int, ascending: bool) {
    if ascending then a < b else a > b
  }

  /** A strictly ordered sequence: an ordered set without duplicates. */
  ghost predicate Sorted(s: seq<int>, ascending: bool) {
    forall i, j :: 0 <= i < j < |s| ==> Before(s[i], s[j], ascending)
  }

  /** `TreeSet.add`: the element takes its place in the order, and adding
      an element already present changes nothing. */
  function Insert(s: seq<int>, x: int, ascending: bool): (r: seq<int>)
    ensures forall y :: y in r <==> y in s || y == x
    decreases |s|
  {
    if |s| == 0 then [x]
    else if x == s[0] then s
    else if Before(x, s[0], ascending) then [x] + s
    else [s[0]] + Insert(s[1..], x, ascending)
  }

  /** Adding to an ordered set keeps it ordered. */
  lemma {:induction false} InsertSorted(s: seq<int>, x: int, ascending: bool)
    requires Sorted(s, ascending)
    ensures Sorted(Insert(s, x, ascending), ascending)
    decreases |s|
  {
    if |s| > 0 && x != s[0] {
      HeadIsFirst(s, ascending);
      if Before(x, s[0], ascending) {
        forall f | f in s ensures Before(x, f, ascending) {
        }
        SortedCons(x, s, ascending);
      } else {
        var r := Insert(s[1..], x, ascending);
        InsertSorted(s[1..], x, ascending);
        SortedCons(s[0], r, ascending);
      }
    }
  }

  /** An element placed before every element of an ordered set extends it. */
  lemma SortedCons(x: int, s: seq<int>, ascending: bool)
    requires Sorted(s, ascending)
    requires forall f :: f in s ==> Before(x, f, ascending)
    ensures Sorted([x] + s, ascending)
  {
    var r := [x] + s;
    forall i, j | 0 <= i < j < |r| ensures Before(r[i], r[j], ascending) {
      if i == 0 {
        assert r[j] == s[j - 1];
      } else {
        assert r[i] == s[i - 1] && r[j] == s[j - 1];
      }
    }
  }

  datatype Motion = Motion(floor: int, direction: Direction, up: seq<int>, down: seq<int>)
  {
    /** The up set ascends and lies above the car; the down set descends
        and lies below it. */
    ghost predicate Valid() {
      && Sorted(up, true) && Sorted(down, false)
      && (forall f :: f in up ==> f > floor)
      && (forall f :: f in down ==> f < floor)
    }
  }

  predicate HasRequests(m: Motion) {
    m.up != [] || m.down != []
  }

  /** The number of pending requests. */
  function Pending(m: Motion): nat {
    |m.up| + |m.down|
  }

  /** `addDestination`: a floor above the car joins the up set, one below
      joins the down set, and a request for the current floor is dropped. */
  function AddDestinationTo(m: Motion, floor: int): (r: Motion)
    ensures r.floor == m.floor && r.direction == m.direction
    ensures forall f :: f in r.up || f in r.down <==> f in m.up || f in m.down || (f == floor && floor != m.floor)
  {
    if floor > m.floor then m.(up := Insert(m.up, floor, true))
    else if floor < m.floor then m.(down := Insert(m.down, floor, false))
    else m
  }

  /** Recording a destination keeps every pending floor on its side of the
      car and both sets in order. */
  lemma AddDestinationKeepsValid(m: Motion, floor: int)
    requires m.Valid()
    ensures AddDestinationTo(m, floor).Valid()
  {
    if floor > m.floor {
      InsertSorted(m.up, floor, true);
    } else if floor < m.floor {
      InsertSorted(m.down, floor, false);
    }
  }

  /** The direction after serving a floor of the current sweep: keep it
      while that set has floors left, else turn when the other set has
      some, else go idle. */
  function AfterServing(keep: Direction, turn: Direction, left: seq<int>, other: seq<int>): Direction {
    if left == [] && other != [] then turn
    else if left == [] then Idle
    else keep
  }

  /** `processMovement`: one step of the sweep. */
  function Step(m: Motion): (r: Motion)
    ensures |r.up| <= |m.up| && |r.down| <= |m.down|
    ensures forall f :: f in r.up ==> f in m.up
    ensures forall f :: f in r.down ==> f in m.down
  {
    if m.direction == Up && m.up != [] then
      Motion(m.up[0], AfterServing(Up, Down, m.up[1..], m.down), m.up[1..], m.down)
    else if m.direction == Down && m.down != [] then
      Motion(m.down[0], AfterServing(Down, Up, m.down[1..], m.up), m.up, m.down[1..])
    else if m.up != [] then m.(direction := Up)
    else if m.down != [] then m.(direction := Down)
    else m
  }

  /** A step keeps every pending floor on its side of the car: the floors
      left in the set being served lie beyond the floor just reached, and
      the other set lay on the far side of the car already. */
  lemma StepKeepsValid(m: Motion)
    requires m.Valid()
    ensures Step(m).Valid()
  {
    if m.direction == Up && m.up != [] {
      assert m.up[0] in m.up;
      HeadIsFirst(m.up, true);
      SortedTail(m.up, true);
    } else if m.direction == Down && m.down != [] {
      assert m.down[0] in m.down;
      HeadIsFirst(m.down, false);
      SortedTail(m.down, false);
    }
  }

  lemma SortedTail(s: seq<int>, ascending: bool)
    requires Sorted(s, ascending) && s != []
    ensures Sorted(s[1..], ascending)
  {
    forall i, j | 0 <= i < j < |s| - 1 ensures Before(s[1..][i], s[1..][j], ascending) {
      assert s[1..][i] == s[i + 1] && s[1..][j] == s[j + 1];
    }
  }

  /** `emergencyMoveToGround`: both sets are cleared and the car goes to
      floor 0; the direction is left as it was. */
  function Grounded(m: Motion): (r: Motion)
    ensures r.Valid() && !HasRequests(r) && r.floor == 0
    ensures r.direction == m.direction
  {
    Motion(0, m.direction, [], [])
  }

  /** Adding the same floor twice is the same as adding it once. */
  lemma AddDestinationIdempotent(m: Motion, floor: int)
    requires m.Valid()
    ensures AddDestinationTo(AddDestinationTo(m, floor), floor) == AddDestinationTo(m, floor)
  {
    var r := AddDestinationTo(m, floor);
    AddDestinationKeepsValid(m, floor);
    if floor > m.floor {
      InsertPresent(r.up, floor, true);
    } else if floor < m.floor {
      InsertPresent(r.down, floor, false);
    }
  }

  /** Adding an element already in the set leaves the set as it is. */
  lemma {:induction false} InsertPresent(s: seq<int>, x: int, ascending: bool)
    requires Sorted(s, ascending) && x in s
    ensures Insert(s, x, ascending) == s
    decreases |s|
  {
    if s[0] != x {
      HeadIsFirst(s, ascending);
      SortedTail(s, ascending);
      InsertPresent(s[1..], x, ascending);
      assert [s[0]] + s[1..] == s;
    }
  }

  /** A step in the current direction with a pending floor there serves the
      nearest such floor: the car moves to it, it is the only request
      removed, every other pending floor in that direction lies beyond it,
      and afterwards the car keeps going, turns, or goes idle. */
  lemma StepServesNearest(m: Motion)
    requires m.Valid()
    ensures m.direction == Up && m.up != [] ==>
      && m.floor < Step(m).floor
      && Step(m).floor in m.up && Step(m).floor !in Step(m).up
      && (forall f :: f in m.up ==> f == Step(m).floor || f in Step(m).up)
      && (forall f :: f in m.up ==> f >= Step(m).floor)
      && Step(m).down == m.down
      && Step(m).direction == (if Step(m).up != [] then Up else if m.down != [] then Down else Idle)
    ensures m.direction == Down && m.down != [] ==>
      && Step(m).floor < m.floor
      && Step(m).floor in m.down && Step(m).floor !in Step(m).down
      && (forall f :: f in m.down ==> f == Step(m).floor || f in Step(m).down)
      && (forall f :: f in m.down ==> f <= Step(m).floor)
      && Step(m).up == m.up
      && Step(m).direction == (if Step(m).down != [] then Down else if m.up != [] then Up else Idle)
  {
    if m.direction == Up && m.up != [] {
      assert m.up[0] in m.up;
      HeadIsFirst(m.up, true);
    } else if m.direction == Down && m.down != [] {
      assert m.down[0] in m.down;
      HeadIsFirst(m.down, false);
    }
  }

  /** The head of an ordered set comes before every other element, and it
      is not repeated in the tail. */
  lemma HeadIsFirst(s: seq<int>, ascending: bool)
    requires Sorted(s, ascending) && s != []
    ensures forall f :: f in s ==> f == s[0] || Before(s[0], f, ascending)
    ensures s[0] !in s[1..]
    ensures forall f :: f in s ==> f == s[0] || f in s[1..]
  {
    forall f | f in s ensures f == s[0] || Before(s[0], f, ascending) {
      var i :| 0 <= i < |s| && s[i] == f;
      if i > 0 {
        assert Before(s[0], s[i], ascending);
      }
    }
    forall k | 0 <= k < |s| - 1 ensures s[1..][k] != s[0] {
      assert Before(s[0], s[k + 1], ascending);
    }
    forall f | f in s ensures f == s[0] || f in s[1..] {
      var i :| 0 <= i < |s| && s[i] == f;
      if i > 0 {
        assert s[1..][i - 1] == f;
      }
    }
  }

  /** A step with nothing pending in the current direction does not move:
      it only points the car at the pending requests, preferring up. */
  lemma StepOnlyTurns(m: Motion)
    requires !(m.direction == Up && m.up != []) && !(m.direction == Down && m.down != [])
    ensures Step(m).floor == m.floor && Step(m).up == m.up && Step(m).down == m.down
    ensures Step(m).direction == (if m.up != [] then Up else if m.down != [] then Down else m.direction)
  {
  }

  /** While requests are pending, two steps serve at least one of them. */
  lemma TwoStepsServe(m: Motion)
    requires HasRequests(m)
    ensures Pending(Step(Step(m))) < Pending(m)
  {
    var s := Step(m);
    if !(m.direction == Up && m.up != []) && !(m.direction == Down && m.down != []) {
      if m.up != [] {
        assert s.direction == Up && s.up == m.up;
      } else {
        assert s.direction == Down && s.down == m.down;
      }
    }
  }

  /** Steps taken with no new requests. */
  function Steps(m: Motion, n: nat): Motion
    decreases n
  {
    if n == 0 then m else Steps(Step(m), n - 1)
  }

  /** With no new requests, twice as many steps as there are pending
      requests serve them all. */
  lemma {:induction false} StepsDrain(m: Motion, n: nat)
    requires n >= 2 * Pending(m)
    ensures !HasRequests(Steps(m, n))
    decreases n
  {
    if n == 0 {
    } else if !HasRequests(m) {
      StepsKeepEmpty(m, n);
    } else {
      TwoStepsServe(m);
      StepsDrain(Step(Step(m)), n - 2);
      assert Steps(m, n) == Steps(Step(Step(m)), n - 2);
    }
  }

  /** A car with nothing pending gains no requests by stepping. */
  lemma {:induction false} StepsKeepEmpty(m: Motion, n: nat)
    requires !HasRequests(m)
    ensures !HasRequests(Steps(m, n))
    decreases n
  {
    if n > 0 {
      StepsKeepEmpty(Step(m), n - 1);
    }
  }
}

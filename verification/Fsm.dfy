/** The table of ride status transitions. */
module Fsm {

  datatype Status = Requested | Matched | Enroute | Completed | Cancelled

  const VALID_TRANSITIONS: map<Status, seq<Status>> :=
    map[
      Requested := [Matched, Cancelled],
      Matched := [Enroute, Cancelled],
      Enroute := [Completed, Cancelled],
      Completed := [],
      Cancelled := []
    ]

  predicate CanTransition(from: Status, to: Status) {
    from in VALID_TRANSITIONS && to in VALID_TRANSITIONS[from]
  }

  /** The statuses that make a ride the rider's current one. */
  predicate IsActive(s: Status) {
    s in {Requested, Matched, Enroute}
  }

  /** Forward one step at a time, cancelled from anywhere before the end, and nothing after it. */
  lemma TransitionsExactly(from: Status, to: Status)
    ensures CanTransition(from, to) <==>
              (from, to) in {(Requested, Matched), (Matched, Enroute), (Enroute, Completed)}
              || (IsActive(from) && to == Cancelled)
  {
  }
}

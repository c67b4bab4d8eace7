/** Places for tasks in a queue: a task that has been moved elsewhere leaves an empty one behind. */
module Slots {
  datatype Slot = Full(id: nat) | Moved

  function Empty(n: nat): seq<Slot> {
    seq(n, _ => Moved)
  }

  ghost predicate AllFull(q: seq<Slot>) {
    forall i :: 0 <= i < |q| ==> q[i].Full?
  }
}

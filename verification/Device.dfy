/** The device: which of its reads and writes fail is given from outside. */
module Device {

  /** No read or write ever fails: fails(k) says whether the k-th one does. */
  ghost predicate Reliable(fails: nat -> bool) {
    forall k :: !fails(k)
  }

  /** How many of the first n failed. */
  ghost function Failures(fails: nat -> bool, n: nat): nat {
    if n == 0 then 0 else Failures(fails, n - 1) + if fails(n - 1) then 1 else 0
  }

  lemma {:induction false} NoFailures(fails: nat -> bool, n: nat)
    requires Reliable(fails)
    ensures Failures(fails, n) == 0
    decreases n
  {
    if n > 0 {
      NoFailures(fails, n - 1);
    }
  }
}

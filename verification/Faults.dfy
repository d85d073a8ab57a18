/** Steps that fail by number: what a sequence of file system operations reports about
    itself. */
module Faults {

  /** Some step behind one and up to another fails. */
  ghost predicate FailedWithin(fails: nat -> bool, from: nat, to: nat) { exists n :: from < n <= to && fails(n) }

  ghost predicate TwoFailed(fails: nat -> bool, from: nat, to: nat) { exists n, m :: from < n < m <= to && fails(n) && fails(m) }

  lemma FineThen(fails: nat -> bool, start: nat, mid: nat, end: nat)
    requires start <= mid <= end && !FailedWithin(fails, start, mid) && !FailedWithin(fails, mid, end)
    ensures !FailedWithin(fails, start, end)
  {}

  lemma FailedTwice(fails: nat -> bool, start: nat, failed: nat, end: nat)
    requires start < failed <= end && fails(failed)
    ensures FailedWithin(fails, start, end) && (FailedWithin(fails, failed, end) ==> TwoFailed(fails, start, end))
  {}

  lemma FailedLater(fails: nat -> bool, from: nat, mid: nat, to: nat)
    requires from <= mid && FailedWithin(fails, mid, to)
    ensures FailedWithin(fails, from, to) && (TwoFailed(fails, mid, to) ==> TwoFailed(fails, from, to))
  {}
}

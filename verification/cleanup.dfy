/**
 * `CleanOldBackups`: list the remote folder, and when it holds more than
 * `maxBackups` items, sort it oldest first and try to delete the surplus,
 * one delete per item, carrying on past failed deletes.
 *
 * The service's answers are parameters: the listing, and `answer(i)`, the
 * outcome of the i-th delete request.
 */
module Cleanup {
  import opened Clock
  import opened Http
  import opened Retention
  import opened Int64

  /** What `ListBackupsOnOneDrive` returned. `ListFailed` covers every error it
      can return: token, request construction, transport, non-200 status and
      JSON decoding. */
  datatype Listing = Listed(items: seq<Item>) | ListFailed

  /** How `CleanOldBackups` ends. `Panicked` is the index-out-of-range panic
      that a negative cap causes once every item has been deleted, unless
      `len - maxBackups` wraps around (see `CleanOldBackups`). */
  datatype CleanResult = CleanNil | CleanErr | Panicked

  /** One delete request: which item, and whether the service confirmed it. */
  datatype Attempt = Attempt(id: string, name: string, deleted: bool)

  /** A run of `CleanOldBackups`: how it ended, the order the listing was
      sorted into (empty when it was not sorted), and the deletes it issued. */
  datatype CleanRun = CleanRun(result: CleanResult, sorted: seq<Item>, attempts: seq<Attempt>)

  /** The attempt record for deleting `item` as the i-th request. */
  function AttemptOn(item: Item, call: DeleteCall): Attempt
  {
    Attempt(item.id, item.name, DeleteSucceeded(call))
  }

  /** The delete loop of `CleanOldBackups` over the sorted listing: one
      delete per position below `bound`, logging and carrying on past failed
      deletes, and the index-out-of-range panic once `bound` exceeds the listing. */
  method DeleteFirst(backups: seq<Item>, bound: int, answer: nat -> DeleteCall)
    returns (result: CleanResult, attempts: seq<Attempt>)
    ensures bound <= 0 ==> result == CleanNil && attempts == []
    ensures 0 < bound <= |backups| ==> result == CleanNil && |attempts| == bound
    ensures |backups| < bound ==> result == Panicked && |attempts| == |backups|
    ensures forall k | 0 <= k < |attempts| :: attempts[k] == AttemptOn(backups[k], answer(k))
  {
    attempts := [];
    var i := 0;
    while i < bound
      invariant 0 <= i <= |backups|
      invariant bound >= 0 ==> i <= bound
      invariant bound < 0 ==> i == 0
      invariant |attempts| == i
      invariant forall k | 0 <= k < i :: attempts[k] == AttemptOn(backups[k], answer(k))
    {
      if i == |backups| {
        // `backups[i]` is out of range: Go panics here
        return Panicked, attempts;
      }
      attempts := attempts + [AttemptOn(backups[i], answer(i))];
      i := i + 1;
    }
    return CleanNil, attempts;
  }

  /** The first `n` items of a sorted order, `n` the surplus over the cap,
      carry the instants of `Decide`'s victims. */
  lemma DeletedPrefixFollowsDecide(parse: Parser, listing: seq<Item>, sorted: seq<Item>, maxBackups: nat, n: nat)
    requires IsTimeOrderOf(parse, sorted, listing) && |sorted| == |listing|
    requires n == DeleteCount(|listing|, maxBackups)
    ensures Times(parse, sorted[..n]) == Times(parse, Decide(parse, listing, maxBackups).victims)
  {
    SplitAgreesWithDecide(parse, listing, sorted, maxBackups);
  }

  /** The loop bound `len(backups) - maxBackups` is computed in Go's 64-bit
      `int`, so for a cap far below zero it wraps to a negative number and the
      loop does not run at all. */
  method CleanOldBackups(parse: Parser, listing: Listing, maxBackups: int, answer: nat -> DeleteCall)
    returns (run: CleanRun)
    // both the cap and the length of a Go slice are `int` values
    requires InRange(maxBackups)
    requires listing.Listed? ==> |listing.items| <= MaxInt
    // a failed listing is returned as the error, with nothing deleted
    ensures listing.ListFailed? ==> run.result == CleanErr && run.attempts == []
    // a listing within the cap is left alone
    ensures listing.Listed? && |listing.items| <= maxBackups ==> run.result == CleanNil && run.attempts == []
    // otherwise the listing is sorted oldest first, a permutation of the listing
    ensures listing.Listed? && |listing.items| > maxBackups ==> IsTimeOrderOf(parse, run.sorted, listing.items)
    // every delete is on the item at its position in the sorted order, and records the service's answer
    ensures |run.attempts| <= |run.sorted|
    ensures forall k | 0 <= k < |run.attempts| :: run.attempts[k] == AttemptOn(run.sorted[k], answer(k))
    // so every deleted item comes from the listing
    ensures listing.Listed? ==> forall k | 0 <= k < |run.attempts| :: run.sorted[k] in listing.items
    // with a non-negative cap, exactly the surplus is attempted, whatever the answers, and nil is returned
    ensures listing.Listed? && 0 <= maxBackups < |listing.items| ==>
      run.result == CleanNil && |run.attempts| == |listing.items| - maxBackups
    // and the deleted items have, position by position, the instants of `Decide`'s victims
    ensures listing.Listed? && 0 <= maxBackups ==>
      Times(parse, run.sorted[..|run.attempts|]) == Times(parse, Decide(parse, listing.items, maxBackups).victims)
    // with a negative cap, every item is attempted and then the loop indexes past the end ...
    ensures listing.Listed? && maxBackups < 0 && |listing.items| - maxBackups <= MaxInt ==>
      run.result == Panicked && |run.attempts| == |listing.items|
    // ... unless `len - maxBackups` overflows: then it wraps negative and nothing is attempted
    ensures listing.Listed? && maxBackups < 0 && |listing.items| - maxBackups > MaxInt ==>
      run.result == CleanNil && run.attempts == []
  {
    if listing.ListFailed? {
      return CleanRun(CleanErr, [], []);
    }
    var backups := listing.items;
    if |backups| <= maxBackups {
      return CleanRun(CleanNil, [], []);
    }
    SortKeepsItems(parse, backups);
    backups := SortByTime(parse, backups);
    var bound := Sub(|backups|, maxBackups);
    var result, attempts := DeleteFirst(backups, bound, answer);
    if 0 <= maxBackups {
      DeletedPrefixFollowsDecide(parse, listing.items, backups, maxBackups, |attempts|);
    }
    return CleanRun(result, backups, attempts);
  }
}

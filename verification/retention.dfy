/**
 * The retention-pruning decision of `CleanOldBackups`: order the remote
 * listing oldest first by `lastModifiedDateTime` and mark the first
 * `len - maxBackups` items for deletion.
 *
 * Go's `sort.Slice` is not stable, so the order it gives to items with equal
 * instants is unspecified. `SortByTime` below is one valid order; every
 * property stated here holds of any order that is sorted by instant and is a
 * permutation of the listing (`IsTimeOrderOf`), and `SortedOrdersAgreeOnTimes`
 * shows that all such orders agree on the instant at every position.
 */
module Retention {
  import opened Clock

  /** One entry of the remote folder listing (Go's `OneDriveItem`). */
  datatype Item = Item(name: string, lastModified: string, id: string)

  /** The instant the sort compares for an item: its parsed timestamp, or zero time. */
  function Time(parse: Parser, item: Item): Instant
  {
    ParseOrZero(parse, item.lastModified)
  }

  /** Ascending by instant; items with equal instants may come in any order. */
  predicate SortedByTime(parse: Parser, s: seq<Item>)
  {
    forall i, j | 0 <= i < j < |s| :: Time(parse, s[i]) <= Time(parse, s[j])
  }

  /** `sorted` is an order `sort.Slice` may leave the listing in. */
  predicate IsTimeOrderOf(parse: Parser, sorted: seq<Item>, listing: seq<Item>)
  {
    multiset(sorted) == multiset(listing) && SortedByTime(parse, sorted)
  }

  /** Inserts `x` into an already sorted sequence. */
  function Insert(parse: Parser, x: Item, s: seq<Item>): (r: seq<Item>)
    requires SortedByTime(parse, s)
    ensures multiset(r) == multiset(s) + multiset{x}
    ensures |r| == |s| + 1
    ensures r[0] == x || (|s| > 0 && r[0] == s[0])
    ensures SortedByTime(parse, r)
  {
    if |s| == 0 then [x]
    else if Time(parse, s[0]) < Time(parse, x) then
      SortedTail(parse, s);
      var rest := Insert(parse, x, s[1..]);
      InsertAfterHead(parse, x, s, rest);
      [s[0]] + rest
    else
      PrependSorted(parse, x, s);
      [x] + s
  }

  /** The step of `Insert` that keeps the head: `rest` is `x` inserted into
      the tail, and the head is older than `x`. */
  lemma InsertAfterHead(parse: Parser, x: Item, s: seq<Item>, rest: seq<Item>)
    requires |s| > 0 && SortedByTime(parse, s)
    requires Time(parse, s[0]) < Time(parse, x)
    requires multiset(rest) == multiset(s[1..]) + multiset{x}
    requires |rest| == |s| && (rest[0] == x || (|s| > 1 && rest[0] == s[1]))
    requires SortedByTime(parse, rest)
    ensures multiset([s[0]] + rest) == multiset(s) + multiset{x}
    ensures SortedByTime(parse, [s[0]] + rest)
  {
    assert s == [s[0]] + s[1..];
    assert Time(parse, s[0]) <= Time(parse, rest[0]);
    PrependSorted(parse, s[0], rest);
  }

  /** The tail of a sorted sequence is sorted. */
  lemma SortedTail(parse: Parser, s: seq<Item>)
    requires SortedByTime(parse, s) && |s| > 0
    ensures SortedByTime(parse, s[1..])
  {
  }

  /** Putting an item no later than the head of a sorted sequence in front keeps it sorted. */
  lemma PrependSorted(parse: Parser, x: Item, s: seq<Item>)
    requires SortedByTime(parse, s)
    requires |s| > 0 ==> Time(parse, x) <= Time(parse, s[0])
    ensures SortedByTime(parse, [x] + s)
  {
  }

  /** The listing in ascending order of parsed instant. */
  function SortByTime(parse: Parser, listing: seq<Item>): (r: seq<Item>)
    ensures IsTimeOrderOf(parse, r, listing)
  {
    if |listing| == 0 then []
    else
      assert listing == [listing[0]] + listing[1..];
      Insert(parse, listing[0], SortByTime(parse, listing[1..]))
  }

  /** The outcome of the pruning decision: the items to delete, in the order
      the deletes are issued, and the items that are kept. */
  datatype Decision = Decision(victims: seq<Item>, survivors: seq<Item>)

  /** The number of delete attempts for a listing of `n` items under a
      non-negative cap: `max(0, n - maxBackups)`. */
  function DeleteCount(n: nat, maxBackups: nat): nat
  {
    if n <= maxBackups then 0 else n - maxBackups
  }

  /** Splits an order of the listing after its first `DeleteCount` items. */
  function SplitOrder(sorted: seq<Item>, maxBackups: nat): Decision
  {
    var k := DeleteCount(|sorted|, maxBackups);
    Decision(sorted[..k], sorted[k..])
  }

  /** The sorted listing has the listing's length and only the listing's items. */
  lemma SortKeepsItems(parse: Parser, listing: seq<Item>)
    ensures |SortByTime(parse, listing)| == |listing|
    ensures forall k | 0 <= k < |listing| :: SortByTime(parse, listing)[k] in listing
  {
    var sorted := SortByTime(parse, listing);
    assert |sorted| == |multiset(sorted)| == |multiset(listing)| == |listing|;
    forall k | 0 <= k < |listing| ensures sorted[k] in listing {
      assert sorted[k] in multiset(sorted);
    }
  }

  /** The decision `CleanOldBackups` takes for a listing and a non-negative cap. */
  function Decide(parse: Parser, listing: seq<Item>, maxBackups: nat): (d: Decision)
    ensures |listing| <= maxBackups ==> d.victims == [] && d.survivors == listing
    ensures |listing| > maxBackups ==> |d.victims| == |listing| - maxBackups && |d.survivors| == maxBackups
    ensures multiset(d.victims) + multiset(d.survivors) == multiset(listing)
    ensures SortedByTime(parse, d.victims)
    ensures forall v, s | v in d.victims && s in d.survivors :: Time(parse, v) <= Time(parse, s)
  {
    if |listing| <= maxBackups then Decision([], listing)
    else
      var sorted := SortByTime(parse, listing);
      var d := SplitOrder(sorted, maxBackups);
      SplitOfSortedOrder(parse, sorted, listing, maxBackups);
      d
  }

  /** Whatever order `sort.Slice` picks, splitting it deletes the right number
      of items, loses none, deletes oldest first, and deletes nothing newer
      than a kept item. */
  lemma SplitOfSortedOrder(parse: Parser, sorted: seq<Item>, listing: seq<Item>, maxBackups: nat)
    requires IsTimeOrderOf(parse, sorted, listing)
    ensures var d := SplitOrder(sorted, maxBackups);
      && |d.victims| == DeleteCount(|listing|, maxBackups)
      && multiset(d.victims) + multiset(d.survivors) == multiset(listing)
      && SortedByTime(parse, d.victims)
      && (forall v, s | v in d.victims && s in d.survivors :: Time(parse, v) <= Time(parse, s))
  {
    assert |sorted| == |listing| by {
      assert |multiset(sorted)| == |multiset(listing)|;
    }
    var k := DeleteCount(|sorted|, maxBackups);
    assert sorted == sorted[..k] + sorted[k..];
    PrefixNoLaterThanSuffix(parse, sorted, k);
  }

  /** In a sorted order, nothing before position `k` is newer than anything from `k` on. */
  lemma PrefixNoLaterThanSuffix(parse: Parser, sorted: seq<Item>, k: nat)
    requires SortedByTime(parse, sorted) && k <= |sorted|
    ensures forall v, s | v in sorted[..k] && s in sorted[k..] :: Time(parse, v) <= Time(parse, s)
  {
    forall v, s | v in sorted[..k] && s in sorted[k..]
      ensures Time(parse, v) <= Time(parse, s)
    {
      var i :| 0 <= i < k && sorted[i] == v;
      var j :| 0 <= j < |sorted| - k && sorted[k..][j] == s;
      assert sorted[k + j] == s;
    }
  }

  /** The kept items are the newest: in any order `sort.Slice` may produce,
      an item of the listing strictly newer than some kept item is itself kept. */
  lemma SurvivorsAreNewest(parse: Parser, listing: seq<Item>, sorted: seq<Item>, maxBackups: nat, x: Item, y: Item)
    requires IsTimeOrderOf(parse, sorted, listing)
    requires x in listing
    requires y in SplitOrder(sorted, maxBackups).survivors
    requires Time(parse, y) < Time(parse, x)
    ensures x in SplitOrder(sorted, maxBackups).survivors
  {
    var d := SplitOrder(sorted, maxBackups);
    SplitOfSortedOrder(parse, sorted, listing, maxBackups);
    assert x in multiset(listing);
    assert x in multiset(d.victims) + multiset(d.survivors);
  }

  /** If an item with a timestamp that parsed to an instant after the zero
      time is deleted, every item whose timestamp did not parse is deleted too. */
  lemma UnparsedDeletedBeforeParsed(parse: Parser, sorted: seq<Item>, k: nat, i: nat, j: nat)
    requires SortedByTime(parse, sorted)
    requires k <= |sorted|
    requires i < k && parse(sorted[i].lastModified).Some?
    requires parse(sorted[i].lastModified).value > ZeroTime
    requires j < |sorted| && parse(sorted[j].lastModified).None?
    ensures j < k
  {
  }

  /** The instants along an order, position by position. */
  function Times(parse: Parser, s: seq<Item>): seq<Instant>
  {
    seq(|s|, k requires 0 <= k < |s| => Time(parse, s[k]))
  }

  /** Removing the item at position `j` removes one copy of it from the multiset. */
  lemma MultisetRemove<T>(s: seq<T>, j: nat)
    requires j < |s|
    ensures multiset(s[..j] + s[j + 1..]) == multiset(s) - multiset{s[j]}
  {
    assert s == s[..j] + [s[j]] + s[j + 1..];
  }

  /** Dropping the head removes one copy of it from the multiset. */
  lemma MultisetTail<T>(s: seq<T>)
    requires |s| > 0
    ensures multiset(s[1..]) == multiset(s) - multiset{s[0]}
  {
    assert s == [s[0]] + s[1..];
  }

  /** Removing an item from an order removes its instant from the instants. */
  lemma TimesRemove(parse: Parser, s: seq<Item>, j: nat)
    requires j < |s|
    ensures Times(parse, s[..j] + s[j + 1..]) == Times(parse, s)[..j] + Times(parse, s)[j + 1..]
  {
  }

  /** Removing the item at position `j` removes one copy of its instant. */
  lemma TimesMultisetRemove(parse: Parser, s: seq<Item>, j: nat)
    requires j < |s|
    ensures multiset(Times(parse, s[..j] + s[j + 1..])) == multiset(Times(parse, s)) - multiset{Time(parse, s[j])}
    ensures Time(parse, s[j]) in multiset(Times(parse, s))
  {
    var t := Times(parse, s);
    TimesRemove(parse, s, j);
    MultisetRemove(t, j);
    assert t[j] == Time(parse, s[j]);
  }

  /** The instants of the tail are the tail of the instants. */
  lemma TimesTail(parse: Parser, s: seq<Item>)
    requires |s| > 0
    ensures Times(parse, s[1..]) == Times(parse, s)[1..]
  {
  }

  /** Dropping the head removes one copy of its instant. */
  lemma TimesMultisetTail(parse: Parser, s: seq<Item>)
    requires |s| > 0
    ensures multiset(Times(parse, s[1..])) == multiset(Times(parse, s)) - multiset{Time(parse, s[0])}
    ensures Time(parse, s[0]) in multiset(Times(parse, s))
  {
    TimesTail(parse, s);
    MultisetTail(Times(parse, s));
    assert Times(parse, s)[0] == Time(parse, s[0]);
  }

  /** Two multisets that agree after taking out one copy of a shared element are equal. */
  lemma MultisetCancel<T>(m: multiset<T>, n: multiset<T>, x: T)
    requires x in m && x in n
    requires m - multiset{x} == n - multiset{x}
    ensures m == n
  {
    assert m == m - multiset{x} + multiset{x};
    assert n == n - multiset{x} + multiset{x};
  }

  /** Reordering a listing only reorders its instants. */
  lemma {:induction false} TimesPermutation(parse: Parser, a: seq<Item>, b: seq<Item>)
    requires multiset(a) == multiset(b)
    ensures multiset(Times(parse, a)) == multiset(Times(parse, b))
    decreases |a|
  {
    if |a| == 0 {
      assert |b| == |multiset(b)| == 0;
    } else {
      var x := a[0];
      assert x in multiset(b);
      var j :| 0 <= j < |b| && b[j] == x;
      MultisetTail(a);
      MultisetRemove(b, j);
      TimesPermutation(parse, a[1..], b[..j] + b[j + 1..]);
      TimesMultisetTail(parse, a);
      TimesMultisetRemove(parse, b, j);
      MultisetCancel(multiset(Times(parse, a)), multiset(Times(parse, b)), Time(parse, x));
    }
  }

  /** Ascending instants. */
  predicate Ascending(a: seq<Instant>)
  {
    forall i, j | 0 <= i < j < |a| :: a[i] <= a[j]
  }

  lemma AscendingTail(a: seq<Instant>)
    requires Ascending(a) && |a| > 0
    ensures Ascending(a[1..])
  {
  }

  lemma HeadIsLeast(a: seq<Instant>, x: Instant)
    requires Ascending(a) && x in a
    ensures a[0] <= x
  {
  }

  /** Two ascending sequences with the same elements start with the same instant. */
  lemma SameLeast(a: seq<Instant>, b: seq<Instant>)
    requires multiset(a) == multiset(b)
    requires Ascending(a) && Ascending(b)
    requires |a| > 0
    ensures |b| == |a| && a[0] == b[0]
  {
    assert |b| == |multiset(b)| == |multiset(a)| == |a|;
    assert b[0] in multiset(a);
    assert a[0] in multiset(b);
    HeadIsLeast(a, b[0]);
    HeadIsLeast(b, a[0]);
  }

  /** Two ascending sequences of instants with the same elements are equal. */
  lemma {:induction false} SortedInstantsUnique(a: seq<Instant>, b: seq<Instant>)
    requires multiset(a) == multiset(b)
    requires Ascending(a) && Ascending(b)
    ensures a == b
    decreases |a|
  {
    if |a| == 0 {
      assert |b| == |multiset(b)| == 0;
    } else {
      SameLeast(a, b);
      MultisetTail(a);
      MultisetTail(b);
      AscendingTail(a);
      AscendingTail(b);
      SortedInstantsUnique(a[1..], b[1..]);
      forall k | 0 <= k < |a| ensures a[k] == b[k] {
        if k > 0 {
          assert a[k] == a[1..][k - 1] && b[k] == b[1..][k - 1];
        }
      }
    }
  }

  /** However `sort.Slice` breaks ties, the instant at each position of the
      sorted listing is the same; in particular the instants of the deleted
      items do not depend on the tie order. */
  lemma SortedOrdersAgreeOnTimes(parse: Parser, listing: seq<Item>, a: seq<Item>, b: seq<Item>)
    requires IsTimeOrderOf(parse, a, listing)
    requires IsTimeOrderOf(parse, b, listing)
    ensures Times(parse, a) == Times(parse, b)
  {
    TimesPermutation(parse, a, b);
    assert Ascending(Times(parse, a));
    assert Ascending(Times(parse, b));
    SortedInstantsUnique(Times(parse, a), Times(parse, b));
  }

  /** The instants of a slice are the slice of the instants. */
  lemma TimesSlice(parse: Parser, s: seq<Item>, i: nat, j: nat)
    requires i <= j <= |s|
    ensures Times(parse, s[i..j]) == Times(parse, s)[i..j]
  {
  }

  /** Whatever order `sort.Slice` picks, splitting it deletes items with the
      same instants, position by position, as `Decide`, and when the listing
      exceeds the cap it keeps items with the same instants too. */
  lemma {:induction false} SplitAgreesWithDecide(parse: Parser, listing: seq<Item>, sorted: seq<Item>, maxBackups: nat)
    requires IsTimeOrderOf(parse, sorted, listing)
    ensures Times(parse, SplitOrder(sorted, maxBackups).victims) == Times(parse, Decide(parse, listing, maxBackups).victims)
    ensures |listing| > maxBackups ==>
      Times(parse, SplitOrder(sorted, maxBackups).survivors) == Times(parse, Decide(parse, listing, maxBackups).survivors)
  {
    assert |sorted| == |listing| by {
      assert |multiset(sorted)| == |multiset(listing)|;
    }
    if |listing| > maxBackups {
      var other := SortByTime(parse, listing);
      SortedOrdersAgreeOnTimes(parse, listing, sorted, other);
      SplitTimesAgree(parse, sorted, other, DeleteCount(|sorted|, maxBackups));
    }
  }

  /** Two orders with the same instants split into parts with the same instants. */
  lemma SplitTimesAgree(parse: Parser, a: seq<Item>, b: seq<Item>, k: nat)
    requires |a| == |b| && k <= |a|
    requires Times(parse, a) == Times(parse, b)
    ensures Times(parse, a[..k]) == Times(parse, b[..k])
    ensures Times(parse, a[k..]) == Times(parse, b[k..])
  {
    TimesSlice(parse, a, 0, k);
    TimesSlice(parse, b, 0, k);
    TimesSlice(parse, a, k, |a|);
    TimesSlice(parse, b, k, |b|);
    assert a[0..k] == a[..k] && b[0..k] == b[..k];
    assert a[k..|a|] == a[k..] && b[k..|b|] == b[k..];
  }
}

/** `horizons.sort(key=len, reverse=True)`: a stable sort by size, largest
    first. Python documents that `reverse=True` keeps equal keys in their
    original order, so the result is fully determined (see
    `StableSortUnique`); insertion sort is used here as the definition. */
module SizeSort {
  import opened Horizons

  /** Sizes are non-increasing along the sequence. */
  predicate SortedDesc(s: seq<Horizon>) {
    forall i, j :: 0 <= i < j < |s| ==> Size(s[i]) >= Size(s[j])
  }

  /** The horizons of size `k`, in the order they occur in `s`. */
  function WithSize(s: seq<Horizon>, k: nat): seq<Horizon> {
    if s == [] then []
    else (if Size(s[0]) == k then [s[0]] else []) + WithSize(s[1..], k)
  }

  /** A horizon is listed among those of size `k` exactly when it occurs in
      `s` and has size `k`. */
  lemma {:induction false} WithSizeMembers(s: seq<Horizon>, k: nat, h: Horizon)
    ensures h in WithSize(s, k) <==> h in s && Size(h) == k
  {
    if s != [] {
      WithSizeMembers(s[1..], k, h);
      assert s == [s[0]] + s[1..];
    }
  }

  /** Everything after the head of a sorted sequence is no larger than the head. */
  lemma HeadIsLargest(s: seq<Horizon>, x: Horizon)
    requires SortedDesc(s) && x in s
    ensures Size(x) <= Size(s[0])
  {
  }

  /** A horizon no larger than every element of a sorted sequence, put in
      front of it, keeps it sorted. */
  lemma ConsSorted(h: Horizon, s: seq<Horizon>)
    requires SortedDesc(s)
    requires forall x | x in s :: Size(x) <= Size(h)
    ensures SortedDesc([h] + s)
  {
  }

  /** Every horizon after the head of a sorted sequence is no larger than the head. */
  lemma TailBelowHead(s: seq<Horizon>)
    requires SortedDesc(s) && s != []
    ensures forall x | x in s[1..] :: Size(x) <= Size(s[0])
  {
  }

  /** A bound on the sizes of `s` and of `h` bounds every horizon of any
      sequence holding exactly the horizons of `s` plus `h`. */
  lemma InsertedStaysBelow(h: Horizon, s: seq<Horizon>, t: seq<Horizon>, m: nat)
    requires multiset(t) == multiset(s) + multiset{h}
    requires Size(h) <= m
    requires forall x | x in s :: Size(x) <= m
    ensures forall x | x in t :: Size(x) <= m
  {
    forall x | x in t ensures Size(x) <= m {
      assert x in multiset(t);
      if x != h {
        assert x in multiset(s);
      }
    }
  }

  /** The horizons of size `k` in `[x] + t`: `x` if it has that size, then those of `t`. */
  lemma WithSizeCons(x: Horizon, t: seq<Horizon>, k: nat)
    ensures WithSize([x] + t, k) == (if Size(x) == k then [x] else []) + WithSize(t, k)
  {
    assert ([x] + t)[1..] == t;
  }

  /** Inserts `h` into a sorted sequence in front of the first horizon that is
      not larger than it, so that `h` precedes the horizons of its own size. */
  function Insert(h: Horizon, s: seq<Horizon>): (r: seq<Horizon>)
    requires SortedDesc(s)
    ensures SortedDesc(r)
    ensures multiset(r) == multiset(s) + multiset{h}
  {
    if s == [] || Size(s[0]) <= Size(h) then
      assert forall x | x in s :: Size(x) <= Size(h) by {
        forall x | x in s ensures Size(x) <= Size(h) {
          HeadIsLargest(s, x);
        }
      }
      ConsSorted(h, s);
      [h] + s
    else
      var t := Insert(h, s[1..]);
      assert s == [s[0]] + s[1..];
      TailBelowHead(s);
      InsertedStaysBelow(h, s[1..], t, Size(s[0]));
      ConsSorted(s[0], t);
      [s[0]] + t
  }

  /** Among the horizons of its own size, the inserted horizon comes first;
      the horizons of every other size are untouched. */
  lemma {:induction false} InsertWithSize(h: Horizon, s: seq<Horizon>, k: nat)
    requires SortedDesc(s)
    ensures WithSize(Insert(h, s), k) ==
            (if Size(h) == k then [h] + WithSize(s, k) else WithSize(s, k))
  {
    if s == [] || Size(s[0]) <= Size(h) {
      WithSizeCons(h, s, k);
    } else {
      InsertWithSize(h, s[1..], k);
      WithSizeCons(s[0], Insert(h, s[1..]), k);
      WithSizeCons(s[0], s[1..], k);
      assert s == [s[0]] + s[1..];
    }
  }

  /** The stable descending sort by size: sorted, and a permutation of its input. */
  function SortBySize(hs: seq<Horizon>): (r: seq<Horizon>)
    ensures SortedDesc(r)
    ensures multiset(r) == multiset(hs)
  {
    if hs == [] then []
    else
      assert hs == [hs[0]] + hs[1..];
      Insert(hs[0], SortBySize(hs[1..]))
  }

  /** The sort is stable: it lists the horizons of every size in their input order. */
  lemma {:induction false} SortBySizeIsStable(hs: seq<Horizon>, k: nat)
    ensures WithSize(SortBySize(hs), k) == WithSize(hs, k)
  {
    if hs != [] {
      SortBySizeIsStable(hs[1..], k);
      InsertWithSize(hs[0], SortBySize(hs[1..]), k);
      WithSizeCons(hs[0], hs[1..], k);
      assert hs == [hs[0]] + hs[1..];
    }
  }

  /** A non-empty sequence lists its head among the horizons of the head's size. */
  lemma HeadHasItsSize(s: seq<Horizon>)
    ensures s != [] ==> s[0] in WithSize(s, Size(s[0]))
  {
  }

  /** Sequences that list every size's horizons alike and start with the same
      horizon still do so after dropping it. */
  lemma TailsAgree(a: seq<Horizon>, b: seq<Horizon>)
    requires a != [] && b != [] && a[0] == b[0]
    requires forall k :: WithSize(a, k) == WithSize(b, k)
    ensures forall k :: WithSize(a[1..], k) == WithSize(b[1..], k)
  {
    forall k ensures WithSize(a[1..], k) == WithSize(b[1..], k) {
      var p := if Size(a[0]) == k then [a[0]] else [];
      assert WithSize(a, k) == p + WithSize(a[1..], k);
      assert WithSize(b, k) == p + WithSize(b[1..], k);
      assert WithSize(a[1..], k) == WithSize(a, k)[|p|..];
      assert WithSize(b[1..], k) == WithSize(b, k)[|p|..];
    }
  }

  /** Two sequences that are both sorted by size, and that list the horizons
      of every size in the same order, are equal: a stable descending sort
      has exactly one possible result. */
  lemma {:induction false} StableSortUnique(a: seq<Horizon>, b: seq<Horizon>)
    requires SortedDesc(a) && SortedDesc(b)
    requires forall k :: WithSize(a, k) == WithSize(b, k)
    ensures a == b
    decreases |a|
  {
    HeadHasItsSize(a);
    HeadHasItsSize(b);
    if a != [] && b != [] {
      var m := Size(a[0]);
      WithSizeMembers(b, m, a[0]);
      HeadIsLargest(b, a[0]);
      WithSizeMembers(a, Size(b[0]), b[0]);
      HeadIsLargest(a, b[0]);
      assert WithSize(a, m)[0] == a[0];
      assert WithSize(b, m)[0] == b[0];
      TailsAgree(a, b);
      StableSortUnique(a[1..], b[1..]);
      assert a == [a[0]] + a[1..];
      assert b == [b[0]] + b[1..];
    }
  }

  /** Any stable descending sort of `hs` is `SortBySize(hs)`. */
  lemma SortBySizeIsTheStableSort(hs: seq<Horizon>, out: seq<Horizon>)
    requires SortedDesc(out)
    requires forall k :: WithSize(out, k) == WithSize(hs, k)
    ensures out == SortBySize(hs)
  {
    forall k ensures WithSize(SortBySize(hs), k) == WithSize(hs, k) {
      SortBySizeIsStable(hs, k);
    }
    StableSortUnique(out, SortBySize(hs));
  }

  /** Sorting an already sorted sequence changes nothing. */
  lemma SortIdempotent(s: seq<Horizon>)
    requires SortedDesc(s)
    ensures SortBySize(s) == s
  {
    forall k ensures WithSize(SortBySize(s), k) == WithSize(s, k) {
      SortBySizeIsStable(s, k);
    }
    StableSortUnique(SortBySize(s), s);
  }
}

/** Sequence searches and filters used by the repositories (Prisma's findFirst, findMany and where). */
module Seqs {
  import opened Wrappers

  /** Index of the first element satisfying `p`, or None when no element does. */
  function IndexWhere<T>(s: seq<T>, p: T -> bool): (r: Option<nat>)
    ensures r.Some? ==> r.value < |s| && p(s[r.value])
    ensures r.Some? ==> forall j :: 0 <= j < r.value ==> !p(s[j])
    ensures r.None? ==> forall j :: 0 <= j < |s| ==> !p(s[j])
  {
    if |s| == 0 then None
    else if p(s[0]) then Some(0)
    else match IndexWhere(s[1..], p)
      case None => None
      case Some(i) => Some(i + 1)
  }

  /** The first element satisfying `p` (Prisma's findFirst over rows in id order). */
  function FindFirst<T>(s: seq<T>, p: T -> bool): (r: Option<T>)
    ensures r.Some? ==> r.value in s && p(r.value)
    ensures r.None? <==> forall j :: 0 <= j < |s| ==> !p(s[j])
  {
    match IndexWhere(s, p)
    case None => None
    case Some(i) => Some(s[i])
  }

  /** How many elements of `s` satisfy `p`; `Occurrences(s[..i], p)` is the rank of position i. */
  function Occurrences<T>(s: seq<T>, p: T -> bool): nat
  {
    if |s| == 0 then 0 else (if p(s[0]) then 1 else 0) + Occurrences(s[1..], p)
  }

  /**
   * The elements satisfying `p`, in their original order (a `where` clause): as
   * many as satisfy it, the element at position i landing at its rank.
   */
  function Filter<T>(s: seq<T>, p: T -> bool): (r: seq<T>)
    ensures |r| <= |s|
    ensures |r| == Occurrences(s, p)
    ensures forall i :: 0 <= i < |r| ==> r[i] in s && p(r[i])
    ensures forall i :: 0 <= i < |s| && p(s[i]) ==> s[i] in r
    ensures forall i {:trigger Occurrences(s[..i], p)} :: 0 <= i < |s| && p(s[i]) ==>
      Occurrences(s[..i], p) < |r| && r[Occurrences(s[..i], p)] == s[i]
  {
    if |s| == 0 then []
    else
      var rest := Filter(s[1..], p);
      var r := if p(s[0]) then [s[0]] + rest else rest;
      assert forall i {:trigger Occurrences(s[..i], p)} :: 0 <= i < |s| && p(s[i]) ==>
        Occurrences(s[..i], p) < |r| && r[Occurrences(s[..i], p)] == s[i] by {
        forall i | 0 <= i < |s| && p(s[i])
          ensures Occurrences(s[..i], p) < |r| && r[Occurrences(s[..i], p)] == s[i]
        {
          if i > 0 {
            assert s[..i][1..] == s[1..][..i - 1];
            assert s[1..][i - 1] == s[i];
          }
        }
      }
      r
  }

  /** The position of the element of rank k: it satisfies `p` and exactly k earlier elements do. */
  function RankPosition<T>(s: seq<T>, p: T -> bool, k: nat): (j: nat)
    requires k < Occurrences(s, p)
    ensures j < |s| && p(s[j]) && Occurrences(s[..j], p) == k
    decreases |s|
  {
    if p(s[0]) && k == 0 then
      assert s[..0] == [];
      0
    else
      var j := RankPosition(s[1..], p, if p(s[0]) then k - 1 else k);
      assert s[..j + 1][1..] == s[1..][..j];
      j + 1
  }

  /** Every slot of the filtered sequence holds the element of that rank. */
  lemma FilterSlot<T>(s: seq<T>, p: T -> bool, k: nat)
    requires k < |Filter(s, p)|
    ensures k < Occurrences(s, p) && Filter(s, p)[k] == s[RankPosition(s, p, k)]
  {
    var j := RankPosition(s, p, k);
    assert Filter(s, p)[Occurrences(s[..j], p)] == s[j];
  }

  /** Slot i of a page over the filtered sequence holds the element of rank skip + i. */
  lemma PageSlotHasRank<T>(s: seq<T>, p: T -> bool, skip: nat, take: nat, i: nat)
    requires i < |Page(Filter(s, p), skip, take)|
    ensures skip + i < Occurrences(s, p)
    ensures Page(Filter(s, p), skip, take)[i] == s[RankPosition(s, p, skip + i)]
  {
    FilterSlot(s, p, skip + i);
  }

  /** An element whose rank falls inside the page sits in the slot of that rank. */
  lemma RankHasPageSlot<T>(s: seq<T>, p: T -> bool, skip: nat, take: nat, j: nat)
    requires j < |s| && p(s[j])
    requires skip <= Occurrences(s[..j], p) < skip + |Page(Filter(s, p), skip, take)|
    ensures Page(Filter(s, p), skip, take)[Occurrences(s[..j], p) - skip] == s[j]
  {
    assert Filter(s, p)[Occurrences(s[..j], p)] == s[j];
  }

  /** Counting one element more. */
  lemma {:induction false} OccurrencesSnoc<T>(s: seq<T>, x: T, p: T -> bool)
    ensures Occurrences(s + [x], p) == Occurrences(s, p) + (if p(x) then 1 else 0)
    decreases |s|
  {
    if |s| > 0 {
      assert (s + [x])[1..] == s[1..] + [x];
      OccurrencesSnoc(s[1..], x, p);
    }
  }

  /** Occurrences is the number of positions whose element satisfies `p`. */
  /** The positions of `s` whose element satisfies `p`. */
  function Positions<T>(s: seq<T>, p: T -> bool): set<int>
  {
    set i | 0 <= i < |s| && p(s[i])
  }

  lemma {:induction false} OccurrencesIsCount<T>(s: seq<T>, p: T -> bool)
    ensures Occurrences(s, p) == |Positions(s, p)|
    decreases |s|
  {
    if |s| > 0 {
      var n := |s| - 1;
      var t := s[..n];
      OccurrencesIsCount(t, p);
      assert s == t + [s[n]];
      OccurrencesSnoc(t, s[n], p);
      var before := Positions(t, p);
      if p(s[n]) {
        assert Positions(s, p) == before + {n};
      } else {
        assert Positions(s, p) == before;
      }
    }
  }

  /** Filtering twice by the same predicate is filtering once. */
  lemma {:induction false} FilterIdempotent<T>(s: seq<T>, p: T -> bool)
    ensures Filter(Filter(s, p), p) == Filter(s, p)
  {
    if |s| > 0 {
      FilterIdempotent(s[1..], p);
      if p(s[0]) {
        assert ([s[0]] + Filter(s[1..], p))[1..] == Filter(s[1..], p);
      }
    }
  }

  /** Skip then take, as Prisma's `skip`/`take` pagination does; short pages at the end. */
  function Page<T>(s: seq<T>, skip: nat, take: nat): (r: seq<T>)
    ensures |r| <= take
    ensures skip >= |s| ==> r == []
    ensures skip + take <= |s| ==> |r| == take
    ensures skip < |s| < skip + take ==> |r| == |s| - skip
    ensures forall i :: 0 <= i < |r| ==> skip + i < |s| && r[i] == s[skip + i]
  {
    if skip >= |s| then []
    else if skip + take <= |s| then s[skip..skip + take]
    else s[skip..]
  }

  /** Two adjacent pages together are the page spanning both. */
  lemma PagesJoin<T>(s: seq<T>, skip: nat, a: nat, b: nat)
    ensures Page(s, skip, a) + Page(s, skip + a, b) == Page(s, skip, a + b)
  {
    if skip + a < |s| {
      assert Page(s, skip, a) == s[skip..skip + a];
      if skip + a + b <= |s| {
        assert s[skip..skip + a] + s[skip + a..skip + a + b] == s[skip..skip + a + b];
      } else {
        assert s[skip..skip + a] + s[skip + a..] == s[skip..];
      }
    }
  }

  /** Filtering a concatenation filters each part. */
  lemma {:induction false} FilterAppend<T>(a: seq<T>, b: seq<T>, p: T -> bool)
    ensures Filter(a + b, p) == Filter(a, p) + Filter(b, p)
    decreases |a|
  {
    if |a| > 0 {
      assert (a + b)[1..] == a[1..] + b;
      FilterAppend(a[1..], b, p);
    } else {
      assert a + b == b;
    }
  }

  /** Overwriting a kept element with a dropped one shortens the filtered sequence by one. */
  lemma {:induction false} FilterUpdateDrops<T>(s: seq<T>, p: T -> bool, k: nat, x: T)
    requires k < |s| && p(s[k]) && !p(x)
    ensures |Filter(s[k := x], p)| == |Filter(s, p)| - 1
    decreases k
  {
    if k == 0 {
      assert s[k := x][1..] == s[1..];
    } else {
      assert s[k := x][1..] == s[1..][k - 1 := x];
      FilterUpdateDrops(s[1..], p, k - 1, x);
    }
  }

  /** Removing a kept element shortens the filtered sequence by one. */
  lemma {:induction false} FilterRemoveDrops<T>(s: seq<T>, p: T -> bool, k: nat)
    requires k < |s| && p(s[k])
    ensures |Filter(s[..k] + s[k + 1..], p)| == |Filter(s, p)| - 1
    decreases k
  {
    if k == 0 {
      assert s[..k] + s[k + 1..] == s[1..];
    } else {
      var t := s[1..];
      assert (s[..k] + s[k + 1..])[1..] == t[..k - 1] + t[k..];
      assert (s[..k] + s[k + 1..])[0] == s[0];
      FilterRemoveDrops(t, p, k - 1);
    }
  }

  /** When no element satisfies `p`, the filter is empty. */
  lemma {:induction false} FilterNone<T>(s: seq<T>, p: T -> bool)
    requires forall i :: 0 <= i < |s| ==> !p(s[i])
    ensures Filter(s, p) == []
    decreases |s|
  {
    if |s| > 0 {
      FilterNone(s[1..], p);
    }
  }

  /** When every element satisfies `p`, filtering keeps the sequence. */
  lemma {:induction false} FilterAll<T>(s: seq<T>, p: T -> bool)
    requires forall i :: 0 <= i < |s| ==> p(s[i])
    ensures Filter(s, p) == s
    decreases |s|
  {
    if |s| > 0 {
      FilterAll(s[1..], p);
      assert s == [s[0]] + s[1..];
    }
  }
}

/** The stable array sort the controller uses to rank candidate pathways.
    Candidates are listed in configuration order, so a stable sort by an
    extended-real key is the same as a sort by (key, configuration index). */
module Ordering {
  import opened Js

  /** A candidate: its sort key and its index in the configured list. */
  datatype Cand = Cand(key: Ext, idx: nat)

  /** `a` comes before `b` in the stable order. */
  predicate Precedes(a: Cand, b: Cand) {
    ExtLt(a.key, b.key) || (a.key == b.key && a.idx < b.idx)
  }

  /** Strictly increasing configuration indices (the order a filter keeps). */
  predicate InConfigOrder(s: seq<Cand>) {
    forall i, j :: 0 <= i < j < |s| ==> s[i].idx < s[j].idx
  }

  /** Sorted by key, ties in configuration order. */
  predicate Ranked(s: seq<Cand>) {
    forall i, j :: 0 <= i < j < |s| ==> Precedes(s[i], s[j])
  }

  lemma PrecedesTrans(a: Cand, b: Cand, c: Cand)
    requires Precedes(a, b) && Precedes(b, c)
    ensures Precedes(a, c)
  {
    ExtLeTrans(a.key, b.key, c.key);
    ExtLeTotal(a.key, c.key);
    ExtLeTotal(a.key, b.key);
  }

  /** A ranking stays ranked without its head. */
  lemma {:induction false} RankedTail(s: seq<Cand>)
    requires Ranked(s) && |s| > 0
    ensures Ranked(s[1..])
  {
    forall i, j | 0 <= i < j < |s| - 1
      ensures Precedes(s[1..][i], s[1..][j])
    {
      assert Precedes(s[i + 1], s[j + 1]);
    }
  }

  /** Putting in front an element that precedes the first keeps a ranking ranked. */
  lemma {:induction false} RankedCons(x: Cand, s: seq<Cand>)
    requires Ranked(s) && (|s| > 0 ==> Precedes(x, s[0]))
    ensures Ranked([x] + s)
  {
    forall i, j | 0 <= i < j < |s| + 1
      ensures Precedes(([x] + s)[i], ([x] + s)[j])
    {
      if i == 0 {
        if j > 1 {
          PrecedesTrans(x, s[0], s[j - 1]);
        }
      } else {
        assert Precedes(s[i - 1], s[j - 1]);
      }
    }
  }

  /** Inserts `c` before the first element whose key is not smaller. */
  function Insert(c: Cand, s: seq<Cand>): (r: seq<Cand>)
    requires Ranked(s)
    requires forall k :: 0 <= k < |s| ==> c.idx < s[k].idx
    ensures Ranked(r)
    ensures multiset(r) == multiset(s) + multiset{c}
    ensures |r| == |s| + 1
    decreases |s|
  {
    if |s| == 0 || ExtLe(c.key, s[0].key) then
      RankedCons(c, s);
      [c] + s
    else
      RankedTail(s);
      var tail := Insert(c, s[1..]);
      InsertBehind(c, s, tail);
      [s[0]] + tail
  }

  /** The head of `s` precedes both `c` (whose key is larger) and the rest of
      `s`, so it precedes any ranking of `s[1..]` with `c` added. */
  lemma {:induction false} InsertBehind(c: Cand, s: seq<Cand>, tail: seq<Cand>)
    requires Ranked(s) && |s| > 0 && !ExtLe(c.key, s[0].key)
    requires Ranked(tail) && multiset(tail) == multiset(s[1..]) + multiset{c}
    ensures Ranked([s[0]] + tail)
    ensures multiset([s[0]] + tail) == multiset(s) + multiset{c}
  {
    if |tail| > 0 {
      assert tail[0] in multiset(tail);
      if tail[0] == c {
        ExtLeTotal(c.key, s[0].key);
      } else {
        assert tail[0] in s[1..];
        var m :| 0 <= m < |s[1..]| && s[1..][m] == tail[0];
        assert Precedes(s[0], s[m + 1]);
      }
    }
    RankedCons(s[0], tail);
    assert s == [s[0]] + s[1..];
  }

  /** Stable sort of a configuration-ordered candidate list (insertion sort). */
  function SortStable(s: seq<Cand>): (r: seq<Cand>)
    requires InConfigOrder(s)
    ensures Ranked(r)
    ensures multiset(r) == multiset(s)
    ensures |r| == |s|
    decreases |s|
  {
    if |s| == 0 then []
    else
      var rest := SortStable(s[1..]);
      HeadBeforeRest(s, rest);
      Insert(s[0], rest)
  }

  /** In configuration order, the head's index is below every index of any
      permutation of the rest. */
  lemma {:induction false} HeadBeforeRest(s: seq<Cand>, rest: seq<Cand>)
    requires InConfigOrder(s) && |s| > 0 && multiset(rest) == multiset(s[1..])
    ensures forall k :: 0 <= k < |rest| ==> s[0].idx < rest[k].idx
    ensures multiset(s) == multiset(rest) + multiset{s[0]}
  {
    forall k | 0 <= k < |rest|
      ensures s[0].idx < rest[k].idx
    {
      assert rest[k] in multiset(s[1..]);
      var m :| 0 <= m < |s[1..]| && s[1..][m] == rest[k];
      assert s[m + 1] == rest[k];
    }
    assert s == [s[0]] + s[1..];
  }

  /** The head of a ranking precedes every other member: the first element
      has the least key, and is the earliest configured among equals. */
  lemma FirstIsLeast(r: seq<Cand>, x: Cand)
    requires Ranked(r) && |r| > 0
    requires x in multiset(r)
    ensures x == r[0] || Precedes(r[0], x)
  {
    var m :| 0 <= m < |r| && r[m] == x;
  }

  /** A ranking lists each candidate once. */
  lemma RankedDistinct(r: seq<Cand>, i: int, j: int)
    requires Ranked(r) && 0 <= i < |r| && 0 <= j < |r| && i != j
    ensures r[i] != r[j]
  {
    if i < j {
      assert Precedes(r[i], r[j]);
    } else {
      assert Precedes(r[j], r[i]);
    }
  }

  /** A ranking is determined by its members: any two rankings of the same
      candidates are equal, so `SortStable` agrees with every stable sort. */
  lemma {:induction false} RankingUnique(a: seq<Cand>, b: seq<Cand>)
    requires Ranked(a) && Ranked(b)
    requires multiset(a) == multiset(b)
    ensures a == b
    decreases |a|
  {
    assert |a| == |multiset(a)| == |b|;
    if |a| > 0 {
      assert a[0] in multiset(b);
      assert b[0] in multiset(a);
      FirstIsLeast(b, a[0]);
      FirstIsLeast(a, b[0]);
      if a[0] != b[0] {
        PrecedesTrans(a[0], b[0], a[0]);
        assert false;
      }
      assert a == [a[0]] + a[1..];
      assert b == [b[0]] + b[1..];
      assert multiset(a) == multiset{a[0]} + multiset(a[1..]);
      assert multiset(b) == multiset{b[0]} + multiset(b[1..]);
      assert multiset(a[1..]) == multiset(a) - multiset{a[0]};
      assert multiset(b[1..]) == multiset(b) - multiset{b[0]};
      assert Ranked(a[1..]) by {
        forall i, j | 0 <= i < j < |a[1..]|
          ensures Precedes(a[1..][i], a[1..][j])
        {
          assert Precedes(a[i + 1], a[j + 1]);
        }
      }
      assert Ranked(b[1..]) by {
        forall i, j | 0 <= i < j < |b[1..]|
          ensures Precedes(b[1..][i], b[1..][j])
        {
          assert Precedes(b[i + 1], b[j + 1]);
        }
      }
      RankingUnique(a[1..], b[1..]);
    }
  }
}

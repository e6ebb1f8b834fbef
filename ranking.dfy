/**
 * Vote counting and ranking shared by the server's top-2 tallies and the
 * client's results screen: a count table built by `counts[x] = (counts[x] || 0) + 1`
 * over the candidates in the order they are met, and
 * `Object.keys(counts).sort((a, b) => counts[b] - counts[a])`, a stable sort
 * by descending count.
 */
module Ranking {
  import opened OrderedMap

  /** A count table: candidate to number of times met, in first-seen order. */
  type Counts = seq<(string, int)>

  /** Number of times `x` occurs in `xs`. */
  function Occurrences(xs: seq<string>, x: string): nat
  {
    multiset(xs)[x]
  }

  /** One step of the counting loop: `counts[x] = (counts[x] || 0) + 1`. */
  function Bump(t: Counts, x: string): Counts
  {
    Put(t, x, if Has(t, x) then Get(t, x) + 1 else 1)
  }

  /** The count table after meeting the candidates `xs` from left to right. */
  function Counted(xs: seq<string>): (t: Counts)
    ensures Unique(t)
  {
    if xs == [] then [] else Bump(Counted(xs[..|xs| - 1]), xs[|xs| - 1])
  }

  lemma CountedSnoc(xs: seq<string>, x: string)
    ensures Counted(xs + [x]) == Bump(Counted(xs), x)
  {
    assert (xs + [x])[..|xs|] == xs;
  }

  lemma SliceSnoc<T>(s: seq<T>, j: nat)
    requires j < |s|
    ensures s[..j + 1] == s[..j] + [s[j]]
  {
  }

  lemma PrefixSnoc<T>(p: seq<T>, s: seq<T>, j: nat)
    requires j <= |s|
    ensures j < |s| ==> p + s[..j + 1] == (p + s[..j]) + [s[j]]
    ensures p + s[..|s|] == p + s
    ensures p + s[..0] == p
  {
    if j < |s| {
      assert s[..j + 1] == s[..j] + [s[j]];
    }
    assert s[..|s|] == s;
    assert s[..0] == [];
  }

  /** One step of a counting loop: `counts[x] = (counts[x] || 0) + 1`. */
  method CountOne(counts: Counts, ghost seen: seq<string>, x: string) returns (r: Counts)
    requires counts == Counted(seen)
    ensures r == Counted(seen + [x])
  {
    CountedSnoc(seen, x);
    r := Bump(counts, x);
  }

  /** The entries of a table before a bump keep their keys and positions. */
  lemma BumpKeepsPrefix(t: Counts, x: string)
    ensures |Bump(t, x)| >= |t|
    ensures forall i :: 0 <= i < |t| ==> Bump(t, x)[i].0 == t[i].0
    ensures !Has(t, x) ==> |Bump(t, x)| == |t| + 1 && Bump(t, x)[|t|].0 == x
  {
    var r := Bump(t, x);
    assert Keys(r)[..|t|] == Keys(t);
    forall i | 0 <= i < |t| ensures r[i].0 == t[i].0 {
      assert Keys(r)[i] == Keys(t)[i];
    }
    if !Has(t, x) {
      assert Keys(r)[|t|] == x;
    }
  }

  /** The count table lists exactly the candidates met. */
  lemma {:induction false} CountedHas(xs: seq<string>)
    ensures forall x :: Has(Counted(xs), x) <==> x in xs
  {
    if xs != [] {
      var p, x := xs[..|xs| - 1], xs[|xs| - 1];
      assert xs == p + [x];
      CountedHas(p);
    }
  }

  /** Each candidate's entry is its number of occurrences. */
  lemma {:induction false} CountedGet(xs: seq<string>)
    ensures forall x :: x in xs ==> Has(Counted(xs), x) && Get(Counted(xs), x) == Occurrences(xs, x)
  {
    CountedHas(xs);
    if xs != [] {
      var p, x := xs[..|xs| - 1], xs[|xs| - 1];
      assert xs == p + [x];
      assert multiset(xs) == multiset(p) + multiset{x};
      CountedGet(p);
      CountedHas(p);
      forall y | y in xs ensures Get(Counted(xs), y) == Occurrences(xs, y) {
        if y != x {
          assert y in p;
        }
      }
    }
  }

  /** Candidates are listed in the order in which each was first met. */
  lemma {:induction false} CountedOrder(xs: seq<string>)
    ensures forall i :: 0 <= i < |Counted(xs)| ==> Counted(xs)[i].0 in xs
    ensures forall i, j :: 0 <= i < j < |Counted(xs)| ==>
              FirstIndex(xs, Counted(xs)[i].0) < FirstIndex(xs, Counted(xs)[j].0)
  {
    CountedHas(xs);
    forall i | 0 <= i < |Counted(xs)| ensures Counted(xs)[i].0 in xs {
      assert Keys(Counted(xs))[i] == Counted(xs)[i].0;
    }
    if xs != [] {
      var p, x := xs[..|xs| - 1], xs[|xs| - 1];
      assert xs == p + [x];
      CountedOrder(p);
      var tp, t := Counted(p), Counted(xs);
      BumpKeepsPrefix(tp, x);
      forall y | y in p ensures FirstIndex(xs, y) == FirstIndex(p, y) {
        FirstIndexPrefix(p, [x], y);
      }
      if !Has(tp, x) {
        CountedHas(p);
        FirstIndexAfter(p, [x], x);
        assert |t| == |tp| + 1;
      } else {
        assert |t| == |tp|;
      }
    }
  }

  /** Sorted by non-increasing count. */
  predicate SortedDesc<T>(r: seq<(T, int)>)
  {
    forall i, j :: 0 <= i < j < |r| ==> r[i].1 >= r[j].1
  }

  /** Any two entries of `r` with equal counts are in the order their candidates have in `order`. */
  ghost predicate TiesInOrder<T>(r: seq<(T, int)>, order: seq<T>)
  {
    forall i, j :: 0 <= i < j < |r| && r[i].1 == r[j].1 && r[i].0 in order && r[j].0 in order ==>
      FirstIndex(order, r[i].0) < FirstIndex(order, r[j].0)
  }

  /** Stable insertion of `x` into a list sorted by descending count: `x` goes before its ties. */
  function Insert<T>(x: (T, int), r: seq<(T, int)>): (s: seq<(T, int)>)
    ensures multiset(s) == multiset(r) + multiset{x}
  {
    if r == [] || r[0].1 <= x.1 then [x] + r
    else
      assert r == [r[0]] + r[1..];
      [r[0]] + Insert(x, r[1..])
  }

  /** Every entry of `Insert(x, r)` is `x` or the entry of `r` at index `m`. */
  lemma InsertFrom<T>(x: (T, int), r: seq<(T, int)>, k: nat) returns (m: nat)
    requires k < |Insert(x, r)|
    ensures Insert(x, r)[k] == x || (m < |r| && r[m] == Insert(x, r)[k])
  {
    var e := Insert(x, r)[k];
    assert e in multiset(Insert(x, r));
    m := 0;
    if e != x {
      assert e in multiset(r);
      m :| m < |r| && r[m] == e;
    }
  }

  lemma {:induction false} InsertSorted<T>(x: (T, int), r: seq<(T, int)>)
    requires SortedDesc(r)
    ensures SortedDesc(Insert(x, r))
  {
    if r != [] && r[0].1 > x.1 {
      InsertSorted(x, r[1..]);
      var rest := Insert(x, r[1..]);
      forall j | 0 <= j < |rest| ensures rest[j].1 <= r[0].1 {
        var m := InsertFrom(x, r[1..], j);
      }
    }
  }

  /**
   * The stable sort by descending count that
   * `keys.sort((a, b) => counts[b] - counts[a])` performs.
   */
  function SortByCount<T>(s: seq<(T, int)>): (r: seq<(T, int)>)
    ensures multiset(r) == multiset(s)
    ensures |r| == |s|
    ensures SortedDesc(r)
  {
    if s == [] then []
    else
      assert s == [s[0]] + s[1..];
      var rest := SortByCount(s[1..]);
      InsertSorted(s[0], rest);
      var r := Insert(s[0], rest);
      assert |r| == |multiset(r)|;
      r
  }

  lemma {:induction false} InsertStable<T>(x: (T, int), r: seq<(T, int)>, order: seq<T>)
    requires SortedDesc(r) && TiesInOrder(r, order) && x.0 in order
    requires forall i :: 0 <= i < |r| ==> r[i].0 in order
    requires forall i :: 0 <= i < |r| && r[i].1 == x.1 ==> FirstIndex(order, x.0) < FirstIndex(order, r[i].0)
    ensures TiesInOrder(Insert(x, r), order)
  {
    if r != [] && r[0].1 > x.1 {
      InsertStable(x, r[1..], order);
      var rest := Insert(x, r[1..]);
      var s := Insert(x, r);
      assert s == [r[0]] + rest;
      forall j | 0 < j < |s| && s[0].1 == s[j].1 && s[j].0 in order
        ensures FirstIndex(order, s[0].0) < FirstIndex(order, s[j].0)
      {
        var m := InsertFrom(x, r[1..], j - 1);
        assert s[j] != x ==> r[m + 1] == s[j];
      }
    }
  }

  /** Putting a new candidate in front of `order` keeps the ties of `r` in order. */
  lemma ShiftTies<T>(r: seq<(T, int)>, h: T, order: seq<T>)
    requires TiesInOrder(r, order) && h !in order
    requires forall i :: 0 <= i < |r| ==> r[i].0 in order
    ensures TiesInOrder(r, [h] + order)
  {
    forall y | y in order ensures FirstIndex([h] + order, y) == 1 + FirstIndex(order, y) {
      FirstIndexAfter([h], order, y);
    }
  }

  /** The sort is stable: entries with equal counts keep their input order. */
  lemma {:induction false} SortStable<T>(s: seq<(T, int)>)
    requires Distinct(Keys(s))
    ensures TiesInOrder(SortByCount(s), Keys(s))
  {
    if s != [] {
      var h, t := s[0], s[1..];
      var o, ot := Keys(s), Keys(t);
      assert o == [h.0] + ot;
      assert Distinct(ot) by {
        forall i, j | 0 <= i < j < |ot| ensures ot[i] != ot[j] {
          assert ot[i] == o[i + 1] && ot[j] == o[j + 1];
        }
      }
      assert h.0 !in ot by {
        forall i | 0 <= i < |ot| ensures ot[i] != h.0 {
          assert ot[i] == o[i + 1];
        }
      }
      SortStable(t);
      var rt := SortByCount(t);
      forall i | 0 <= i < |rt| ensures rt[i].0 in ot {
        assert rt[i] in multiset(t);
        var m :| 0 <= m < |t| && t[m] == rt[i];
        assert ot[m] == rt[i].0;
      }
      ShiftTies(rt, h.0, ot);
      forall i | 0 <= i < |rt| && rt[i].1 == h.1 ensures FirstIndex(o, h.0) < FirstIndex(o, rt[i].0) {
        assert FirstIndex(o, h.0) == 0;
      }
      InsertStable(h, rt, o);
    }
  }

  /** The distinct elements of a list. */
  function Elements(xs: seq<string>): set<string>
  {
    set y | y in xs
  }

  /**
   * Reference definition of the ranking: every distinct candidate exactly
   * once, by non-increasing number of occurrences, candidates with equal
   * counts in the order in which they were first met.
   */
  ghost predicate IsRanking(xs: seq<string>, rk: seq<string>)
  {
    && Distinct(rk)
    && (forall y :: y in rk <==> y in xs)
    && (forall i, j :: 0 <= i < j < |rk| ==> Occurrences(xs, rk[i]) >= Occurrences(xs, rk[j]))
    && (forall i, j :: 0 <= i < j < |rk| && Occurrences(xs, rk[i]) == Occurrences(xs, rk[j]) ==>
          rk[i] in xs && rk[j] in xs && FirstIndex(xs, rk[i]) < FirstIndex(xs, rk[j]))
  }

  /** `Object.keys(counts).sort((a, b) => counts[b] - counts[a])` for the table of `xs`. */
  function Ranked(xs: seq<string>): seq<string>
  {
    Keys(SortByCount(Counted(xs)))
  }

  /** Each entry of the sorted table is a candidate met, with its number of occurrences. */
  lemma SortedEntries(xs: seq<string>)
    ensures forall i :: 0 <= i < |SortByCount(Counted(xs))| ==>
              var e := SortByCount(Counted(xs))[i];
              e.0 in xs && e.1 == Occurrences(xs, e.0) && Has(Counted(xs), e.0)
  {
    var c := Counted(xs);
    var sc := SortByCount(c);
    CountedHas(xs);
    CountedGet(xs);
    forall i | 0 <= i < |sc|
      ensures sc[i].0 in xs && sc[i].1 == Occurrences(xs, sc[i].0) && Has(c, sc[i].0)
    {
      assert sc[i] in multiset(c);
      var k :| 0 <= k < |c| && c[k] == sc[i];
      GetAt(c, k);
    }
  }

  /** Sorted entries with equal counts are in first-seen order of their candidates. */
  lemma SortedTies(xs: seq<string>)
    ensures forall i, j ::
              (0 <= i < j < |SortByCount(Counted(xs))| &&
               SortByCount(Counted(xs))[i].1 == SortByCount(Counted(xs))[j].1) ==>
              var a, b := SortByCount(Counted(xs))[i].0, SortByCount(Counted(xs))[j].0;
              a in xs && b in xs && FirstIndex(xs, a) < FirstIndex(xs, b)
  {
    var c := Counted(xs);
    var sc := SortByCount(c);
    SortedEntries(xs);
    CountedOrder(xs);
    SortStable(c);
    forall i, j | 0 <= i < j < |sc| && sc[i].1 == sc[j].1
      ensures FirstIndex(xs, sc[i].0) < FirstIndex(xs, sc[j].0)
    {
      var a, b := FirstIndex(Keys(c), sc[i].0), FirstIndex(Keys(c), sc[j].0);
      assert a < b;
      assert c[a].0 == sc[i].0 && c[b].0 == sc[j].0;
    }
  }

  lemma RankedByCount(xs: seq<string>)
    ensures forall i :: 0 <= i < |Ranked(xs)| ==> Ranked(xs)[i] in xs
    ensures forall i, j :: 0 <= i < j < |Ranked(xs)| ==>
              Occurrences(xs, Ranked(xs)[i]) >= Occurrences(xs, Ranked(xs)[j])
  {
    var sc := SortByCount(Counted(xs));
    var rk := Ranked(xs);
    SortedEntries(xs);
    forall i, j | 0 <= i < j < |rk| ensures Occurrences(xs, rk[i]) >= Occurrences(xs, rk[j]) {
      assert rk[i] == sc[i].0 && rk[j] == sc[j].0;
      assert sc[i].1 >= sc[j].1;
    }
  }

  lemma RankedTies(xs: seq<string>)
    ensures forall i, j ::
              (0 <= i < j < |Ranked(xs)| && Occurrences(xs, Ranked(xs)[i]) == Occurrences(xs, Ranked(xs)[j])) ==>
              Ranked(xs)[i] in xs && Ranked(xs)[j] in xs && FirstIndex(xs, Ranked(xs)[i]) < FirstIndex(xs, Ranked(xs)[j])
  {
    var sc := SortByCount(Counted(xs));
    var rk := Ranked(xs);
    SortedEntries(xs);
    SortedTies(xs);
    forall i, j | 0 <= i < j < |rk| && Occurrences(xs, rk[i]) == Occurrences(xs, rk[j])
      ensures rk[i] in xs && rk[j] in xs && FirstIndex(xs, rk[i]) < FirstIndex(xs, rk[j])
    {
      assert rk[i] == sc[i].0 && rk[j] == sc[j].0;
      assert sc[i].1 == sc[j].1;
    }
  }

  lemma RankedDistinct(xs: seq<string>)
    ensures Distinct(Ranked(xs))
  {
    var sc := SortByCount(Counted(xs));
    var rk := Ranked(xs);
    SortedEntries(xs);
    SortedTies(xs);
    forall i, j | 0 <= i < j < |rk| ensures rk[i] != rk[j] {
      assert rk[i] == sc[i].0 && rk[j] == sc[j].0;
      if sc[i].1 == sc[j].1 {
        assert FirstIndex(xs, rk[i]) < FirstIndex(xs, rk[j]);
      }
    }
  }

  lemma RankedCovers(xs: seq<string>)
    ensures forall y :: y in xs ==> y in Ranked(xs)
  {
    var c := Counted(xs);
    var sc := SortByCount(c);
    var rk := Ranked(xs);
    CountedHas(xs);
    forall y | y in xs ensures y in rk {
      var k := IndexOf(c, y);
      assert c[k] in multiset(sc);
      var m :| 0 <= m < |sc| && sc[m] == c[k];
      assert rk[m] == y;
    }
  }

  /** The stable sort of the count table is the ranking of the reference definition. */
  lemma RankedIsRanking(xs: seq<string>)
    ensures IsRanking(xs, Ranked(xs))
  {
    RankedByCount(xs);
    RankedTies(xs);
    RankedDistinct(xs);
    RankedCovers(xs);
  }

  /** Two rankings of the same candidates agree at every position both have. */
  lemma {:induction false} RankingsAgreeAt(xs: seq<string>, r1: seq<string>, r2: seq<string>, k: nat)
    requires IsRanking(xs, r1) && IsRanking(xs, r2)
    requires k < |r1| && k < |r2|
    ensures r1[k] == r2[k]
  {
    forall i | 0 <= i < k ensures r1[i] == r2[i] {
      RankingsAgreeAt(xs, r1, r2, i);
    }
    var a, b := r1[k], r2[k];
    assert b in r1;
    var m1 :| 0 <= m1 < |r1| && r1[m1] == b;
    assert m1 >= k by {
      forall i | 0 <= i < k ensures r1[i] != b {
        assert r1[i] == r2[i];
      }
    }
    assert a in r2;
    var m2 :| 0 <= m2 < |r2| && r2[m2] == a;
    assert m2 >= k by {
      forall i | 0 <= i < k ensures r2[i] != a {
        assert r1[i] == r2[i];
      }
    }
    // Each ranking puts its own candidate first among the two, so they tie
    // on count and on first appearance, hence are the same candidate.
    assert Occurrences(xs, a) >= Occurrences(xs, b);
    assert Occurrences(xs, b) >= Occurrences(xs, a);
    assert FirstIndex(xs, a) <= FirstIndex(xs, b);
    assert FirstIndex(xs, b) <= FirstIndex(xs, a);
    assert xs[FirstIndex(xs, a)] == a && xs[FirstIndex(xs, b)] == b;
  }

  /**
   * The reference definition determines the ranking, so every stable sort by
   * descending count (whatever algorithm the engine uses) gives `Ranked(xs)`.
   */
  lemma RankingUnique(xs: seq<string>, rk: seq<string>)
    requires IsRanking(xs, rk)
    ensures rk == Ranked(xs)
  {
    var r := Ranked(xs);
    RankedIsRanking(xs);
    assert |Elements(rk)| == |rk| by { DistinctCard(rk); }
    assert |Elements(r)| == |r| by { DistinctCard(r); }
    assert Elements(rk) == Elements(r);
    forall k | 0 <= k < |rk| ensures rk[k] == r[k] {
      RankingsAgreeAt(xs, rk, r, k);
    }
  }

  /** The first `n` candidates of the ranking: `sorted.slice(0, n)`. */
  function Top(xs: seq<string>, n: nat): seq<string>
  {
    var rk := Ranked(xs);
    rk[..if n < |rk| then n else |rk|]
  }

  /**
   * `Top(xs, n)` holds `n` distinct candidates (fewer only when fewer were
   * met), all met, by non-increasing count, ties in first-seen order, and no
   * candidate left out beats one kept, by count or on a tie by first appearance.
   */
  lemma TopSpec(xs: seq<string>, n: nat)
    ensures |Top(xs, n)| == if n < |Elements(xs)| then n else |Elements(xs)|
    ensures Distinct(Top(xs, n))
    ensures forall y :: y in Top(xs, n) ==> y in xs
    ensures forall i, j :: 0 <= i < j < |Top(xs, n)| ==>
              Occurrences(xs, Top(xs, n)[i]) >= Occurrences(xs, Top(xs, n)[j])
    ensures forall i, j ::
              (0 <= i < j < |Top(xs, n)| && Occurrences(xs, Top(xs, n)[i]) == Occurrences(xs, Top(xs, n)[j])) ==>
              FirstIndex(xs, Top(xs, n)[i]) < FirstIndex(xs, Top(xs, n)[j])
    ensures forall y, i :: y in xs && y !in Top(xs, n) && 0 <= i < |Top(xs, n)| ==>
              Occurrences(xs, Top(xs, n)[i]) > Occurrences(xs, y) ||
              (Occurrences(xs, Top(xs, n)[i]) == Occurrences(xs, y) &&
               FirstIndex(xs, Top(xs, n)[i]) < FirstIndex(xs, y))
  {
    var rk := Ranked(xs);
    var t := Top(xs, n);
    RankedIsRanking(xs);
    assert |Elements(rk)| == |rk| by { DistinctCard(rk); }
    assert Elements(rk) == Elements(xs);
    assert forall i :: 0 <= i < |t| ==> t[i] == rk[i];
    forall y, i | y in xs && y !in t && 0 <= i < |t|
      ensures Occurrences(xs, t[i]) > Occurrences(xs, y) ||
              (Occurrences(xs, t[i]) == Occurrences(xs, y) && FirstIndex(xs, t[i]) < FirstIndex(xs, y))
    {
      var m :| 0 <= m < |rk| && rk[m] == y;
      assert m >= |t| by {
        forall j | 0 <= j < |t| ensures rk[j] != y {
          assert t[j] == rk[j];
        }
      }
    }
  }

  /**
   * `w` is a most frequent candidate of `xs`, and among those with that
   * count the one met first.
   */
  ghost predicate IsLeader(xs: seq<string>, w: string)
  {
    && w in xs
    && forall y :: y in xs ==>
         Occurrences(xs, y) < Occurrences(xs, w) ||
         (Occurrences(xs, y) == Occurrences(xs, w) && FirstIndex(xs, w) <= FirstIndex(xs, y))
  }

  /** The head of the ranking (`sorted[0]`) is the leader. */
  lemma RankedLeader(xs: seq<string>)
    requires xs != []
    ensures Ranked(xs) != [] && IsLeader(xs, Ranked(xs)[0])
  {
    var rk := Ranked(xs);
    RankedIsRanking(xs);
    assert xs[0] in rk;
    forall y | y in xs
      ensures Occurrences(xs, y) < Occurrences(xs, rk[0]) ||
              (Occurrences(xs, y) == Occurrences(xs, rk[0]) && FirstIndex(xs, rk[0]) <= FirstIndex(xs, y))
    {
      var k :| 0 <= k < |rk| && rk[k] == y;
      if k > 0 {
        assert Occurrences(xs, rk[0]) >= Occurrences(xs, rk[k]);
      }
    }
  }

  /** There is only one leader. */
  lemma LeaderUnique(xs: seq<string>, v: string, w: string)
    requires IsLeader(xs, v) && IsLeader(xs, w)
    ensures v == w
  {
    assert FirstIndex(xs, v) == FirstIndex(xs, w);
  }
}

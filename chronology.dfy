/** The chronological view of the history: `sorted(weight_data, key=Date)`
    (main.py:69), a stable sort ascending by timestamp. */
module Chronology {
  import opened Ledger

  /** Ascending by timestamp. */
  predicate Chronological(s: seq<Record>)
  {
    forall i, j :: 0 <= i < j < |s| ==> NotAfter(s[i].date, s[j].date)
  }

  /** Places `x` before the first record that is not earlier than it, so
      that records already present with the same timestamp follow `x`. */
  function Insert(x: Record, s: seq<Record>): (r: seq<Record>)
    ensures |r| == |s| + 1
    ensures multiset(r) == multiset(s) + multiset{x}
  {
    if s == [] || NotAfter(x.date, s[0].date) then [x] + s
    else
      assert s == [s[0]] + s[1..];
      [s[0]] + Insert(x, s[1..])
  }

  lemma {:induction false} InsertChronological(x: Record, s: seq<Record>)
    requires Chronological(s)
    ensures Chronological(Insert(x, s))
  {
    if s != [] && !NotAfter(x.date, s[0].date) {
      var tail := Insert(x, s[1..]);
      InsertChronological(x, s[1..]);
      NotAfterTotal(x.date, s[0].date);
      forall j | 0 <= j < |tail|
        ensures NotAfter(s[0].date, tail[j].date)
      {
        assert tail[j] in multiset(tail);
        if tail[j] != x {
          assert tail[j] in s[1..];
        }
      }
      var r := [s[0]] + tail;
      forall i, j | 0 <= i < j < |r|
        ensures NotAfter(r[i].date, r[j].date)
      {
        if i > 0 {
          assert r[i] == tail[i - 1] && r[j] == tail[j - 1];
        } else {
          assert r[j] == tail[j - 1];
        }
      }
    } else if s != [] {
      var r := [x] + s;
      forall i, j | 0 <= i < j < |r|
        ensures NotAfter(r[i].date, r[j].date)
      {
        if i == 0 {
          assert r[j] == s[j - 1];
          if j > 1 {
            NotAfterTransitive(x.date, s[0].date, s[j - 1].date);
          }
        }
      }
    }
  }

  /** The stable sort by timestamp. */
  function SortByDate(s: seq<Record>): (r: seq<Record>)
    ensures |r| == |s|
    ensures multiset(r) == multiset(s)
    ensures Chronological(r)
  {
    if s == [] then []
    else
      assert s == [s[0]] + s[1..];
      InsertChronological(s[0], SortByDate(s[1..]));
      Insert(s[0], SortByDate(s[1..]))
  }

  /** The records of `s` stamped `d`, in their order in `s`. A sort is
      stable exactly when it keeps each of these subsequences. */
  function WithDate(s: seq<Record>, d: Timestamp): seq<Record>
  {
    if s == [] then [] else (if s[0].date == d then [s[0]] else []) + WithDate(s[1..], d)
  }

  lemma {:induction false} WithDateAppend(a: seq<Record>, b: seq<Record>, d: Timestamp)
    ensures WithDate(a + b, d) == WithDate(a, d) + WithDate(b, d)
  {
    if a == [] {
      assert a + b == b;
    } else {
      assert (a + b)[0] == a[0];
      assert (a + b)[1..] == a[1..] + b;
      WithDateAppend(a[1..], b, d);
    }
  }

  lemma {:induction false} WithDateMembers(s: seq<Record>, d: Timestamp)
    ensures forall y :: y in WithDate(s, d) ==> y in s && y.date == d
  {
    if s != [] {
      WithDateMembers(s[1..], d);
    }
  }

  lemma {:induction false} WithDateNone(s: seq<Record>, d: Timestamp)
    requires forall y :: y in s ==> y.date != d
    ensures WithDate(s, d) == []
  {
    WithDateMembers(s, d);
    if WithDate(s, d) != [] {
      assert WithDate(s, d)[0] in WithDate(s, d);
    }
  }

  /** Inserting `x` adds it in front of the records with its timestamp and
      leaves every other timestamp's subsequence alone. */
  lemma {:induction false} InsertStable(x: Record, s: seq<Record>, d: Timestamp)
    ensures WithDate(Insert(x, s), d) == (if x.date == d then [x] else []) + WithDate(s, d)
  {
    if s == [] || NotAfter(x.date, s[0].date) {
      assert ([x] + s)[1..] == s;
    } else {
      var r := [s[0]] + Insert(x, s[1..]);
      assert r[1..] == Insert(x, s[1..]);
      InsertStable(x, s[1..], d);
      NotAfterReflexive(x.date);
      assert s[0].date != x.date;
    }
  }

  /** Stability: for every timestamp, the records carrying it keep their
      insertion order. */
  lemma {:induction false} SortStable(s: seq<Record>, d: Timestamp)
    ensures WithDate(SortByDate(s), d) == WithDate(s, d)
  {
    if s != [] {
      SortStable(s[1..], d);
      InsertStable(s[0], SortByDate(s[1..]), d);
    }
  }

  lemma WithDateOfFirst(s: seq<Record>)
    requires s != []
    ensures WithDate(s, s[0].date) != []
  {}

  /** In a chronological sequence, the first record is not later than any
      timestamp that occurs in it. */
  lemma {:induction false} FirstIsEarliest(a: seq<Record>, d: Timestamp)
    requires Chronological(a) && a != []
    requires WithDate(a, d) != []
    ensures NotAfter(a[0].date, d)
  {
    WithDateMembers(a, d);
    var y := WithDate(a, d)[0];
    assert y in WithDate(a, d);
    var k :| 0 <= k < |a| && a[k] == y;
    if k == 0 {
      NotAfterReflexive(d);
    }
  }

  /** Two chronological sequences that agree on every timestamp's
      subsequence are equal. */
  lemma {:induction false} ChronologicalUnique(a: seq<Record>, b: seq<Record>)
    requires Chronological(a) && Chronological(b)
    requires forall d :: WithDate(a, d) == WithDate(b, d)
    ensures a == b
  {
    if a == [] && b != [] {
      WithDateOfFirst(b);
      assert false;
    } else if a != [] && b == [] {
      WithDateOfFirst(a);
      assert false;
    } else if a != [] {
      var m, n := a[0].date, b[0].date;
      FirstIsEarliest(a, n);
      FirstIsEarliest(b, m);
      NotAfterAntisymmetric(m, n);
      assert WithDate(b, n)[0] == b[0];
      assert WithDate(a, m)[0] == a[0];
      assert a[0] == b[0];
      forall d
        ensures WithDate(a[1..], d) == WithDate(b[1..], d)
      {
        var p := if a[0].date == d then [a[0]] else [];
        assert WithDate(a, d) == p + WithDate(a[1..], d);
        assert WithDate(b, d) == p + WithDate(b[1..], d);
        assert (p + WithDate(a[1..], d))[|p|..] == WithDate(a[1..], d);
        assert (p + WithDate(b[1..], d))[|p|..] == WithDate(b[1..], d);
      }
      ChronologicalUnique(a[1..], b[1..]);
      assert a == [a[0]] + a[1..];
      assert b == [b[0]] + b[1..];
    }
  }

  /** The sort is the one chronological arrangement of `s` that keeps every
      timestamp's records in insertion order. */
  lemma {:induction false} SortUnique(s: seq<Record>, t: seq<Record>)
    requires Chronological(t)
    requires forall d :: WithDate(t, d) == WithDate(s, d)
    ensures t == SortByDate(s)
  {
    forall d
      ensures WithDate(t, d) == WithDate(SortByDate(s), d)
    {
      SortStable(s, d);
    }
    ChronologicalUnique(t, SortByDate(s));
  }

  /** Insertion order matters only among records with equal timestamps:
      two histories with the same records per timestamp, in the same
      relative order, sort to the same sequence. */
  lemma {:induction false} SortIgnoresInterleaving(s: seq<Record>, t: seq<Record>)
    requires forall d :: WithDate(s, d) == WithDate(t, d)
    ensures SortByDate(s) == SortByDate(t)
  {
    forall d
      ensures WithDate(SortByDate(s), d) == WithDate(t, d)
    {
      SortStable(s, d);
    }
    SortUnique(t, SortByDate(s));
  }

  lemma {:induction false} WithDateSwap(p: seq<Record>, x: Record, y: Record, q: seq<Record>, d: Timestamp)
    requires x.date != y.date
    ensures WithDate(p + [y, x] + q, d) == WithDate(p + [x, y] + q, d)
  {
    WithDateAppend(p + [y, x], q, d);
    WithDateAppend(p, [y, x], d);
    WithDateAppend(p + [x, y], q, d);
    WithDateAppend(p, [x, y], d);
    assert [x, y][1..] == [y] && [y, x][1..] == [x];
    assert [x][1..] == [] && [y][1..] == [];
  }

  /** Exchanging two neighbouring records with different timestamps does
      not change the sorted history. */
  lemma {:induction false} SwapDifferentDates(s: seq<Record>, i: nat)
    requires i + 1 < |s| && s[i].date != s[i + 1].date
    ensures SortByDate(s[..i] + [s[i + 1], s[i]] + s[i + 2..]) == SortByDate(s)
  {
    var t := s[..i] + [s[i + 1], s[i]] + s[i + 2..];
    forall d
      ensures WithDate(t, d) == WithDate(s, d)
    {
      assert s == s[..i] + [s[i], s[i + 1]] + s[i + 2..];
      WithDateSwap(s[..i], s[i], s[i + 1], s[i + 2..], d);
    }
    SortIgnoresInterleaving(t, s);
  }

  /** Record `i` is the chronologically latest one, and the last inserted
      among those sharing its timestamp: the record a stable ascending sort
      puts at the end. */
  ghost predicate IsLatest(s: seq<Record>, i: int)
  {
    && 0 <= i < |s|
    && (forall j :: 0 <= j < |s| ==> NotAfter(s[j].date, s[i].date))
    && (forall j :: i < j < |s| ==> s[j].date != s[i].date)
  }

  /** A reference way of finding the latest record, by one scan over the
      history in insertion order. */
  function LatestIndex(s: seq<Record>): (i: nat)
    requires s != []
    ensures IsLatest(s, i)
  {
    if |s| == 1 then
      NotAfterReflexive(s[0].date);
      0
    else
      var k := LatestIndex(s[..|s| - 1]);
      assert forall j :: 0 <= j < |s| - 1 ==> s[..|s| - 1][j] == s[j];
      if NotAfter(s[k].date, s[|s| - 1].date) then
        assert IsLatest(s, |s| - 1) by {
          forall j | 0 <= j < |s|
            ensures NotAfter(s[j].date, s[|s| - 1].date)
          {
            if j < |s| - 1 {
              NotAfterTransitive(s[j].date, s[k].date, s[|s| - 1].date);
            } else {
              NotAfterReflexive(s[j].date);
            }
          }
        }
        |s| - 1
      else
        NotAfterTotal(s[k].date, s[|s| - 1].date);
        k
  }

  /** `s` with record `i` taken out. */
  function Without(s: seq<Record>, i: nat): (r: seq<Record>)
    requires i < |s|
    ensures |r| == |s| - 1
  {
    s[..i] + s[i + 1..]
  }

  /** Appending a record not earlier than any in a chronological sequence
      keeps it chronological. */
  lemma {:induction false} AppendLatest(t: seq<Record>, x: Record)
    requires Chronological(t)
    requires forall y :: y in t ==> NotAfter(y.date, x.date)
    ensures Chronological(t + [x])
  {
    var r := t + [x];
    forall i, j | 0 <= i < j < |r|
      ensures NotAfter(r[i].date, r[j].date)
    {
      assert r[i] == t[i];
      if j == |t| {
        assert t[i] in t;
      } else {
        assert r[j] == t[j];
      }
    }
  }

  /** Taking out the latest record drops it from the end of its timestamp's
      subsequence, and leaves every other timestamp's subsequence alone. */
  lemma {:induction false} WithoutLatest(s: seq<Record>, i: nat, d: Timestamp)
    requires IsLatest(s, i)
    ensures WithDate(s, d) == WithDate(Without(s, i), d) + (if s[i].date == d then [s[i]] else [])
  {
    assert s == s[..i] + [s[i]] + s[i + 1..];
    WithDateAppend(s[..i], s[i + 1..], d);
    WithDateAppend(s[..i] + [s[i]], s[i + 1..], d);
    WithDateAppend(s[..i], [s[i]], d);
    assert [s[i]][1..] == [];
    if d == s[i].date {
      forall y | y in s[i + 1..]
        ensures y.date != d
      {
        var j :| 0 <= j < |s[i + 1..]| && s[i + 1..][j] == y;
        assert s[i + 1 + j] == y;
      }
      WithDateNone(s[i + 1..], d);
    }
  }

  /** Every other record is not later than the latest one. */
  lemma {:induction false} LatestBoundsRest(s: seq<Record>, i: nat)
    requires IsLatest(s, i)
    ensures forall y :: y in Without(s, i) ==> NotAfter(y.date, s[i].date)
  {
    var rest := Without(s, i);
    forall y | y in rest
      ensures NotAfter(y.date, s[i].date)
    {
      var j :| 0 <= j < |rest| && rest[j] == y;
      if j < i {
        assert y == s[j];
      } else {
        assert y == s[j + 1];
      }
    }
  }

  /** The records of a sorted sequence are those of its input. */
  lemma SortedMembers(s: seq<Record>)
    ensures forall y :: y in SortByDate(s) ==> y in s
  {
    forall y | y in SortByDate(s)
      ensures y in s
    {
      assert y in multiset(SortByDate(s));
    }
  }

  lemma {:induction false} PeelKeepsWithDate(s: seq<Record>, i: nat, d: Timestamp)
    requires IsLatest(s, i)
    ensures WithDate(SortByDate(Without(s, i)) + [s[i]], d) == WithDate(s, d)
  {
    SortStable(Without(s, i), d);
    WithDateAppend(SortByDate(Without(s, i)), [s[i]], d);
    assert [s[i]][1..] == [];
    WithoutLatest(s, i, d);
  }

  /** The latest record is the last of the sorted history, and the rest of
      the sorted history is the sorted remainder. */
  lemma {:induction false} SortPeelLatest(s: seq<Record>, i: nat)
    requires IsLatest(s, i)
    ensures SortByDate(s) == SortByDate(Without(s, i)) + [s[i]]
  {
    var sorted := SortByDate(Without(s, i));
    LatestBoundsRest(s, i);
    SortedMembers(Without(s, i));
    AppendLatest(sorted, s[i]);
    forall d
      ensures WithDate(sorted + [s[i]], d) == WithDate(s, d)
    {
      PeelKeepsWithDate(s, i, d);
    }
    SortUnique(s, sorted + [s[i]]);
  }
}

/**
 Sorting a set of identities ascending, as `sortedBy { it.toString() }` does on the
 filtered member list, and the rank of an identity within a set: the number of
 members that sort before it, which is its 0-based position in the sorted list.
 */
module SortedIdentities {
  import opened IdentityOrder

  ghost predicate StrictlySorted(s: seq<Identity>)
  {
    forall i, j :: 0 <= i < j < |s| ==> Less(s[i], s[j])
  }

  /** `s` lists exactly the members of `S`, in ascending order. */
  ghost predicate Enumerates(s: seq<Identity>, S: set<Identity>)
  {
    StrictlySorted(s) && (forall x :: x in s <==> x in S)
  }

  /** The members of a list as a set, as Kotlin's `toSet()`: repeats collapse and order is lost. */
  function Members(ids: seq<Identity>): (r: set<Identity>)
    ensures forall x :: x in r <==> x in ids
  {
    set x | x in ids
  }

  /** Number of members of `S` that sort strictly before `x`. */
  function Rank(S: set<Identity>, x: Identity): nat
  {
    |set y | y in S && Less(y, x)|
  }

  /** The least member of a non-empty set. */
  method Least(S: set<Identity>) returns (m: Identity)
    requires S != {}
    ensures m in S
    ensures forall y :: y in S && y != m ==> Less(m, y)
  {
    m :| m in S;
    var unseen := S - {m};
    while unseen != {}
      invariant unseen <= S && m in S && m !in unseen
      invariant forall y :: y in S && y !in unseen && y != m ==> Less(m, y)
      decreases unseen
    {
      var y :| y in unseen;
      if Less(y, m) {
        forall z | z in S && z !in unseen && z != m
          ensures Less(y, z)
        {
          LessTransitive(y, m, z);
        }
        m := y;
      } else {
        LessTotal(m, y);
      }
      unseen := unseen - {y};
    }
  }

  /** Sorts a set of identities ascending (selection of the least remaining member). */
  method SortIdentities(S: set<Identity>) returns (s: seq<Identity>)
    ensures Enumerates(s, S)
    ensures |s| == |S|
  {
    s := [];
    var rest := S;
    while rest != {}
      invariant rest <= S
      invariant StrictlySorted(s)
      invariant forall x :: x in s <==> x in S && x !in rest
      invariant forall i, y :: 0 <= i < |s| && y in rest ==> Less(s[i], y)
      invariant |s| + |rest| == |S|
      decreases rest
    {
      var m := Least(rest);
      s := s + [m];
      rest := rest - {m};
    }
  }

  /** In a sorted list, the order of two entries is the order of their positions. */
  lemma SortedIndexOrder(s: seq<Identity>, j: int, k: int)
    requires StrictlySorted(s) && 0 <= j < |s| && 0 <= k < |s|
    ensures Less(s[j], s[k]) <==> j < k
  {
    if j == k {
      LessIrreflexive(s[j]);
    } else if k < j {
      LessAsymmetric(s[k], s[j]);
    }
  }

  lemma SortedDistinct(s: seq<Identity>)
    requires StrictlySorted(s)
    ensures forall j, k :: 0 <= j < k < |s| ==> s[j] != s[k]
  {
    forall j, k | 0 <= j < k < |s|
      ensures s[j] != s[k]
    {
      LessIrreflexive(s[j]);
    }
  }

  /** A list has at most as many distinct members as entries. */
  lemma {:induction false} MembersBound(ids: seq<Identity>)
    ensures |Members(ids)| <= |ids|
  {
    if |ids| > 0 {
      MembersBound(ids[1..]);
      assert Members(ids) == {ids[0]} + Members(ids[1..]);
    }
  }

  /** A list without repetitions has as many distinct members as entries. */
  lemma {:induction false} DistinctCardinality(s: seq<Identity>)
    requires forall j, k :: 0 <= j < k < |s| ==> s[j] != s[k]
    ensures |Members(s)| == |s|
  {
    if |s| > 0 {
      DistinctCardinality(s[1..]);
      assert Members(s) == {s[0]} + Members(s[1..]);
      assert s[0] !in Members(s[1..]) by {
        forall k | 0 <= k < |s[1..]|
          ensures s[1..][k] != s[0]
        {
          assert s[1..][k] == s[k + 1];
        }
      }
    }
  }

  lemma EnumerationLength(s: seq<Identity>, S: set<Identity>)
    requires Enumerates(s, S)
    ensures |s| == |S|
  {
    SortedDistinct(s);
    DistinctCardinality(s);
    assert Members(s) == S;
  }

  /** The head of a sorted enumeration is the least member of the set. */
  lemma HeadIsLeast(s: seq<Identity>, S: set<Identity>)
    requires Enumerates(s, S) && |s| > 0
    ensures forall y :: y in S && y != s[0] ==> Less(s[0], y)
  {
    forall y | y in S && y != s[0]
      ensures Less(s[0], y)
    {
      var k :| 0 <= k < |s| && s[k] == y;
    }
  }

  lemma TailEnumerates(s: seq<Identity>, S: set<Identity>)
    requires Enumerates(s, S) && |s| > 0
    ensures Enumerates(s[1..], S - {s[0]})
  {
    SortedDistinct(s);
    forall x
      ensures x in s[1..] <==> x in S - {s[0]}
    {
      if x in s[1..] {
        var k :| 0 <= k < |s[1..]| && s[1..][k] == x;
        assert s[k + 1] == x;
      }
      if x in S - {s[0]} {
        var k :| 0 <= k < |s| && s[k] == x;
        assert s[1..][k - 1] == x;
      }
    }
  }

  /** Sorting normalises order: a set has exactly one ascending enumeration. */
  lemma {:induction false} EnumerationUnique(s: seq<Identity>, t: seq<Identity>, S: set<Identity>)
    requires Enumerates(s, S) && Enumerates(t, S)
    ensures s == t
    decreases |s|
  {
    EnumerationLength(s, S);
    EnumerationLength(t, S);
    if |s| > 0 {
      HeadIsLeast(s, S);
      HeadIsLeast(t, S);
      assert t[0] in S;
      if s[0] != t[0] {
        LessAsymmetric(s[0], t[0]);
        assert false;
      }
      TailEnumerates(s, S);
      TailEnumerates(t, S);
      EnumerationUnique(s[1..], t[1..], S - {s[0]});
      assert s == [s[0]] + s[1..] && t == [t[0]] + t[1..];
    }
  }

  /** The rank of the entry at position `i` of the sorted enumeration is `i`. */
  lemma RankOfEnumerated(s: seq<Identity>, S: set<Identity>, i: int)
    requires Enumerates(s, S) && 0 <= i < |s|
    ensures Rank(S, s[i]) == i
  {
    var below := set y | y in S && Less(y, s[i]);
    forall y
      ensures y in below <==> y in s[..i]
    {
      if y in below {
        var k :| 0 <= k < |s| && s[k] == y;
        SortedIndexOrder(s, k, i);
        assert s[..i][k] == y;
      }
      if y in s[..i] {
        var k :| 0 <= k < i && s[..i][k] == y;
        assert s[k] == y;
      }
    }
    assert below == Members(s[..i]);
    SortedDistinct(s);
    DistinctCardinality(s[..i]);
  }

  /** A member that sorts before another has the smaller rank. */
  lemma RankStrictlyIncreasing(S: set<Identity>, x: Identity, y: Identity)
    requires x in S && Less(x, y)
    ensures Rank(S, x) < Rank(S, y)
  {
    var belowX := set z | z in S && Less(z, x);
    var belowY := set z | z in S && Less(z, y);
    forall z | z in belowX
      ensures z in belowY
    {
      LessTransitive(z, x, y);
    }
    LessIrreflexive(x);
    assert x in belowY - belowX;
    assert |belowY| == |belowX| + |belowY - belowX|;
  }

  /** A member's rank is a valid position in the sorted list of the set. */
  lemma RankBound(S: set<Identity>, x: Identity)
    requires x in S
    ensures Rank(S, x) < |S|
  {
    var belowX := set z | z in S && Less(z, x);
    LessIrreflexive(x);
    assert belowX <= S - {x};
    assert |S - {x}| == |belowX| + |(S - {x}) - belowX|;
    assert |S - {x}| == |S| - 1;
  }
}

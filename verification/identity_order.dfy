/**
 The canonical identity of a group member and the order the colour helper sorts
 members by. Both entry points of the helper reduce a member to a string (the
 ServiceId's `toString()` on the V2 path, `Recipient.requireStringId()` on the
 GroupId path) and sort by Kotlin's `String.compareTo`: lexicographic, the first
 differing character decides, and a proper prefix comes first.
 */
module IdentityOrder {

  /** A member identity in its canonical string form. */
  type Identity = string

  /** Strict lexicographic order on identities, as Kotlin's `String.compareTo(b) < 0`. */
  predicate Less(a: Identity, b: Identity)
    decreases |a|
  {
    if |b| == 0 then false
    else if |a| == 0 then true
    else if a[0] != b[0] then a[0] < b[0]
    else Less(a[1..], b[1..])
  }

  /** `a` is a proper prefix of `b`. */
  ghost predicate ProperPrefix(a: Identity, b: Identity)
  {
    |a| < |b| && a == b[..|a|]
  }

  /** `a` and `b` agree up to some position where `a` has the smaller character. */
  ghost predicate SmallerAtFirstDifference(a: Identity, b: Identity)
  {
    exists k :: 0 <= k < |a| && k < |b| && a[..k] == b[..k] && a[k] < b[k]
  }

  /**
   `Less` is the lexicographic order: `a` sorts first exactly when it is a proper
   prefix of `b` or has the smaller character at the first position they differ.
   */
  lemma {:induction false} LessIsLexicographic(a: Identity, b: Identity)
    ensures Less(a, b) <==> ProperPrefix(a, b) || SmallerAtFirstDifference(a, b)
    decreases |a|
  {
    if |b| == 0 {
    } else if |a| == 0 {
      assert a == b[..0];
    } else if a[0] != b[0] {
      DifferentHeads(a, b);
    } else {
      LessIsLexicographic(a[1..], b[1..]);
      PrefixStep(a, b);
      DifferenceStep(a, b);
    }
  }

  lemma DifferentHeads(a: Identity, b: Identity)
    requires |a| > 0 && |b| > 0 && a[0] != b[0]
    ensures !ProperPrefix(a, b)
    ensures SmallerAtFirstDifference(a, b) <==> a[0] < b[0]
  {
  }

  lemma PrefixStep(a: Identity, b: Identity)
    requires |a| > 0 && |b| > 0 && a[0] == b[0]
    ensures ProperPrefix(a, b) <==> ProperPrefix(a[1..], b[1..])
  {
  }

  lemma DifferenceStep(a: Identity, b: Identity)
    requires |a| > 0 && |b| > 0 && a[0] == b[0]
    ensures SmallerAtFirstDifference(a, b) <==> SmallerAtFirstDifference(a[1..], b[1..])
  {
    var a', b' := a[1..], b[1..];
    if SmallerAtFirstDifference(a, b) {
      var k :| 0 <= k < |a| && k < |b| && a[..k] == b[..k] && a[k] < b[k];
      assert k > 0;
      assert a'[..k - 1] == a[..k][1..];
      assert b'[..k - 1] == b[..k][1..];
      assert a'[k - 1] == a[k] && b'[k - 1] == b[k];
      assert 0 <= k - 1 < |a'| && k - 1 < |b'| && a'[..k - 1] == b'[..k - 1] && a'[k - 1] < b'[k - 1];
    }
    if SmallerAtFirstDifference(a', b') {
      var k :| 0 <= k < |a'| && k < |b'| && a'[..k] == b'[..k] && a'[k] < b'[k];
      assert a[..k + 1] == [a[0]] + a'[..k];
      assert b[..k + 1] == [b[0]] + b'[..k];
      assert a[k + 1] == a'[k] && b[k + 1] == b'[k];
      assert 0 <= k + 1 < |a| && k + 1 < |b| && a[..k + 1] == b[..k + 1] && a[k + 1] < b[k + 1];
    }
  }

  lemma {:induction false} LessIrreflexive(a: Identity)
    ensures !Less(a, a)
    decreases |a|
  {
    if |a| > 0 {
      LessIrreflexive(a[1..]);
    }
  }

  lemma {:induction false} LessAsymmetric(a: Identity, b: Identity)
    requires Less(a, b)
    ensures !Less(b, a)
    decreases |a|
  {
    if |a| > 0 && a[0] == b[0] {
      LessAsymmetric(a[1..], b[1..]);
    }
  }

  lemma {:induction false} LessTransitive(a: Identity, b: Identity, c: Identity)
    requires Less(a, b) && Less(b, c)
    ensures Less(a, c)
    decreases |a|
  {
    if |a| > 0 && a[0] == b[0] && b[0] == c[0] {
      LessTransitive(a[1..], b[1..], c[1..]);
    }
  }

  /** Distinct identities are always ordered one way or the other: the sort has no ties. */
  lemma {:induction false} LessTotal(a: Identity, b: Identity)
    requires a != b
    ensures Less(a, b) || Less(b, a)
    decreases |a|
  {
    if |a| > 0 && |b| > 0 && a[0] == b[0] {
      assert a == [a[0]] + a[1..] && b == [b[0]] + b[1..];
      LessTotal(a[1..], b[1..]);
    }
  }
}

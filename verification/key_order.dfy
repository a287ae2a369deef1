/**
  The order pandas sorts group keys in: Python's `<` on `str`, which compares
  code point by code point and puts a proper prefix first.
 */
module KeyOrder {

  predicate Less(a: string, b: string)
    decreases |a|
  {
    if a == [] then b != []
    else if b == [] then false
    else a[0] < b[0] || (a[0] == b[0] && Less(a[1..], b[1..]))
  }

  /** Keys strictly ascending: sorted and free of duplicates. */
  predicate StrictlySorted(ks: seq<string>)
  {
    forall i, j :: 0 <= i < j < |ks| ==> Less(ks[i], ks[j])
  }

  lemma {:induction false} LessIrreflexive(a: string)
    ensures !Less(a, a)
  {
    if a != [] {
      LessIrreflexive(a[1..]);
    }
  }

  lemma {:induction false} LessTransitive(a: string, b: string, c: string)
    requires Less(a, b) && Less(b, c)
    ensures Less(a, c)
  {
    if a != [] && b != [] && c != [] && a[0] == b[0] && b[0] == c[0] {
      LessTransitive(a[1..], b[1..], c[1..]);
    }
  }

  lemma {:induction false} LessTotal(a: string, b: string)
    requires a != b
    ensures Less(a, b) || Less(b, a)
  {
    if a != [] && b != [] && a[0] == b[0] {
      assert a == [a[0]] + a[1..] && b == [b[0]] + b[1..];
      LessTotal(a[1..], b[1..]);
    }
  }

  /** A strictly sorted sequence has no repeated key, so it has as many keys as its set. */
  lemma {:induction false} StrictlySortedCard(ks: seq<string>)
    requires StrictlySorted(ks)
    ensures |set k | k in ks| == |ks|
  {
    if ks != [] {
      var rest := ks[1..];
      assert StrictlySorted(rest);
      StrictlySortedCard(rest);
      assert ks[0] !in rest by {
        if ks[0] in rest {
          var j :| 0 <= j < |rest| && rest[j] == ks[0];
          assert Less(ks[0], ks[j + 1]);
          LessIrreflexive(ks[0]);
        }
      }
      assert (set k | k in ks) == {ks[0]} + (set k | k in rest);
    }
  }
}

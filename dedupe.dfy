/**
 * Order-preserving deduplication (`dedupe_preserve_order`), shared verbatim by the
 * east, west and Jasmine scripts: keep the first occurrence of every value, drop
 * the later ones, keep the survivors in input order.
 */
module Dedupe {

  /** No value occurs twice. */
  predicate NoDup<T(==)>(s: seq<T>) {
    forall i, j :: 0 <= i < j < |s| ==> s[i] != s[j]
  }

  /**
   * Reference definition, one element at a time from the left, exactly as the
   * loop visits them: a value is appended unless it is already in the output.
   */
  function Deduped<T(==)>(xs: seq<T>): seq<T> {
    if xs == [] then []
    else
      var d := Deduped(xs[..|xs| - 1]);
      var x := xs[|xs| - 1];
      if x in d then d else d + [x]
  }

  /** Position of the first occurrence of `x` in `xs`. */
  function FirstIndex<T(==)>(xs: seq<T>, x: T): (i: nat)
    requires x in xs
    ensures i < |xs| && xs[i] == x
    ensures x !in xs[..i]
  {
    if xs[0] == x then 0
    else
      var k := FirstIndex(xs[1..], x);
      assert xs[..k + 1] == [xs[0]] + xs[1..][..k];
      k + 1
  }

  /** Python's loop: a `seen` set and an `out` list. */
  method DedupePreserveOrder<T(==)>(names: seq<T>) returns (out: seq<T>)
    ensures out == Deduped(names)
  {
    var seen: set<T> := {};
    out := [];
    for i := 0 to |names|
      invariant out == Deduped(names[..i])
      invariant forall x :: x in seen <==> x in out
    {
      var n := names[i];
      assert names[..i + 1][..i] == names[..i];
      if n !in seen {
        seen := seen + {n};
        out := out + [n];
      }
    }
    assert names[..|names|] == names;
  }

  /** A value not yet present can be appended without creating a repeat. */
  lemma NoDupSnoc<T>(s: seq<T>, x: T)
    requires NoDup(s) && x !in s
    ensures NoDup(s + [x])
  {
    var r := s + [x];
    forall i, j | 0 <= i < j < |r| ensures r[i] != r[j] {
      assert r[i] == s[i];
      if j < |s| {
        assert r[j] == s[j];
      }
    }
  }

  /** The output holds exactly the values of the input. */
  lemma {:induction false} DedupedMembers<T>(xs: seq<T>, x: T)
    ensures x in Deduped(xs) <==> x in xs
  {
    if xs != [] {
      var p := xs[..|xs| - 1];
      DedupedMembers(p, x);
      assert xs == p + [xs[|xs| - 1]];
    }
  }

  /** No value repeats in the output. */
  lemma {:induction false} DedupedNoDup<T>(xs: seq<T>)
    ensures NoDup(Deduped(xs))
  {
    if xs != [] {
      DedupedNoDup(xs[..|xs| - 1]);
    }
  }

  /** A repeat-free input comes back unchanged. */
  lemma {:induction false} DedupedOfNoDup<T>(xs: seq<T>)
    requires NoDup(xs)
    ensures Deduped(xs) == xs
  {
    if xs != [] {
      var p := xs[..|xs| - 1];
      assert NoDup(p);
      DedupedOfNoDup(p);
      assert xs[|xs| - 1] !in p;
      assert xs == p + [xs[|xs| - 1]];
    }
  }

  /** Applying the dedupe twice is the same as applying it once. */
  lemma DedupedIdempotent<T>(xs: seq<T>)
    ensures Deduped(Deduped(xs)) == Deduped(xs)
  {
    DedupedNoDup(xs);
    DedupedOfNoDup(Deduped(xs));
  }

  /** Appending an element does not move the first occurrence of an earlier value. */
  lemma {:induction false} FirstIndexSnoc<T>(xs: seq<T>, y: T, x: T)
    requires x in xs
    ensures FirstIndex(xs + [y], x) == FirstIndex(xs, x)
  {
    if xs[0] != x {
      assert (xs + [y])[1..] == xs[1..] + [y];
      FirstIndexSnoc(xs[1..], y, x);
    }
  }

  /** The survivors are in the order of their first occurrences in the input. */
  lemma {:induction false} DedupedFirstOccurrenceOrder<T>(xs: seq<T>)
    ensures forall x :: x in Deduped(xs) ==> x in xs
    ensures forall i, j :: 0 <= i < j < |Deduped(xs)| ==>
      FirstIndex(xs, Deduped(xs)[i]) < FirstIndex(xs, Deduped(xs)[j])
  {
    forall x | x in Deduped(xs) ensures x in xs {
      DedupedMembers(xs, x);
    }
    if xs != [] {
      var p := xs[..|xs| - 1];
      var y := xs[|xs| - 1];
      assert xs == p + [y];
      DedupedFirstOccurrenceOrder(p);
      var d := Deduped(p);
      var dx := Deduped(xs);
      forall x | x in d ensures FirstIndex(xs, x) == FirstIndex(p, x) {
        FirstIndexSnoc(p, y, x);
      }
      if y in d {
        assert dx == d;
        forall i, j | 0 <= i < j < |dx| ensures FirstIndex(xs, dx[i]) < FirstIndex(xs, dx[j]) {
          assert dx[i] in d && dx[j] in d;
        }
      } else {
        assert dx == d + [y];
        DedupedMembers(p, y);
        assert FirstIndex(xs, y) == |p| by {
          assert xs[|p|] == y && xs[..|p|] == p;
        }
        forall i, j | 0 <= i < j < |dx| ensures FirstIndex(xs, dx[i]) < FirstIndex(xs, dx[j]) {
          assert dx[i] == d[i] && dx[i] in d;
          if j < |d| {
            assert dx[j] == d[j] && dx[j] in d;
          } else {
            assert dx[j] == y;
          }
        }
      }
    }
  }
}

/**
 * Section blocks and the order they are shown in:
 * `blocks.sort(key=lambda x: (x["section"] or "").lower())`, a stable sort
 * on the lower-cased section name compared as Python compares `str`.
 */
module SectionSort {
  import opened Ascii

  /** `{"section": ..., "items": [...]}`. */
  datatype Block = Block(section: string, items: seq<string>)

  /** The sort key `(section or "").lower()` (for `""` both sides of the `or` are `""`). */
  function SortKey(b: Block): string {
    Lower(b.section)
  }

  /** Python's `a <= b` on `str`: lexicographic by code point, a prefix first. */
  predicate StrLe(a: string, b: string) {
    a == [] || (b != [] && (a[0] < b[0] || (a[0] == b[0] && StrLe(a[1..], b[1..]))))
  }

  lemma StrLeRefl(a: string)
    ensures StrLe(a, a)
  {
  }

  lemma StrLeTotal(a: string, b: string)
    ensures StrLe(a, b) || StrLe(b, a)
  {
  }

  lemma StrLeTrans(a: string, b: string, c: string)
    requires StrLe(a, b) && StrLe(b, c)
    ensures StrLe(a, c)
  {
  }

  lemma StrLeAntisym(a: string, b: string)
    requires StrLe(a, b) && StrLe(b, a)
    ensures a == b
  {
  }

  /** Non-decreasing in the sort key. */
  predicate SortedByKey(bs: seq<Block>) {
    forall i, j :: 0 <= i < j < |bs| ==> StrLe(SortKey(bs[i]), SortKey(bs[j]))
  }

  /** The blocks whose sort key is `k`, in their order. */
  function WithKey(bs: seq<Block>, k: string): seq<Block> {
    if bs == [] then []
    else (if SortKey(bs[0]) == k then [bs[0]] else []) + WithKey(bs[1..], k)
  }

  /** Places `b` before the first block whose key is not smaller than its own. */
  function Insert(b: Block, bs: seq<Block>): seq<Block> {
    if bs == [] then [b]
    else if StrLe(SortKey(b), SortKey(bs[0])) then [b] + bs
    else [bs[0]] + Insert(b, bs[1..])
  }

  /** The stable sort, written as an insertion sort; `Stable*` below show it is the only stable result. */
  function SortBlocks(bs: seq<Block>): seq<Block> {
    if bs == [] then [] else Insert(bs[0], SortBlocks(bs[1..]))
  }

  lemma {:induction false} InsertMultiset(b: Block, bs: seq<Block>)
    ensures multiset(Insert(b, bs)) == multiset(bs) + multiset{b}
  {
    if bs != [] && !StrLe(SortKey(b), SortKey(bs[0])) {
      InsertMultiset(b, bs[1..]);
      assert bs == [bs[0]] + bs[1..];
    }
  }

  lemma {:induction false} InsertSorted(b: Block, bs: seq<Block>)
    requires SortedByKey(bs)
    ensures SortedByKey(Insert(b, bs))
  {
    if bs == [] {
    } else if StrLe(SortKey(b), SortKey(bs[0])) {
      forall j | 0 <= j < |bs| ensures StrLe(SortKey(b), SortKey(bs[j])) {
        if j > 0 {
          StrLeTrans(SortKey(b), SortKey(bs[0]), SortKey(bs[j]));
        }
      }
      ConsSorted(b, bs);
    } else {
      var t := bs[1..];
      InsertSorted(b, t);
      StrLeTotal(SortKey(b), SortKey(bs[0]));
      InsertAbove(bs[0], b, t);
      ConsSorted(bs[0], Insert(b, t));
    }
  }

  /** A block no greater than every block of a sorted list can go in front. */
  lemma ConsSorted(h: Block, rest: seq<Block>)
    requires SortedByKey(rest)
    requires forall j :: 0 <= j < |rest| ==> StrLe(SortKey(h), SortKey(rest[j]))
    ensures SortedByKey([h] + rest)
  {
    var r := [h] + rest;
    forall i, j | 0 <= i < j < |r| ensures StrLe(SortKey(r[i]), SortKey(r[j])) {
      assert r[j] == rest[j - 1];
      if i > 0 {
        assert r[i] == rest[i - 1];
      }
    }
  }

  /** A lower bound of `b` and of a sorted list's blocks bounds the list with `b` inserted. */
  lemma InsertAbove(h: Block, b: Block, t: seq<Block>)
    requires StrLe(SortKey(h), SortKey(b))
    requires forall j :: 0 <= j < |t| ==> StrLe(SortKey(h), SortKey(t[j]))
    ensures forall j :: 0 <= j < |Insert(b, t)| ==> StrLe(SortKey(h), SortKey(Insert(b, t)[j]))
  {
    InsertMultiset(b, t);
    forall j | 0 <= j < |Insert(b, t)| ensures StrLe(SortKey(h), SortKey(Insert(b, t)[j])) {
      var x := Insert(b, t)[j];
      assert x in multiset(Insert(b, t));
      if x != b {
        assert x in t;
        var m :| 0 <= m < |t| && t[m] == x;
      }
    }
  }

  lemma {:induction false} InsertWithKey(b: Block, bs: seq<Block>, k: string)
    ensures WithKey(Insert(b, bs), k) == (if SortKey(b) == k then [b] else []) + WithKey(bs, k)
  {
    if bs != [] && !StrLe(SortKey(b), SortKey(bs[0])) {
      InsertWithKey(b, bs[1..], k);
      StrLeRefl(SortKey(b));
      var r := [bs[0]] + Insert(b, bs[1..]);
      assert r[1..] == Insert(b, bs[1..]);
    }
  }

  /** The result is sorted, a permutation of the input, and keeps the input order among equal keys. */
  lemma {:induction false} SortBlocksFacts(bs: seq<Block>)
    ensures SortedByKey(SortBlocks(bs))
    ensures multiset(SortBlocks(bs)) == multiset(bs)
    ensures forall k :: WithKey(SortBlocks(bs), k) == WithKey(bs, k)
  {
    if bs != [] {
      SortBlocksFacts(bs[1..]);
      InsertSorted(bs[0], SortBlocks(bs[1..]));
      InsertMultiset(bs[0], SortBlocks(bs[1..]));
      forall k ensures WithKey(SortBlocks(bs), k) == WithKey(bs, k) {
        InsertWithKey(bs[0], SortBlocks(bs[1..]), k);
      }
      assert bs == [bs[0]] + bs[1..];
    }
  }

  lemma {:induction false} WithKeyMembers(bs: seq<Block>, k: string, x: Block)
    ensures x in WithKey(bs, k) <==> x in bs && SortKey(x) == k
  {
    if bs != [] {
      WithKeyMembers(bs[1..], k, x);
      assert bs == [bs[0]] + bs[1..];
    }
  }

  /** Two sorted sequences that agree on every key's subsequence are equal: a stable sort has one possible result. */
  lemma {:induction false} StableSortUnique(r: seq<Block>, s: seq<Block>)
    requires SortedByKey(r) && SortedByKey(s)
    requires forall k :: WithKey(r, k) == WithKey(s, k)
    ensures r == s
  {
    if r == [] || s == [] {
      var t := if r == [] then s else r;
      if t != [] {
        WithKeyMembers(t, SortKey(t[0]), t[0]);
        assert WithKey(r, SortKey(t[0])) != WithKey(s, SortKey(t[0]));
      }
    } else {
      SortedHeadsAgree(r, s);
      SameTailKeys(r, s);
      StableSortUnique(r[1..], s[1..]);
      assert r == [r[0]] + r[1..] && s == [s[0]] + s[1..];
    }
  }

  /** Two sorted lists with the same per-key contents start with the same block. */
  lemma SortedHeadsAgree(r: seq<Block>, s: seq<Block>)
    requires r != [] && s != []
    requires SortedByKey(r) && SortedByKey(s)
    requires forall k :: WithKey(r, k) == WithKey(s, k)
    ensures r[0] == s[0]
  {
    var k0, k1 := SortKey(r[0]), SortKey(s[0]);
    WithKeyMembers(r, k0, r[0]);
    var x :| x in WithKey(s, k0);
    WithKeyMembers(s, k0, x);
    var i :| 0 <= i < |s| && s[i] == x;
    if i > 0 { assert StrLe(k1, SortKey(s[i])); } else { StrLeRefl(k1); }
    WithKeyMembers(s, k1, s[0]);
    var y :| y in WithKey(r, k1);
    WithKeyMembers(r, k1, y);
    var j :| 0 <= j < |r| && r[j] == y;
    if j > 0 { assert StrLe(k0, SortKey(r[j])); } else { StrLeRefl(k0); }
    StrLeAntisym(k0, k1);
    assert WithKey(r, k0)[0] == r[0];
    assert WithKey(s, k0)[0] == s[0];
  }

  /** Dropping a common head keeps the per-key contents equal. */
  lemma SameTailKeys(r: seq<Block>, s: seq<Block>)
    requires r != [] && s != [] && r[0] == s[0]
    requires forall k :: WithKey(r, k) == WithKey(s, k)
    ensures SortedByKey(r) ==> SortedByKey(r[1..])
    ensures SortedByKey(s) ==> SortedByKey(s[1..])
    ensures forall k :: WithKey(r[1..], k) == WithKey(s[1..], k)
  {
    forall k ensures WithKey(r[1..], k) == WithKey(s[1..], k) {
      var pre := if SortKey(r[0]) == k then [r[0]] else [];
      assert WithKey(r, k) == pre + WithKey(r[1..], k);
      assert WithKey(s, k) == pre + WithKey(s[1..], k);
      assert WithKey(r[1..], k) == (pre + WithKey(r[1..], k))[|pre|..];
      assert WithKey(s[1..], k) == (pre + WithKey(s[1..], k))[|pre|..];
    }
  }

  /** Any stable sort of `bs` by the section key, Python's included, returns `SortBlocks(bs)`. */
  lemma StableSortIsSortBlocks(bs: seq<Block>, r: seq<Block>)
    requires SortedByKey(r)
    requires forall k :: WithKey(r, k) == WithKey(bs, k)
    ensures r == SortBlocks(bs)
  {
    SortBlocksFacts(bs);
    StableSortUnique(r, SortBlocks(bs));
  }

  /** A string sorts no later than any extension of it, and strictly before a proper one. */
  lemma {:induction false} StrLePrefix(a: string, t: string)
    ensures StrLe(a, a + t)
    ensures t != [] ==> !StrLe(a + t, a)
  {
    if a != [] {
      assert (a + t)[1..] == a[1..] + t;
      StrLePrefix(a[1..], t);
    }
  }

  /** A section whose name extends another's sorts after it: "Breakfast" before "Breakfast Station". */
  lemma PrefixSectionFirst(pre: string, rest: string, x: seq<string>, y: seq<string>)
    requires rest != []
    ensures SortBlocks([Block(pre + rest, x), Block(pre, y)]) == [Block(pre, y), Block(pre + rest, x)]
  {
    var a, b := Block(pre + rest, x), Block(pre, y);
    assert SortKey(a) == SortKey(b) + Lower(rest);
    StrLePrefix(SortKey(b), Lower(rest));
    assert [a, b][1..] == [b];
    assert SortBlocks([b]) == [b] by {
      assert [b][1..] == [];
    }
    assert Insert(a, [b]) == [b] + Insert(a, []);
  }

  /** So a menu with both sections lists "Breakfast" before "Breakfast Station". */
  lemma BreakfastFirst(x: seq<string>, y: seq<string>)
    ensures SortBlocks([Block("Breakfast Station", x), Block("Breakfast", y)]) ==
      [Block("Breakfast", y), Block("Breakfast Station", x)]
  {
    assert "Breakfast Station" == "Breakfast" + " Station";
    PrefixSectionFirst("Breakfast", " Station", x, y);
  }
}

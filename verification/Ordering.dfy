/** Lists sorted by keys, keys compared number by number from the front, as Python compares strings and tuples. */
module Ordering {

  type Key = seq<nat>

  predicate Less(a: Key, b: Key) {
    b != [] && (a == [] || a[0] < b[0] || (a[0] == b[0] && Less(a[1..], b[1..])))
  }

  lemma {:induction false} LessTotal(a: Key, b: Key)
    ensures a == b || Less(a, b) || Less(b, a)
    ensures !(Less(a, b) && Less(b, a)) && !Less(a, a)
  {
    if a != [] && b != [] {
      LessTotal(a[1..], b[1..]);
      assert a == [a[0]] + a[1..] && b == [b[0]] + b[1..];
    }
    if a != [] {
      LessTotal(a[1..], a[1..]);
    }
  }

  ghost predicate Ascending<T(!new)>(xs: seq<T>, key: T -> Key) {
    forall k :: 0 < k < |xs| ==> Less(key(xs[k - 1]), key(xs[k]))
  }

  /** x put where its key belongs; not again where the key is there. */
  function Insert<T>(x: T, xs: seq<T>, key: T -> Key): seq<T> {
    if xs == [] then [x]
    else if key(x) == key(xs[0]) then xs
    else if Less(key(x), key(xs[0])) then [x] + xs
    else [xs[0]] + Insert(x, xs[1..], key)
  }

  /** sorted(set(xs), key=key). */
  function SortBy<T>(xs: seq<T>, key: T -> Key): seq<T> {
    if xs == [] then [] else Insert(xs[0], SortBy(xs[1..], key), key)
  }

  lemma {:induction false} InsertSorts<T(!new)>(x: T, xs: seq<T>, key: T -> Key)
    requires Ascending(xs, key)
    ensures var r := Insert(x, xs, key);
      && r != [] && Ascending(r, key) && (key(r[0]) == key(x) || (xs != [] && r[0] == xs[0]))
      && (forall y :: y in r ==> y == x || y in xs) && (forall y :: y in xs ==> y in r)
      && exists y :: y in r && key(y) == key(x)
  {
    if xs == [] {
    } else if key(x) == key(xs[0]) {
    } else if Less(key(x), key(xs[0])) {
      assert x in [x] + xs;
    } else {
      LessTotal(key(x), key(xs[0]));
      InsertSorts(x, xs[1..], key);
      var rest := Insert(x, xs[1..], key);
      assert rest[0] in rest;
      var r := [xs[0]] + rest;
      forall k | 0 < k < |r| ensures Less(key(r[k - 1]), key(r[k])) {
        if k > 1 {
          assert r[k - 1] == rest[k - 2] && r[k] == rest[k - 1];
        }
      }
      assert xs == [xs[0]] + xs[1..];
    }
  }

  /** The sorted list is ascending and holds the elements, where keys tell them apart. */
  lemma {:induction false} SortSorts<T(!new)>(xs: seq<T>, key: T -> Key)
    ensures Ascending(SortBy(xs, key), key)
    ensures forall y :: y in SortBy(xs, key) ==> y in xs
    ensures (forall y, z :: y in xs && z in xs && key(y) == key(z) ==> y == z) ==> forall y :: y in xs ==>
      y in SortBy(xs, key)
  {
    if xs != [] {
      SortSorts(xs[1..], key);
      InsertSorts(xs[0], SortBy(xs[1..], key), key);
    }
  }

  lemma {:induction false} InsertLength<T(!new)>(x: T, xs: seq<T>, key: T -> Key)
    requires forall y :: y in xs ==> key(y) != key(x)
    ensures |Insert(x, xs, key)| == |xs| + 1
  {
    if xs != [] {
      assert xs[0] in xs;
      InsertLength(x, xs[1..], key);
    }
  }

  /** Nothing is dropped where no two keys are the same. */
  lemma {:induction false} SortLength<T(!new)>(xs: seq<T>, key: T -> Key)
    requires forall i, j :: 0 <= i < j < |xs| ==> key(xs[i]) != key(xs[j])
    ensures |SortBy(xs, key)| == |xs|
  {
    if xs != [] {
      SortLength(xs[1..], key);
      SortSorts(xs[1..], key);
      forall y | y in SortBy(xs[1..], key) ensures key(y) != key(xs[0]) {
        var j :| 0 <= j < |xs[1..]| && xs[1..][j] == y;
        assert xs[j + 1] == y;
      }
      InsertLength(xs[0], SortBy(xs[1..], key), key);
    }
  }

  // ---------- places ----------

  /** Where x is first, |xs| where it is not. */
  function Place<T(==)>(xs: seq<T>, x: T): (k: nat)
    ensures k <= |xs| && (k < |xs| ==> xs[k] == x) && (x in xs <==> k < |xs|)
  {
    if xs == [] then 0 else if xs[0] == x then 0 else 1 + Place(xs[1..], x)
  }
}

/**
 * Values and sequence operations shared by the whole app: optional values,
 * JavaScript truthiness, and the array idioms the screens use to replace a
 * stored collection wholesale (`filter`, `map` with replacement, the
 * include-or-remove toggle and the `[...new Set([...prev, ...xs])]` union).
 */
module Common {

  datatype Option<T> = None | Some(value: T)

  /** JavaScript truthiness of an optional string: present and not empty. */
  predicate Truthy(o: Option<string>)
  {
    o.Some? && o.value != ""
  }

  /** No element occurs twice. */
  predicate NoDup<T(==,!new)>(s: seq<T>)
  {
    forall i, j :: 0 <= i < j < |s| ==> s[i] != s[j]
  }

  /** `s.filter(p)`: the elements satisfying `p`, in their original order. */
  function Filter<T(!new)>(s: seq<T>, p: T -> bool): (r: seq<T>)
    ensures |r| <= |s|
    ensures forall x :: x in r <==> x in s && p(x)
  {
    if s == [] then []
    else
      var rest := Filter(s[1..], p);
      assert forall x :: x in s <==> x == s[0] || x in s[1..];
      if p(s[0]) then [s[0]] + rest else rest
  }

  /** Filtering distributes over concatenation: the kept elements stay in order. */
  lemma {:induction false} FilterConcat<T(!new)>(a: seq<T>, b: seq<T>, p: T -> bool)
    ensures Filter(a + b, p) == Filter(a, p) + Filter(b, p)
  {
    if a == [] {
      assert a + b == b;
    } else {
      assert (a + b)[1..] == a[1..] + b;
      FilterConcat(a[1..], b, p);
    }
  }

  /** A filter that keeps every element returns the sequence unchanged. */
  lemma {:induction false} FilterKeepsAll<T(!new)>(s: seq<T>, p: T -> bool)
    requires forall x :: x in s ==> p(x)
    ensures Filter(s, p) == s
  {
    if s != [] {
      assert forall x :: x in s[1..] ==> x in s;
      FilterKeepsAll(s[1..], p);
    }
  }

  /** `s.map(e => matches(e) ? x : e)`. */
  function ReplaceWhere<T(!new)>(s: seq<T>, matches: T -> bool, x: T): (r: seq<T>)
    ensures |r| == |s|
    ensures forall i :: 0 <= i < |s| ==> r[i] == (if matches(s[i]) then x else s[i])
  {
    if s == [] then []
    else [if matches(s[0]) then x else s[0]] + ReplaceWhere(s[1..], matches, x)
  }

  /** `s.filter(y => y !== x)`: every occurrence of `x` removed, the rest kept in order. */
  function Without<T(==,!new)>(s: seq<T>, x: T): (r: seq<T>)
    ensures x !in r
    ensures forall y :: y != x ==> (y in r <==> y in s)
    ensures x !in s ==> r == s
    ensures NoDup(s) ==> NoDup(r)
  {
    if s == [] then []
    else
      var rest := Without(s[1..], x);
      assert forall y :: y in s <==> y == s[0] || y in s[1..];
      assert NoDup(s) ==> NoDup(s[1..]) && s[0] !in s[1..] by {
        if NoDup(s) {
          forall i, j | 0 <= i < j < |s[1..]| ensures s[1..][i] != s[1..][j] {
            assert s[1..][i] == s[i + 1] && s[1..][j] == s[j + 1];
          }
          forall k | 0 <= k < |s[1..]| ensures s[1..][k] != s[0] {
            assert s[1..][k] == s[k + 1];
          }
        }
      }
      if s[0] == x then rest else [s[0]] + rest
  }

  /** Removing an element from the end of a concatenation removes it from each part. */
  lemma {:induction false} WithoutConcat<T(!new)>(a: seq<T>, b: seq<T>, x: T)
    ensures Without(a + b, x) == Without(a, x) + Without(b, x)
  {
    if a == [] {
      assert a + b == b;
    } else {
      assert (a + b)[1..] == a[1..] + b;
      WithoutConcat(a[1..], b, x);
    }
  }

  /**
   * The include-or-remove toggle `prev.includes(x) ? prev.filter(y => y !== x) : [...prev, x]`
   * used for active tags, playlist songs and chat participants.
   */
  function Toggle<T(==,!new)>(s: seq<T>, x: T): (r: seq<T>)
    ensures x in r <==> x !in s
    ensures forall y :: y != x ==> (y in r <==> y in s)
    ensures NoDup(s) ==> NoDup(r)
  {
    if x in s then Without(s, x) else s + [x]
  }

  /** Toggling an absent element twice gives the original sequence back. */
  lemma ToggleTwice<T(!new)>(s: seq<T>, x: T)
    requires x !in s
    ensures Toggle(Toggle(s, x), x) == s
  {
    WithoutConcat(s, [x], x);
    assert Without([x], x) == [];
  }

  /**
   * `Array.from(new Set(s))`: the first occurrence of every element, in the
   * order of first occurrence (a JavaScript `Set` iterates in insertion order).
   */
  function Dedup<T(==,!new)>(s: seq<T>): (r: seq<T>)
    ensures NoDup(r)
    ensures forall x :: x in r <==> x in s
    ensures |r| <= |s|
  {
    if s == [] then []
    else
      var d := Dedup(s[..|s| - 1]);
      assert forall x :: x in s <==> x in s[..|s| - 1] || x == s[|s| - 1];
      if s[|s| - 1] in d then d else d + [s[|s| - 1]]
  }

  /** A sequence without duplicates is its own `Set` spread. */
  lemma {:induction false} DedupOfNoDup<T(!new)>(s: seq<T>)
    requires NoDup(s)
    ensures Dedup(s) == s
  {
    if s != [] {
      var init := s[..|s| - 1];
      assert NoDup(init);
      DedupOfNoDup(init);
      assert s[|s| - 1] !in init;
      assert init + [s[|s| - 1]] == s;
    }
  }

  /** `[...new Set([...prev, ...xs])]`: the set-union of two id lists. */
  function Union<T(==,!new)>(prev: seq<T>, xs: seq<T>): (r: seq<T>)
    ensures NoDup(r)
    ensures forall x :: x in r <==> x in prev || x in xs
  {
    Dedup(prev + xs)
  }

  /** A union onto a duplicate-free list keeps that list as its prefix. */
  lemma {:induction false} UnionExtends<T(!new)>(prev: seq<T>, xs: seq<T>)
    requires NoDup(prev)
    ensures |Union(prev, xs)| >= |prev|
    ensures Union(prev, xs)[..|prev|] == prev
  {
    if xs == [] {
      assert prev + xs == prev;
      DedupOfNoDup(prev);
    } else {
      var init := xs[..|xs| - 1];
      UnionExtends(prev, init);
      assert (prev + xs)[..|prev + xs| - 1] == prev + init;
    }
  }

  /** Adding an id that is already present changes nothing. */
  lemma UnionPresent<T(!new)>(prev: seq<T>, x: T)
    requires NoDup(prev) && x in prev
    ensures Union(prev, [x]) == prev
  {
    DedupOfNoDup(prev);
    assert (prev + [x])[..|prev|] == prev;
  }

  /** Adding an absent id to a duplicate-free list appends exactly that id. */
  lemma UnionAbsent<T(!new)>(prev: seq<T>, x: T)
    requires NoDup(prev) && x !in prev
    ensures Union(prev, [x]) == prev + [x]
  {
    DedupOfNoDup(prev);
    assert (prev + [x])[..|prev|] == prev;
  }

  /**
   * `if (!s.includes(x)) s = [...s, x]`: append `x` when it is absent. On a
   * duplicate-free list this is also what `[...new Set([...s, x])]` does.
   */
  function AddAbsent<T(==,!new)>(s: seq<T>, x: T): (r: seq<T>)
    requires NoDup(s)
    ensures r == if x in s then s else s + [x]
    ensures NoDup(r) && x in r
  {
    if x in s then s
    else
      assert forall i :: 0 <= i < |s| ==> (s + [x])[i] == s[i];
      s + [x]
  }

  /** The set-union with one id is the same as appending it when absent. */
  lemma UnionIsAddAbsent<T(!new)>(s: seq<T>, x: T)
    requires NoDup(s)
    ensures Union(s, [x]) == AddAbsent(s, x)
  {
    if x in s {
      UnionPresent(s, x);
    } else {
      UnionAbsent(s, x);
    }
  }

  /** Some element of `s` carries the key `k`. */
  predicate HasKey<T>(s: seq<T>, key: T -> string, k: string)
  {
    exists i :: 0 <= i < |s| && key(s[i]) == k
  }

  /** No two elements share a key. */
  predicate UniqueKeys<T>(s: seq<T>, key: T -> string)
  {
    forall i, j :: 0 <= i < j < |s| ==> key(s[i]) != key(s[j])
  }

  /** `s.map(e => key(e) === key(x) ? x : e)`: every element with the key of `x` becomes `x`. */
  function ReplaceByKey<T>(s: seq<T>, key: T -> string, x: T): (r: seq<T>)
    ensures |r| == |s|
    ensures forall i :: 0 <= i < |s| ==> r[i] == (if key(s[i]) == key(x) then x else s[i])
    ensures forall i :: 0 <= i < |s| ==> key(r[i]) == key(s[i])
    ensures UniqueKeys(s, key) ==> UniqueKeys(r, key)
    ensures HasKey(s, key, key(x)) ==> x in r
  {
    if s == [] then []
    else [if key(s[0]) == key(x) then x else s[0]] + ReplaceByKey(s[1..], key, x)
  }

  /** When `x` already is the element with its key (and keys are unique), replacing it changes nothing. */
  lemma ReplaceByKeyIdentity<T(!new)>(s: seq<T>, key: T -> string, x: T)
    requires UniqueKeys(s, key) && x in s
    ensures ReplaceByKey(s, key, x) == s
  {
    var r := ReplaceByKey(s, key, x);
    forall i | 0 <= i < |s| ensures r[i] == s[i] {
      if key(s[i]) == key(x) {
        var j :| 0 <= j < |s| && s[j] == x;
        assert i == j;
      }
    }
  }

  /** `s.filter(e => key(e) !== k)`: every element with key `k` removed, the rest kept in order. */
  function RemoveByKey<T(!new)>(s: seq<T>, key: T -> string, k: string): (r: seq<T>)
    ensures |r| <= |s|
    ensures forall x :: x in r <==> x in s && key(x) != k
    ensures !HasKey(r, key, k)
  {
    if s == [] then []
    else
      var rest := RemoveByKey(s[1..], key, k);
      assert forall x :: x in s <==> x == s[0] || x in s[1..];
      if key(s[0]) != k then [s[0]] + rest else rest
  }

  /** Removing a key that no element carries changes nothing. */
  lemma {:induction false} RemoveAbsentKey<T(!new)>(s: seq<T>, key: T -> string, k: string)
    requires !HasKey(s, key, k)
    ensures RemoveByKey(s, key, k) == s
  {
    if s != [] {
      assert key(s[0]) != k;
      assert !HasKey(s[1..], key, k) by {
        forall i | 0 <= i < |s[1..]| ensures key(s[1..][i]) != k {
          assert s[1..][i] == s[i + 1];
        }
      }
      RemoveAbsentKey(s[1..], key, k);
    }
  }

  /** Removing by key distributes over concatenation. */
  lemma {:induction false} RemoveByKeyConcat<T(!new)>(a: seq<T>, b: seq<T>, key: T -> string, k: string)
    ensures RemoveByKey(a + b, key, k) == RemoveByKey(a, key, k) + RemoveByKey(b, key, k)
  {
    if a == [] {
      assert a + b == b;
    } else {
      assert (a + b)[1..] == a[1..] + b;
      RemoveByKeyConcat(a[1..], b, key, k);
    }
  }

  /** `Array.prototype.reduce((sum, v) => sum + v, 0)`. */
  function Sum(s: seq<nat>): nat
  {
    if s == [] then 0 else s[0] + Sum(s[1..])
  }
}

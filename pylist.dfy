/** The pieces of Python behaviour the boards rely on: optional values and
    raised exceptions, `list.remove`, the first-occurrence filter written as
    `[s[i] for i in range(len(s)) if i == s.index(s[i])]`, and the
    wrap-around of negative list indices. */
module PyList {

  datatype Option<T> = None | Some(value: T)

  /** The exceptions the modelled code can raise. */
  datatype PyError = ValueError | IndexError | TypeError

  /** A value, or the exception raised while computing it. */
  datatype Result<T> = Ok(value: T) | Err(error: PyError)

  predicate NoDup<T(==)>(s: seq<T>) {
    forall i, j :: 0 <= i < j < |s| ==> s[i] != s[j]
  }

  lemma NoDupConcat<T>(a: seq<T>, b: seq<T>)
    requires NoDup(a) && NoDup(b)
    requires forall i, j :: 0 <= i < |a| && 0 <= j < |b| ==> a[i] != b[j]
    ensures NoDup(a + b)
  {
  }

  /** In a sequence without duplicates every element occurs once. */
  lemma {:induction false} NoDupCounts<T>(s: seq<T>, x: T)
    requires NoDup(s)
    ensures multiset(s)[x] == if x in s then 1 else 0
  {
    if s != [] {
      assert s == [s[0]] + s[1..];
      assert NoDup(s[1..]);
      NoDupCounts(s[1..], x);
    }
  }

  lemma AppendLast<T>(a: seq<T>, s: seq<T>)
    requires s != []
    ensures a + s == a + s[..|s| - 1] + [s[|s| - 1]]
  {
    assert s == s[..|s| - 1] + [s[|s| - 1]];
  }

  lemma AppendAssoc<T>(a: seq<T>, b: seq<T>, c: seq<T>)
    ensures (a + b) + c == a + (b + c)
  {
  }

  lemma MultisetLast<T>(s: seq<T>)
    requires s != []
    ensures multiset(s) == multiset(s[..|s| - 1]) + multiset{s[|s| - 1]}
  {
    assert s == s[..|s| - 1] + [s[|s| - 1]];
  }

  /** One more `x` fits in `m` exactly when `a` does and `m` has an `x` to spare. */
  lemma MultisetAddOne<T>(a: multiset<T>, x: T, m: multiset<T>)
    ensures a + multiset{x} <= m <==> a <= m && x in m - a
  {
    if a <= m && x in m - a {
      forall y ensures (a + multiset{x})[y] <= m[y] {
      }
    }
    if a + multiset{x} <= m {
      assert (a + multiset{x})[x] <= m[x];
    }
  }

  /** A sequence without duplicates fits in a multiset exactly when each of
      its elements is there. */
  lemma NoDupSubMultiset<T>(s: seq<T>, m: multiset<T>)
    requires NoDup(s)
    ensures multiset(s) <= m <==> forall x <- s :: x in m
  {
    forall x ensures multiset(s)[x] == if x in s then 1 else 0 {
      NoDupCounts(s, x);
    }
  }

  lemma MultisetMinusMinus<T>(a: multiset<T>, b: multiset<T>, x: T)
    ensures (a - b) - multiset{x} == a - (b + multiset{x})
  {
  }

  lemma MultisetSubCard<T>(a: multiset<T>, b: multiset<T>)
    requires b <= a
    ensures |a - b| == |a| - |b|
  {
    assert a == (a - b) + b;
  }

  /** `s.remove(x)`: drops the first occurrence of `x`, the rest keeping
      their order (the caller has checked that there is one; otherwise
      Python raises ValueError). */
  function RemoveFirst<T(==)>(s: seq<T>, x: T): (r: seq<T>)
    requires x in s
    ensures |r| == |s| - 1
    ensures multiset(r) == multiset(s) - multiset{x}
    ensures forall y <- r :: y in s
  {
    if s[0] == x then
      assert s == [s[0]] + s[1..];
      s[1..]
    else
      assert s == [s[0]] + s[1..];
      [s[0]] + RemoveFirst(s[1..], x)
  }

  /** `s.remove(x)` keeps the elements before the first `x` and those after
      it, in order. */
  lemma {:induction false} RemoveFirstDropsFirst<T>(s: seq<T>, x: T)
    requires x in s
    ensures RemoveFirst(s, x) == s[..FirstIndex(s, x)] + s[FirstIndex(s, x) + 1..]
  {
    if s[0] != x {
      RemoveFirstDropsFirst(s[1..], x);
      var k := FirstIndex(s[1..], x);
      assert s[..k + 1] == [s[0]] + s[1..][..k];
      assert s[k + 2..] == s[1..][k + 1..];
    }
  }

  /** `s.index(x)`: the position of the first occurrence of `x`. */
  function FirstIndex<T(==)>(s: seq<T>, x: T): (k: nat)
    requires x in s
    ensures k < |s| && s[k] == x && x !in s[..k]
  {
    if s[0] == x then 0 else FirstIndex(s[1..], x) + 1
  }

  /** `[s[i] for i in range(len(s)) if i == s.index(s[i])]`: keeps the
      elements of `s` that occur there for the first time, in order. The
      element at `i` is kept exactly when it does not occur in `s[..i]`. */
  function Dedup<T(==)>(s: seq<T>): seq<T>
  {
    if s == [] then []
    else
      var init := s[..|s| - 1];
      if s[|s| - 1] in init then Dedup(init) else Dedup(init) + [s[|s| - 1]]
  }

  /** Dedup keeps every element and invents none. */
  lemma {:induction false} DedupSameElements<T>(s: seq<T>, x: T)
    ensures x in Dedup(s) <==> x in s
  {
    if s != [] {
      var init := s[..|s| - 1];
      assert s == init + [s[|s| - 1]];
      DedupSameElements(init, x);
    }
  }

  /** Dedup leaves no element twice. */
  lemma {:induction false} DedupNoDup<T>(s: seq<T>)
    ensures NoDup(Dedup(s))
  {
    if s != [] {
      var init := s[..|s| - 1];
      DedupNoDup(init);
      if s[|s| - 1] !in init {
        DedupSameElements(init, s[|s| - 1]);
      }
    }
  }

  /** Dedup keeps first-occurrence order: an element listed before another
      in the result occurs for the first time earlier in the input. */
  lemma {:induction false} DedupFirstOccurrenceOrder<T>(s: seq<T>, i: int, j: int)
    requires 0 <= i < j < |Dedup(s)|
    ensures Dedup(s)[i] in s && Dedup(s)[j] in s
    ensures FirstIndex(s, Dedup(s)[i]) < FirstIndex(s, Dedup(s)[j])
  {
    var init := s[..|s| - 1];
    var last := s[|s| - 1];
    assert s == init + [last];
    var r := Dedup(s);
    var x, y := r[i], r[j];
    DedupSameElements(s, x);
    DedupSameElements(s, y);
    if last in init || j < |Dedup(init)| {
      assert x == Dedup(init)[i] && y == Dedup(init)[j];
      DedupFirstOccurrenceOrder(init, i, j);
      DedupSameElements(init, x);
      DedupSameElements(init, y);
      FirstIndexOfPrefix(init, last, x);
      FirstIndexOfPrefix(init, last, y);
    } else {
      // y is the last element, occurring in s for the first time at |s| - 1
      assert y == last;
      assert x == Dedup(init)[i];
      DedupSameElements(init, x);
      FirstIndexOfPrefix(init, last, x);
      FirstIndexOfLast(init, last);
    }
  }

  lemma FirstIndexOfPrefix<T>(init: seq<T>, last: T, x: T)
    requires x in init
    ensures x in init + [last] && FirstIndex(init + [last], x) == FirstIndex(init, x)
  {
    var s := init + [last];
    var k := FirstIndex(init, x);
    assert s[k] == x && s[..k] == init[..k];
  }

  lemma FirstIndexOfLast<T>(init: seq<T>, last: T)
    requires last !in init
    ensures last in init + [last] && FirstIndex(init + [last], last) == |init|
  {
    assert (init + [last])[|init|] == last;
  }

  /** A sequence without duplicates is left unchanged by Dedup. */
  lemma {:induction false} DedupOfNoDup<T>(s: seq<T>)
    requires NoDup(s)
    ensures Dedup(s) == s
  {
    if s != [] {
      var init := s[..|s| - 1];
      assert NoDup(init);
      DedupOfNoDup(init);
      assert init + [s[|s| - 1]] == s;
    }
  }

  /** Python indexing of a list of length `n` by `k`: negative indices count
      from the end, anything outside `-n .. n-1` raises IndexError (None). */
  function PyIndex(k: int, n: nat): (r: Option<nat>)
    ensures r.Some? <==> -(n as int) <= k < n
    ensures r.Some? ==> r.value < n && (r.value == k || r.value == k + n)
  {
    if 0 <= k < n then Some(k)
    else if -(n as int) <= k < 0 then Some(k + n)
    else None
  }
}

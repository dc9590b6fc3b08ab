/** The list operations of the tables: erase every occurrence, erase one, and repeat. Occurrences
    are counted with `multiset(s)[x]`. */
module Lists {
  import opened Bits

  /** `erase(remove_if(... == x))`: every occurrence of `x` goes, the rest keeps its order. */
  function Without<T(==)>(s: seq<T>, x: T): seq<T> {
    Minus(s, {x})
  }

  /** `s` without the elements of `dead`, in order. */
  function Minus<T(==)>(s: seq<T>, dead: set<T>): (r: seq<T>)
    ensures |r| <= |s|
  {
    if s == [] then []
    else
      var last := s[|s| - 1];
      Minus(s[..|s| - 1], dead) + if last in dead then [] else [last]
  }

  /** `erase(find(x))`: the first occurrence of `x` goes, if there is one. */
  function RemoveFirst<T(==)>(s: seq<T>, x: T): (r: seq<T>) {
    if s == [] then []
    else if s[0] == x then s[1..]
    else [s[0]] + RemoveFirst(s[1..], x)
  }

  /** `n` removals of one occurrence each. */
  function RemoveTimes<T(==)>(s: seq<T>, x: T, n: nat): seq<T> {
    if n == 0 then s else RemoveFirst(RemoveTimes(s, x, n - 1), x)
  }

  function Repeat<T>(x: T, k: nat): (r: seq<T>)
    ensures |r| == k
  {
    if k == 0 then [] else Repeat(x, k - 1) + [x]
  }

  lemma {:induction false} RepeatMore<T>(x: T, k: nat, more: bool)
    ensures Repeat(x, k) + (if more then [x] else []) == Repeat(x, k + if more then 1 else 0)
  {
    if !more {
      assert Repeat(x, k) + [] == Repeat(x, k);
    }
  }

  /** Each element of `s` `k` times, in place. */
  function RepeatEach<T>(s: seq<T>, k: nat): seq<T> {
    if s == [] then [] else RepeatEach(s[..|s| - 1], k) + Repeat(s[|s| - 1], k)
  }

  ghost predicate Increasing(s: seq<int>) {
    forall i, j :: 0 <= i < j < |s| ==> s[i] < s[j]
  }

  lemma {:induction false} MinusAppend<T>(s: seq<T>, x: T, dead: set<T>)
    ensures Minus(s + [x], dead) == Minus(s, dead) + if x in dead then [] else [x]
  {
    assert (s + [x])[..|s|] == s;
  }

  lemma {:induction false} MinusConcat<T>(s: seq<T>, t: seq<T>, dead: set<T>)
    ensures Minus(s + t, dead) == Minus(s, dead) + Minus(t, dead)
  {
    if t == [] {
      assert s + t == s;
    } else {
      var n := |t| - 1;
      assert s + t == (s + t[..n]) + [t[n]];
      MinusAppend(s + t[..n], t[n], dead);
      MinusConcat(s, t[..n], dead);
    }
  }

  lemma {:induction false} MinusCount<T>(s: seq<T>, dead: set<T>, y: T)
    ensures multiset(Minus(s, dead))[y] == if y in dead then 0 else multiset(s)[y]
  {
    if s != [] {
      var n := |s| - 1;
      assert s == s[..n] + [s[n]];
      MinusCount(s[..n], dead, y);
    }
  }

  /** What stays is what was there and is not dead. */
  lemma {:induction false} MinusMembers<T>(s: seq<T>, dead: set<T>, y: T)
    ensures y in Minus(s, dead) <==> y in s && y !in dead
  {
    MinusCount(s, dead, y);
    assert y in Minus(s, dead) <==> y in multiset(Minus(s, dead));
    assert y in s <==> y in multiset(s);
  }

  lemma {:induction false} MinusTwice<T>(s: seq<T>, dead: set<T>, more: set<T>)
    ensures Minus(Minus(s, dead), more) == Minus(s, dead + more)
  {
    if s != [] {
      var n := |s| - 1;
      MinusTwice(s[..n], dead, more);
      if s[n] in dead {
        assert Minus(s, dead) == Minus(s[..n], dead);
      } else {
        MinusAppend(Minus(s[..n], dead), s[n], more);
      }
    }
  }

  lemma {:induction false} MinusNothing<T>(s: seq<T>, dead: set<T>)
    requires forall x :: x in s ==> x !in dead
    ensures Minus(s, dead) == s
  {
    if s != [] {
      var n := |s| - 1;
      assert s == s[..n] + [s[n]];
      MinusNothing(s[..n], dead);
    }
  }

  lemma {:induction false} MinusSame<T>(s: seq<T>, a: set<T>, b: set<T>)
    requires forall x :: x in s ==> (x in a <==> x in b)
    ensures Minus(s, a) == Minus(s, b)
  {
    if s != [] {
      var n := |s| - 1;
      assert s == s[..n] + [s[n]];
      MinusSame(s[..n], a, b);
    }
  }

  lemma {:induction false} MinusIncreasing(s: seq<uint64>, dead: set<uint64>)
    requires Increasing(s)
    ensures Increasing(Minus(s, dead))
  {
    if s != [] {
      var n := |s| - 1;
      MinusIncreasing(s[..n], dead);
      var rest := Minus(s[..n], dead);
      forall i | 0 <= i < |rest| ensures rest[i] < s[n] {
        MinusMembers(s[..n], dead, rest[i]);
        assert rest[i] in rest;
      }
    }
  }

  lemma {:induction false} IncreasingCount(s: seq<int>, x: int)
    requires Increasing(s)
    ensures multiset(s)[x] == if x in s then 1 else 0
  {
    if s != [] {
      var n := |s| - 1;
      assert s == s[..n] + [s[n]];
      IncreasingCount(s[..n], x);
      if x in s[..n] {
        var i :| 0 <= i < n && s[i] == x;
        assert s[i] < s[n];
      }
    }
  }

  /** It is the first occurrence that goes, and the rest keeps its order. */
  lemma {:induction false} RemoveFirstSplit<T>(a: seq<T>, x: T, b: seq<T>)
    requires x !in a
    ensures RemoveFirst(a + [x] + b, x) == a + b
  {
    if a == [] {
      assert ([] + [x] + b)[1..] == b == a + b;
    } else {
      RemoveFirstSplit(a[1..], x, b);
      assert (a + [x] + b)[1..] == a[1..] + [x] + b;
      assert a + b == [a[0]] + (a[1..] + b);
    }
  }

  lemma {:induction false} RemoveFirstCount<T>(s: seq<T>, x: T, y: T)
    ensures multiset(RemoveFirst(s, x))[y]
         == multiset(s)[y] - if y == x && x in s then 1 else 0
  {
    if s != [] {
      assert s == [s[0]] + s[1..];
      if s[0] != x {
        RemoveFirstCount(s[1..], x, y);
      }
    }
  }

  /** Removing one occurrence at least as often as there are occurrences removes them all, and
      touches nothing else. */
  lemma {:induction false} RemoveTimesCount<T>(s: seq<T>, x: T, n: nat, y: T)
    ensures multiset(RemoveTimes(s, x, n))[y]
         == if y != x then multiset(s)[y] else if n >= multiset(s)[x] then 0 else multiset(s)[x] - n
  {
    if n > 0 {
      var t := RemoveTimes(s, x, n - 1);
      RemoveTimesCount(s, x, n - 1, y);
      RemoveTimesCount(s, x, n - 1, x);
      RemoveFirstCount(t, x, y);
      assert x in t <==> x in multiset(t);
    }
  }

  lemma {:induction false} RepeatCount<T>(x: T, k: nat, y: T)
    ensures multiset(Repeat(x, k))[y] == if y == x then k else 0
  {
    if k > 0 {
      RepeatCount(x, k - 1, y);
    }
  }

  lemma {:induction false} RepeatMembers<T>(x: T, k: nat, y: T)
    ensures y in Repeat(x, k) <==> y == x && k > 0
  {
    RepeatCount(x, k, y);
    assert y in Repeat(x, k) <==> y in multiset(Repeat(x, k));
  }

  lemma {:induction false} RepeatEachAppend<T>(s: seq<T>, x: T, k: nat)
    ensures RepeatEach(s + [x], k) == RepeatEach(s, k) + Repeat(x, k)
  {
    assert (s + [x])[..|s|] == s;
  }

  /** Erasing from a list with repeated entries is repeating the erased list. */
  lemma {:induction false} RepeatEachMinus<T>(s: seq<T>, k: nat, dead: set<T>)
    ensures Minus(RepeatEach(s, k), dead) == RepeatEach(Minus(s, dead), k)
  {
    if s != [] {
      var n := |s| - 1;
      RepeatEachMinus(s[..n], k, dead);
      MinusConcat(RepeatEach(s[..n], k), Repeat(s[n], k), dead);
      var copies := Repeat(s[n], k);
      forall i | 0 <= i < |copies| ensures copies[i] == s[n] {
        RepeatMembers(s[n], k, copies[i]);
      }
      if s[n] in dead {
        AllDead(copies, dead);
        assert Minus(s, dead) == Minus(s[..n], dead);
      } else {
        MinusNothing(copies, dead);
        RepeatEachAppend(Minus(s[..n], dead), s[n], k);
      }
    }
  }

  lemma {:induction false} AllDead<T>(s: seq<T>, dead: set<T>)
    requires forall x :: x in s ==> x in dead
    ensures Minus(s, dead) == []
  {
    if s != [] {
      var n := |s| - 1;
      assert s == s[..n] + [s[n]];
      AllDead(s[..n], dead);
    }
  }

  lemma {:induction false} RepeatEachLength<T>(s: seq<T>, k: nat)
    ensures |RepeatEach(s, k)| == k * |s|
  {
    if s != [] {
      RepeatEachLength(s[..|s| - 1], k);
      assert k * |s| == k * (|s| - 1) + k;
    }
  }

  lemma {:induction false} RepeatAt<T>(x: T, k: nat, j: nat)
    requires j < k
    ensures Repeat(x, k)[j] == x
  {
    if j < k - 1 {
      RepeatAt(x, k - 1, j);
    }
  }

  lemma {:induction false} RepeatEachAt<T>(s: seq<T>, k: nat, n: nat)
    requires k > 0 && n < |RepeatEach(s, k)|
    ensures 0 <= n / k < |s| && RepeatEach(s, k)[n] == s[n / k]
  {
    var i := |s| - 1;
    RepeatEachLength(s, k);
    RepeatEachLength(s[..i], k);
    if n < k * i {
      RepeatEachAt(s[..i], k, n);
    } else {
      RepeatAt(s[i], k, n - k * i);
      DivModUnique(n, k, i, n - k * i);
    }
  }

  lemma {:induction false} RepeatEachOnce<T>(s: seq<T>)
    ensures RepeatEach(s, 1) == s
  {
    if s != [] {
      var n := |s| - 1;
      RepeatEachOnce(s[..n]);
      assert Repeat(s[n], 1) == [s[n]];
      assert s == s[..n] + [s[n]];
    }
  }

  /** Repeating each entry changes a list unless the factor is one or the list is empty. */
  lemma {:induction false} RepeatEachFixed<T>(s: seq<T>, k: nat)
    ensures RepeatEach(s, k) == s <==> k == 1 || s == []
  {
    RepeatEachOnce(s);
    RepeatEachLength(s, k);
    if k != 1 && s != [] {
      NotFixed(k, |s|);
    }
  }

  lemma {:induction false} NotFixed(k: nat, n: nat)
    requires k != 1 && n > 0
    ensures k * n != n
  {
    assert (k - 1) * n == k * n - n;
  }

  /** `std::remove_if` with an equality test, followed by `erase`. */
  method EraseAll<T(==)>(s: seq<T>, x: T) returns (kept: seq<T>)
    ensures kept == Without(s, x)
  {
    kept := [];
    for i := 0 to |s|
      invariant kept == Without(s[..i], x)
    {
      assert s[..i + 1] == s[..i] + [s[i]];
      MinusAppend(s[..i], s[i], {x});
      if s[i] != x {
        kept := kept + [s[i]];
      }
    }
    assert s[..|s|] == s;
  }

  /** `std::find` followed by `erase` of the found position. */
  method EraseFirst<T(==)>(s: seq<T>, x: T) returns (r: seq<T>)
    ensures r == RemoveFirst(s, x)
  {
    var i := 0;
    while i < |s| && s[i] != x
      invariant 0 <= i <= |s|
      invariant RemoveFirst(s, x) == s[..i] + RemoveFirst(s[i..], x)
    {
      assert s[i..][1..] == s[i + 1..] && s[..i + 1] == s[..i] + [s[i]];
      i := i + 1;
    }
    if i < |s| {
      assert s[i..][1..] == s[i + 1..];
      return s[..i] + s[i + 1..];
    }
    return s;
  }
}

/** Sequence facts: lists without repetition (a native child list), moving one element, and regrouping. */
module Lists {
  ghost predicate Distinct<T>(s: seq<T>) {
    forall i, j :: 0 <= i < j < |s| ==> s[i] != s[j]
  }

  function InsertAt<T>(s: seq<T>, index: nat, x: T): seq<T>
    requires index <= |s|
  {
    s[..index] + [x] + s[index..]
  }

  /** s with every occurrence of x dropped, the others in their order. */
  function Without<T(==,!new)>(s: seq<T>, x: T): (r: seq<T>)
    ensures forall y :: y in r <==> y in s && y != x
    ensures |r| <= |s|
  {
    if s == [] then []
    else if s[0] == x then Without(s[1..], x)
    else [s[0]] + Without(s[1..], x)
  }

  lemma {:induction false} WithoutAbsent<T(!new)>(s: seq<T>, x: T)
    requires x !in s
    ensures Without(s, x) == s
  {
    if s != [] {
      WithoutAbsent(s[1..], x);
    }
  }

  lemma {:induction false} WithoutConcat<T(!new)>(s: seq<T>, r: seq<T>, x: T)
    ensures Without(s + r, x) == Without(s, x) + Without(r, x)
  {
    if s == [] {
      assert s + r == r;
    } else {
      assert (s + r)[1..] == s[1..] + r;
      WithoutConcat(s[1..], r, x);
    }
  }

  lemma {:induction false} WithoutDistinct<T(!new)>(s: seq<T>, x: T)
    requires Distinct(s)
    ensures Distinct(Without(s, x))
    ensures |Without(s, x)| == if x in s then |s| - 1 else |s|
  {
    if s != [] {
      WithoutDistinct(s[1..], x);
      var r := Without(s[1..], x);
      if s[0] == x {
        assert x !in s[1..];
      } else {
        assert s[0] !in r;
        assert Without(s, x) == [s[0]] + r;
      }
    }
  }

  lemma InsertDistinct<T(!new)>(s: seq<T>, index: nat, x: T)
    requires Distinct(s) && x !in s && index <= |s|
    ensures Distinct(InsertAt(s, index, x))
    ensures forall y :: y in InsertAt(s, index, x) <==> y in s || y == x
  {
    var r := InsertAt(s, index, x);
    assert forall k :: 0 <= k < index ==> r[k] == s[k];
    assert r[index] == x;
    assert forall k :: index < k < |r| ==> r[k] == s[k - 1];
    forall y | y in s
      ensures y in r
    {
      var k :| 0 <= k < |s| && s[k] == y;
      assert r[if k < index then k else k + 1] == y;
    }
  }

  /** Take x out and put it back at `index`. */
  function Moved<T(==,!new)>(s: seq<T>, x: T, index: nat): seq<T>
    requires index <= |Without(s, x)|
  {
    InsertAt(Without(s, x), index, x)
  }

  /**
  The move is the only distinct list that has x at the requested final index and every other
  element in its old relative order; it is a permutation of the list. An index below the old
  length is always in range for the second step.
  */
  lemma MovedIsTheMove<T(!new)>(s: seq<T>, x: T, index: nat, r: seq<T>)
    requires Distinct(s) && x in s && index < |s|
    ensures index <= |Without(s, x)|
    ensures r == Moved(s, x, index)
            <==> index < |r| && r[index] == x && Distinct(r) && Without(r, x) == Without(s, x)
    ensures multiset(Moved(s, x, index)) == multiset(s)
    ensures |Moved(s, x, index)| == |s|
  {
    WithoutDistinct(s, x);
    var rest := Without(s, x);
    var m := Moved(s, x, index);
    assert m[index] == x && Distinct(m) && Without(m, x) == rest by {
      InsertDistinct(rest, index, x);
      WithoutInsert(rest, index, x);
    }
    if index < |r| && r[index] == x && Distinct(r) && Without(r, x) == rest {
      MovedUnique(r, rest, x, index);
    }
    assert multiset(m) == multiset(s) by {
      MovedMultiset(s, x);
      InsertMultiset(rest, index, x);
    }
  }

  /** An element taken out and put back at its index restores the list. */
  lemma PutBack<T(!new)>(s: seq<T>, index: nat)
    requires Distinct(s) && index < |s|
    ensures index <= |Without(s, s[index])| && InsertAt(Without(s, s[index]), index, s[index]) == s
  {
    MovedIsTheMove(s, s[index], index, s);
  }

  lemma MovedUnique<T(!new)>(r: seq<T>, rest: seq<T>, x: T, index: nat)
    requires index < |r| && r[index] == x && Distinct(r) && Without(r, x) == rest
    ensures index <= |rest| && r == InsertAt(rest, index, x)
  {
    WithoutInsertedEquals(r, index, x);
    assert rest == r[..index] + r[index + 1..];
    assert rest[..index] == r[..index];
    assert rest[index..] == r[index + 1..];
    assert r == r[..index] + [x] + r[index + 1..];
  }

  lemma InsertMultiset<T(!new)>(s: seq<T>, index: nat, x: T)
    requires index <= |s|
    ensures multiset(InsertAt(s, index, x)) == multiset(s) + multiset{x}
  {
    assert s == s[..index] + s[index..];
  }

  lemma WithoutInsert<T(!new)>(s: seq<T>, index: nat, x: T)
    requires index <= |s| && x !in s
    ensures Without(InsertAt(s, index, x), x) == s
  {
    var a, b := s[..index], s[index..];
    WithoutConcat(a + [x], b, x);
    WithoutConcat(a, [x], x);
    WithoutAbsent(a, x);
    WithoutAbsent(b, x);
    assert Without([x], x) == [];
    assert a + b == s;
  }

  lemma WithoutInsertedEquals<T(!new)>(r: seq<T>, index: nat, x: T)
    requires index < |r| && r[index] == x && Distinct(r)
    ensures Without(r, x) == r[..index] + r[index + 1..]
  {
    var a, b := r[..index], r[index + 1..];
    assert r == (a + [x]) + b;
    WithoutConcat(a + [x], b, x);
    WithoutConcat(a, [x], x);
    WithoutAbsent(a, x);
    WithoutAbsent(b, x);
    assert Without([x], x) == [];
  }

  lemma {:induction false} MovedMultiset<T(!new)>(s: seq<T>, x: T)
    requires Distinct(s) && x in s
    ensures multiset(Without(s, x)) + multiset{x} == multiset(s)
  {
    assert s == [s[0]] + s[1..];
    if s[0] == x {
      WithoutAbsent(s[1..], x);
    } else {
      MovedMultiset(s[1..], x);
    }
  }

  /** n distinct indices between 1 and limit - 1 are fewer than limit. */
  lemma {:induction false} Pigeonhole(s: seq<nat>, limit: nat)
    requires Distinct(s)
    requires forall k :: 0 <= k < |s| ==> 1 <= s[k] < limit
    requires limit > 0
    ensures |s| < limit
    decreases limit
  {
    if limit > 1 {
      WithoutDistinct<nat>(s, limit - 1);
      var r := Without<nat>(s, limit - 1);
      assert forall k :: 0 <= k < |r| ==> r[k] in r;
      Pigeonhole(r, limit - 1);
    }
  }

  ghost function Elements<T(!new)>(s: seq<T>): set<T> {
    set x | x in s
  }

  lemma {:induction false} DistinctSize<T(!new)>(s: seq<T>)
    requires Distinct(s)
    ensures |Elements(s)| == |s|
  {
    if s != [] {
      DistinctSize(s[1..]);
      assert Elements(s) == {s[0]} + Elements(s[1..]);
    }
  }

  /** A sequence passed on in two parts, the second of them split again. */
  lemma Regroup<T>(queue: seq<T>, taken: seq<T>, rest: seq<T>, first: seq<T>, later: seq<T>, end: seq<T>, next: seq<T>)
    requires queue + taken == first + next && next + rest == later + end
    ensures queue + (taken + rest) == (first + later) + end
  {
    assert queue + (taken + rest) == (queue + taken) + rest;
    assert (first + next) + rest == first + (next + rest);
    assert first + (later + end) == (first + later) + end;
  }
}

/** The order of sorted names, and sequences without repetition. */
module Ordering {
  predicate Less(a: string, b: string) {
    if b == [] then false
    else if a == [] then true
    else if a[0] != b[0] then a[0] < b[0]
    else Less(a[1..], b[1..])
  }

  lemma {:induction false} LessTotal(a: string, b: string)
    ensures !Less(a, a)
    ensures a != b ==> Less(a, b) || Less(b, a)
    ensures Less(a, b) ==> !Less(b, a)
  {
    if a != [] {
      LessTotal(a[1..], if b == [] then [] else b[1..]);
      if b != [] {
        assert a == [a[0]] + a[1..] && b == [b[0]] + b[1..];
      }
    }
  }

  lemma {:induction false} LessTransitive(a: string, b: string, c: string)
    requires Less(a, b) && Less(b, c)
    ensures Less(a, c)
  {
    if a != [] && a[0] == b[0] == c[0] {
      LessTransitive(a[1..], b[1..], c[1..]);
    }
  }

  ghost predicate Increasing(s: seq<string>) {
    forall i, k | 0 <= i < k < |s| :: Less(s[i], s[k])
  }

  predicate IsLeast(s: set<string>, x: string) {
    x in s && forall y | y in s && y != x :: Less(x, y)
  }

  lemma {:induction false} LeastExists(s: set<string>)
    requires s != {}
    ensures exists x :: IsLeast(s, x)
    decreases s
  {
    var x :| x in s;
    if s == {x} {
      assert IsLeast(s, x);
    } else {
      LeastExists(s - {x});
      var y :| IsLeast(s - {x}, y);
      LessTotal(x, y);
      if Less(y, x) {
        assert IsLeast(s, y);
      } else {
        forall z | z in s && z != x ensures Less(x, z) {
          if z != y {
            LessTransitive(x, y, z);
          }
        }
        assert IsLeast(s, x);
      }
    }
  }

  lemma LeastIsUnique(s: set<string>, x: string, y: string)
    requires IsLeast(s, x) && IsLeast(s, y)
    ensures x == y
  {
    LessTotal(x, y);
  }

  /** `sorted` over the keys of a dictionary. */
  function Sorted(s: set<string>): (r: seq<string>)
    ensures |r| == |s|
    decreases s
  {
    if s == {} then []
    else
      LeastExists(s);
      assert forall x, y | IsLeast(s, x) && IsLeast(s, y) :: x == y by {
        forall x, y | IsLeast(s, x) && IsLeast(s, y) ensures x == y {
          LeastIsUnique(s, x, y);
        }
      }
      var x :| x in s && IsLeast(s, x);
      [x] + Sorted(s - {x})
  }

  lemma {:induction false} SortedMeans(s: set<string>)
    ensures Increasing(Sorted(s))
    ensures forall x :: x in Sorted(s) <==> x in s
    decreases s
  {
    if s != {} {
      LeastExists(s);
      var x := Sorted(s)[0];
      assert IsLeast(s, x);
      SortedMeans(s - {x});
      var rest := Sorted(s - {x});
      assert Sorted(s) == [x] + rest;
      forall i | 0 <= i < |rest| ensures Less(x, rest[i]) {
        assert rest[i] in rest;
      }
    }
  }

  lemma Inhabited(s: seq<string>)
    ensures s != [] ==> exists x :: x in s
  {
    if s != [] {
      assert s[0] in s;
    }
  }

  /** An increasing sequence is determined by its members. */
  lemma {:induction false} IncreasingIsUnique(s: seq<string>, t: seq<string>)
    requires Increasing(s) && Increasing(t)
    requires forall x :: x in s <==> x in t
    ensures s == t
  {
    Inhabited(t);
    if s != [] {
      assert s[0] in t && s[0] in s;
      assert t[0] in s;
      var i :| 0 <= i < |t| && t[i] == s[0];
      var k :| 0 <= k < |s| && s[k] == t[0];
      LessTotal(s[0], t[0]);
      assert s[0] == t[0];
      forall x ensures x in s[1..] <==> x in t[1..] {
        RestMembers(s, x);
        RestMembers(t, x);
      }
      IncreasingIsUnique(s[1..], t[1..]);
      assert s == [s[0]] + s[1..] && t == [t[0]] + t[1..];
    }
  }

  lemma RestMembers(s: seq<string>, x: string)
    requires Increasing(s) && s != []
    ensures x in s[1..] <==> x in s && x != s[0]
  {
    LessTotal(s[0], s[0]);
    assert s == [s[0]] + s[1..];
    if x in s[1..] {
      var i :| 0 <= i < |s[1..]| && s[1..][i] == x;
      assert s[i + 1] == x;
    }
  }

  ghost predicate Distinct<T>(s: seq<T>) {
    forall i, k | 0 <= i < k < |s| :: s[i] != s[k]
  }

  lemma {:induction false} DistinctCount<T>(s: seq<T>, x: T)
    requires Distinct(s)
    ensures multiset(s)[x] == if x in s then 1 else 0
  {
    if s != [] {
      DistinctCount(s[1..], x);
      assert s == [s[0]] + s[1..];
      assert s[0] !in s[1..];
    }
  }

  lemma SameMembersSameMultiset<T>(s: seq<T>, t: seq<T>)
    requires Distinct(s) && Distinct(t) && forall x :: x in s <==> x in t
    ensures multiset(s) == multiset(t)
  {
    forall x ensures multiset(s)[x] == multiset(t)[x] {
      DistinctCount(s, x);
      DistinctCount(t, x);
    }
  }

  lemma SameLength<T>(s: seq<T>, t: seq<T>)
    requires multiset(s) == multiset(t)
    ensures |s| == |t| && forall x :: x in s <==> x in t
  {
    assert |multiset(s)| == |s| && |multiset(t)| == |t|;
    forall x ensures x in s <==> x in t {
      assert x in multiset(s) <==> x in s;
      assert x in multiset(t) <==> x in t;
    }
  }
}

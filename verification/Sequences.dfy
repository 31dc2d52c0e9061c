/** Freshness of sequences, in the form the duplicate checks need it. */
module Sequences {

  function Elements<T>(s: seq<T>): set<T> {
    set x | x in s
  }

  // No element of s is in the set before, and none occurs twice in s.
  ghost predicate Fresh<T>(before: set<T>, s: seq<T>) {
    && (forall i :: 0 <= i < |s| ==> s[i] !in before)
    && (forall i, j :: 0 <= i < j < |s| ==> s[i] != s[j])
  }

  lemma FreshCons<T>(before: set<T>, x: T, s: seq<T>)
    ensures Fresh(before, [x] + s) <==> x !in before && Fresh(before + {x}, s)
  {
    var t := [x] + s;
    assert t[0] == x;
    assert forall i :: 0 <= i < |s| ==> t[i + 1] == s[i];
    if Fresh(before, t) {
      forall i | 0 <= i < |s| ensures s[i] !in before + {x} {
        assert t[i + 1] == s[i] && t[0] != t[i + 1];
      }
      forall i, j | 0 <= i < j < |s| ensures s[i] != s[j] {
        assert t[i + 1] != t[j + 1];
      }
    }
  }

  lemma FreshConcat<T>(before: set<T>, s: seq<T>, t: seq<T>)
    ensures Fresh(before, s + t) <==> Fresh(before, s) && Fresh(before + Elements(s), t)
    decreases |s|
  {
    if s == [] {
      assert s + t == t;
      assert before + Elements(s) == before;
    } else {
      assert s == [s[0]] + s[1..];
      assert s + t == [s[0]] + (s[1..] + t);
      FreshCons(before, s[0], s[1..] + t);
      FreshCons(before, s[0], s[1..]);
      FreshConcat(before + {s[0]}, s[1..], t);
      assert before + {s[0]} + Elements(s[1..]) == before + Elements(s);
    }
  }

  lemma ElementsConcat<T>(s: seq<T>, t: seq<T>)
    ensures Elements(s + t) == Elements(s) + Elements(t)
  {
  }

  // Freshness only depends on how often each element occurs.
  lemma {:induction false} FreshCount<T>(before: set<T>, s: seq<T>)
    ensures Fresh(before, s) <==> (forall x :: x in s ==> multiset(s)[x] == 1 && x !in before)
    decreases |s|
  {
    if s == [] {
    } else {
      var x, rest := s[0], s[1..];
      assert s == [x] + rest;
      assert multiset(s) == multiset{x} + multiset(rest);
      FreshCons(before, x, rest);
      FreshCount(before + {x}, rest);
      assert x in rest <==> multiset(rest)[x] > 0;
      if forall y :: y in s ==> multiset(s)[y] == 1 && y !in before {
        assert x in s;
        forall y | y in rest ensures multiset(rest)[y] == 1 && y !in before + {x} {
          assert y in s;
        }
      }
      if Fresh(before, s) {
        forall y | y in s ensures multiset(s)[y] == 1 && y !in before {
          if y != x {
            assert y in rest;
          }
        }
      }
    }
  }

  lemma FreshSmaller<T>(before: set<T>, s: seq<T>, t: seq<T>)
    requires multiset(s) <= multiset(t)
    requires Fresh(before, t)
    ensures Fresh(before, s)
  {
    FreshCount(before, s);
    FreshCount(before, t);
    forall x | x in s ensures multiset(s)[x] == 1 && x !in before {
      assert multiset(s)[x] > 0;
      assert x in multiset(t);
    }
  }
}

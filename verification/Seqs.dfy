/** Filtering of sequences, from the back, as loops build them. */
module Seqs {
  function Filter<T>(p: T -> bool, s: seq<T>): seq<T> {
    if s == [] then []
    else
      var rest := Filter(p, s[..|s| - 1]);
      if p(s[|s| - 1]) then rest + [s[|s| - 1]] else rest
  }

  function Both<T>(p: T -> bool, q: T -> bool): T -> bool {
    x => p(x) && q(x)
  }

  lemma {:induction false} FilterMember<T>(p: T -> bool, s: seq<T>, x: T)
    ensures x in Filter(p, s) <==> x in s && p(x)
  {
    if s != [] {
      FilterMember(p, s[..|s| - 1], x);
      assert s == s[..|s| - 1] + [s[|s| - 1]];
    }
  }

  lemma {:induction false} FilterShorter<T>(p: T -> bool, s: seq<T>)
    ensures |Filter(p, s)| <= |s|
    ensures |Filter(p, s)| == |s| ==> Filter(p, s) == s
  {
    if s != [] {
      FilterShorter(p, s[..|s| - 1]);
    }
  }

  lemma {:induction false} FilterConcat<T>(p: T -> bool, s: seq<T>, t: seq<T>)
    ensures Filter(p, s + t) == Filter(p, s) + Filter(p, t)
  {
    if t == [] {
      assert s + t == s;
    } else {
      assert (s + t)[..|s + t| - 1] == s + t[..|t| - 1];
      FilterConcat(p, s, t[..|t| - 1]);
    }
  }

  lemma {:induction false} FilterCongruent<T>(p: T -> bool, q: T -> bool, s: seq<T>)
    requires forall x | x in s :: p(x) == q(x)
    ensures Filter(p, s) == Filter(q, s)
  {
    if s != [] {
      assert forall x | x in s[..|s| - 1] :: x in s;
      FilterCongruent(p, q, s[..|s| - 1]);
    }
  }

  lemma {:induction false} FilterTwice<T>(p: T -> bool, q: T -> bool, s: seq<T>)
    ensures Filter(q, Filter(p, s)) == Filter(Both(p, q), s)
  {
    if s != [] {
      FilterTwice(p, q, s[..|s| - 1]);
      if p(s[|s| - 1]) {
        var rest := Filter(p, s[..|s| - 1]);
        assert (rest + [s[|s| - 1]])[..|rest|] == rest;
      }
    }
  }

  lemma {:induction false} FilterAll<T>(p: T -> bool, s: seq<T>)
    ensures Filter(p, s) == s <==> forall x | x in s :: p(x)
  {
    if s != [] {
      var init, x := s[..|s| - 1], s[|s| - 1];
      assert s == init + [x];
      FilterAll(p, init);
      FilterShorter(p, init);
    }
  }

  lemma {:induction false} FilterNone<T>(p: T -> bool, s: seq<T>)
    requires forall x | x in s :: !p(x)
    ensures Filter(p, s) == []
  {
    if s != [] {
      assert forall x | x in s[..|s| - 1] :: x in s;
      assert s[|s| - 1] in s;
      FilterNone(p, s[..|s| - 1]);
    }
  }

  lemma {:induction false} FilterDistinct<T>(p: T -> bool, s: seq<T>)
    requires forall i, j | 0 <= i < j < |s| :: s[i] != s[j]
    ensures forall i, j | 0 <= i < j < |Filter(p, s)| :: Filter(p, s)[i] != Filter(p, s)[j]
  {
    if s != [] {
      var init, last := s[..|s| - 1], s[|s| - 1];
      FilterDistinct(p, init);
      var rest := Filter(p, init);
      forall i | 0 <= i < |rest| ensures rest[i] != last {
        FilterMember(p, init, rest[i]);
        var k :| 0 <= k < |init| && init[k] == rest[i];
        assert s[k] == rest[i];
      }
    }
  }
}

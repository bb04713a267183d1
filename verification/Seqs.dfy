/** Duplicate-free sequences, the abstract value of the intrusive lists. */
module Seqs {
  ghost predicate Distinct<T>(s: seq<T>) {
    forall i, j :: 0 <= i < j < |s| ==> s[i] != s[j]
  }

  function Last<T>(s: seq<T>): T
    requires s != []
  {
    s[|s| - 1]
  }

  function IndexOf<T(==)>(s: seq<T>, x: T): (p: nat)
    requires x in s
    ensures p < |s| && s[p] == x && x !in s[..p]
  {
    if s[0] == x then 0 else 1 + IndexOf(s[1..], x)
  }

  /** `list_del`: the sequence without (the first) `x`. */
  function Remove<T(==)>(s: seq<T>, x: T): seq<T> {
    if x in s then var p := IndexOf(s, x); s[..p] + s[p + 1..] else s
  }

  lemma RemoveDistinct<T>(s: seq<T>, x: T)
    requires Distinct(s)
    ensures Distinct(Remove(s, x))
    ensures forall y :: y in Remove(s, x) <==> y in s && y != x
    ensures |Remove(s, x)| == |s| - (if x in s then 1 else 0)
  {
    if x in s {
      var p := IndexOf(s, x);
      var r := s[..p] + s[p + 1..];
      forall y ensures y in r <==> y in s && y != x {
        if y in s && y != x {
          var i :| 0 <= i < |s| && s[i] == y;
          assert r[if i < p then i else i - 1] == y;
        }
      }
    }
  }

  ghost function Elements<T>(s: seq<T>): set<T> {
    set x | x in s
  }

  lemma {:induction false} DistinctCount<T>(s: seq<T>)
    requires Distinct(s)
    ensures |Elements(s)| == |s|
  {
    if s != [] {
      var t := s[..|s| - 1];
      DistinctCount(t);
      assert Elements(s) == Elements(t) + {Last(s)};
    }
  }

  lemma {:induction false} SubsetSize<T>(a: set<T>, b: set<T>)
    requires a <= b
    ensures |a| <= |b|
    decreases |a|
  {
    if a != {} {
      var x :| x in a;
      SubsetSize(a - {x}, b - {x});
    }
  }

  // ---------- Order ----------

  /** Both are in the sequence, `x` before `y`. */
  ghost predicate Ahead<T>(s: seq<T>, x: T, y: T) {
    x in s && y in s && IndexOf(s, x) < IndexOf(s, y)
  }

  /** `o` lists some of `s` in the same order. */
  ghost predicate Keeps<T>(s: seq<T>, o: seq<T>) {
    && (forall i :: 0 <= i < |o| ==> o[i] in s)
    && (forall i, j :: 0 <= i < j < |o| ==> Ahead(s, o[i], o[j]))
  }

  lemma IndexIs<T>(s: seq<T>, i: nat)
    requires Distinct(s) && i < |s|
    ensures s[i] in s && IndexOf(s, s[i]) == i
  {
  }

  lemma RemoveKeeps<T>(s: seq<T>, x: T)
    requires Distinct(s)
    ensures Keeps(s, Remove(s, x)) && x !in Remove(s, x)
  {
    RemoveDistinct(s, x);
    var o := Remove(s, x);
    forall i | 0 <= i < |o|
      ensures o[i] in s && IndexOf(s, o[i]) == if x in s && i >= IndexOf(s, x) then i + 1 else i
    {
      var k := if x in s && i >= IndexOf(s, x) then i + 1 else i;
      assert o[i] == s[k];
      IndexIs(s, k);
    }
  }

  lemma SuffixKeeps<T>(s: seq<T>, n: nat)
    requires Distinct(s) && n <= |s|
    ensures Keeps(s, s[n..])
  {
    forall i | 0 <= i < |s[n..]| ensures s[n..][i] in s && IndexOf(s, s[n..][i]) == n + i {
      IndexIs(s, n + i);
    }
  }
}

/**
 * The order in which the two tables enumerate their keys. The tables are ordered maps;
 * this model enumerates card ids in ascending numeric order and book titles in
 * lexicographic order of their characters.
 */
module KeyOrder {
  import opened Records

  /** Strict lexicographic order on titles; a proper prefix comes first. */
  predicate Below(a: string, b: string)
    decreases |a|
  {
    |b| > 0 && (|a| == 0 || a[0] < b[0] || (a[0] == b[0] && Below(a[1..], b[1..])))
  }

  lemma {:induction false} BelowIrreflexive(a: string)
    ensures !Below(a, a)
  {
    if |a| > 0 {
      BelowIrreflexive(a[1..]);
    }
  }

  lemma {:induction false} BelowTransitive(a: string, b: string, c: string)
    requires Below(a, b) && Below(b, c)
    ensures Below(a, c)
  {
    if |a| > 0 && a[0] == b[0] && b[0] == c[0] {
      BelowTransitive(a[1..], b[1..], c[1..]);
    }
  }

  lemma {:induction false} BelowTotal(a: string, b: string)
    ensures a == b || Below(a, b) || Below(b, a)
  {
    if |a| > 0 && |b| > 0 && a[0] == b[0] {
      BelowTotal(a[1..], b[1..]);
      if a[1..] == b[1..] {
        assert a == [a[0]] + a[1..] && b == [b[0]] + b[1..];
      }
    }
  }

  /** Titles in strictly increasing order (so without repetitions). */
  predicate TitlesSorted(s: seq<string>)
  {
    forall i, j :: 0 <= i < j < |s| ==> Below(s[i], s[j])
  }

  /** Ids in strictly increasing order (so without repetitions). */
  predicate IdsSorted(s: seq<Nat64>)
  {
    forall i, j :: 0 <= i < j < |s| ==> s[i] < s[j]
  }

  /** Adding `x` to a set whose least element is `m` gives a set whose least element is the smaller of the two. */
  lemma LeastOfTwo(x: string, m: string, rest: set<string>)
    requires m in rest && x !in rest
    requires forall t :: t in rest && t != m ==> Below(m, t)
    ensures Below(x, m) ==> forall t :: t in rest + {x} && t != x ==> Below(x, t)
    ensures !Below(x, m) ==> forall t :: t in rest + {x} && t != m ==> Below(m, t)
  {
    if Below(x, m) {
      forall t | t in rest && t != m ensures Below(x, t) {
        BelowTransitive(x, m, t);
      }
    } else {
      BelowTotal(x, m);
    }
  }

  /** The least title of a non-empty set. */
  ghost function LeastTitle(s: set<string>): (m: string)
    requires s != {}
    ensures m in s
    ensures forall t :: t in s && t != m ==> Below(m, t)
    decreases s
  {
    var x :| x in s;
    if s == {x} then x
    else
      var m := LeastTitle(s - {x});
      LeastOfTwo(x, m, s - {x});
      assert s == (s - {x}) + {x};
      if Below(x, m) then x else m
  }

  /** The titles of `s`, each once, in increasing order: what `keys()` enumerates. */
  ghost function SortedTitles(s: set<string>): (r: seq<string>)
    ensures |r| == |s|
    ensures forall t :: t in r <==> t in s
    ensures TitlesSorted(r)
    decreases s
  {
    if s == {} then []
    else
      var m := LeastTitle(s);
      [m] + SortedTitles(s - {m})
  }

  /** The least id of a non-empty set. */
  ghost function LeastId(s: set<Nat64>): (m: Nat64)
    requires s != {}
    ensures m in s
    ensures forall k :: k in s ==> m <= k
    decreases s
  {
    var x :| x in s;
    if s == {x} then x
    else
      var m := LeastId(s - {x});
      assert s == (s - {x}) + {x};
      if x < m then x else m
  }

  /** The ids of `s`, each once, in increasing order. */
  ghost function SortedIds(s: set<Nat64>): (r: seq<Nat64>)
    ensures |r| == |s|
    ensures forall k :: k in r <==> k in s
    ensures IdsSorted(r)
    decreases s
  {
    if s == {} then []
    else
      var m := LeastId(s);
      [m] + SortedIds(s - {m})
  }
}

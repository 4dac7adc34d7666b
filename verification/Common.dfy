/**
  Small shared vocabulary: optional values, sequences without repetition, and a stable sort.

  In all modules a contract may say `P(x) == true` where `P(x)` would mean the same. Dafny replaces a predicate in a
  contract by its definition and proves the parts one by one; compared with true it stays one fact under its name.
  Predicates that take a lemma to establish are written so, which keeps the proofs of their callers small.
 */
module Common {

  /** A resource path. */
  datatype Path = Path(text: string)

  datatype Option<+T> = None | Some(value: T)

  /** A path is one of the roots or lies below one (`_is_allowed_reference`). */
  predicate Under(p: Path, roots: seq<Path>) {
    exists i :: 0 <= i < |roots| && (p == roots[i] || roots[i].text + "/" <= p.text)
  }

  /** The path is the root, or follows it after a slash: a longer name is not below it. */
  ghost predicate IsBelow(p: Path, root: Path) { p.text == root.text || exists rest :: p.text == root.text + "/" + rest }

  lemma BelowExactly(p: Path, root: Path)
    ensures IsBelow(p, root) <==> p == root || root.text + "/" <= p.text
  {
    var front := root.text + "/";
    if front <= p.text {
      assert p.text == root.text + "/" + p.text[|front|..];
    }
  }

  lemma UnderExactly(p: Path, roots: seq<Path>)
    ensures Under(p, roots) <==> exists root :: root in roots && IsBelow(p, root)
  {
    if i :| 0 <= i < |roots| && (p == roots[i] || roots[i].text + "/" <= p.text) {
      BelowExactly(p, roots[i]);
    }
    if root :| root in roots && IsBelow(p, root) {
      BelowExactly(p, root);
      var i :| 0 <= i < |roots| && roots[i] == root;
    }
  }

  function Min(a: int, b: int): int { if a <= b then a else b }

  function Max(a: int, b: int): int { if a >= b then a else b }

  ghost predicate NoRepeats<T>(s: seq<T>) {
    forall i, j :: 0 <= i < j < |s| ==> s[i] != s[j]
  }

  function Elements<T>(s: seq<T>): set<T> { set x | x in s }

  lemma ElementsNext<T>(s: seq<T>, x: T)
    ensures Elements(s + [x]) == Elements(s) + {x} && (s + [x])[..|s|] == s
  {
  }

  lemma ElementsLast<T>(s: seq<T>)
    requires s != []
    ensures Elements(s) == Elements(s[..|s| - 1]) + {s[|s| - 1]}
  {
    ElementsNext(s[..|s| - 1], s[|s| - 1]);
    assert s == s[..|s| - 1] + [s[|s| - 1]];
  }

  /** No element occurs again: the same as having no repeats, told from the end. */
  ghost predicate RepeatFree<T>(s: seq<T>) {
    s == [] || (s[|s| - 1] !in s[..|s| - 1] && RepeatFree(s[..|s| - 1]))
  }

  lemma {:induction false} RepeatFreePrefix<T>(s: seq<T>, n: nat)
    requires RepeatFree(s) && n <= |s|
    ensures RepeatFree(s[..n]) && NoRepeats(s[..n])
  {
    if n < |s| {
      RepeatFreePrefix(s[..|s| - 1], n);
      assert s[..|s| - 1][..n] == s[..n];
    } else if s != [] {
      RepeatFreePrefix(s[..|s| - 1], n - 1);
      assert s[..|s| - 1][..n - 1] == s[..n - 1] && s[..n] == s;
    }
  }

  // Without repetition a sequence has as many elements as positions.
  lemma {:induction false} NoRepeatsCount<T>(s: seq<T>)
    requires NoRepeats(s)
    ensures |Elements(s)| == |s|
  {
    if s == [] {
    } else {
      var front := s[..|s| - 1];
      NoRepeatsCount(front);
      assert s[|s| - 1] !in Elements(front);
      assert Elements(s) == Elements(front) + {s[|s| - 1]};
    }
  }

  // The elements of a set of bounded size: adding at most one element adds at most one to the size.
  lemma SubsetSize<T>(a: set<T>, b: set<T>)
    requires a <= b
    ensures |a| <= |b|
    ensures |a| == |b| ==> a == b
  {
    assert b == a + (b - a);
    assert |b| == |a| + |b - a|;
  }

  // A stable insertion sort: `leq(x, y)` says that x may stay before y.

  ghost predicate TotalPreorder<T(!new)>(leq: (T, T) -> bool) {
    && (forall x, y :: leq(x, y) || leq(y, x))
    && (forall x, y, z :: leq(x, y) && leq(y, z) ==> leq(x, z))
  }

  ghost predicate SortedBy<T>(s: seq<T>, leq: (T, T) -> bool) {
    forall i, j :: 0 <= i < j < |s| ==> leq(s[i], s[j])
  }

  function Insert<T>(x: T, s: seq<T>, leq: (T, T) -> bool): (r: seq<T>) {
    if s == [] then [x]
    else if leq(x, s[0]) then [x] + s
    else [s[0]] + Insert(x, s[1..], leq)
  }

  // Python's `sorted`: keeps the given order of elements that compare equal.
  function Sort<T>(s: seq<T>, leq: (T, T) -> bool): (r: seq<T>) {
    if s == [] then [] else Insert(s[0], Sort(s[1..], leq), leq)
  }

  lemma {:induction false} InsertKeeps<T>(x: T, s: seq<T>, leq: (T, T) -> bool)
    ensures multiset(Insert(x, s, leq)) == multiset(s) + multiset{x}
    ensures |Insert(x, s, leq)| == |s| + 1
  {
    if s == [] || leq(x, s[0]) {
    } else {
      InsertKeeps(x, s[1..], leq);
      assert s == [s[0]] + s[1..];
    }
  }

  lemma {:induction false} InsertSorts<T(!new)>(x: T, s: seq<T>, leq: (T, T) -> bool)
    requires TotalPreorder(leq) && SortedBy(s, leq)
    ensures SortedBy(Insert(x, s, leq), leq)
  {
    if s == [] || leq(x, s[0]) {
    } else {
      InsertSorts(x, s[1..], leq);
      InsertKeeps(x, s[1..], leq);
      var r := Insert(x, s[1..], leq);
      forall j | 0 <= j < |r| ensures leq(s[0], r[j]) {
        assert r[j] in multiset(r);
        assert r[j] == x || r[j] in multiset(s[1..]);
      }
    }
  }

  lemma {:induction false} SortKeeps<T>(s: seq<T>, leq: (T, T) -> bool)
    ensures multiset(Sort(s, leq)) == multiset(s)
    ensures |Sort(s, leq)| == |s|
  {
    if s == [] {
    } else {
      SortKeeps(s[1..], leq);
      InsertKeeps(s[0], Sort(s[1..], leq), leq);
      assert s == [s[0]] + s[1..];
    }
  }

  lemma {:induction false} SortSorts<T(!new)>(s: seq<T>, leq: (T, T) -> bool)
    requires TotalPreorder(leq)
    ensures SortedBy(Sort(s, leq), leq)
  {
    if s == [] {
    } else {
      SortSorts(s[1..], leq);
      InsertSorts(s[0], Sort(s[1..], leq), leq);
    }
  }

  lemma SortCorrect<T(!new)>(s: seq<T>, leq: (T, T) -> bool)
    requires TotalPreorder(leq)
    ensures multiset(Sort(s, leq)) == multiset(s)
    ensures |Sort(s, leq)| == |s|
    ensures SortedBy(Sort(s, leq), leq)
    ensures forall x :: x in Sort(s, leq) <==> x in s
  {
    SortKeeps(s, leq);
    SortSorts(s, leq);
    SameElements(Sort(s, leq), s);
  }

  lemma SameElements<T>(a: seq<T>, b: seq<T>)
    requires multiset(a) == multiset(b)
    ensures forall x :: x in a <==> x in b
  {
    forall x ensures x in a <==> x in b {
      assert x in a <==> x in multiset(a);
      assert x in b <==> x in multiset(b);
    }
  }

  lemma {:induction false} DistinctCount<T>(a: seq<T>, x: T)
    requires NoRepeats(a)
    ensures multiset(a)[x] <= 1
  {
    if a != [] {
      DistinctCount(a[1..], x);
      assert a == [a[0]] + a[1..];
    }
  }

  lemma SortKeepsDistinct<T(!new)>(s: seq<T>, leq: (T, T) -> bool)
    requires TotalPreorder(leq) && NoRepeats(s)
    ensures NoRepeats(Sort(s, leq))
  {
    SortCorrect(s, leq);
    DistinctToo(s, Sort(s, leq));
  }

  lemma DistinctToo<T>(s: seq<T>, b: seq<T>)
    requires NoRepeats(s) && multiset(b) == multiset(s)
    ensures NoRepeats(b)
  {
    forall i, j | 0 <= i < j < |b| ensures b[i] != b[j] {
      if b[i] == b[j] {
        DistinctCount(s, b[i]);
        CountsTwice(b, i, j);
      }
    }
  }

  lemma CountsTwice<T>(b: seq<T>, i: nat, j: nat)
    requires i < j < |b| && b[i] == b[j]
    ensures multiset(b)[b[i]] >= 2
  {
    assert b == b[..j] + b[j..];
    assert b[j] in multiset(b[j..]) && b[..j][i] in multiset(b[..j]);
  }

  // An already strictly ordered sequence is left alone.
  lemma {:induction false} SortedUnchanged<T>(s: seq<T>, leq: (T, T) -> bool)
    requires SortedBy(s, leq)
    ensures Sort(s, leq) == s
  {
    if s != [] {
      SortedUnchanged(s[1..], leq);
      assert s == [s[0]] + s[1..];
      if |s| > 1 {
        assert leq(s[0], s[1]);
      }
    }
  }
}

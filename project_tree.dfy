/**
 * The project tree returned by the server's recursive child-project query,
 * Python's ordering of strings, and the stable sort by name that
 * `sorted(children, key = lambda i: i['name'])` performs.
 */
module ProjectTree {

  /** A project: its numeric ID, its name, and its child projects in server order. */
  datatype Tree = Node(id: int, name: string, children: seq<Tree>)

  /** Number of projects in a tree, the root included. */
  function Size(t: Tree): nat
    decreases t
  {
    1 + SizeOfAll(t.children)
  }

  /** Number of projects in a sequence of trees. */
  function SizeOfAll(ts: seq<Tree>): nat
    decreases ts
  {
    if ts == [] then 0 else Size(ts[0]) + SizeOfAll(ts[1..])
  }

  lemma {:induction false} SizeOfAllAppend(a: seq<Tree>, b: seq<Tree>)
    ensures SizeOfAll(a + b) == SizeOfAll(a) + SizeOfAll(b)
    decreases |a|
  {
    if a != [] {
      assert (a + b)[0] == a[0] && (a + b)[1..] == a[1..] + b;
      SizeOfAllAppend(a[1..], b);
    } else {
      assert a + b == b;
    }
  }

  /** The IDs of every project in a tree, the root included, counted with multiplicity. */
  function TreeIds(t: Tree): multiset<int>
    decreases t
  {
    multiset{t.id} + AllIds(t.children)
  }

  /** The IDs of every project in a sequence of trees. */
  function AllIds(ts: seq<Tree>): multiset<int>
    decreases ts
  {
    if ts == [] then multiset{} else TreeIds(ts[0]) + AllIds(ts[1..])
  }

  lemma {:induction false} AllIdsAppend(a: seq<Tree>, b: seq<Tree>)
    ensures AllIds(a + b) == AllIds(a) + AllIds(b)
    decreases |a|
  {
    if a != [] {
      assert (a + b)[0] == a[0] && (a + b)[1..] == a[1..] + b;
      AllIdsAppend(a[1..], b);
    } else {
      assert a + b == b;
    }
  }

  // ---------------------------------------------------------------------
  // Python compares strings lexicographically by code point.

  /** `a <= b` on Python strings. */
  predicate StrLe(a: string, b: string)
    decreases |a|
  {
    a == [] || (b != [] && (a[0] < b[0] || (a[0] == b[0] && StrLe(a[1..], b[1..]))))
  }

  lemma {:induction false} StrLeReflexive(a: string)
    ensures StrLe(a, a)
    decreases |a|
  {
    if a != [] {
      StrLeReflexive(a[1..]);
    }
  }

  lemma {:induction false} StrLeTotal(a: string, b: string)
    ensures StrLe(a, b) || StrLe(b, a)
    decreases |a|
  {
    if a != [] && b != [] && a[0] == b[0] {
      StrLeTotal(a[1..], b[1..]);
    }
  }

  lemma {:induction false} StrLeTransitive(a: string, b: string, c: string)
    requires StrLe(a, b) && StrLe(b, c)
    ensures StrLe(a, c)
    decreases |a|
  {
    if a != [] && b != [] && c != [] && a[0] == b[0] == c[0] {
      StrLeTransitive(a[1..], b[1..], c[1..]);
    }
  }

  lemma {:induction false} StrLeAntisymmetric(a: string, b: string)
    requires StrLe(a, b) && StrLe(b, a)
    ensures a == b
    decreases |a|
  {
    if a != [] {
      StrLeAntisymmetric(a[1..], b[1..]);
      assert a == [a[0]] + a[1..] && b == [b[0]] + b[1..];
    }
  }

  // ---------------------------------------------------------------------
  // sorted(children, key = name): a stable sort, written as an insertion sort.

  /** Sibling trees in ascending order of name. */
  predicate SortedByName(ts: seq<Tree>) {
    forall i, j | 0 <= i < j < |ts| :: StrLe(ts[i].name, ts[j].name)
  }

  /** The trees of `ts` called `n`, in their order in `ts`. */
  function Named(ts: seq<Tree>, n: string): seq<Tree> {
    if ts == [] then []
    else (if ts[0].name == n then [ts[0]] else []) + Named(ts[1..], n)
  }

  /** Inserts `x` in front of the first tree whose name is not below its own. */
  function InsertByName(x: Tree, ts: seq<Tree>): (r: seq<Tree>)
    ensures |r| == |ts| + 1
    ensures forall c | c in r :: c == x || c in ts
  {
    if ts == [] || StrLe(x.name, ts[0].name) then [x] + ts
    else [ts[0]] + InsertByName(x, ts[1..])
  }

  /** The children in the order Python's `sorted(..., key = name)` yields them. */
  function SortByName(ts: seq<Tree>): (r: seq<Tree>)
    ensures |r| == |ts|
    ensures forall c | c in r :: c in ts
  {
    if ts == [] then []
    else InsertByName(ts[0], SortByName(ts[1..]))
  }

  lemma {:induction false} InsertByNamePermutes(x: Tree, ts: seq<Tree>)
    ensures multiset(InsertByName(x, ts)) == multiset(ts) + multiset{x}
    decreases |ts|
  {
    if ts != [] && !StrLe(x.name, ts[0].name) {
      InsertByNamePermutes(x, ts[1..]);
      assert ts == [ts[0]] + ts[1..];
    }
  }

  /** Sorting is a permutation of the children. */
  lemma {:induction false} SortByNamePermutes(ts: seq<Tree>)
    ensures multiset(SortByName(ts)) == multiset(ts)
    decreases |ts|
  {
    if ts != [] {
      SortByNamePermutes(ts[1..]);
      InsertByNamePermutes(ts[0], SortByName(ts[1..]));
      assert ts == [ts[0]] + ts[1..];
    }
  }

  /** Sorting keeps exactly the same children. */
  lemma SortByNameMembers(ts: seq<Tree>, c: Tree)
    ensures c in SortByName(ts) <==> c in ts
  {
    SortByNamePermutes(ts);
    assert c in SortByName(ts) <==> c in multiset(SortByName(ts));
  }

  lemma {:induction false} InsertByNameSorted(x: Tree, ts: seq<Tree>)
    requires SortedByName(ts)
    ensures SortedByName(InsertByName(x, ts))
    decreases |ts|
  {
    if ts == [] || StrLe(x.name, ts[0].name) {
      forall j | 0 < j < |ts| ensures StrLe(x.name, ts[j].name) {
        StrLeTransitive(x.name, ts[0].name, ts[j].name);
      }
    } else {
      StrLeTotal(x.name, ts[0].name);
      InsertByNameSorted(x, ts[1..]);
      var r := InsertByName(x, ts[1..]);
      forall k | 0 <= k < |r| ensures StrLe(ts[0].name, r[k].name) {
        assert r[k] in r;
        if r[k] != x {
          var m :| 0 <= m < |ts[1..]| && ts[1..][m] == r[k];
          assert ts[m + 1] == r[k];
        }
      }
    }
  }

  /** The sorted children are in ascending order of name. */
  lemma {:induction false} SortByNameSorted(ts: seq<Tree>)
    ensures SortedByName(SortByName(ts))
    decreases |ts|
  {
    if ts != [] {
      SortByNameSorted(ts[1..]);
      InsertByNameSorted(ts[0], SortByName(ts[1..]));
    }
  }

  lemma {:induction false} NamedAppend(a: seq<Tree>, b: seq<Tree>, n: string)
    ensures Named(a + b, n) == Named(a, n) + Named(b, n)
    decreases |a|
  {
    if a != [] {
      var head := if a[0].name == n then [a[0]] else [];
      assert (a + b)[0] == a[0] && (a + b)[1..] == a[1..] + b;
      assert Named(a + b, n) == head + Named(a[1..] + b, n);
      NamedAppend(a[1..], b, n);
      assert head + (Named(a[1..], n) + Named(b, n)) == head + Named(a[1..], n) + Named(b, n);
    } else {
      assert a + b == b;
    }
  }

  /** Two pieces commute in front of a third when one of them is empty. */
  lemma SwapEmpty<T>(a: seq<T>, x: seq<T>, rest: seq<T>)
    requires a == [] || x == []
    ensures a + (x + rest) == x + (a + rest)
  {
    if a == [] {
      assert a + (x + rest) == x + rest;
    } else {
      assert x + (a + rest) == a + rest;
    }
  }

  /** A tree placed after another of a different name can be moved in front of it without changing any name's trees. */
  lemma NamedSwap(x: Tree, y: Tree, ts: seq<Tree>, n: string)
    requires x.name != y.name
    ensures Named([y] + ([x] + ts), n) == Named([x] + ([y] + ts), n)
  {
    NamedAppend([y], [x] + ts, n);
    NamedAppend([x], ts, n);
    NamedAppend([x], [y] + ts, n);
    NamedAppend([y], ts, n);
    SwapEmpty(Named([y], n), Named([x], n), Named(ts, n));
  }

  lemma {:induction false} InsertByNameStable(x: Tree, ts: seq<Tree>, n: string)
    ensures Named(InsertByName(x, ts), n) == Named([x] + ts, n)
    decreases |ts|
  {
    if ts != [] && !StrLe(x.name, ts[0].name) {
      var rest := InsertByName(x, ts[1..]);
      assert InsertByName(x, ts) == [ts[0]] + rest;
      calc {
        Named([ts[0]] + rest, n);
        { NamedAppend([ts[0]], rest, n); InsertByNameStable(x, ts[1..], n); NamedAppend([ts[0]], [x] + ts[1..], n); }
        Named([ts[0]] + ([x] + ts[1..]), n);
        { StrLeReflexive(x.name); NamedSwap(x, ts[0], ts[1..], n); }
        Named([x] + ([ts[0]] + ts[1..]), n);
        { assert [ts[0]] + ts[1..] == ts; }
        Named([x] + ts, n);
      }
    }
  }

  /** The sort is stable: the children with any one name keep their relative order. */
  lemma {:induction false} SortByNameStable(ts: seq<Tree>, n: string)
    ensures Named(SortByName(ts), n) == Named(ts, n)
    decreases |ts|
  {
    if ts != [] {
      var rest := SortByName(ts[1..]);
      calc {
        Named(SortByName(ts), n);
        Named(InsertByName(ts[0], rest), n);
        { InsertByNameStable(ts[0], rest, n); }
        Named([ts[0]] + rest, n);
        { NamedAppend([ts[0]], rest, n); }
        Named([ts[0]], n) + Named(rest, n);
        { SortByNameStable(ts[1..], n); }
        Named([ts[0]], n) + Named(ts[1..], n);
        { NamedAppend([ts[0]], ts[1..], n); assert [ts[0]] + ts[1..] == ts; }
        Named(ts, n);
      }
    }
  }

  lemma {:induction false} NamedHasAll(ts: seq<Tree>, k: nat)
    requires k < |ts|
    ensures ts[k] in Named(ts, ts[k].name)
    decreases k
  {
    if k > 0 {
      NamedHasAll(ts[1..], k - 1);
    }
  }

  lemma {:induction false} NamedOnlyFrom(ts: seq<Tree>, n: string, x: Tree)
    requires x in Named(ts, n)
    ensures x in ts && x.name == n
    decreases |ts|
  {
    if ts[0].name != n || x != ts[0] {
      NamedOnlyFrom(ts[1..], n, x);
    }
  }

  /** Two name-sorted sequences that agree on the names of their first trees start alike. */
  lemma {:induction false} HeadsAgree(a: seq<Tree>, b: seq<Tree>)
    requires a != [] && b != [] && SortedByName(a) && SortedByName(b)
    requires Named(a, a[0].name) == Named(b, a[0].name)
    requires Named(a, b[0].name) == Named(b, b[0].name)
    ensures a[0] == b[0]
  {
    // a[0] appears in b, so b[0]'s name is at most a[0]'s, and vice versa.
    NamedHasAll(a, 0);
    NamedOnlyFrom(b, a[0].name, a[0]);
    NamedHasAll(b, 0);
    NamedOnlyFrom(a, b[0].name, b[0]);
    var i :| 0 <= i < |b| && b[i] == a[0];
    var j :| 0 <= j < |a| && a[j] == b[0];
    StrLeReflexive(a[0].name);
    StrLeReflexive(b[0].name);
    assert StrLe(b[0].name, a[0].name);
    assert StrLe(a[0].name, b[0].name);
    StrLeAntisymmetric(a[0].name, b[0].name);
    assert Named(a, a[0].name)[0] == a[0];
    assert Named(b, a[0].name)[0] == b[0];
  }

  lemma {:induction false} TailsAgree(a: seq<Tree>, b: seq<Tree>, m: string)
    requires a != [] && b != [] && a[0] == b[0]
    requires Named(a, m) == Named(b, m)
    ensures Named(a[1..], m) == Named(b[1..], m)
  {
    var head := if a[0].name == m then [a[0]] else [];
    assert Named(a, m) == head + Named(a[1..], m);
    assert Named(b, m) == head + Named(b[1..], m);
    assert Named(a[1..], m) == Named(a, m)[|head|..];
  }

  /**
   * Two name-sorted sequences that agree on the trees of every name are equal:
   * sorted order plus stability determines the result completely.
   */
  lemma {:induction false} SortedStableDetermined(a: seq<Tree>, b: seq<Tree>)
    requires SortedByName(a) && SortedByName(b)
    requires forall n :: Named(a, n) == Named(b, n)
    ensures a == b
    decreases |a|
  {
    if a == [] {
      if b != [] {
        NamedHasAll(b, 0);
        assert false;
      }
    } else if b == [] {
      NamedHasAll(a, 0);
      assert false;
    } else {
      HeadsAgree(a, b);
      forall m ensures Named(a[1..], m) == Named(b[1..], m) {
        TailsAgree(a, b, m);
      }
      SortedStableDetermined(a[1..], b[1..]);
      assert a == [a[0]] + a[1..] && b == [b[0]] + b[1..];
    }
  }

  /**
   * SortByName is the stable sort by name: it is a sorted permutation that keeps
   * the order among equal names, and it is the only sequence with those properties.
   */
  lemma SortByNameIsStableSort(ts: seq<Tree>, r: seq<Tree>)
    ensures multiset(SortByName(ts)) == multiset(ts)
    ensures SortedByName(SortByName(ts))
    ensures forall n :: Named(SortByName(ts), n) == Named(ts, n)
    ensures SortedByName(r) && (forall n :: Named(r, n) == Named(ts, n)) ==> r == SortByName(ts)
  {
    SortByNamePermutes(ts);
    SortByNameSorted(ts);
    forall n ensures Named(SortByName(ts), n) == Named(ts, n) {
      SortByNameStable(ts, n);
    }
    if SortedByName(r) && (forall n :: Named(r, n) == Named(ts, n)) {
      SortedStableDetermined(r, SortByName(ts));
    }
  }

  lemma {:induction false} InsertByNameSize(x: Tree, ts: seq<Tree>)
    ensures SizeOfAll(InsertByName(x, ts)) == Size(x) + SizeOfAll(ts)
    decreases |ts|
  {
    if ts != [] && !StrLe(x.name, ts[0].name) {
      InsertByNameSize(x, ts[1..]);
      assert ([ts[0]] + InsertByName(x, ts[1..]))[1..] == InsertByName(x, ts[1..]);
    }
  }

  /** Sorting the children does not change how many projects they hold. */
  lemma {:induction false} SortByNameSize(ts: seq<Tree>)
    ensures SizeOfAll(SortByName(ts)) == SizeOfAll(ts)
    decreases |ts|
  {
    if ts != [] {
      SortByNameSize(ts[1..]);
      InsertByNameSize(ts[0], SortByName(ts[1..]));
    }
  }

  lemma {:induction false} InsertByNameIds(x: Tree, ts: seq<Tree>)
    ensures AllIds(InsertByName(x, ts)) == TreeIds(x) + AllIds(ts)
    decreases |ts|
  {
    if ts == [] || StrLe(x.name, ts[0].name) {
      assert ([x] + ts)[1..] == ts;
    } else {
      InsertByNameIds(x, ts[1..]);
      assert ([ts[0]] + InsertByName(x, ts[1..]))[1..] == InsertByName(x, ts[1..]);
    }
  }

  /** Sorting the children keeps the IDs of every project below them. */
  lemma {:induction false} SortByNameIds(ts: seq<Tree>)
    ensures AllIds(SortByName(ts)) == AllIds(ts)
    decreases |ts|
  {
    if ts != [] {
      SortByNameIds(ts[1..]);
      InsertByNameIds(ts[0], SortByName(ts[1..]));
    }
  }
}

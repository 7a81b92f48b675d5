/**
 * What the flattened project list promises: its length, the pre-order block
 * structure, sibling order, back links from every entry to its parent's entry,
 * and the labels every entry carries.
 */
module HierarchyProperties {
  import opened Wrappers
  import opened ProjectTree
  import opened ReportData

  // ---------------------------------------------------------------------
  // Every project below the root is listed exactly as often as the tree holds it.

  lemma {:induction false} DescendantsCount(t: Tree, parent: ParentRef, baseURL: string)
    ensures |Descendants(t, parent, baseURL)| == Size(t) - 1
    decreases t, |t.children| + 1
  {
    var sorted := SortByName(t.children);
    ChildrenBlocksCount(t, sorted, parent, baseURL);
    SortByNameSize(t.children);
  }

  lemma {:induction false} ChildrenBlocksCount(t: Tree, cs: seq<Tree>, parent: ParentRef, baseURL: string)
    requires forall c | c in cs :: c in t.children
    ensures |ChildrenBlocks(t, cs, parent, baseURL)| == SizeOfAll(cs)
    decreases t, |cs|
  {
    if cs != [] {
      var init, last := cs[..|cs| - 1], cs[|cs| - 1];
      assert last in t.children;
      var front, block := ChildrenBlocks(t, init, parent, baseURL), Block(last, parent, baseURL);
      assert ChildrenBlocks(t, cs, parent, baseURL) == front + block;
      calc {
        |front + block|;
        |front| + 1 + |Descendants(last, UniqueId(ChildUniqueID(parent, last)), baseURL)|;
        { ChildrenBlocksCount(t, init, parent, baseURL);
          DescendantsCount(last, UniqueId(ChildUniqueID(parent, last)), baseURL); }
        SizeOfAll(init) + Size(last);
        { SizeOfAllAppend(init, [last]); assert [last][1..] == []; }
        SizeOfAll(init + [last]);
        { assert init + [last] == cs; }
        SizeOfAll(cs);
      }
    }
  }

  /** With child projects included the list has one entry per project of the tree. */
  lemma ProjectListLength(root: Tree, includeChildProjects: bool, baseURL: string)
    ensures |ProjectListFor(root, includeChildProjects, baseURL)| == if includeChildProjects then Size(root) else 1
  {
    DescendantsCount(root, ProjectId(root.id), baseURL);
  }

  // ---------------------------------------------------------------------
  // The entries list exactly the projects of the tree.

  /** The project IDs of a run of entries, counted with multiplicity. */
  function ListedIds(l: seq<ProjectNode>): multiset<int> {
    if l == [] then multiset{} else multiset{l[0].projectID} + ListedIds(l[1..])
  }

  lemma {:induction false} ListedIdsAppend(a: seq<ProjectNode>, b: seq<ProjectNode>)
    ensures ListedIds(a + b) == ListedIds(a) + ListedIds(b)
    decreases |a|
  {
    if a != [] {
      assert (a + b)[0] == a[0] && (a + b)[1..] == a[1..] + b;
      ListedIdsAppend(a[1..], b);
    } else {
      assert a + b == b;
    }
  }

  /** The walk below `t` lists every project below `t`, each as often as the tree holds it, and nothing else. */
  lemma {:induction false} DescendantsIds(t: Tree, parent: ParentRef, baseURL: string)
    ensures ListedIds(Descendants(t, parent, baseURL)) == AllIds(t.children)
    decreases t, |t.children| + 1
  {
    ChildrenBlocksIds(t, SortByName(t.children), parent, baseURL);
    SortByNameIds(t.children);
  }

  lemma {:induction false} ChildrenBlocksIds(t: Tree, cs: seq<Tree>, parent: ParentRef, baseURL: string)
    requires forall c | c in cs :: c in t.children
    ensures ListedIds(ChildrenBlocks(t, cs, parent, baseURL)) == AllIds(cs)
    decreases t, |cs|
  {
    if cs != [] {
      var init, last := cs[..|cs| - 1], cs[|cs| - 1];
      assert last in t.children;
      var front, block := ChildrenBlocks(t, init, parent, baseURL), Block(last, parent, baseURL);
      assert ChildrenBlocks(t, cs, parent, baseURL) == front + block;
      calc {
        ListedIds(front + block);
        { ListedIdsAppend(front, block); }
        ListedIds(front) + ListedIds(block);
        { ChildrenBlocksIds(t, init, parent, baseURL); BlockIds(last, parent, baseURL); }
        AllIds(init) + TreeIds(last);
        { AllIdsSnoc(init, last); }
        AllIds(init + [last]);
        { assert init + [last] == cs; }
        AllIds(cs);
      }
    }
  }

  /** A child's block lists the child and every project below it. */
  lemma {:induction false} BlockIds(c: Tree, parent: ParentRef, baseURL: string)
    ensures ListedIds(Block(c, parent, baseURL)) == TreeIds(c)
    decreases c, |c.children| + 2
  {
    var below := UniqueId(ChildUniqueID(parent, c));
    DescendantsIds(c, below, baseURL);
    ListedIdsCons(ChildNode(c, parent, baseURL), Descendants(c, below, baseURL));
  }

  lemma ListedIdsCons(x: ProjectNode, d: seq<ProjectNode>)
    ensures ListedIds([x] + d) == multiset{x.projectID} + ListedIds(d)
  {
    assert ([x] + d)[1..] == d;
  }

  lemma AllIdsSnoc(a: seq<Tree>, c: Tree)
    ensures AllIds(a + [c]) == AllIds(a) + TreeIds(c)
  {
    AllIdsAppend(a, [c]);
    assert [c][1..] == [];
  }

  /** The project list names the root once and, with child projects included, every project of the tree as often as the tree holds it. */
  lemma ProjectListIds(root: Tree, includeChildProjects: bool, baseURL: string)
    ensures ListedIds(ProjectListFor(root, includeChildProjects, baseURL))
         == if includeChildProjects then TreeIds(root) else multiset{root.id}
  {
    var rest := if includeChildProjects then Descendants(root, ProjectId(root.id), baseURL) else [];
    assert ([RootNode(root, baseURL)] + rest)[1..] == rest;
    DescendantsIds(root, ProjectId(root.id), baseURL);
  }

  /** The root's entry comes first: parent "#", the root's ID and name, no uniqueID. */
  lemma RootEntryFirst(root: Tree, includeChildProjects: bool, baseURL: string)
    ensures var l := ProjectListFor(root, includeChildProjects, baseURL);
      l != [] && l[0].parent == RootMarker && l[0].uniqueID == None
      && l[0].projectID == root.id && l[0].projectName == root.name
      && (!includeChildProjects ==> l == [l[0]])
  {
  }

  // ---------------------------------------------------------------------
  // Pre-order: each child's entry is followed at once by all of its own entries.

  lemma {:induction false} ChildrenBlocksPrefix(t: Tree, cs: seq<Tree>, m: nat, parent: ParentRef, baseURL: string)
    requires m <= |cs|
    requires forall c | c in cs :: c in t.children
    ensures ChildrenBlocks(t, cs[..m], parent, baseURL) <= ChildrenBlocks(t, cs, parent, baseURL)
    decreases |cs| - m
  {
    if m == |cs| {
      assert cs[..m] == cs;
    } else {
      ChildrenBlocksStep(t, cs, m, parent, baseURL);
      ChildrenBlocksPrefix(t, cs, m + 1, parent, baseURL);
    }
  }

  /** Where the pieces of a prefix `a + ([x] + b)` of `d` sit in `d`. */
  lemma SplitPrefix<T>(a: seq<T>, x: T, b: seq<T>, d: seq<T>, offset: nat, size: nat)
    requires a + ([x] + b) <= d
    requires |a| == offset && |b| + 1 == size
    ensures offset + size <= |d| && d[offset] == x && d[offset + 1..offset + size] == b
  {
    assert d[..offset + size] == a + ([x] + b);
  }

  /** The children before the i-th, then the i-th child's block, open the list below `t`. */
  lemma BlocksOpenDescendants(t: Tree, parent: ParentRef, baseURL: string, i: nat)
    requires i < |t.children|
    ensures var sorted := SortByName(t.children);
      ChildrenBlocks(t, sorted[..i], parent, baseURL) + Block(sorted[i], parent, baseURL)
      <= Descendants(t, parent, baseURL)
  {
    var sorted := SortByName(t.children);
    assert sorted[i] in sorted;
    ChildrenBlocksStep(t, sorted, i, parent, baseURL);
    ChildrenBlocksPrefix(t, sorted, i + 1, parent, baseURL);
  }

  /**
   * The i-th child in name order starts at the offset of the projects in the
   * children before it; its entry and all of its descendants' entries follow
   * there without interruption.
   */
  lemma BlockAt(t: Tree, parent: ParentRef, baseURL: string, i: nat)
    requires i < |t.children|
    ensures var sorted := SortByName(t.children);
      var offset := SizeOfAll(sorted[..i]);
      var d := Descendants(t, parent, baseURL);
      offset + Size(sorted[i]) <= |d|
      && d[offset] == ChildNode(sorted[i], parent, baseURL)
      && d[offset + 1..offset + Size(sorted[i])]
         == Descendants(sorted[i], UniqueId(ChildUniqueID(parent, sorted[i])), baseURL)
  {
    var sorted := SortByName(t.children);
    var c := sorted[i];
    var below := Descendants(c, UniqueId(ChildUniqueID(parent, c)), baseURL);
    var before := ChildrenBlocks(t, sorted[..i], parent, baseURL);
    BlocksOpenDescendants(t, parent, baseURL, i);
    assert c in t.children by { assert c in sorted; }
    ChildrenBlocksCount(t, sorted[..i], parent, baseURL);
    DescendantsCount(c, UniqueId(ChildUniqueID(parent, c)), baseURL);
    SplitPrefix(before, ChildNode(c, parent, baseURL), below, Descendants(t, parent, baseURL),
                SizeOfAll(sorted[..i]), Size(c));
  }

  // ---------------------------------------------------------------------
  // Labels: uniqueID and projectLink of every entry.

  /** A child entry's uniqueID is its parent reference, a '-', and its own ID. */
  predicate WellLabelled(e: ProjectNode, baseURL: string) {
    e.uniqueID == Some(ParentText(e.parent) + "-" + IntToString(e.projectID))
    && e.projectLink == ProjectLink(baseURL, e.projectID)
  }

  lemma {:induction false} DescendantsLabelled(t: Tree, parent: ParentRef, baseURL: string)
    ensures forall e | e in Descendants(t, parent, baseURL) :: WellLabelled(e, baseURL)
    decreases t, |t.children| + 1
  {
    ChildrenBlocksLabelled(t, SortByName(t.children), parent, baseURL);
  }

  lemma {:induction false} ChildrenBlocksLabelled(t: Tree, cs: seq<Tree>, parent: ParentRef, baseURL: string)
    requires forall c | c in cs :: c in t.children
    ensures forall e | e in ChildrenBlocks(t, cs, parent, baseURL) :: WellLabelled(e, baseURL)
    decreases t, |cs|
  {
    if cs != [] {
      var init, last := cs[..|cs| - 1], cs[|cs| - 1];
      assert last in t.children;
      ChildrenBlocksLabelled(t, init, parent, baseURL);
      DescendantsLabelled(last, UniqueId(ChildUniqueID(parent, last)), baseURL);
    }
  }

  /** Every entry links to its own project; every entry but the root's carries a uniqueID built from its parent. */
  lemma ProjectListLabelled(root: Tree, includeChildProjects: bool, baseURL: string)
    ensures var l := ProjectListFor(root, includeChildProjects, baseURL);
      forall k | 0 <= k < |l| ::
        l[k].projectLink == ProjectLink(baseURL, l[k].projectID)
        && (k > 0 ==> WellLabelled(l[k], baseURL))
  {
    var l := ProjectListFor(root, includeChildProjects, baseURL);
    DescendantsLabelled(root, ProjectId(root.id), baseURL);
    forall k | 0 < k < |l| ensures WellLabelled(l[k], baseURL) {
      assert l[k] in l[1..];
    }
  }

  // ---------------------------------------------------------------------
  // Back links: the entry a child's "parent" names comes before the child.

  /** The entry at `k` names, by uniqueID, a parent whose entry comes earlier. */
  predicate OwnerBefore(s: seq<ProjectNode>, k: nat)
    requires k < |s|
  {
    s[k].parent.UniqueId? && exists j | 0 <= j < k :: s[j].uniqueID == Some(s[k].parent.path)
  }

  /** Every entry either hangs off `p` directly or off an entry listed before it. */
  predicate LinkedBack(s: seq<ProjectNode>, p: ParentRef) {
    forall k | 0 <= k < |s| :: s[k].parent == p || OwnerBefore(s, k)
  }

  lemma LinkedBackAppend(a: seq<ProjectNode>, b: seq<ProjectNode>, p: ParentRef)
    requires LinkedBack(a, p) && LinkedBack(b, p)
    ensures LinkedBack(a + b, p)
  {
    var s := a + b;
    forall k | 0 <= k < |s| ensures s[k].parent == p || OwnerBefore(s, k) {
      if k < |a| {
        if a[k].parent != p {
          var j :| 0 <= j < k && a[j].uniqueID == Some(a[k].parent.path);
          assert s[j] == a[j];
        }
      } else if b[k - |a|].parent != p {
        var j :| 0 <= j < k - |a| && b[j].uniqueID == Some(b[k - |a|].parent.path);
        assert s[j + |a|] == b[j];
      }
    }
  }

  lemma BlockLinked(c: Tree, parent: ParentRef, baseURL: string)
    requires var u := ChildUniqueID(parent, c);
      LinkedBack(Descendants(c, UniqueId(u), baseURL), UniqueId(u))
    ensures LinkedBack(Block(c, parent, baseURL), parent)
  {
    var u := ChildUniqueID(parent, c);
    var below := Descendants(c, UniqueId(u), baseURL);
    var s := Block(c, parent, baseURL);
    forall k | 0 < k < |s| ensures OwnerBefore(s, k) {
      if below[k - 1].parent == UniqueId(u) {
        assert s[0].uniqueID == Some(u);
      } else {
        var j :| 0 <= j < k - 1 && below[j].uniqueID == Some(below[k - 1].parent.path);
        assert s[j + 1] == below[j];
      }
    }
  }

  lemma {:induction false} DescendantsLinked(t: Tree, parent: ParentRef, baseURL: string)
    ensures LinkedBack(Descendants(t, parent, baseURL), parent)
    decreases t, |t.children| + 1
  {
    ChildrenBlocksLinked(t, SortByName(t.children), parent, baseURL);
  }

  lemma {:induction false} ChildrenBlocksLinked(t: Tree, cs: seq<Tree>, parent: ParentRef, baseURL: string)
    requires forall c | c in cs :: c in t.children
    ensures LinkedBack(ChildrenBlocks(t, cs, parent, baseURL), parent)
    decreases t, |cs|
  {
    if cs != [] {
      var init, last := cs[..|cs| - 1], cs[|cs| - 1];
      assert last in t.children;
      ChildrenBlocksLinked(t, init, parent, baseURL);
      DescendantsLinked(last, UniqueId(ChildUniqueID(parent, last)), baseURL);
      BlockLinked(last, parent, baseURL);
      LinkedBackAppend(ChildrenBlocks(t, init, parent, baseURL), Block(last, parent, baseURL), parent);
    }
  }

  /** Putting one entry in front keeps every later entry's link to its parent's entry. */
  lemma LinkedBehindFirst(first: ProjectNode, d: seq<ProjectNode>, p: ParentRef)
    requires LinkedBack(d, p)
    ensures var l := [first] + d;
      forall k | 1 <= k < |l| :: l[k].parent == p || OwnerBefore(l, k)
  {
    var l := [first] + d;
    forall k | 1 <= k < |l| ensures l[k].parent == p || OwnerBefore(l, k) {
      assert l[k] == d[k - 1];
      if d[k - 1].parent != p {
        var j :| 0 <= j < k - 1 && d[j].uniqueID == Some(d[k - 1].parent.path);
        assert l[j + 1] == d[j];
      }
    }
  }

  /**
   * In the whole list every entry after the root's names as parent either the
   * root's ID or the uniqueID of an entry listed before it.
   */
  lemma ParentsComeFirst(root: Tree, includeChildProjects: bool, baseURL: string)
    ensures var l := ProjectListFor(root, includeChildProjects, baseURL);
      forall k | 1 <= k < |l| :: l[k].parent == ProjectId(l[0].projectID) || OwnerBefore(l, k)
  {
    if includeChildProjects {
      DescendantsLinked(root, ProjectId(root.id), baseURL);
      LinkedBehindFirst(RootNode(root, baseURL), Descendants(root, ProjectId(root.id), baseURL), ProjectId(root.id));
    }
  }

  // ---------------------------------------------------------------------
  // Siblings: the entries hanging directly off one parent reference.

  /** The entries of `s` whose parent is `p`, in list order. */
  function Siblings(s: seq<ProjectNode>, p: ParentRef): seq<ProjectNode> {
    if s == [] then []
    else (if s[0].parent == p then [s[0]] else []) + Siblings(s[1..], p)
  }

  /** The entries for the children `cs` themselves, without anything below them. */
  function ChildEntries(cs: seq<Tree>, parent: ParentRef, baseURL: string): seq<ProjectNode> {
    if cs == [] then [] else ChildEntries(cs[..|cs| - 1], parent, baseURL) + [ChildNode(cs[|cs| - 1], parent, baseURL)]
  }

  lemma {:induction false} SiblingsAppend(a: seq<ProjectNode>, b: seq<ProjectNode>, p: ParentRef)
    ensures Siblings(a + b, p) == Siblings(a, p) + Siblings(b, p)
    decreases |a|
  {
    if a == [] {
      assert a + b == b;
    } else {
      var head := if a[0].parent == p then [a[0]] else [];
      assert (a + b)[0] == a[0] && (a + b)[1..] == a[1..] + b;
      assert Siblings(a + b, p) == head + Siblings(a[1..] + b, p);
      SiblingsAppend(a[1..], b, p);
      assert head + (Siblings(a[1..], p) + Siblings(b, p)) == head + Siblings(a[1..], p) + Siblings(b, p);
    }
  }

  lemma {:induction false} SiblingsNone(s: seq<ProjectNode>, p: ParentRef)
    requires forall e | e in s :: e.parent != p
    ensures Siblings(s, p) == []
    decreases |s|
  {
    if s != [] {
      SiblingsNone(s[1..], p);
    }
  }

  /** Every entry below `q` hangs off `q` itself or off a longer uniqueID. */
  predicate Deeper(s: seq<ProjectNode>, q: ParentRef) {
    forall e | e in s :: e.parent == q || (e.parent.UniqueId? && |e.parent.path| > |ParentText(q)|)
  }

  lemma {:induction false} DescendantsDeeper(t: Tree, parent: ParentRef, baseURL: string)
    ensures Deeper(Descendants(t, parent, baseURL), parent)
    decreases t, |t.children| + 1
  {
    ChildrenBlocksDeeper(t, SortByName(t.children), parent, baseURL);
  }

  lemma {:induction false} ChildrenBlocksDeeper(t: Tree, cs: seq<Tree>, parent: ParentRef, baseURL: string)
    requires forall c | c in cs :: c in t.children
    ensures Deeper(ChildrenBlocks(t, cs, parent, baseURL), parent)
    decreases t, |cs|
  {
    if cs != [] {
      var init, last := cs[..|cs| - 1], cs[|cs| - 1];
      assert last in t.children;
      ChildrenBlocksDeeper(t, init, parent, baseURL);
      DescendantsDeeper(last, UniqueId(ChildUniqueID(parent, last)), baseURL);
    }
  }

  /** No entry strictly below a child hangs off that child's own parent reference. */
  lemma BelowChildNotSibling(c: Tree, parent: ParentRef, baseURL: string)
    ensures Siblings(Descendants(c, UniqueId(ChildUniqueID(parent, c)), baseURL), parent) == []
  {
    var u := ChildUniqueID(parent, c);
    DescendantsDeeper(c, UniqueId(u), baseURL);
    forall e | e in Descendants(c, UniqueId(u), baseURL) ensures e.parent != parent {
      assert e.parent.UniqueId? && |e.parent.path| >= |u| > |ParentText(parent)|;
    }
    SiblingsNone(Descendants(c, UniqueId(u), baseURL), parent);
  }

  lemma {:induction false} ChildrenBlocksSiblings(t: Tree, cs: seq<Tree>, parent: ParentRef, baseURL: string)
    requires forall c | c in cs :: c in t.children
    ensures Siblings(ChildrenBlocks(t, cs, parent, baseURL), parent) == ChildEntries(cs, parent, baseURL)
    decreases |cs|
  {
    if cs != [] {
      var init, last := cs[..|cs| - 1], cs[|cs| - 1];
      assert last in t.children;
      ChildrenBlocksSiblings(t, init, parent, baseURL);
      var below := Descendants(last, UniqueId(ChildUniqueID(parent, last)), baseURL);
      SiblingsAppend(ChildrenBlocks(t, init, parent, baseURL), Block(last, parent, baseURL), parent);
      SiblingsAppend([ChildNode(last, parent, baseURL)], below, parent);
      BelowChildNotSibling(last, parent, baseURL);
    }
  }

  lemma {:induction false} ChildEntriesAt(cs: seq<Tree>, parent: ParentRef, baseURL: string, i: nat)
    requires i < |cs|
    ensures |ChildEntries(cs, parent, baseURL)| == |cs|
    ensures ChildEntries(cs, parent, baseURL)[i] == ChildNode(cs[i], parent, baseURL)
    decreases |cs|
  {
    if i < |cs| - 1 {
      ChildEntriesAt(cs[..|cs| - 1], parent, baseURL, i);
    } else if |cs| > 1 {
      ChildEntriesAt(cs[..|cs| - 1], parent, baseURL, 0);
    }
  }

  /**
   * The entries hanging directly off a project are exactly its children, in
   * the order of the stable sort by name, so their names ascend.
   */
  lemma SiblingsInNameOrder(t: Tree, parent: ParentRef, baseURL: string)
    ensures var sorted := SortByName(t.children);
      var sibs := Siblings(Descendants(t, parent, baseURL), parent);
      |sibs| == |t.children|
      && (forall i | 0 <= i < |sibs| :: sibs[i] == ChildNode(sorted[i], parent, baseURL))
      && (forall i, j | 0 <= i < j < |sibs| :: StrLe(sibs[i].projectName, sibs[j].projectName))
  {
    var sorted := SortByName(t.children);
    var sibs := Siblings(Descendants(t, parent, baseURL), parent);
    ChildrenBlocksSiblings(t, sorted, parent, baseURL);
    SortByNameSorted(t.children);
    if sorted != [] {
      ChildEntriesAt(sorted, parent, baseURL, 0);
    }
    forall i | 0 <= i < |sibs| ensures sibs[i] == ChildNode(sorted[i], parent, baseURL) {
      ChildEntriesAt(sorted, parent, baseURL, i);
    }
  }
}

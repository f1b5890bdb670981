/** The menu tree builder: groupFor, the placing loop and sortTree, updating the lists in place. */
module MenuTree {
  import opened Basics
  import opened MenuDirectory
  import opened MenuForest
  import opened StableSort

  ghost predicate SortedUnder(f: Forest, le: (Ref, Ref) -> bool, owner: Owner) {
    && SortedBy(ListOf(f, owner), le)
    && forall key <- f.groupNodes :: Under(f.d, owner, Some(key)) ==> SortedBy(f.groupNodes[key], le)
  }

  /** Only lists in the subtree of `owner` differ; members stay, and so does the order of ties. */
  ghost predicate Rearranged(f: Forest, g: Forest, le: (Ref, Ref) -> bool, owner: Owner) {
    && g.d == f.d && g.groupNodes.Keys == f.groupNodes.Keys
    && (forall o: Owner :: Reordered(ListOf(f, o), ListOf(g, o), le))
    && (owner.Some? ==> g.tree == f.tree)
    && (forall key <- f.groupNodes :: !Under(f.d, owner, Some(key)) ==> g.groupNodes[key] == f.groupNodes[key])
  }

  /** Every list in the subtree of `owner` is the stable sort of what it was; no other changed. */
  ghost predicate SortedFrom(f: Forest, g: Forest, le: (Ref, Ref) -> bool, owner: Owner) {
    && g.d == f.d && g.groupNodes.Keys == f.groupNodes.Keys
    && ListOf(g, owner) == SortBy(ListOf(f, owner), le)
    && (owner.Some? ==> g.tree == f.tree)
    && (forall key <- f.groupNodes :: Some(key) != owner ==>
          g.groupNodes[key] ==
          if Under(f.d, owner, Some(key)) then SortBy(f.groupNodes[key], le) else f.groupNodes[key])
  }

  class MenuTree {
    const d: Directory
    const le: (Ref, Ref) -> bool
    var tree: seq<Ref>
    var groupNodes: map<string, seq<Ref>>
    var homes: seq<Owner>

    ghost function View(): Forest
      reads this
    {
      Forest(d, tree, groupNodes)
    }

    ghost predicate Valid()
      reads this
    {
      TotalPreorder(le) && Placed(View(), homes, {})
    }

    constructor (d: Directory, le: (Ref, Ref) -> bool)
      requires TotalPreorder(le)
      ensures Valid() && homes == [] && this.d == d && this.le == le
    {
      this.d, this.le := d, le;
      tree, groupNodes, homes := [], map[], [];
    }

    /** Creates the node of a group below those of its ancestors, unless it exists. */
    method GroupFor(key: string, ghost pending: set<string>)
      requires Placed(View(), homes, pending)
      requires Good(d, key) && key !in pending && forall p <- pending :: p !in ChainOf(d, key)
      modifies this`tree, this`groupNodes
      ensures Placed(View(), homes, pending)
      ensures key in groupNodes && old(groupNodes.Keys) <= groupNodes.Keys
      decreases |ChainOf(d, key)|
    {
      hide ChainOf, Placed;
      if key in groupNodes {
        return;
      }
      AddGroupKeepsPlaced(View(), homes, pending, key);
      ParentIsGood(d, key);
      groupNodes := groupNodes[key := []];
      var up := Named(d.rows[key].parentKey);
      if up.Some? && up.value in d.rows {
        NotItsOwnAncestor(d, key);
        GroupFor(up.value, pending + {key});
        AppendGroupKeepsPlaced(View(), homes, pending, key);
        groupNodes := groupNodes[up.value := groupNodes[up.value] + [Group(key)]];
      } else {
        AppendGroupKeepsPlaced(View(), homes, pending, key);
        tree := tree + [Group(key)];
      }
    }

    /** Places the next item: below its group when the directory has it, else at the root. */
    method PlaceItem(groupKey: Option<string>) returns (home: Owner)
      requires Valid()
      requires Named(groupKey).Some? && groupKey.value in d.rows ==> Good(d, groupKey.value)
      modifies this
      ensures Valid() && homes == old(homes) + [home]
      ensures home == if Named(groupKey).Some? && groupKey.value in d.rows then groupKey else None
    {
      hide ChainOf, Placed;
      if Named(groupKey).Some? && groupKey.value in d.rows {
        home := groupKey;
        GroupFor(groupKey.value, {});
        AppendLeafKeepsPlaced(View(), homes, home);
        groupNodes := groupNodes[groupKey.value := groupNodes[groupKey.value] + [Leaf(|homes|)]];
      } else {
        home := None;
        AppendLeafKeepsPlaced(View(), homes, home);
        tree := tree + [Leaf(|homes|)];
      }
      homes := homes + [home];
    }

    /** sortTree: sorts one list in place, then those of the groups in it. */
    method SortTree(owner: Owner)
      requires Valid() && IsOwner(View(), owner) && Depth(d, owner) <= |d.rows|
      modifies this`tree, this`groupNodes
      ensures Valid() && Rearranged(old(View()), View(), le, owner)
      ensures SortedUnder(View(), le, owner) && SortedFrom(old(View()), View(), le, owner)
      decreases |d.rows| - Depth(d, owner), 1
    {
      hide Placed, Under, Depth, SortedBy, TotalPreorder, Rearranged, ChildrenSorted, Reordered, SortedUnder;
      hide SortedFrom;
      ghost var before := View();
      var refs := SortBy(ListHere(owner), le);
      SortByIsSorted(ListHere(owner), le);
      if owner.None? {
        tree := refs;
      } else {
        groupNodes := groupNodes[owner.value := refs];
      }
      OneListRearranged(before, View(), homes, owner, refs, le);
      ghost var own := View();
      SortChildren(owner, refs);
      RearrangedAgain(before, own, View(), le, owner);
      OwnerStays(before, View(), le, owner);
      AllSorted(View(), le, homes, owner);
      SortedIsSortedFrom(before, View(), le, owner);
    }

    method SortChildren(owner: Owner, refs: seq<Ref>)
      requires Valid() && IsOwner(View(), owner) && Depth(d, owner) <= |d.rows|
      requires ListOf(View(), owner) == refs && ChildrenSorted(View(), le, [])
      modifies this`tree, this`groupNodes
      ensures Valid() && Rearranged(old(View()), View(), le, owner)
      ensures ListOf(View(), owner) == refs && ChildrenSorted(View(), le, refs)
      decreases |d.rows| - Depth(d, owner), 0
    {
      hide Placed, Under, Depth, SortedBy, TotalPreorder, Expected, Rearranged, SortedUnder, ChildrenSorted, ListOf;
      hide Reordered, SortedFrom;
      ghost var before := View();
      SameIsRearranged(before, le, owner);
      ListBelongs(before, homes, owner);
      var i := 0;
      while i < |refs|
        invariant 0 <= i <= |refs|
        invariant Valid() && Rearranged(before, View(), le, owner) && ListOf(View(), owner) == refs
        invariant ChildrenSorted(View(), le, refs[..i])
      {
        if refs[i].Group? {
          ghost var now := View();
          ListBelongs(now, homes, owner);
          assert refs[i] in refs;
          ChildIsDeeper(now, homes, owner, refs[i].key);
          SortTree(Some(refs[i].key));
          RearrangedTwice(before, now, View(), le, homes, owner, refs[i].key);
          OneMoreSorted(now, View(), le, refs[..i], refs[i]);
        } else {
          LeafNeedsNoSorting(View(), le, refs[..i], refs[i]);
        }
        assert refs[..i + 1] == refs[..i] + [refs[i]];
        i := i + 1;
      }
      assert refs[..i] == refs;
    }

    function ListHere(owner: Owner): seq<Ref>
      reads this
      requires IsOwner(View(), owner)
    {
      if owner.None? then tree else groupNodes[owner.value]
    }
  }

  lemma OneListRearranged(f: Forest, g: Forest, homes: seq<Owner>, owner: Owner, refs: seq<Ref>,
      le: (Ref, Ref) -> bool)
    requires Placed(f, homes, {}) && IsOwner(f, owner) && Reordered(ListOf(f, owner), refs, le)
    requires g == if owner.None? then f.(tree := refs) else f.(groupNodes := f.groupNodes[owner.value := refs])
    ensures Rearranged(f, g, le, owner) && Placed(g, homes, {}) && ListOf(g, owner) == refs
    ensures ChildrenSorted(g, le, [])
  {
    if owner.Some? {
      GoodLeadsUp(f.d, owner.value);
    }
    StillPlaced(f, g, le, homes, owner);
  }

  lemma SameIsRearranged(f: Forest, le: (Ref, Ref) -> bool, owner: Owner)
    ensures Rearranged(f, f, le, owner)
  {
  }

  lemma RearrangedAgain(f: Forest, g: Forest, h: Forest, le: (Ref, Ref) -> bool, owner: Owner)
    requires Rearranged(f, g, le, owner) && Rearranged(g, h, le, owner)
    ensures Rearranged(f, h, le, owner)
  {
    hide Ties, ListOf;
  }

  lemma OwnerStays(f: Forest, g: Forest, le: (Ref, Ref) -> bool, owner: Owner)
    requires Rearranged(f, g, le, owner) && IsOwner(f, owner)
    ensures IsOwner(g, owner)
  {
    hide Reordered;
  }

  lemma SortedIsSortedFrom(f: Forest, g: Forest, le: (Ref, Ref) -> bool, owner: Owner)
    requires TotalPreorder(le) && Rearranged(f, g, le, owner) && SortedUnder(g, le, owner) && IsOwner(f, owner)
    ensures SortedFrom(f, g, le, owner)
  {
    hide Under, SortedBy, TotalPreorder, Reordered, SortBy;
    SortedIsSortBy(ListOf(f, owner), ListOf(g, owner), le);
    forall key <- f.groupNodes | Under(f.d, owner, Some(key))
      ensures g.groupNodes[key] == SortBy(f.groupNodes[key], le)
    {
      assert Reordered(ListOf(f, Some(key)), ListOf(g, Some(key)), le);
      SortedIsSortBy(f.groupNodes[key], g.groupNodes[key], le);
    }
  }

  lemma SortedIsSortBy(s: seq<Ref>, r: seq<Ref>, le: (Ref, Ref) -> bool)
    requires TotalPreorder(le) && Reordered(s, r, le) && SortedBy(r, le)
    ensures r == SortBy(s, le)
  {
    hide TotalPreorder, SortedBy, SortBy;
    SortByIsSorted(s, le);
    StableSortIsUnique(SortBy(s, le), r, le);
  }

  /** Rearranging lists keeps every reference where it belongs. */
  lemma StillPlaced(f: Forest, g: Forest, le: (Ref, Ref) -> bool, homes: seq<Owner>, owner: Owner)
    requires Placed(f, homes, {}) && Rearranged(f, g, le, owner)
    ensures Placed(g, homes, {})
  {
    forall o, r ensures Occurs(g, o, r) == Expected(g, homes, {}, o, r) {
      assert Occurs(f, o, r) == Expected(f, homes, {}, o, r);
      assert Reordered(ListOf(f, o), ListOf(g, o), le);
    }
  }

  /** The subtrees of the groups among `refs` are sorted. */
  ghost predicate ChildrenSorted(f: Forest, le: (Ref, Ref) -> bool, refs: seq<Ref>) {
    forall key <- f.groupNodes :: UnderOneOf(f.d, refs, key) ==> SortedBy(f.groupNodes[key], le)
  }

  predicate UnderOneOf(d: Directory, refs: seq<Ref>, key: string) {
    exists r <- refs :: r.Group? && Under(d, Some(r.key), Some(key))
  }

  lemma OneMoreSorted(f: Forest, g: Forest, le: (Ref, Ref) -> bool, refs: seq<Ref>, r: Ref)
    requires ChildrenSorted(f, le, refs) && r.Group?
    requires Rearranged(f, g, le, Some(r.key)) && SortedUnder(g, le, Some(r.key))
    ensures ChildrenSorted(g, le, refs + [r])
  {
    hide SortedBy, Under;
    forall key <- g.groupNodes | UnderOneOf(g.d, refs + [r], key) ensures SortedBy(g.groupNodes[key], le) {
      if !Under(g.d, Some(r.key), Some(key)) {
        assert UnderOneOf(f.d, refs, key);
      }
    }
  }

  lemma LeafNeedsNoSorting(f: Forest, le: (Ref, Ref) -> bool, refs: seq<Ref>, r: Ref)
    requires ChildrenSorted(f, le, refs) && r.Leaf?
    ensures ChildrenSorted(f, le, refs + [r])
  {
    hide SortedBy, Under;
    forall key <- f.groupNodes | UnderOneOf(f.d, refs + [r], key) ensures UnderOneOf(f.d, refs, key) {
    }
  }

  lemma AllSorted(f: Forest, le: (Ref, Ref) -> bool, homes: seq<Owner>, owner: Owner)
    requires Placed(f, homes, {}) && IsOwner(f, owner)
    requires SortedBy(ListOf(f, owner), le) && ChildrenSorted(f, le, ListOf(f, owner))
    ensures SortedUnder(f, le, owner)
  {
    hide SortedBy, Placed, Under;
    EveryListIsUnderAChild(f, homes, owner);
  }

  /** A child's subtree lies in its parent's and does not contain the parent. */
  lemma RearrangedTwice(f: Forest, g: Forest, h: Forest, le: (Ref, Ref) -> bool, homes: seq<Owner>, owner: Owner,
      child: string)
    requires Rearranged(f, g, le, owner) && Rearranged(g, h, le, Some(child))
    requires Placed(g, homes, {}) && Expected(g, homes, {}, owner, Group(child)) == 1
    ensures Rearranged(f, h, le, owner) && ListOf(h, owner) == ListOf(g, owner)
  {
    hide Ties;
    ChildIsDeeper(g, homes, owner, child);
    forall key <- f.groupNodes | !Under(f.d, owner, Some(key)) ensures !Under(f.d, Some(child), Some(key)) {
      OneWayDown(f.d, key, owner, child);
    }
    if owner.Some? {
      MemberIsShorter(f.d, owner.value, child);
    }
  }

  /** Every group below `owner` is below one of the groups in its list. */
  lemma EveryListIsUnderAChild(f: Forest, homes: seq<Owner>, owner: Owner)
    requires Placed(f, homes, {})
    ensures forall key <- f.groupNodes | Under(f.d, owner, Some(key)) && owner != Some(key) ::
      exists r <- ListOf(f, owner) :: r.Group? && Under(f.d, Some(r.key), Some(key))
  {
    forall key <- f.groupNodes | Under(f.d, owner, Some(key)) && owner != Some(key)
      ensures exists r <- ListOf(f, owner) :: r.Group? && Under(f.d, Some(r.key), Some(key))
    {
      TowardHasNode(f, homes, key, owner);
      var child := Toward(f.d, key, owner);
      OneWayDown(f.d, key, owner, child);
      assert Occurs(f, owner, Group(child)) == Expected(f, homes, {}, owner, Group(child));
      assert Group(child) in ListOf(f, owner);
    }
  }

  lemma NotItsOwnAncestor(d: Directory, key: string)
    requires Good(d, key)
    ensures key in d.rows
    ensures var up := Up(d, key);
      up.Some? ==>
        && key !in ChainOf(d, up.value) && up.value in ChainOf(d, key)
        && (forall p :: p in ChainOf(d, up.value) ==> p in ChainOf(d, key))
        && |ChainOf(d, up.value)| < |ChainOf(d, key)|
  {
    ParentIsGood(d, key);
    var up := Up(d, key);
    if up.Some? {
      ParentIsGood(d, up.value);
      MemberIsShorter(d, up.value, key);
    }
  }
}

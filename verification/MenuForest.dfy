/**
 * The menu forest as the builder leaves it in memory: one mutable child list per group node
 * and a list of roots. Leaves are numbered in the order they are placed.
 */
module MenuForest {
  import opened Basics
  import opened MenuDirectory

  datatype Ref = Group(key: string) | Leaf(id: nat)

  /** Where a node's own reference belongs: None is the root list. */
  type Owner = Option<string>

  datatype Directory = Directory(rows: Rows, authoritative: bool)

  datatype Forest = Forest(d: Directory, tree: seq<Ref>, groupNodes: map<string, seq<Ref>>)

  /** A group with its ancestors, nearest first; empty when they do not end. */
  function ChainOf(d: Directory, key: string): seq<string> {
    var chain := Walk(d.rows, d.authoritative, false, Some(key), {});
    if chain.Some? then chain.value else []
  }

  /** A directory group whose ancestors end. */
  predicate Good(d: Directory, key: string) {
    ChainOf(d, key) != []
  }

  function Up(d: Directory, key: string): Owner
    requires key in d.rows
  {
    var parent := Named(d.rows[key].parentKey);
    if parent.Some? && parent.value in d.rows then parent else None
  }

  lemma GoodLeadsUp(d: Directory, key: string)
    requires Good(d, key)
    ensures key in d.rows && ChainOf(d, key)[0] == key
    ensures LeadsUp(d.rows, d.authoritative, false, Some(key), ChainOf(d, key))
  {
    WalkLeadsUp(d.rows, d.authoritative, false, Some(key), {});
  }

  /** The parent of a good group is good, or the group is a root. */
  lemma ParentIsGood(d: Directory, key: string)
    requires Good(d, key)
    ensures key in d.rows
    ensures var up := Up(d, key);
      if up.Some? then Good(d, up.value) && ChainOf(d, key) == [key] + ChainOf(d, up.value)
      else ChainOf(d, key) == [key]
  {
    GoodLeadsUp(d, key);
    var chain := ChainOf(d, key);
    var up := Up(d, key);
    assert chain == [key] + chain[1..];
    if up.Some? {
      SuffixLeadsUp(d.rows, d.authoritative, false, Some(key), chain, 1);
      WalkIsExact(d.rows, d.authoritative, false, up, chain[1..]);
    }
  }

  lemma ChainHas(d: Directory, key: string, i: nat)
    requires Good(d, key) && i < |ChainOf(d, key)|
    ensures Good(d, ChainOf(d, key)[i]) && ChainOf(d, ChainOf(d, key)[i]) == ChainOf(d, key)[i..]
  {
    GoodLeadsUp(d, key);
    var chain := ChainOf(d, key);
    SuffixLeadsUp(d.rows, d.authoritative, false, Some(key), chain, i);
    WalkIsExact(d.rows, d.authoritative, false, Some(chain[i]), chain[i..]);
  }

  lemma ChainDistinct(d: Directory, key: string, i: nat, j: nat)
    requires Good(d, key) && i < j < |ChainOf(d, key)|
    ensures ChainOf(d, key)[i] != ChainOf(d, key)[j]
  {
    GoodLeadsUp(d, key);
    MenuDirectory.ChainIsDistinct(d.rows, d.authoritative, false, Some(key), ChainOf(d, key), i, j);
  }

  function ListOf(f: Forest, owner: Owner): seq<Ref> {
    if owner.None? then f.tree
    else if owner.value in f.groupNodes then f.groupNodes[owner.value]
    else []
  }

  predicate IsOwner(f: Forest, owner: Owner) {
    owner.None? || owner.value in f.groupNodes
  }

  /** How often `r` stands in the list of `owner`. */
  function Occurs(f: Forest, owner: Owner, r: Ref): nat {
    multiset(ListOf(f, owner))[r]
  }

  /** How often `r` must stand there; groups in `pending` are not placed yet. */
  function Expected(f: Forest, homes: seq<Owner>, pending: set<string>, owner: Owner, r: Ref): nat {
    match r
    case Group(key) =>
      if key in f.groupNodes && key !in pending && key in f.d.rows && Up(f.d, key) == owner then 1 else 0
    case Leaf(id) => if id < |homes| && homes[id] == owner then 1 else 0
  }

  /** Group nodes are good groups whose parents have nodes too, and leaves are at home in nodes. */
  ghost predicate Rooted(f: Forest, homes: seq<Owner>, pending: set<string>) {
    && (forall key <- f.groupNodes :: Good(f.d, key) && key in f.d.rows)
    && (forall key <- f.groupNodes | key !in pending && key in f.d.rows :: IsOwner(f, Up(f.d, key)))
    && (forall id | 0 <= id < |homes| :: IsOwner(f, homes[id]))
  }

  /**
   * Every group node stands once in its parent's list and every leaf once in its home's list,
   * and nothing stands anywhere else.
   */
  ghost predicate Placed(f: Forest, homes: seq<Owner>, pending: set<string>) {
    && Rooted(f, homes, pending)
    && forall owner, r :: Occurs(f, owner, r) == Expected(f, homes, pending, owner, r)
  }

  // ---- groupFor and the placing loop ----

  function AddGroup(f: Forest, key: string): Forest {
    f.(groupNodes := f.groupNodes[key := []])
  }

  function Append(f: Forest, owner: Owner, r: Ref): Forest
    requires IsOwner(f, owner)
  {
    if owner.None? then f.(tree := f.tree + [r])
    else f.(groupNodes := f.groupNodes[owner.value := f.groupNodes[owner.value] + [r]])
  }

  lemma AddGroupKeepsPlaced(f: Forest, homes: seq<Owner>, pending: set<string>, key: string)
    requires Placed(f, homes, pending) && Good(f.d, key) && key !in f.groupNodes
    ensures Placed(AddGroup(f, key), homes, pending + {key})
  {
    hide Good, ChainOf;
    var g := AddGroup(f, key);
    GoodLeadsUp(f.d, key);
    forall owner, r ensures Occurs(g, owner, r) == Expected(g, homes, pending + {key}, owner, r) {
      assert Occurs(f, owner, r) == Expected(f, homes, pending, owner, r);
      assert ListOf(g, owner) == ListOf(f, owner);
    }
  }

  lemma AppendCounts(f: Forest, owner: Owner, r: Ref, o: Owner, s: Ref)
    requires IsOwner(f, owner)
    ensures Occurs(Append(f, owner, r), o, s) == Occurs(f, o, s) + (if o == owner && s == r then 1 else 0)
  {
  }

  lemma AppendGroupKeepsPlaced(f: Forest, homes: seq<Owner>, pending: set<string>, key: string)
    requires Placed(f, homes, pending + {key}) && key !in pending && key in f.groupNodes && key in f.d.rows
    requires IsOwner(f, Up(f.d, key))
    ensures Placed(Append(f, Up(f.d, key), Group(key)), homes, pending)
  {
    hide Good, ChainOf, Up, Occurs;
    var up := Up(f.d, key);
    var g := Append(f, up, Group(key));
    forall owner, r ensures Occurs(g, owner, r) == Expected(g, homes, pending, owner, r) {
      assert Occurs(f, owner, r) == Expected(f, homes, pending + {key}, owner, r);
      AppendCounts(f, up, Group(key), owner, r);
    }
  }

  lemma AppendLeafKeepsPlaced(f: Forest, homes: seq<Owner>, owner: Owner)
    requires Placed(f, homes, {}) && IsOwner(f, owner)
    ensures Placed(Append(f, owner, Leaf(|homes|)), homes + [owner], {})
  {
    hide Good, ChainOf, Up, Occurs;
    var g := Append(f, owner, Leaf(|homes|));
    forall o, r ensures Occurs(g, o, r) == Expected(g, homes + [owner], {}, o, r) {
      assert Occurs(f, o, r) == Expected(f, homes, {}, o, r);
      AppendCounts(f, owner, Leaf(|homes|), o, r);
    }
  }

  // ---- The forest is finite, and walking it meets every leaf once ----

  lemma {:induction false} DistinctFits(s: seq<string>, keys: set<string>)
    requires forall i :: 0 <= i < |s| ==> s[i] in keys
    requires forall i, j :: 0 <= i < j < |s| ==> s[i] != s[j]
    ensures |s| <= |keys|
  {
    if s != [] {
      forall i | 0 <= i < |s| - 1 ensures s[1..][i] in keys - {s[0]} {
        assert s[i + 1] != s[0];
      }
      DistinctFits(s[1..], keys - {s[0]});
    }
  }

  /** No chain of ancestors is longer than the directory. */
  lemma ChainFits(d: Directory, key: string)
    requires Good(d, key)
    ensures |ChainOf(d, key)| <= |d.rows|
  {
    var chain := ChainOf(d, key);
    forall i | 0 <= i < |chain| ensures chain[i] in d.rows.Keys {
      ChainHas(d, key, i);
      GoodLeadsUp(d, chain[i]);
    }
    forall i, j | 0 <= i < j < |chain| ensures chain[i] != chain[j] {
      ChainDistinct(d, key, i, j);
    }
    DistinctFits(chain, d.rows.Keys);
  }

  function Depth(d: Directory, owner: Owner): nat {
    if owner.None? then 0 else |ChainOf(d, owner.value)|
  }

  /** The references belong to the list of `owner`. */
  ghost predicate Belong(f: Forest, homes: seq<Owner>, owner: Owner, refs: seq<Ref>) {
    forall r <- refs :: Expected(f, homes, {}, owner, r) == 1
  }

  lemma ListBelongs(f: Forest, homes: seq<Owner>, owner: Owner)
    requires Placed(f, homes, {})
    ensures Belong(f, homes, owner, ListOf(f, owner))
  {
    forall r <- ListOf(f, owner) ensures Expected(f, homes, {}, owner, r) == 1 {
      assert Occurs(f, owner, r) > 0;
    }
  }

  /** One level down: the group has a node, and its list lies one deeper. */
  lemma ChildIsDeeper(f: Forest, homes: seq<Owner>, owner: Owner, key: string)
    requires Placed(f, homes, {}) && Expected(f, homes, {}, owner, Group(key)) == 1
    ensures key in f.groupNodes && key in f.d.rows && Good(f.d, key) && Up(f.d, key) == owner
    ensures Depth(f.d, Some(key)) == Depth(f.d, owner) + 1 <= |f.d.rows|
    ensures Belong(f, homes, Some(key), f.groupNodes[key])
  {
    ParentIsGood(f.d, key);
    ChainFits(f.d, key);
    ListBelongs(f, homes, Some(key));
  }

  /** The leaves met by walking the references depth first. That this terminates is the point. */
  ghost function Leaves(f: Forest, homes: seq<Owner>, owner: Owner, refs: seq<Ref>): seq<nat>
    requires Placed(f, homes, {}) && Belong(f, homes, owner, refs) && Depth(f.d, owner) <= |f.d.rows|
    decreases |f.d.rows| - Depth(f.d, owner), |refs|
  {
    if refs == [] then []
    else if refs[0].Leaf? then [refs[0].id] + Leaves(f, homes, owner, refs[1..])
    else
      ChildIsDeeper(f, homes, owner, refs[0].key);
      Leaves(f, homes, Some(refs[0].key), f.groupNodes[refs[0].key]) + Leaves(f, homes, owner, refs[1..])
  }

  /** The home lies in the subtree of `owner`. */
  predicate Under(d: Directory, owner: Owner, home: Owner) {
    owner.None? || (home.Some? && owner.value in ChainOf(d, home.value))
  }

  /** The child of `owner` on the way down to group `key`. */
  function Toward(d: Directory, key: string, owner: Owner): string
    requires Good(d, key) && Under(d, owner, Some(key)) && owner != Some(key)
    decreases |ChainOf(d, key)|
  {
    ParentIsGood(d, key);
    if Up(d, key) == owner then key else Toward(d, Up(d, key).value, owner)
  }

  lemma {:induction false} OneWayDown(d: Directory, key: string, owner: Owner, child: string)
    requires Good(d, key) && Good(d, child) && child in d.rows && Up(d, child) == owner
    ensures child in ChainOf(d, key) <==>
      Under(d, owner, Some(key)) && owner != Some(key) && Toward(d, key, owner) == child
    decreases |ChainOf(d, key)|
  {
    ParentIsGood(d, key);
    ParentIsGood(d, child);
    var up := Up(d, key);
    if owner == Some(key) {
      assert ChainOf(d, child) == [child] + ChainOf(d, key);
      assert child in ChainOf(d, key) ==> |ChainOf(d, child)| <= |ChainOf(d, key)| by { MemberIsShorter(d, key, child); }
    } else if child != key && up.Some? {
      OneWayDown(d, up.value, owner, child);
      if up == owner {
        assert |ChainOf(d, child)| == |ChainOf(d, key)|;
        MemberIsShorter(d, up.value, child);
      }
    }
  }

  lemma MemberIsShorter(d: Directory, key: string, member: string)
    requires Good(d, key)
    ensures member in ChainOf(d, key) ==> |ChainOf(d, member)| <= |ChainOf(d, key)|
  {
    if member in ChainOf(d, key) {
      var i :| 0 <= i < |ChainOf(d, key)| && ChainOf(d, key)[i] == member;
      ChainHas(d, key, i);
    }
  }

  /** The one reference in the list of `owner` that leads to leaf `id`. */
  ghost function Lead(f: Forest, homes: seq<Owner>, owner: Owner, id: nat): Ref
    requires Rooted(f, homes, {}) && id < |homes| && Under(f.d, owner, homes[id])
  {
    if homes[id] == owner then Leaf(id) else Group(Toward(f.d, homes[id].value, owner))
  }

  lemma LeadIsExpected(f: Forest, homes: seq<Owner>, owner: Owner, id: nat)
    requires Placed(f, homes, {}) && id < |homes| && Under(f.d, owner, homes[id])
    ensures Expected(f, homes, {}, owner, Lead(f, homes, owner, id)) == 1
  {
    if homes[id] != owner {
      TowardHasNode(f, homes, homes[id].value, owner);
    }
  }

  lemma {:induction false} TowardHasNode(f: Forest, homes: seq<Owner>, key: string, owner: Owner)
    requires Rooted(f, homes, {}) && key in f.groupNodes && Under(f.d, owner, Some(key)) && owner != Some(key)
    ensures Good(f.d, key)
    ensures var child := Toward(f.d, key, owner);
      child in f.groupNodes && child in f.d.rows && Up(f.d, child) == owner
    decreases |ChainOf(f.d, key)|
  {
    ParentIsGood(f.d, key);
    if Up(f.d, key) != owner {
      TowardHasNode(f, homes, Up(f.d, key).value, owner);
    }
  }

  lemma {:induction false} LeavesCount(f: Forest, homes: seq<Owner>, owner: Owner, refs: seq<Ref>, id: nat)
    requires Placed(f, homes, {}) && Belong(f, homes, owner, refs) && Depth(f.d, owner) <= |f.d.rows|
    requires id < |homes|
    ensures multiset(Leaves(f, homes, owner, refs))[id] ==
      (if Under(f.d, owner, homes[id]) then multiset(refs)[Lead(f, homes, owner, id)] else 0)
    decreases |f.d.rows| - Depth(f.d, owner), |refs|
  {
    hide Lead, Under, Depth, Placed, Expected, Good, ChainOf, Rooted;
    if refs != [] {
      LeavesCount(f, homes, owner, refs[1..], id);
      assert refs == [refs[0]] + refs[1..];
      FirstCount(f, homes, owner, refs[0], id);
      var all, rest := Leaves(f, homes, owner, refs), Leaves(f, homes, owner, refs[1..]);
      if refs[0].Group? {
        ChildIsDeeper(f, homes, owner, refs[0].key);
        LeavesCount(f, homes, Some(refs[0].key), f.groupNodes[refs[0].key], id);
        assert all == Leaves(f, homes, Some(refs[0].key), f.groupNodes[refs[0].key]) + rest;
      } else {
        assert all == [refs[0].id] + rest;
      }
    }
  }

  /** What one reference contributes: one leaf `id` exactly when it leads there. */
  lemma FirstCount(f: Forest, homes: seq<Owner>, owner: Owner, r: Ref, id: nat)
    requires Placed(f, homes, {}) && Expected(f, homes, {}, owner, r) == 1 && id < |homes|
    ensures r == Leaf(id) ==> Under(f.d, owner, homes[id])
    ensures r.Leaf? && Under(f.d, owner, homes[id]) ==> (r == Leaf(id) <==> r == Lead(f, homes, owner, id))
    ensures r.Group? ==> r.key in f.groupNodes
    ensures r.Group? && Under(f.d, Some(r.key), homes[id]) ==>
      && Under(f.d, owner, homes[id]) && r == Lead(f, homes, owner, id)
      && multiset(f.groupNodes[r.key])[Lead(f, homes, Some(r.key), id)] == 1
    ensures r.Group? && Under(f.d, owner, homes[id]) && r == Lead(f, homes, owner, id) ==>
      Under(f.d, Some(r.key), homes[id])
  {
    if r.Leaf? && r.id == id && owner.Some? {
      GoodLeadsUp(f.d, owner.value);
    }
    if r.Group? {
      ChildIsDeeper(f, homes, owner, r.key);
      if homes[id].Some? {
        OneWayDown(f.d, homes[id].value, owner, r.key);
      }
      if Under(f.d, Some(r.key), homes[id]) {
        LeadIsExpected(f, homes, Some(r.key), id);
        assert Occurs(f, Some(r.key), Lead(f, homes, Some(r.key), id)) == 1;
      }
    }
  }

  /** Conservation: the finished forest holds every placed leaf exactly once. */
  lemma ForestHoldsEveryLeafOnce(f: Forest, homes: seq<Owner>, id: nat)
    requires Placed(f, homes, {}) && id < |homes|
    ensures Belong(f, homes, None, f.tree) && multiset(Leaves(f, homes, None, f.tree))[id] == 1
  {
    ListBelongs(f, homes, None);
    LeavesCount(f, homes, None, f.tree, id);
    LeadIsExpected(f, homes, None, id);
    assert Occurs(f, None, Lead(f, homes, None, id)) == 1;
  }

  /** The list that holds the i-th ancestor: the next ancestor's, or the roots. */
  function HolderAt(chain: seq<string>, i: nat): Owner {
    if i + 1 < |chain| then Some(chain[i + 1]) else None
  }

  lemma {:induction false} AncestorHasNode(f: Forest, homes: seq<Owner>, key: string, i: nat)
    requires Placed(f, homes, {}) && key in f.groupNodes && Good(f.d, key) && i < |ChainOf(f.d, key)|
    ensures ChainOf(f.d, key)[i] in f.groupNodes
    ensures Occurs(f, HolderAt(ChainOf(f.d, key), i), Group(ChainOf(f.d, key)[i])) == 1
    decreases i
  {
    hide ChainOf;
    ParentIsGood(f.d, key);
    var up := Up(f.d, key);
    if up.Some? {
      ParentIsGood(f.d, up.value);
    }
    if i == 0 {
      assert Occurs(f, up, Group(key)) == Expected(f, homes, {}, up, Group(key));
    } else {
      AncestorHasNode(f, homes, up.value, i - 1);
    }
  }

  /**
   * A placed leaf with a group sits in that group's list, and from there up every available
   * ancestor group stands once in the list of the next one, the last among the roots.
   */
  lemma PathToLeaf(f: Forest, homes: seq<Owner>, id: nat)
    requires Placed(f, homes, {}) && id < |homes| && homes[id].Some?
    ensures Occurs(f, homes[id], Leaf(id)) == 1
    ensures var chain := ChainOf(f.d, homes[id].value);
      && chain != [] && chain[0] == homes[id].value
      && LeadsUp(f.d.rows, f.d.authoritative, false, homes[id], chain)
      && forall i: nat | i < |chain| :: Occurs(f, HolderAt(chain, i), Group(chain[i])) == 1
  {
    assert Occurs(f, homes[id], Leaf(id)) == Expected(f, homes, {}, homes[id], Leaf(id));
    var key := homes[id].value;
    assert IsOwner(f, homes[id]);
    GoodLeadsUp(f.d, key);
    forall i: nat | i < |ChainOf(f.d, key)|
      ensures Occurs(f, HolderAt(ChainOf(f.d, key), i), Group(ChainOf(f.d, key)[i])) == 1
    {
      AncestorHasNode(f, homes, key, i);
    }
  }
}

/**
 * The menu directory and the walk from an item to its ancestors. The directory may name
 * missing parents and may be cyclic; the walk keeps an item only when its ancestors end.
 */
module MenuDirectory {
  import opened Basics

  datatype NodeType = GroupNode | LeafNode

  datatype Status = Active | Disabled

  /** Labels and icons are left out; `inWorkspace` is None when the row lists no workspaces. */
  datatype Row = Row(
    menuKey: string,
    parentKey: Option<string>,
    sortOrder: int,
    nodeType: Option<NodeType>,
    webview: bool,
    status: Option<Status>,
    inWorkspace: Option<bool>)

  type Rows = map<string, Row>

  /** The key a parent reference names; null and the empty string name nothing. */
  function Named(key: Option<string>): Option<string> {
    if key == Some("") then None else key
  }

  predicate RowIsAvailable(row: Row, authoritative: bool) {
    && (row.status == Some(Active) || (authoritative && row.status == None))
    && (if row.inWorkspace.Some? then row.inWorkspace.value else authoritative)
  }

  predicate AvailableGroup(rows: Rows, key: string, authoritative: bool) {
    key in rows && rows[key].nodeType == Some(GroupNode) && RowIsAvailable(rows[key], authoritative)
  }

  /**
   * The ancestor loop from `next` on; None when the item is dropped. `strict` is whether a
   * missing ancestor drops it.
   */
  function Walk(rows: Rows, authoritative: bool, strict: bool, next: Option<string>, seen: set<string>)
    : Option<seq<string>>
    decreases |rows.Keys - seen|
  {
    var key := Named(next);
    if key.None? then Some([])
    else if key.value in seen then None
    else if key.value !in rows then (if strict then None else Some([]))
    else if !AvailableGroup(rows, key.value, authoritative) then None
    else
      Shrinks(rows.Keys, seen, key.value);
      var rest := Walk(rows, authoritative, strict, rows[key.value].parentKey, seen + {key.value});
      if rest.Some? then Some([key.value] + rest.value) else None
  }

  lemma Shrinks(keys: set<string>, seen: set<string>, key: string)
    requires key in keys && key !in seen
    ensures |keys - (seen + {key})| < |keys - seen|
  {
    assert keys - seen == (keys - (seen + {key})) + {key};
  }

  /**
   * `chain` lists the ancestors from `next` up, nearest first: each is an available group and
   * the parent of the one before it, and the last one's parent is absent, or missing from the
   * directory where that is allowed.
   */
  predicate LeadsUp(rows: Rows, authoritative: bool, strict: bool, next: Option<string>, chain: seq<string>)
    decreases |chain|
  {
    if chain == [] then
      Named(next).None? || (Named(next).value !in rows && !strict)
    else
      && Named(next) == Some(chain[0])
      && AvailableGroup(rows, chain[0], authoritative)
      && LeadsUp(rows, authoritative, strict, rows[chain[0]].parentKey, chain[1..])
  }

  lemma {:induction false} WalkLeadsUp(
    rows: Rows, authoritative: bool, strict: bool, next: Option<string>, seen: set<string>)
    requires Walk(rows, authoritative, strict, next, seen).Some?
    ensures LeadsUp(rows, authoritative, strict, next, Walk(rows, authoritative, strict, next, seen).value)
    decreases |rows.Keys - seen|
  {
    var key := Named(next);
    if key.Some? && key.value in rows {
      Shrinks(rows.Keys, seen, key.value);
      WalkLeadsUp(rows, authoritative, strict, rows[key.value].parentKey, seen + {key.value});
      var chain := Walk(rows, authoritative, strict, next, seen).value;
      assert chain[1..] == Walk(rows, authoritative, strict, rows[key.value].parentKey, seen + {key.value}).value;
    }
  }

  /** What the chain is depends on where it starts only. */
  lemma {:induction false} ChainIsDetermined(
    rows: Rows, authoritative: bool, strict: bool, next: Option<string>, a: seq<string>, b: seq<string>)
    requires LeadsUp(rows, authoritative, strict, next, a) && LeadsUp(rows, authoritative, strict, next, b)
    ensures a == b
    decreases |a|
  {
    if a != [] && b != [] {
      ChainIsDetermined(rows, authoritative, strict, rows[a[0]].parentKey, a[1..], b[1..]);
      assert a == [a[0]] + a[1..] && b == [b[0]] + b[1..];
    }
  }

  lemma {:induction false} SuffixLeadsUp(
    rows: Rows, authoritative: bool, strict: bool, next: Option<string>, chain: seq<string>, i: nat)
    requires LeadsUp(rows, authoritative, strict, next, chain) && i < |chain|
    ensures LeadsUp(rows, authoritative, strict, Some(chain[i]), chain[i..])
    ensures AvailableGroup(rows, chain[i], authoritative)
    decreases i
  {
    if i == 0 {
      assert chain[0..] == chain;
    } else {
      SuffixLeadsUp(rows, authoritative, strict, rows[chain[0]].parentKey, chain[1..], i - 1);
      assert chain[1..][i - 1..] == chain[i..];
    }
  }

  /** A chain that ends cannot pass the same group twice. */
  lemma ChainIsDistinct(
    rows: Rows, authoritative: bool, strict: bool, next: Option<string>, chain: seq<string>, i: nat, j: nat)
    requires LeadsUp(rows, authoritative, strict, next, chain) && i < j < |chain|
    ensures chain[i] != chain[j]
  {
    SuffixLeadsUp(rows, authoritative, strict, next, chain, i);
    SuffixLeadsUp(rows, authoritative, strict, next, chain, j);
    if chain[i] == chain[j] {
      ChainIsDetermined(rows, authoritative, strict, Some(chain[i]), chain[i..], chain[j..]);
    }
  }

  lemma {:induction false} ChainIsWalked(
    rows: Rows, authoritative: bool, strict: bool, next: Option<string>, chain: seq<string>, seen: set<string>)
    requires LeadsUp(rows, authoritative, strict, next, chain)
    requires forall i :: 0 <= i < |chain| ==> chain[i] !in seen
    requires Named(next).Some? && chain == [] ==> Named(next).value !in seen
    requires seen <= rows.Keys
    ensures Walk(rows, authoritative, strict, next, seen) == Some(chain)
    decreases |chain|
  {
    if chain != [] {
      forall i | 0 <= i < |chain| - 1 ensures chain[1..][i] !in seen + {chain[0]} {
        ChainIsDistinct(rows, authoritative, strict, next, chain, 0, i + 1);
      }
      ChainIsWalked(rows, authoritative, strict, rows[chain[0]].parentKey, chain[1..], seen + {chain[0]});
      assert chain == [chain[0]] + chain[1..];
    }
  }

  /**
   * The walk is exact: it keeps an item with ancestors `chain` if and only if the parent links
   * lead through exactly these available groups to an end; a cycle is never kept.
   */
  lemma WalkIsExact(rows: Rows, authoritative: bool, strict: bool, next: Option<string>, chain: seq<string>)
    ensures Walk(rows, authoritative, strict, next, {}) == Some(chain)
       <==> LeadsUp(rows, authoritative, strict, next, chain)
  {
    if Walk(rows, authoritative, strict, next, {}) == Some(chain) {
      WalkLeadsUp(rows, authoritative, strict, next, {});
    }
    if LeadsUp(rows, authoritative, strict, next, chain) {
      ChainIsWalked(rows, authoritative, strict, next, chain, {});
    }
  }
}

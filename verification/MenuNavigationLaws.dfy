/**
 * The menu's rules one by one: which row counts, which candidates are kept and as what, which rows
 * join them, and what stands before what.
 */
module MenuNavigationLaws {
  import opened Basics
  import opened MenuDirectory
  import opened MenuForest
  import opened MenuNavigation
  import opened StableSort

  // ---- Rows ----

  ghost predicate LastWith(directory: seq<Row>, i: nat, key: string) {
    i < |directory| && directory[i].menuKey == key && forall j | i < j < |directory| :: directory[j].menuKey != key
  }

  /** Of the rows with one key the last counts. */
  lemma {:induction false} LastRowCounts(directory: seq<Row>, key: string)
    ensures key in RowsOf(directory) <==> exists row <- directory :: row.menuKey == key
    ensures key in RowsOf(directory) ==>
      exists i: nat :: LastWith(directory, i, key) && RowsOf(directory)[key] == directory[i]
  {
    if directory != [] {
      var n := |directory| - 1;
      var init, last := directory[..n], directory[n];
      LastRowCounts(init, key);
      assert forall x :: x in directory <==> x in init || x == last;
      if last.menuKey == key {
        assert LastWith(directory, n, key);
      } else if key in RowsOf(init) {
        var i: nat :| LastWith(init, i, key) && RowsOf(init)[key] == init[i];
        assert LastWith(directory, i, key);
      }
    }
  }

  /** Active, or without a status in an authoritative directory; and the same for the workspace. */
  predicate OnOffer(row: Row, authoritative: bool) {
    && (match row.status
        case Some(Active) => true
        case Some(Disabled) => false
        case None => authoritative)
    && (match row.inWorkspace
        case Some(listed) => listed
        case None => authoritative)
  }

  lemma AvailableIsOnOffer(row: Row, authoritative: bool)
    ensures RowIsAvailable(row, authoritative) == OnOffer(row, authoritative)
  {
  }

  // ---- Candidates ----

  /** The parents lead up through groups on offer to one without a parent, or perhaps to a missing one. */
  ghost predicate Ascends(rows: Rows, authoritative: bool, strict: bool, parent: Option<string>, chain: seq<string>)
    decreases |chain|
  {
    if chain == [] then
      parent == None || parent == Some("") || (parent.value !in rows && !strict)
    else
      && parent == Some(chain[0]) && chain[0] != "" && chain[0] in rows
      && rows[chain[0]].nodeType == Some(GroupNode) && OnOffer(rows[chain[0]], authoritative)
      && Ascends(rows, authoritative, strict, rows[chain[0]].parentKey, chain[1..])
  }

  lemma {:induction false} AscendsIsLeadsUp(
    rows: Rows, authoritative: bool, strict: bool, parent: Option<string>, chain: seq<string>)
    ensures LeadsUp(rows, authoritative, strict, parent, chain) <==> Ascends(rows, authoritative, strict, parent, chain)
    decreases |chain|
  {
    if chain != [] && chain[0] in rows {
      AvailableIsOnOffer(rows[chain[0]], authoritative);
      AscendsIsLeadsUp(rows, authoritative, strict, rows[chain[0]].parentKey, chain[1..]);
    }
  }

  /** What a candidate must meet, with the row of its key if there is one, to become this item. */
  ghost predicate Becomes(input: Input, candidate: Candidate, row: Option<Row>, item: Item) {
    && ((exists c <- input.candidates :: c.menuKey == candidate.menuKey) ==> input.allowCandidate(candidate))
    && (row.None? ==>
          && !input.authoritative
          && item == Item(candidate.key, candidate.menuKey, candidate.groupKey, candidate.sortOrder))
    && (row.Some? ==>
          && OnOffer(row.value, input.authoritative) && row.value.nodeType != Some(GroupNode)
          && item == Item(candidate.key, candidate.menuKey, row.value.parentKey, row.value.sortOrder))
    && var strict := input.authoritative || (row.Some? && row.value.parentKey.Some? && row.value.parentKey != Some(""));
       exists chain :: Ascends(RowsOf(input.directory), input.authoritative, strict, item.groupKey, chain)
  }

  /**
   * A candidate is kept, as this item, exactly if it is allowed when static, its row is on offer
   * and no group, or missing where the directory need not have it, and its parents lead up to an end.
   */
  lemma KeptExactly(input: Input, candidate: Candidate, item: Item)
    ensures var rows := RowsOf(input.directory);
      KeptItem(input, candidate) == Some(item) <==>
      Becomes(input, candidate,
        if candidate.menuKey in rows then Some(rows[candidate.menuKey]) else None, item)
  {
    hide Walk, RowsOf, RowIsAvailable, OnOffer, Ascends, LeadsUp;
    var rows := RowsOf(input.directory);
    var row := if candidate.menuKey in rows then Some(rows[candidate.menuKey]) else None;
    if row.Some? {
      AvailableIsOnOffer(row.value, input.authoritative);
    }
    var strict := input.authoritative || (row.Some? && row.value.parentKey.Some? && row.value.parentKey != Some(""));
    var parent := if row.Some? then row.value.parentKey else candidate.groupKey;
    var walk := Walk(rows, input.authoritative, strict, parent, {});
    if walk.Some? {
      WalkIsExact(rows, input.authoritative, strict, parent, walk.value);
      AscendsIsLeadsUp(rows, input.authoritative, strict, parent, walk.value);
    }
    forall chain | Ascends(rows, input.authoritative, strict, parent, chain) ensures walk == Some(chain) {
      AscendsIsLeadsUp(rows, input.authoritative, strict, parent, chain);
      WalkIsExact(rows, input.authoritative, strict, parent, chain);
    }
  }

  /** A row joins the candidates exactly as an allowed web-view leaf on offer that is not excluded. */
  lemma JoinsExactly(input: Input, row: Row)
    ensures IsDynamic(input, row) <==>
      row.nodeType == Some(LeafNode) && row.webview && OnOffer(row, input.authoritative)
      && row.menuKey !in input.excluded && input.allowDynamicWebView(row)
    ensures DynamicCandidate(row) == Candidate(row.menuKey, row.menuKey, row.parentKey, row.sortOrder, 9007199254740991)
  {
    AvailableIsOnOffer(row, input.authoritative);
  }

  lemma HomeExactly(rows: Rows, item: Item, key: string)
    ensures Home(rows, item) == Some(key) <==> item.groupKey == Some(key) && key != "" && key in rows
  {
  }

  // ---- Order ----

  /** The lower order comes first, and among equals the key that collates first. */
  ghost predicate StandsBefore(leq: Collation, order: int, key: string, otherOrder: int, otherKey: string) {
    order <= otherOrder && (order == otherOrder ==> leq(key, otherKey))
  }

  lemma ItemsStand(leq: Collation, items: seq<Item>)
    ensures SortedBy(items, ItemLe(leq)) <==> forall i, j :: 0 <= i < j < |items| ==>
      StandsBefore(leq, items[i].sortOrder, items[i].key, items[j].sortOrder, items[j].key)
  {
  }

  lemma GroupsStand(leq: Collation, groups: seq<MenuGroup>)
    ensures SortedBy(groups, GroupLe(leq)) <==> forall i, j :: 0 <= i < j < |groups| ==>
      StandsBefore(leq, groups[i].sortOrder, groups[i].key, groups[j].sortOrder, groups[j].key)
  {
  }

  /** A node stands by its row's order and key, a leaf by its item's. */
  ghost predicate StandsFor(rows: Rows, items: seq<Item>, r: Ref, order: int, key: string) {
    match r
    case Group(k) => k in rows && order == rows[k].sortOrder && key == k
    case Leaf(id) => id < |items| && order == items[id].sortOrder && key == items[id].key
  }

  lemma SiblingsStand(leq: Collation, rows: Rows, items: seq<Item>, list: seq<Ref>, i: nat, j: nat,
      order: int, key: string, otherOrder: int, otherKey: string)
    requires i < j < |list| && SortedBy(list, NodeLe(leq, rows, items))
    requires StandsFor(rows, items, list[i], order, key) && StandsFor(rows, items, list[j], otherOrder, otherKey)
    ensures StandsBefore(leq, order, key, otherOrder, otherKey)
  {
    assert NodeLe(leq, rows, items)(list[i], list[j]);
  }
}

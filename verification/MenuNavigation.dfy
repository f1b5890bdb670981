/**
 * buildMenuNavigation: candidates are completed from the directory, filtered, grouped, sorted
 * and placed in the forest. Collation is any total preorder; labels and icons are left out.
 */
module MenuNavigation {
  import opened Basics
  import opened MenuDirectory
  import opened MenuForest
  import opened MenuTree
  import opened StableSort

  datatype Candidate = Candidate(
    key: string,
    menuKey: string,
    groupKey: Option<string>,
    sortOrder: int,
    groupSortOrder: int)

  datatype Item = Item(key: string, menuKey: string, groupKey: Option<string>, sortOrder: int)

  datatype MenuGroup = MenuGroup(key: string, sortOrder: int, items: seq<Item>)

  datatype Input = Input(
    candidates: seq<Candidate>,
    directory: seq<Row>,
    authoritative: bool,
    excluded: set<string>,
    allowCandidate: Candidate -> bool,
    allowDynamicWebView: Row -> bool)

  type Collation = (string, string) -> bool

  datatype SortKey = SortKey(order: int, key: string)

  predicate KeyLe(leq: Collation, a: SortKey, b: SortKey) {
    a.order < b.order || (a.order == b.order && leq(a.key, b.key))
  }

  function ItemLe(leq: Collation): (Item, Item) -> bool {
    (a: Item, b: Item) => KeyLe(leq, SortKey(a.sortOrder, a.key), SortKey(b.sortOrder, b.key))
  }

  function GroupLe(leq: Collation): (MenuGroup, MenuGroup) -> bool {
    (a: MenuGroup, b: MenuGroup) => KeyLe(leq, SortKey(a.sortOrder, a.key), SortKey(b.sortOrder, b.key))
  }

  /** What a node of the tree is sorted by. */
  function NodeKey(rows: Rows, items: seq<Item>, r: Ref): SortKey {
    match r
    case Group(key) => SortKey(if key in rows then rows[key].sortOrder else 0, key)
    case Leaf(id) => if id < |items| then SortKey(items[id].sortOrder, items[id].key) else SortKey(0, "")
  }

  function NodeLe(leq: Collation, rows: Rows, items: seq<Item>): (Ref, Ref) -> bool {
    (a: Ref, b: Ref) => KeyLe(leq, NodeKey(rows, items, a), NodeKey(rows, items, b))
  }

  lemma OrdersArePreorders(leq: Collation, rows: Rows, items: seq<Item>)
    requires TotalPreorder(leq)
    ensures TotalPreorder(ItemLe(leq)) && TotalPreorder(GroupLe(leq)) && TotalPreorder(NodeLe(leq, rows, items))
  {
  }

  // ---- Specification ----

  /** The directory by key; a later row replaces an earlier one. */
  function RowsOf(directory: seq<Row>): Rows {
    if directory == [] then map[]
    else
      var last := directory[|directory| - 1];
      RowsOf(directory[..|directory| - 1])[last.menuKey := last]
  }

  predicate IsDynamic(input: Input, row: Row) {
    && row.menuKey !in input.excluded
    && row.nodeType == Some(LeafNode) && row.webview
    && RowIsAvailable(row, input.authoritative)
    && input.allowDynamicWebView(row)
  }

  predicate StaticKey(input: Input, menuKey: string) {
    exists c <- input.candidates :: c.menuKey == menuKey
  }

  /** The item a candidate becomes, or None when it is dropped. */
  function KeptItem(input: Input, candidate: Candidate): Option<Item> {
    var rows := RowsOf(input.directory);
    var row := if candidate.menuKey in rows then Some(rows[candidate.menuKey]) else None;
    if StaticKey(input, candidate.menuKey) && !input.allowCandidate(candidate) then None
    else if input.authoritative && row.None? then None
    else if row.Some? && (!RowIsAvailable(row.value, input.authoritative) || row.value.nodeType == Some(GroupNode))
    then None
    else
      var parentKey := if row.Some? then row.value.parentKey else candidate.groupKey;
      var strict := input.authoritative || (row.Some? && Named(row.value.parentKey).Some?);
      if Walk(rows, input.authoritative, strict, parentKey, {}).None? then None
      else Some(Item(candidate.key, candidate.menuKey, parentKey,
                     if row.Some? then row.value.sortOrder else candidate.sortOrder))
  }

  function KeptItems(input: Input, candidates: seq<Candidate>): seq<Item> {
    if candidates == [] then []
    else
      var last := KeptItem(input, candidates[|candidates| - 1]);
      KeptItems(input, candidates[..|candidates| - 1]) + if last.Some? then [last.value] else []
  }

  function Home(rows: Rows, item: Item): Owner {
    if Named(item.groupKey).Some? && item.groupKey.value in rows then item.groupKey else None
  }

  /** A kept item's group, when the directory has it, is a group whose ancestors end. */
  lemma KeptHomeIsGood(input: Input, candidate: Candidate)
    requires KeptItem(input, candidate).Some?
    ensures var rows, item := RowsOf(input.directory), KeptItem(input, candidate).value;
      Home(rows, item).Some? ==> Good(Directory(rows, input.authoritative), item.groupKey.value)
  {
    var rows, item := RowsOf(input.directory), KeptItem(input, candidate).value;
    var strict := input.authoritative
      || (candidate.menuKey in rows && Named(rows[candidate.menuKey].parentKey).Some?);
    var chain := Walk(rows, input.authoritative, strict, item.groupKey, {}).value;
    WalkLeadsUp(rows, input.authoritative, strict, item.groupKey, {});
    LessStrict(rows, input.authoritative, strict, item.groupKey, chain);
    if Home(rows, item).Some? {
      WalkIsExact(rows, input.authoritative, false, item.groupKey, chain);
    }
  }

  lemma {:induction false} LessStrict(
    rows: Rows, authoritative: bool, strict: bool, next: Option<string>, chain: seq<string>)
    requires LeadsUp(rows, authoritative, strict, next, chain)
    ensures LeadsUp(rows, authoritative, false, next, chain)
    decreases |chain|
  {
    if chain != [] {
      LessStrict(rows, authoritative, strict, rows[chain[0]].parentKey, chain[1..]);
    }
  }

  // ---- Grouping ----

  function Flat(groups: seq<MenuGroup>): seq<Item> {
    if groups == [] then [] else Flat(groups[..|groups| - 1]) + groups[|groups| - 1].items
  }

  /** The items that name this group, or none, in order. */
  function WithKey(items: seq<Item>, key: Option<string>): seq<Item> {
    if items == [] then []
    else
      var last := items[|items| - 1];
      WithKey(items[..|items| - 1], key) + if Named(last.groupKey) == key then [last] else []
  }

  predicate HasGroup(groups: seq<MenuGroup>, key: string) {
    exists g <- groups :: g.key == key
  }

  ghost predicate DistinctKeys(groups: seq<MenuGroup>) {
    forall i, j :: 0 <= i < j < |groups| ==> groups[i].key != groups[j].key
  }

  ghost predicate GroupsComplete(items: seq<Item>, groups: seq<MenuGroup>) {
    forall item <- items | Named(item.groupKey).Some? :: HasGroup(groups, Named(item.groupKey).value)
  }

  /** One group for each key that an item names, holding all its items in order. */
  ghost predicate Grouped(items: seq<Item>, groups: seq<MenuGroup>) {
    && DistinctKeys(groups) && GroupsComplete(items, groups)
    && forall g <- groups :: g.items == WithKey(items, Some(g.key)) && g.items != []
  }

  /** The same, with each group's items sorted. */
  ghost predicate GroupedInOrder(leq: Collation, items: seq<Item>, groups: seq<MenuGroup>) {
    && DistinctKeys(groups) && GroupsComplete(items, groups)
    && forall g <- groups :: g.items == SortBy(WithKey(items, Some(g.key)), ItemLe(leq)) && g.items != []
  }

  lemma WithKeyOneMore(items: seq<Item>, item: Item, key: Option<string>)
    ensures WithKey(items + [item], key) == WithKey(items, key) + if Named(item.groupKey) == key then [item] else []
  {
    assert (items + [item])[..|items|] == items;
  }

  lemma WithKeyNames(items: seq<Item>, key: Option<string>)
    ensures WithKey(items, key) == [] <==> forall item <- items :: Named(item.groupKey) != key
    ensures forall item <- WithKey(items, key) :: item in items && Named(item.groupKey) == key
  {
  }

  lemma JoinsGroup(items: seq<Item>, groups: seq<MenuGroup>, item: Item, at: nat, g: MenuGroup)
    requires Grouped(items, groups) && at < |groups|
    requires Named(item.groupKey) == Some(g.key) && g.key == groups[at].key && g.items == groups[at].items + [item]
    ensures Grouped(items + [item], groups[at := g])
  {
    hide WithKey;
    var more := groups[at := g];
    forall h <- more ensures h.items == WithKey(items + [item], Some(h.key)) && h.items != [] {
      WithKeyOneMore(items, item, Some(h.key));
      var i :| 0 <= i < |more| && more[i] == h;
      assert groups[i] in groups;
    }
    forall key: string | HasGroup(groups, key) ensures HasGroup(more, key) {
      var i :| 0 <= i < |groups| && groups[i].key == key;
      assert more[i] in more;
    }
    assert more[at] in more;
  }

  lemma OpensGroup(items: seq<Item>, groups: seq<MenuGroup>, item: Item, g: MenuGroup)
    requires Grouped(items, groups) && !HasGroup(groups, g.key)
    requires Named(item.groupKey) == Some(g.key) && g.items == [item]
    ensures Grouped(items + [item], groups + [g])
  {
    hide WithKey;
    var more := groups + [g];
    assert forall x <- items :: Named(x.groupKey) != Some(g.key);
    forall h <- more ensures h.items == WithKey(items + [item], Some(h.key)) && h.items != [] {
      WithKeyOneMore(items, item, Some(h.key));
      WithKeyNames(items, Some(h.key));
    }
    forall key: string | HasGroup(groups, key) ensures HasGroup(more, key) {
      var x :| x in groups && x.key == key;
      assert x in more;
    }
    assert g in more;
  }

  lemma StandsAlone(items: seq<Item>, groups: seq<MenuGroup>, item: Item)
    requires Grouped(items, groups) && Named(item.groupKey).None?
    ensures Grouped(items + [item], groups)
  {
    hide WithKey;
    forall g <- groups ensures g.items == WithKey(items + [item], Some(g.key)) {
      WithKeyOneMore(items, item, Some(g.key));
    }
  }

  method FindGroup(groups: seq<MenuGroup>, key: string) returns (at: nat)
    ensures at <= |groups|
    ensures at < |groups| ==> groups[at].key == key
    ensures at == |groups| ==> forall g <- groups :: g.key != key
  {
    at := 0;
    while at < |groups| && groups[at].key != key
      invariant 0 <= at <= |groups|
      invariant forall i :: 0 <= i < at ==> groups[i].key != key
    {
      at := at + 1;
    }
  }

  lemma FlatAppend(groups: seq<MenuGroup>, g: MenuGroup)
    ensures Flat(groups + [g]) == Flat(groups) + g.items
  {
    assert (groups + [g])[..|groups|] == groups;
  }

  /** Replacing one group changes the items by the difference of its own. */
  lemma FlatUpdate(groups: seq<MenuGroup>, at: nat, g: MenuGroup, more: multiset<Item>)
    requires at < |groups| && multiset(g.items) == multiset(groups[at].items) + more
    ensures multiset(Flat(groups[at := g])) == multiset(Flat(groups)) + more
  {
    var updated := groups[at := g];
    SplitAt(groups, at);
    SplitAt(updated, at);
    assert updated[..at] == groups[..at] && updated[at + 1..] == groups[at + 1..];
  }

  lemma SplitAt(s: seq<MenuGroup>, i: nat)
    requires i < |s|
    ensures multiset(s) == multiset(s[..i] + s[i + 1..]) + multiset{s[i]}
    ensures multiset(Flat(s)) == multiset(Flat(s[..i] + s[i + 1..])) + multiset(s[i].items)
  {
    hide Flat;
    assert s == s[..i] + [s[i]] + s[i + 1..];
    PullOut(s[..i], s[i], s[i + 1..]);
    PullOutFlat(s[..i], s[i], s[i + 1..]);
  }

  lemma PullOutFlat(a: seq<MenuGroup>, g: MenuGroup, c: seq<MenuGroup>)
    ensures multiset(Flat(a + [g] + c)) == multiset(Flat(a + c)) + multiset(g.items)
  {
    hide Flat;
    FlatConcat(a + [g], c);
    FlatConcat(a, c);
    FlatAppend(a, g);
    PullOutItems(Flat(a), g.items, Flat(c));
  }

  lemma PullOut(a: seq<MenuGroup>, g: MenuGroup, c: seq<MenuGroup>)
    ensures multiset(a + [g] + c) == multiset(a + c) + multiset{g}
  {
  }

  lemma PullOutItems(a: seq<Item>, b: seq<Item>, c: seq<Item>)
    ensures multiset(a + b + c) == multiset(a + c) + multiset(b)
  {
  }

  lemma Cancel(a: multiset<MenuGroup>, b: multiset<MenuGroup>, g: MenuGroup)
    requires a + multiset{g} == b + multiset{g}
    ensures a == b
  {
    assert a == (a + multiset{g}) - multiset{g};
    assert b == (b + multiset{g}) - multiset{g};
  }

  lemma Remove(s: seq<MenuGroup>, g: MenuGroup) returns (rest: seq<MenuGroup>)
    requires g in s
    ensures multiset(s) == multiset(rest) + multiset{g}
    ensures multiset(Flat(s)) == multiset(Flat(rest)) + multiset(g.items)
    ensures |rest| == |s| - 1
  {
    hide Flat;
    var i: nat :| i < |s| && s[i] == g;
    rest := s[..i] + s[i + 1..];
    SplitAt(s, i);
  }

  /** Reordering groups keeps their items. */
  lemma {:induction false} FlatIsMultiset(a: seq<MenuGroup>, b: seq<MenuGroup>)
    requires multiset(a) == multiset(b)
    ensures multiset(Flat(a)) == multiset(Flat(b))
    decreases |a|
  {
    if a == [] {
      assert |multiset(b)| == 0;
    } else {
      hide Flat;
      var g := a[0];
      assert g in multiset(b);
      var x := Remove(a, g);
      var y := Remove(b, g);
      Cancel(multiset(x), multiset(y), g);
      FlatIsMultiset(x, y);
    }
  }

  lemma {:induction false} FlatConcat(a: seq<MenuGroup>, b: seq<MenuGroup>)
    ensures Flat(a + b) == Flat(a) + Flat(b)
  {
    if b == [] {
      assert a + b == a;
    } else {
      assert (a + b)[..|a + b| - 1] == a + b[..|b| - 1];
      FlatConcat(a, b[..|b| - 1]);
    }
  }

  // ---- The builder ----

  method IndexRows(directory: seq<Row>) returns (rows: Rows)
    ensures rows == RowsOf(directory)
  {
    rows := map[];
    for i := 0 to |directory|
      invariant rows == RowsOf(directory[..i])
    {
      assert directory[..i + 1][..i] == directory[..i];
      rows := rows[directory[i].menuKey := directory[i]];
    }
    assert directory[..|directory|] == directory;
  }

  function DynamicCandidate(row: Row): Candidate {
    Candidate(row.menuKey, row.menuKey, row.parentKey, row.sortOrder, MAX_SAFE_INTEGER)
  }

  /**
   * `dynamic` are the allowed web-view rows whose key no candidate has, in the order of the
   * directory, and of rows with one key the first.
   */
  ghost predicate Completes(input: Input, rows: seq<Row>, dynamic: seq<Candidate>) {
    && (forall c <- dynamic :: !StaticKey(input, c.menuKey) && FromRow(input, rows, c))
    && (forall i, j :: 0 <= i < j < |dynamic| ==> RowsBefore(input, rows, dynamic[i], dynamic[j]))
    && (forall row <- rows | IsDynamic(input, row) ::
          StaticKey(input, row.menuKey) || HasKey(dynamic, row.menuKey))
  }

  ghost predicate FirstRow(input: Input, rows: seq<Row>, i: nat, c: Candidate) {
    && i < |rows| && IsDynamic(input, rows[i]) && c == DynamicCandidate(rows[i])
    && forall j | 0 <= j < i :: !(IsDynamic(input, rows[j]) && rows[j].menuKey == c.menuKey)
  }

  ghost predicate FromRow(input: Input, rows: seq<Row>, c: Candidate) {
    exists i: nat :: FirstRow(input, rows, i, c)
  }

  ghost predicate RowsBefore(input: Input, rows: seq<Row>, a: Candidate, b: Candidate) {
    exists i: nat, j: nat :: i < j && FirstRow(input, rows, i, a) && FirstRow(input, rows, j, b)
  }

  ghost predicate HasKey(candidates: seq<Candidate>, menuKey: string) {
    exists c <- candidates :: c.menuKey == menuKey
  }

  lemma RowsGrow(input: Input, rows: seq<Row>, row: Row)
    ensures forall i: nat, c | i < |rows| ::
      FirstRow(input, rows + [row], i, c) <==> FirstRow(input, rows, i, c)
    ensures forall c :: FromRow(input, rows, c) ==> FromRow(input, rows + [row], c)
    ensures forall a, b :: RowsBefore(input, rows, a, b) ==> RowsBefore(input, rows + [row], a, b)
  {
    hide IsDynamic;
    var more := rows + [row];
    assert forall j | 0 <= j < |rows| :: more[j] == rows[j];
    forall c | FromRow(input, rows, c) ensures FromRow(input, more, c) {
      var i: nat :| FirstRow(input, rows, i, c);
      assert FirstRow(input, more, i, c);
    }
    forall a, b | RowsBefore(input, rows, a, b) ensures RowsBefore(input, more, a, b) {
      var i: nat, j: nat :| i < j && FirstRow(input, rows, i, a) && FirstRow(input, rows, j, b);
      assert FirstRow(input, more, i, a) && FirstRow(input, more, j, b);
    }
  }

  lemma RowIsLast(input: Input, rows: seq<Row>, dynamic: seq<Candidate>, row: Row)
    requires Completes(input, rows, dynamic)
    requires !StaticKey(input, row.menuKey) && !HasKey(dynamic, row.menuKey) && IsDynamic(input, row)
    ensures FirstRow(input, rows + [row], |rows|, DynamicCandidate(row))
    ensures forall c <- dynamic :: RowsBefore(input, rows + [row], c, DynamicCandidate(row))
  {
    hide IsDynamic, StaticKey, HasKey, RowsBefore;
    var more, last := rows + [row], DynamicCandidate(row);
    forall j | 0 <= j < |rows| ensures !(IsDynamic(input, more[j]) && more[j].menuKey == last.menuKey) {
      assert more[j] == rows[j] && rows[j] in rows;
    }
    RowsGrow(input, rows, row);
    forall c <- dynamic ensures RowsBefore(input, more, c, last) {
      var i: nat :| FirstRow(input, rows, i, c);
      TwoRows(input, more, i, |rows|, c, last);
    }
  }

  lemma TwoRows(input: Input, rows: seq<Row>, i: nat, j: nat, a: Candidate, b: Candidate)
    requires i < j && FirstRow(input, rows, i, a) && FirstRow(input, rows, j, b)
    ensures RowsBefore(input, rows, a, b)
  {
  }

  lemma CompletesOneMore(input: Input, rows: seq<Row>, dynamic: seq<Candidate>, row: Row)
    requires Completes(input, rows, dynamic)
    ensures StaticKey(input, row.menuKey) || HasKey(dynamic, row.menuKey) || !IsDynamic(input, row) ==>
      Completes(input, rows + [row], dynamic)
    ensures !StaticKey(input, row.menuKey) && !HasKey(dynamic, row.menuKey) && IsDynamic(input, row) ==>
      Completes(input, rows + [row], dynamic + [DynamicCandidate(row)])
  {
    hide IsDynamic, StaticKey, HasKey, RowsBefore, FirstRow;
    var more := dynamic + [DynamicCandidate(row)];
    RowsGrow(input, rows, row);
    KeysOneMore(dynamic, row);
    if !StaticKey(input, row.menuKey) && !HasKey(dynamic, row.menuKey) && IsDynamic(input, row) {
      RowIsLast(input, rows, dynamic, row);
      assert FromRow(input, rows + [row], DynamicCandidate(row));
      forall i, j | 0 <= i < j < |more| ensures RowsBefore(input, rows + [row], more[i], more[j]) {
        assert more[i] == dynamic[i] && dynamic[i] in dynamic;
        assert j < |dynamic| ==> more[j] == dynamic[j];
      }
    }
  }

  /** Appends a candidate for every allowed dynamic row whose key is not represented yet. */
  method CompleteCandidates(input: Input) returns (dynamic: seq<Candidate>)
    ensures Completes(input, input.directory, dynamic)
  {
    hide IsDynamic, StaticKey, Completes;
    var represented: set<string> := set c <- input.candidates :: c.menuKey;
    dynamic := [];
    NothingCompletes(input);
    for i := 0 to |input.directory|
      invariant Completes(input, input.directory[..i], dynamic)
      invariant forall key :: key in represented <==> StaticKey(input, key) || HasKey(dynamic, key)
    {
      var row := input.directory[i];
      assert input.directory[..i + 1] == input.directory[..i] + [row];
      CompletesOneMore(input, input.directory[..i], dynamic, row);
      if row.menuKey in represented || !IsDynamic(input, row) {
        continue;
      }
      KeysOneMore(dynamic, row);
      dynamic := dynamic + [DynamicCandidate(row)];
      represented := represented + {row.menuKey};
    }
    assert input.directory[..|input.directory|] == input.directory;
  }

  lemma NothingCompletes(input: Input)
    ensures Completes(input, [], [])
    ensures forall key ::
      key in (set c <- input.candidates :: c.menuKey) <==> StaticKey(input, key) || HasKey([], key)
  {
  }

  lemma KeysOneMore(dynamic: seq<Candidate>, row: Row)
    ensures forall key :: HasKey(dynamic + [DynamicCandidate(row)], key) <==> HasKey(dynamic, key) || key == row.menuKey
  {
    var more := dynamic + [DynamicCandidate(row)];
    assert DynamicCandidate(row) in more;
    forall key | HasKey(dynamic, key) ensures HasKey(more, key) {
      var c :| c in dynamic && c.menuKey == key;
      assert c in more;
    }
  }

  /** The ancestor loop. */
  method WalkAncestors(rows: Rows, authoritative: bool, strict: bool, parentKey: Option<string>)
    returns (chain: Option<seq<string>>)
    ensures chain == Walk(rows, authoritative, strict, parentKey, {})
  {
    var parentChain: seq<string>, seenAncestors: set<string> := [], {};
    var next := parentKey;
    JoinedNothing(Walk(rows, authoritative, strict, parentKey, {}));
    while Named(next).Some?
      invariant Walk(rows, authoritative, strict, parentKey, {}) ==
        Joined(parentChain, Walk(rows, authoritative, strict, next, seenAncestors))
      decreases |rows.Keys - seenAncestors|
    {
      var key := next.value;
      assert parentChain + [] == parentChain;
      if key in seenAncestors {
        return None;
      }
      if key !in rows {
        return if strict then None else Some(parentChain);
      }
      if rows[key].nodeType != Some(GroupNode) || !RowIsAvailable(rows[key], authoritative) {
        return None;
      }
      Shrinks(rows.Keys, seenAncestors, key);
      JoinedTwice(parentChain, key, Walk(rows, authoritative, strict, rows[key].parentKey, seenAncestors + {key}));
      seenAncestors := seenAncestors + {key};
      parentChain := parentChain + [key];
      next := rows[key].parentKey;
    }
    assert parentChain + [] == parentChain;
    return Some(parentChain);
  }

  function Joined(done: seq<string>, rest: Option<seq<string>>): Option<seq<string>> {
    if rest.Some? then Some(done + rest.value) else None
  }

  lemma JoinedNothing(rest: Option<seq<string>>)
    ensures Joined([], rest) == rest
    ensures Joined([], rest).Some? ==> Joined([], rest).value == rest.value
  {
    assert rest.Some? ==> [] + rest.value == rest.value;
  }

  lemma JoinedTwice(done: seq<string>, key: string, rest: Option<seq<string>>)
    ensures Joined(done, if rest.Some? then Some([key] + rest.value) else None) == Joined(done + [key], rest)
  {
    assert rest.Some? ==> done + ([key] + rest.value) == done + [key] + rest.value;
  }

  method KeepCandidate(input: Input, rows: Rows, candidate: Candidate) returns (kept: Option<Item>)
    requires rows == RowsOf(input.directory)
    ensures kept == KeptItem(input, candidate)
  {
    hide Walk;
    if StaticKey(input, candidate.menuKey) && !input.allowCandidate(candidate) {
      return None;
    }
    var row := if candidate.menuKey in rows then Some(rows[candidate.menuKey]) else None;
    if input.authoritative && row.None? {
      return None;
    }
    if row.Some? && (!RowIsAvailable(row.value, input.authoritative) || row.value.nodeType == Some(GroupNode)) {
      return None;
    }
    var parentKey := if row.Some? then row.value.parentKey else candidate.groupKey;
    var strict := input.authoritative || (row.Some? && Named(row.value.parentKey).Some?);
    var chain := WalkAncestors(rows, input.authoritative, strict, parentKey);
    if chain.None? {
      return None;
    }
    return Some(Item(candidate.key, candidate.menuKey, parentKey,
                     if row.Some? then row.value.sortOrder else candidate.sortOrder));
  }

  /** Group order comes from the directory where it has the group. */
  ghost predicate OrderedByRows(rows: Rows, groups: seq<MenuGroup>) {
    forall g <- groups | g.key in rows :: g.sortOrder == rows[g.key].sortOrder
  }

  predicate Names(kept: Option<Item>, key: string) {
    kept.Some? && Named(kept.value.groupKey) == Some(key)
  }

  /** The first kept candidate that names the group. */
  ghost predicate Opens(input: Input, candidates: seq<Candidate>, i: nat, key: string) {
    && i < |candidates| && Names(KeptItem(input, candidates[i]), key)
    && forall j | 0 <= j < i :: !Names(KeptItem(input, candidates[j]), key)
  }

  ghost predicate OrderedByOpener(input: Input, candidates: seq<Candidate>, g: MenuGroup) {
    exists i: nat :: Opens(input, candidates, i, g.key) && g.sortOrder == candidates[i].groupSortOrder
  }

  /** Elsewhere it comes from the candidate that opened the group. */
  ghost predicate OrderedByOpeners(input: Input, rows: Rows, candidates: seq<Candidate>, groups: seq<MenuGroup>) {
    forall g <- groups | g.key !in rows :: OrderedByOpener(input, candidates, g)
  }

  ghost predicate OpensBefore(input: Input, candidates: seq<Candidate>, a: string, b: string) {
    exists i: nat, j: nat :: i < j && Opens(input, candidates, i, a) && Opens(input, candidates, j, b)
  }

  /** The groups stand in the order in which they were opened. */
  ghost predicate InOpeningOrder(input: Input, candidates: seq<Candidate>, groups: seq<MenuGroup>) {
    forall a, b :: 0 <= a < b < |groups| ==> OpensBefore(input, candidates, groups[a].key, groups[b].key)
  }

  /** Groups that sort alike stand in the order in which they were opened. */
  ghost predicate TiesInOpeningOrder(
    input: Input, leq: Collation, candidates: seq<Candidate>, groups: seq<MenuGroup>)
  {
    forall a, b :: 0 <= a < b < |groups| && groups[a].sortOrder == groups[b].sortOrder
                   && leq(groups[b].key, groups[a].key)
                   ==> OpensBefore(input, candidates, groups[a].key, groups[b].key)
  }

  ghost predicate KeepsOrder(groups: seq<MenuGroup>, g: MenuGroup) {
    exists h <- groups :: h.key == g.key && h.sortOrder == g.sortOrder
  }

  /** Kept items are remembered, so a key without a group has not been named before. */
  lemma {:induction false} KeptIsRemembered(input: Input, candidates: seq<Candidate>, i: nat, j: nat)
    requires j < i <= |candidates| && KeptItem(input, candidates[j]).Some?
    ensures KeptItem(input, candidates[j]).value in KeptItems(input, candidates[..i])
    decreases i
  {
    hide KeptItem;
    assert candidates[..i][..i - 1] == candidates[..i - 1];
    if j < i - 1 {
      KeptIsRemembered(input, candidates, i - 1, j);
    }
  }

  lemma OpensAt(input: Input, candidates: seq<Candidate>, i: nat, key: string, groups: seq<MenuGroup>)
    requires i < |candidates| && Names(KeptItem(input, candidates[i]), key)
    requires Grouped(KeptItems(input, candidates[..i]), groups) && !HasGroup(groups, key)
    ensures Opens(input, candidates, i, key)
  {
    hide KeptItem, KeptItems;
    forall j | 0 <= j < i ensures !Names(KeptItem(input, candidates[j]), key) {
      if KeptItem(input, candidates[j]).Some? {
        KeptIsRemembered(input, candidates, i, j);
      }
    }
  }

  lemma OrdersStay(input: Input, rows: Rows, candidates: seq<Candidate>, groups: seq<MenuGroup>, more: seq<MenuGroup>)
    requires OrderedByOpeners(input, rows, candidates, groups)
    requires forall g <- more | g.key !in rows :: KeepsOrder(groups, g) || OrderedByOpener(input, candidates, g)
    ensures OrderedByOpeners(input, rows, candidates, more)
  {
    hide Opens;
  }

  ghost predicate SameKeys(groups: seq<MenuGroup>, more: seq<MenuGroup>) {
    |groups| <= |more| && forall a | 0 <= a < |groups| :: more[a].key == groups[a].key
  }

  lemma {:induction false} KeptComesFrom(input: Input, candidates: seq<Candidate>, i: nat, item: Item)
    requires i <= |candidates| && item in KeptItems(input, candidates[..i])
    ensures exists j | 0 <= j < i :: KeptItem(input, candidates[j]) == Some(item)
    decreases i
  {
    hide KeptItem;
    if i > 0 {
      assert candidates[..i][..i - 1] == candidates[..i - 1];
      if item in KeptItems(input, candidates[..i - 1]) {
        KeptComesFrom(input, candidates, i - 1, item);
      } else {
        assert KeptItem(input, candidates[i - 1]) == Some(item);
      }
    }
  }

  lemma {:induction false} FirstOpens(input: Input, candidates: seq<Candidate>, j: nat, key: string) returns (i: nat)
    requires j < |candidates| && Names(KeptItem(input, candidates[j]), key)
    ensures i <= j && Opens(input, candidates, i, key)
  {
    hide KeptItem;
    i := j;
    if k :| 0 <= k < j && Names(KeptItem(input, candidates[k]), key) {
      i := FirstOpens(input, candidates, k, key);
    }
  }

  /** A group that is there was opened before the candidate that opens another one. */
  lemma OpenedBefore(input: Input, candidates: seq<Candidate>, i: nat, groups: seq<MenuGroup>, g: MenuGroup,
      key: string)
    requires i < |candidates| && g in groups && Grouped(KeptItems(input, candidates[..i]), groups)
    requires Opens(input, candidates, i, key)
    ensures OpensBefore(input, candidates, g.key, key)
  {
    hide KeptItem, KeptItems, Opens;
    var kept := KeptItems(input, candidates[..i]);
    WithKeyNames(kept, Some(g.key));
    var item :| item in kept && Named(item.groupKey) == Some(g.key);
    KeptComesFrom(input, candidates, i, item);
    var j: nat :| j < i && KeptItem(input, candidates[j]) == Some(item);
    var k := FirstOpens(input, candidates, j, g.key);
  }

  lemma OpeningOrderStays(input: Input, candidates: seq<Candidate>, i: nat, groups: seq<MenuGroup>,
      more: seq<MenuGroup>)
    requires i < |candidates| && KeptItem(input, candidates[i]).Some?
    requires Named(KeptItem(input, candidates[i]).value.groupKey).Some?
    requires Grouped(KeptItems(input, candidates[..i]), groups) && InOpeningOrder(input, candidates, groups)
    requires SameKeys(groups, more)
    requires var key := KeptItem(input, candidates[i]).value.groupKey.value;
      if HasGroup(groups, key) then |more| == |groups|
      else |more| == |groups| + 1 && more[|groups|].key == key
    ensures InOpeningOrder(input, candidates, more)
  {
    var key := KeptItem(input, candidates[i]).value.groupKey.value;
    hide KeptItem, KeptItems, Opens, Grouped, OpensBefore;
    if !HasGroup(groups, key) {
      OpensAt(input, candidates, i, key, groups);
      forall a | 0 <= a < |groups| ensures OpensBefore(input, candidates, more[a].key, key) {
        OpenedBefore(input, candidates, i, groups, groups[a], key);
      }
    }
  }

  method AddToGroup(rows: Rows, ghost items: seq<Item>, groups: seq<MenuGroup>, item: Item, fallbackOrder: int)
    returns (more: seq<MenuGroup>)
    requires Named(item.groupKey).Some? && Grouped(items, groups) && OrderedByRows(rows, groups)
    ensures Grouped(items + [item], more) && OrderedByRows(rows, more)
    ensures multiset(Flat(more)) == multiset(Flat(groups)) + multiset{item}
    ensures forall g <- more | g.key !in rows ::
      KeepsOrder(groups, g)
      || (g.sortOrder == fallbackOrder && Named(item.groupKey) == Some(g.key) && !HasGroup(groups, g.key))
    ensures if HasGroup(groups, item.groupKey.value) then |more| == |groups|
            else |more| == |groups| + 1 && more[|groups|].key == item.groupKey.value
    ensures SameKeys(groups, more)
  {
    hide Flat, Grouped;
    var key := item.groupKey.value;
    var at := FindGroup(groups, key);
    if at < |groups| {
      var order := if key in rows then rows[key].sortOrder else groups[at].sortOrder;
      var g := MenuGroup(key, order, groups[at].items + [item]);
      FlatUpdate(groups, at, g, multiset{item});
      JoinsGroup(items, groups, item, at, g);
      assert groups[at] in groups;
      assert forall h <- groups[at := g] :: h == g || h in groups;
      return groups[at := g];
    }
    var g := MenuGroup(key, if key in rows then rows[key].sortOrder else fallbackOrder, [item]);
    FlatAppend(groups, g);
    OpensGroup(items, groups, item, g);
    return groups + [g];
  }

  /** The candidate loop: each kept item goes to the standalone list or to its group, once. */
  method GroupItems(input: Input, rows: Rows, candidates: seq<Candidate>)
    returns (standalone: seq<Item>, groups: seq<MenuGroup>)
    requires rows == RowsOf(input.directory)
    ensures var kept := KeptItems(input, candidates);
      && multiset(standalone) + multiset(Flat(groups)) == multiset(kept)
      && standalone == WithKey(kept, None) && Grouped(kept, groups)
    ensures OrderedByRows(rows, groups) && OrderedByOpeners(input, rows, candidates, groups)
    ensures InOpeningOrder(input, candidates, groups)
  {
    hide Grouped, InOpeningOrder, SameKeys, OrderedByRows, OrderedByOpener, OrderedByOpeners, KeepsOrder, HasGroup;
    hide KeptItem, KeptItems, Flat, RowsOf, WithKey;
    standalone, groups := [], [];
    NoGroups(input, rows, candidates);
    NothingKept(input, candidates);
    ghost var kept: seq<Item> := [];
    for i := 0 to |candidates|
      invariant kept == KeptItems(input, candidates[..i])
      invariant multiset(standalone) + multiset(Flat(groups)) == multiset(kept)
      invariant standalone == WithKey(kept, None) && Grouped(kept, groups) && OrderedByRows(rows, groups)
      invariant OrderedByOpeners(input, rows, candidates, groups) && InOpeningOrder(input, candidates, groups)
    {
      KeptOneMore(input, candidates, i);
      var item := KeepCandidate(input, rows, candidates[i]);
      if item.Some? {
        WithKeyOneMore(kept, item.value, None);
        if Named(item.value.groupKey).None? {
          standalone := standalone + [item.value];
          StandsAlone(kept, groups, item.value);
        } else {
          ghost var before := groups;
          groups := AddToGroup(rows, kept, groups, item.value, candidates[i].groupSortOrder);
          OpenersStay(input, rows, candidates, i, before, groups);
          OpeningOrderStays(input, candidates, i, before, groups);
        }
        kept := kept + [item.value];
      }
    }
    assert candidates[..|candidates|] == candidates;
  }

  lemma OpenersStay(input: Input, rows: Rows, candidates: seq<Candidate>, i: nat, groups: seq<MenuGroup>,
      more: seq<MenuGroup>)
    requires i < |candidates| && KeptItem(input, candidates[i]).Some?
    requires Grouped(KeptItems(input, candidates[..i]), groups) && OrderedByOpeners(input, rows, candidates, groups)
    requires var item := KeptItem(input, candidates[i]).value;
      forall g <- more | g.key !in rows ::
        KeepsOrder(groups, g)
        || (g.sortOrder == candidates[i].groupSortOrder && Named(item.groupKey) == Some(g.key) && !HasGroup(groups, g.key))
    ensures OrderedByOpeners(input, rows, candidates, more)
  {
    hide KeptItem, KeptItems, Grouped, HasGroup, KeepsOrder, OrderedByOpeners, Opens;
    forall g <- more | g.key !in rows ensures KeepsOrder(groups, g) || OrderedByOpener(input, candidates, g) {
      if !KeepsOrder(groups, g) {
        OpensAt(input, candidates, i, g.key, groups);
      }
    }
    OrdersStay(input, rows, candidates, groups, more);
  }

  lemma NoGroups(input: Input, rows: Rows, candidates: seq<Candidate>)
    ensures Grouped([], []) && OrderedByRows(rows, []) && Flat([]) == [] && WithKey([], None) == []
    ensures OrderedByOpeners(input, rows, candidates, []) && InOpeningOrder(input, candidates, [])
  {
  }

  lemma NothingKept(input: Input, candidates: seq<Candidate>)
    ensures KeptItems(input, candidates[..0]) == []
  {
  }

  lemma KeptOneMore(input: Input, candidates: seq<Candidate>, i: nat)
    requires i < |candidates|
    ensures var kept := KeptItem(input, candidates[i]);
      KeptItems(input, candidates[..i + 1]) ==
      KeptItems(input, candidates[..i]) + if kept.Some? then [kept.value] else []
  {
    assert candidates[..i + 1][..i] == candidates[..i];
  }

  function ItemsSorted(leq: Collation, groups: seq<MenuGroup>): (sorted: seq<MenuGroup>)
    ensures |sorted| == |groups|
    ensures forall i | 0 <= i < |groups| :: sorted[i] == groups[i].(items := SortBy(groups[i].items, ItemLe(leq)))
  {
    if groups == [] then []
    else [groups[0].(items := SortBy(groups[0].items, ItemLe(leq)))] + ItemsSorted(leq, groups[1..])
  }

  /** Sorts the groups, then the items of each. */
  method SortGroups(leq: Collation, groups: seq<MenuGroup>) returns (sorted: seq<MenuGroup>)
    requires TotalPreorder(leq)
    ensures sorted == ItemsSorted(leq, SortBy(groups, GroupLe(leq)))
    ensures SortedBy(sorted, GroupLe(leq)) && forall g <- sorted :: SortedBy(g.items, ItemLe(leq))
    ensures multiset(Flat(sorted)) == multiset(Flat(groups))
  {
    hide SortBy, Flat, TotalPreorder, ItemLe, Reordered;
    OrdersArePreorders(leq, map[], []);
    SortByIsSorted(groups, GroupLe(leq));
    sorted := SortBy(groups, GroupLe(leq));
    ghost var ordered := sorted;
    SameMembers(groups, sorted, GroupLe(leq));
    FlatIsMultiset(groups, sorted);
    for i := 0 to |sorted|
      invariant |sorted| == |ordered| && SortedBy(sorted, GroupLe(leq))
      invariant multiset(Flat(sorted)) == multiset(Flat(groups))
      invariant forall j | 0 <= j < i :: sorted[j] == ordered[j].(items := SortBy(ordered[j].items, ItemLe(leq)))
      invariant forall j | i <= j < |sorted| :: sorted[j] == ordered[j]
      invariant forall j | 0 <= j < i :: SortedBy(sorted[j].items, ItemLe(leq))
    {
      var items := SortBy(sorted[i].items, ItemLe(leq));
      SortByIsSorted(sorted[i].items, ItemLe(leq));
      SameMembers(sorted[i].items, items, ItemLe(leq));
      FlatUpdate(sorted, i, sorted[i].(items := items), multiset{});
      sorted := sorted[i := sorted[i].(items := items)];
    }
    assert sorted == ItemsSorted(leq, ordered);
  }

  lemma SortedGroupsHold(leq: Collation, rows: Rows, items: seq<Item>, groups: seq<MenuGroup>)
    requires TotalPreorder(leq) && Grouped(items, groups) && OrderedByRows(rows, groups)
    ensures var sorted := ItemsSorted(leq, SortBy(groups, GroupLe(leq)));
      && GroupedInOrder(leq, items, sorted) && OrderedByRows(rows, sorted)
      && forall g <- sorted :: KeepsOrder(groups, g)
  {
    hide SortBy, TotalPreorder, ItemLe, WithKey, ItemsSorted, GroupLe, SortedBy, Ties;
    OrdersArePreorders(leq, map[], []);
    SortByIsSorted(groups, GroupLe(leq));
    var ordered := SortBy(groups, GroupLe(leq));
    var sorted := ItemsSorted(leq, ordered);
    DistinctStays(groups, ordered);
    KeysStayDistinct(groups, ordered);
    forall g <- sorted
      ensures g.items == SortBy(WithKey(items, Some(g.key)), ItemLe(leq)) && g.items != []
      ensures g.key in rows ==> g.sortOrder == rows[g.key].sortOrder
      ensures KeepsOrder(groups, g)
    {
      var i :| 0 <= i < |sorted| && sorted[i] == g;
      assert ordered[i] in ordered;
      assert ordered[i] in groups;
      SortByIsSorted(ordered[i].items, ItemLe(leq));
      assert |multiset(g.items)| == |multiset(ordered[i].items)|;
    }
    forall key: string | HasGroup(groups, key) ensures HasGroup(sorted, key) {
      var g :| g in groups && g.key == key;
      assert g in ordered;
      var i :| 0 <= i < |ordered| && ordered[i] == g;
      assert sorted[i] in sorted;
    }
  }

  lemma SortKeepsOpeningOrder(input: Input, leq: Collation, candidates: seq<Candidate>, groups: seq<MenuGroup>)
    requires TotalPreorder(leq) && InOpeningOrder(input, candidates, groups)
    ensures TiesInOpeningOrder(input, leq, candidates, ItemsSorted(leq, SortBy(groups, GroupLe(leq))))
  {
    hide SortBy, TotalPreorder, ItemsSorted, Ties, OpensBefore;
    var ordered := SortBy(groups, GroupLe(leq));
    var sorted := ItemsSorted(leq, ordered);
    OrdersArePreorders(leq, map[], []);
    SortByIsSorted(groups, GroupLe(leq));
    forall a, b | 0 <= a < b < |sorted| && sorted[a].sortOrder == sorted[b].sortOrder
                  && leq(sorted[b].key, sorted[a].key)
      ensures OpensBefore(input, candidates, sorted[a].key, sorted[b].key)
    {
      assert GroupLe(leq)(ordered[a], ordered[b]) && GroupLe(leq)(ordered[b], ordered[a]);
      TiesStoodSo(groups, ordered, GroupLe(leq), a, b);
    }
  }

  /** Reordering groups cannot make two of them share a key. */
  lemma KeysStayDistinct(a: seq<MenuGroup>, b: seq<MenuGroup>)
    requires DistinctKeys(a) && multiset(a) == multiset(b)
    ensures DistinctKeys(b)
  {
    DistinctStays(a, b);
    forall i, j | 0 <= i < j < |b| ensures b[i].key != b[j].key {
      assert b[i] in a && b[j] in a;
    }
  }

  /** The homes at which the items were placed are their groups, where the directory has them. */
  ghost predicate HomesOf(rows: Rows, items: seq<Item>, homes: seq<Owner>) {
    |homes| == |items| && forall i | 0 <= i < |items| :: homes[i] == Home(rows, items[i])
  }

  lemma KeptItemsHaveGoodHomes(input: Input, candidates: seq<Candidate>, item: Item)
    requires item in KeptItems(input, candidates)
    ensures var rows := RowsOf(input.directory);
      Home(rows, item).Some? ==> Good(Directory(rows, input.authoritative), item.groupKey.value)
  {
    var last := |candidates| - 1;
    if KeptItem(input, candidates[last]) == Some(item) {
      KeptHomeIsGood(input, candidates[last]);
    } else {
      KeptItemsHaveGoodHomes(input, candidates[..last], item);
    }
  }

  /** Places the items in order in a new tree. */
  method PlaceItems(input: Input, leq: Collation, rows: Rows, items: seq<Item>) returns (tree: MenuTree)
    requires TotalPreorder(leq)
    requires forall item <- items | Home(rows, item).Some? ::
      Good(Directory(rows, input.authoritative), item.groupKey.value)
    ensures fresh(tree) && tree.Valid() && tree.d == Directory(rows, input.authoritative)
    ensures tree.le == NodeLe(leq, rows, items) && HomesOf(rows, items, tree.homes)
  {
    hide Good, Placed, TotalPreorder, NodeLe;
    OrdersArePreorders(leq, rows, items);
    tree := new MenuTree(Directory(rows, input.authoritative), NodeLe(leq, rows, items));
    for i := 0 to |items|
      invariant fresh(tree) && tree.Valid()
      invariant HomesOf(rows, items[..i], tree.homes)
    {
      assert items[i] in items;
      var home := tree.PlaceItem(items[i].groupKey);
      assert home == Home(rows, items[i]);
    }
    assert items[..|items|] == items;
  }

  /**
   * The whole builder. The tree is a finite forest over the kept items: each is placed once,
   * at the root or below its group, which stands below its available ancestors in order; and
   * every list of siblings is sorted.
   */
  method BuildMenuNavigation(input: Input, leq: Collation)
    returns (candidates: seq<Candidate>, standalone: seq<Item>, groups: seq<MenuGroup>, tree: MenuTree)
    requires TotalPreorder(leq)
    ensures input.candidates <= candidates
    ensures Completes(input, input.directory, candidates[|input.candidates|..])
    ensures multiset(standalone + Flat(groups)) == multiset(KeptItems(input, candidates))
    ensures standalone == SortBy(WithKey(KeptItems(input, candidates), None), ItemLe(leq))
    ensures GroupedInOrder(leq, KeptItems(input, candidates), groups) && OrderedByRows(RowsOf(input.directory), groups)
    ensures OrderedByOpeners(input, RowsOf(input.directory), candidates, groups)
    ensures TiesInOpeningOrder(input, leq, candidates, groups)
    ensures SortedBy(standalone, ItemLe(leq)) && SortedBy(groups, GroupLe(leq))
    ensures forall g <- groups :: SortedBy(g.items, ItemLe(leq))
    ensures fresh(tree) && tree.Valid() && tree.d == Directory(RowsOf(input.directory), input.authoritative)
    ensures HomesOf(tree.d.rows, standalone + Flat(groups), tree.homes)
    ensures SortedUnder(tree.View(), NodeLe(leq, tree.d.rows, standalone + Flat(groups)), None)
    ensures Belong(tree.View(), tree.homes, None, tree.tree)
    ensures forall id: nat | id < |tree.homes| ::
      multiset(Leaves(tree.View(), tree.homes, None, tree.tree))[id] == 1
  {
    hide Completes, Placed, TotalPreorder, SortedBy, Flat, KeptItems, Good, SortedUnder, SortBy, RowsOf, Leaves;
    hide HomesOf, Belong, NodeLe, ItemLe, GroupLe, OrderedByRows, Grouped, GroupedInOrder, WithKey, Reordered;
    hide SortedFrom, InOpeningOrder, TiesInOpeningOrder, OrderedByOpener, OrderedByOpeners, KeepsOrder;
    var rows := IndexRows(input.directory);
    var dynamic := CompleteCandidates(input);
    candidates := input.candidates + dynamic;
    assert candidates[|input.candidates|..] == dynamic;
    standalone, groups := GroupItems(input, rows, candidates);
    OrdersArePreorders(leq, rows, []);
    SortByIsSorted(standalone, ItemLe(leq));
    SameMembers(standalone, SortBy(standalone, ItemLe(leq)), ItemLe(leq));
    standalone := SortBy(standalone, ItemLe(leq));
    SortedGroupsHold(leq, rows, KeptItems(input, candidates), groups);
    ghost var unsorted := groups;
    groups := SortGroups(leq, groups);
    OrdersStay(input, rows, candidates, unsorted, groups);
    SortKeepsOpeningOrder(input, leq, candidates, unsorted);
    var items := standalone + Flat(groups);
    forall item <- items ensures Home(rows, item).Some? ==>
      Good(Directory(rows, input.authoritative), item.groupKey.value)
    {
      assert item in multiset(items);
      assert item in KeptItems(input, candidates);
      KeptItemsHaveGoodHomes(input, candidates, item);
    }
    tree := PlaceItems(input, leq, rows, items);
    tree.SortTree(None);
    ListBelongs(tree.View(), tree.homes, None);
    forall id: nat | id < |tree.homes|
      ensures multiset(Leaves(tree.View(), tree.homes, None, tree.tree))[id] == 1
    {
      ForestHoldsEveryLeafOnce(tree.View(), tree.homes, id);
    }
  }
}

/**
 * The files of the fence store and what a crash may leave of them: one target, one
 * temporary and per-generation commit shadows for each activation.
 */
module FenceDisk {
  import opened Basics
  import opened FenceRecord
  import opened FenceHistory

  datatype File =
    | TargetFile(id: string)
    | TemporaryFile(id: string)
    | CommitFile(id: string, generation: int)

  type Disk = map<File, Record>

  function Id(r: Record): string {
    r.data.activationId
  }

  function NextGeneration(d: Disk, a: string): int {
    if TargetFile(a) in d then d[TargetFile(a)].generation + 1 else 1
  }

  /** The durable head: a pending commit shadow counts as applied. */
  function Head(d: Disk, a: string): Option<Record> {
    var pending := CommitFile(a, NextGeneration(d, a));
    if pending in d then Some(d[pending])
    else if TargetFile(a) in d then Some(d[TargetFile(a)])
    else None
  }

  function Ids(d: Disk): set<string> {
    set f <- d :: f.id
  }

  function HeadsOf(d: Disk): Heads {
    map a | a in Ids(d) && Head(d, a).Some? :: Head(d, a).value
  }

  ghost predicate OwnFilesValid(d: Disk, a: string) {
    forall f <- d :: f.id == a ==>
      && ValidRecord(d[f])
      && Id(d[f]) == a
      && (f.CommitFile? ==> d[f].generation == f.generation)
  }

  /** Every state of activation `a` that the protocol can leave behind. */
  ghost predicate Sound(d: Disk, a: string) {
    && OwnFilesValid(d, a)
    && var next := NextGeneration(d, a);
    && (TemporaryFile(a) in d ==>
          CommitFile(a, next) in d && d[TemporaryFile(a)] == d[CommitFile(a, next)])
    && if TargetFile(a) in d then
         var target := d[TargetFile(a)];
         && (forall g: int :: CommitFile(a, g) in d ==> target.generation - 1 <= g <= next)
         && (CommitFile(a, target.generation) in d ==> d[CommitFile(a, target.generation)] == target)
         && (CommitFile(a, target.generation - 1) in d ==>
               ValidSuccessor(d[CommitFile(a, target.generation - 1)], target))
         && (CommitFile(a, next) in d ==>
               && ValidSuccessor(target, d[CommitFile(a, next)])
               && CommitFile(a, target.generation - 1) !in d)
       else
         && (forall g: int :: CommitFile(a, g) in d ==> g == 1)
         && (CommitFile(a, 1) in d ==> Active(d[CommitFile(a, 1)]))
  }

  /** `record` has reached the target file and nothing newer is pending. */
  ghost predicate Landed(d: Disk, record: Record) {
    && Sound(d, Id(record))
    && TargetFile(Id(record)) in d
    && d[TargetFile(Id(record))] == record
    && CommitFile(Id(record), record.generation + 1) !in d
  }

  /** `record` is the target and at most its own commit shadow remains. */
  ghost predicate Settled(d: Disk, record: Record) {
    && Landed(d, record)
    && CommitFile(Id(record), record.generation - 1) !in d
  }

  ghost predicate NoFiles(d: Disk, a: string) {
    forall f <- d :: f.id != a
  }

  /** What a completed repair leaves. */
  ghost predicate Repaired(d: Disk, a: string) {
    if TargetFile(a) in d then Id(d[TargetFile(a)]) == a && Settled(d, d[TargetFile(a)]) else NoFiles(d, a)
  }

  /** A repaired activation may take `next` as its following generation. */
  ghost predicate Ready(d: Disk, next: Record) {
    && ValidRecord(next)
    && Repaired(d, Id(next))
    && if TargetFile(Id(next)) in d then ValidSuccessor(d[TargetFile(Id(next))], next)
       else next.generation == 1 && Active(next)
  }

  /** The commit shadow of `next` exists and the target does not hold it yet. */
  ghost predicate Pending(d: Disk, next: Record) {
    && Sound(d, Id(next))
    && next.generation == NextGeneration(d, Id(next))
    && CommitFile(Id(next), next.generation) in d
    && d[CommitFile(Id(next), next.generation)] == next
  }

  ghost predicate OthersSame(d: Disk, e: Disk, a: string) {
    forall f: File :: f.id != a ==> (f in d <==> f in e) && (f in d ==> e[f] == d[f])
  }

  lemma OtherActivation(d: Disk, e: Disk, a: string, b: string)
    requires OthersSame(d, e, a) && a != b
    ensures Head(e, b) == Head(d, b)
    ensures Sound(d, b) ==> Sound(e, b)
    ensures Repaired(d, b) ==> Repaired(e, b)
    ensures TargetOf(e, b) == TargetOf(d, b)
    ensures b in Ids(d) <==> b in Ids(e)
  {
    hide ValidRecord, ValidSuccessor, Sound, Repaired, Ids;
    assert NextGeneration(e, b) == NextGeneration(d, b);
    OthersStaySound(d, e, a, b);
    if Repaired(d, b) {
      OthersStayRepaired(d, e, a, b);
    }
    OthersKeepFiles(d, e, a, b);
  }

  lemma OthersStaySound(d: Disk, e: Disk, a: string, b: string)
    requires OthersSame(d, e, a) && a != b
    ensures Sound(d, b) ==> Sound(e, b)
  {
    hide ValidRecord, ValidSuccessor;
    assert NextGeneration(e, b) == NextGeneration(d, b);
  }

  lemma OthersStayRepaired(d: Disk, e: Disk, a: string, b: string)
    requires OthersSame(d, e, a) && a != b && Repaired(d, b)
    ensures Repaired(e, b)
  {
    hide Sound;
    OthersStaySound(d, e, a, b);
  }

  lemma OthersKeepFiles(d: Disk, e: Disk, a: string, b: string)
    requires OthersSame(d, e, a) && a != b
    ensures b in Ids(d) <==> b in Ids(e)
  {
    if b in Ids(d) {
      var f :| f in d && f.id == b;
      assert f in e;
    }
    if b in Ids(e) {
      var f :| f in e && f.id == b;
      assert f in d;
    }
  }

  /** Changing only the files of `a` changes at most the head of `a`. */
  lemma HeadsFrame(d: Disk, e: Disk, a: string)
    requires OthersSame(d, e, a)
    ensures Head(e, a) == Head(d, a) ==> HeadsOf(e) == HeadsOf(d)
    ensures forall r :: Head(e, a) == Some(r) ==> HeadsOf(e) == HeadsOf(d)[a := r]
  {
    hide Head, HeadsOf;
    var x, y := HeadsOf(d), HeadsOf(e);
    forall b
      ensures b != a ==> Lookup(y, b) == Lookup(x, b)
      ensures Lookup(x, b) == Head(d, b) && Lookup(y, b) == Head(e, b)
    {
      HeadsAt(d, b);
      HeadsAt(e, b);
      if b != a {
        OtherActivation(d, e, a, b);
      }
    }
    SameLookups(x, y, a);
  }

  lemma SameLookups(x: Heads, y: Heads, a: string)
    requires forall b :: b != a ==> Lookup(y, b) == Lookup(x, b)
    ensures Lookup(y, a) == Lookup(x, a) ==> y == x
    ensures forall r :: Lookup(y, a) == Some(r) ==> y == x[a := r]
  {
    forall b ensures b != a ==> (b in x <==> b in y) && (b in x ==> x[b] == y[b]) {
      assert b != a ==> Lookup(y, b) == Lookup(x, b);
    }
  }

  lemma HeadsAt(d: Disk, a: string)
    ensures Lookup(HeadsOf(d), a) == Head(d, a)
  {
    if Head(d, a).Some? {
      var f := if CommitFile(a, NextGeneration(d, a)) in d then CommitFile(a, NextGeneration(d, a)) else TargetFile(a);
      assert f in d && f.id == a;
    }
  }

  lemma LandedHead(d: Disk, record: Record)
    requires Landed(d, record)
    ensures Head(d, Id(record)) == Some(record)
    ensures TemporaryFile(Id(record)) !in d
  {
  }

  lemma PendingHead(d: Disk, next: Record)
    requires Pending(d, next)
    ensures Head(d, Id(next)) == Some(next)
    ensures TemporaryFile(Id(next)) in d ==> d[TemporaryFile(Id(next))] == next
  {
  }

  // The effect of each kind of file step on the states above.

  lemma CommitStep(d: Disk, next: Record)
    requires Ready(d, next)
    ensures CommitFile(Id(next), next.generation) !in d
    ensures TemporaryFile(Id(next)) !in d
    ensures Sound(d, Id(next))
    ensures Pending(d[CommitFile(Id(next), next.generation) := next], next)
  {
  }

  lemma TemporaryStep(d: Disk, next: Record)
    requires Pending(d, next)
    ensures Pending(d[TemporaryFile(Id(next)) := next], next)
  {
  }

  lemma RenameStep(d: Disk, next: Record)
    requires Pending(d, next)
    ensures Landed(d[TargetFile(Id(next)) := next] - {TemporaryFile(Id(next))}, next)
  {
  }

  lemma RemoveCommitStep(d: Disk, record: Record, generation: int)
    requires Landed(d, record)
    ensures Landed(d - {CommitFile(Id(record), generation)}, record)
    ensures Settled(d, record) ==> Settled(d - {CommitFile(Id(record), generation)}, record)
  {
  }

  lemma MarkerStep(d: Disk, record: Record)
    requires Landed(d, record)
    ensures Landed(d[CommitFile(Id(record), record.generation) := record], record)
    ensures Settled(d, record) ==> Settled(d[CommitFile(Id(record), record.generation) := record], record)
  {
  }

  // ---- The recovery decision ----

  datatype Recovery = Broken | Settle | RollForward(record: Record)

  ghost predicate Ascending(s: seq<Record>) {
    forall i, j :: 0 <= i < j < |s| ==> s[i].generation < s[j].generation
  }

  /** Adds a surviving file to the candidates, kept by generation; None on a same-generation branch. */
  function AddRecoveryState(states: seq<Record>, r: Record): Option<seq<Record>> {
    if states == [] || r.generation < states[0].generation then Some([r] + states)
    else if r.generation == states[0].generation then
      if states[0] == r then Some(states) else None
    else
      match AddRecoveryState(states[1..], r)
      case None => None
      case Some(rest) => Some([states[0]] + rest)
  }

  /** The candidates of a generation below `g`. */
  function Older(ordered: seq<Record>, g: int): seq<Record> {
    if ordered == [] || ordered[0].generation >= g then [] else [ordered[0]] + Older(ordered[1..], g)
  }

  predicate Linked(s: seq<Record>) {
    |s| <= 1 || (ValidSuccessor(s[0], s[1]) && Linked(s[1..]))
  }

  /** Follows the candidates newer than `cursor`; None when one is no valid successor. */
  function Forward(cursor: Record, ordered: seq<Record>): Option<Record>
    decreases |ordered|
  {
    if ordered == [] then Some(cursor)
    else if ordered[0].generation <= cursor.generation then Forward(cursor, ordered[1..])
    else if !ValidSuccessor(cursor, ordered[0]) then None
    else Forward(ordered[0], ordered[1..])
  }

  /** Whether a candidate of the target's own generation is missing or equal to it. */
  predicate SameGenerationAgrees(ordered: seq<Record>, target: Record) {
    forall r <- ordered :: r.generation == target.generation ==> r == target
  }

  /** The source's decision over the target, the commit shadows and the temporary file. */
  function DecideRecovery(target: Option<Record>, commits: seq<Record>, temporary: Option<Record>): Recovery {
    var candidates := if temporary.None? then Some(commits) else AddRecoveryState(commits, temporary.value);
    if candidates.None? then Broken
    else
      var ordered := candidates.value;
      if target.None? then
        if |ordered| != 1 || ordered[0].generation != 1 || !Active(ordered[0]) then Broken
        else RollForward(ordered[0])
      else
        var t := target.value;
        var older := Older(ordered, t.generation);
        if !SameGenerationAgrees(ordered, t) then Broken
        else if older != [] && (!Linked(older) || !ValidSuccessor(older[|older| - 1], t)) then Broken
        else
          match Forward(t, ordered)
          case None => Broken
          case Some(cursor) => if cursor.generation > t.generation then RollForward(cursor) else Settle
  }

  lemma {:induction false} AddKeepsOrder(states: seq<Record>, r: Record)
    requires Ascending(states)
    ensures AddRecoveryState(states, r).None? <==>
      exists x <- states :: x.generation == r.generation && x != r
    ensures AddRecoveryState(states, r).Some? ==>
      var all := AddRecoveryState(states, r).value;
      && Ascending(all)
      && (forall x :: x in all <==> x in states || x == r)
  {
    if states != [] && r.generation > states[0].generation {
      AddKeepsOrder(states[1..], r);
      assert states == [states[0]] + states[1..];
      if AddRecoveryState(states, r).Some? {
        var rest := AddRecoveryState(states[1..], r).value;
        forall x <- rest ensures states[0].generation < x.generation {
          assert x in states[1..] || x == r;
        }
      }
    }
  }

  lemma {:induction false} OlderOf(ordered: seq<Record>, g: int)
    requires Ascending(ordered)
    ensures Older(ordered, g) <= ordered
    ensures forall x <- Older(ordered, g) :: x.generation < g
    ensures forall i :: |Older(ordered, g)| <= i < |ordered| ==> ordered[i].generation >= g
  {
    if ordered != [] && ordered[0].generation < g {
      OlderOf(ordered[1..], g);
    }
  }

  lemma {:induction false} LinkedIsChain(s: seq<Record>)
    ensures Linked(s) <==> Chain(s)
  {
    if |s| > 1 {
      LinkedIsChain(s[1..]);
      if Linked(s) {
        ChainPrepend(s[0], s[1..]);
        assert [s[0]] + s[1..] == s;
      }
      if Chain(s) {
        forall i | 0 <= i < |s[1..]| - 1 ensures ValidSuccessor(s[1..][i], s[1..][i + 1]) {
          assert ValidSuccessor(s[i + 1], s[i + 2]);
        }
        assert ValidSuccessor(s[0], s[1]);
      }
    }
  }

  lemma {:induction false} ForwardFollows(cursor: Record, newer: seq<Record>)
    requires Ascending([cursor] + newer)
    ensures Forward(cursor, newer) ==
      if Linked([cursor] + newer) then Some(([cursor] + newer)[|newer|]) else None
    decreases |newer|
  {
    if newer != [] {
      var s := [cursor] + newer;
      assert newer[0] == s[1] && s[1..] == newer == [newer[0]] + newer[1..];
      ForwardFollows(newer[0], newer[1..]);
    }
  }

  /** The records present, in order, with the target put in its place. */
  lemma {:induction false} PutTargetInPlace(ordered: seq<Record>, t: Record, all: seq<Record>)
    requires Ascending(ordered)
    requires AddRecoveryState(ordered, t) == Some(all)
    ensures var older := Older(ordered, t.generation);
      && older <= all
      && |older| < |all|
      && all[|older|] == t
      && Forward(t, ordered) == Forward(t, all[|older| + 1..])
  {
    hide ValidSuccessor;
    if ordered != [] && ordered[0].generation < t.generation {
      var rest := AddRecoveryState(ordered[1..], t).value;
      PutTargetInPlace(ordered[1..], t, rest);
      var k := |Older(ordered[1..], t.generation)|;
      assert all == [ordered[0]] + rest;
      assert all[k + 2..] == rest[k + 1..];
    } else if ordered != [] && ordered[0].generation == t.generation {
      assert all == ordered;
    } else {
      assert all[1..] == ordered;
    }
  }

  /**
   * The recovery decision refines its plain meaning. With a target present it rolls forward
   * or settles exactly when the surviving records, target included, form one unbroken chain
   * of valid successors, and then it picks the last of them; otherwise it reports corruption.
   */
  lemma RecoveryIsChainCheck(target: Record, commits: seq<Record>, temporary: Option<Record>)
    requires Ascending(commits)
    ensures
      var candidates := if temporary.None? then Some(commits) else AddRecoveryState(commits, temporary.value);
      var all := if candidates.None? then None else AddRecoveryState(candidates.value, target);
      DecideRecovery(Some(target), commits, temporary) ==
        if all.None? || !Chain(all.value) then Broken
        else
          var last := all.value[|all.value| - 1];
          if last.generation > target.generation then RollForward(last) else Settle
  {
    var candidates := if temporary.None? then Some(commits) else AddRecoveryState(commits, temporary.value);
    if temporary.Some? {
      AddKeepsOrder(commits, temporary.value);
    }
    if candidates.Some? {
      DecisionOverOrdered(target, candidates.value);
    }
  }

  predicate Survives(commits: seq<Record>, temporary: Option<Record>, x: Record) {
    x in commits || temporary == Some(x)
  }

  /** Every surviving file is this record. */
  ghost predicate OnlySurvivor(commits: seq<Record>, temporary: Option<Record>, r: Record) {
    Survives(commits, temporary, r) && forall x | Survives(commits, temporary, x) :: x == r
  }

  /**
   * Without a target it rolls forward exactly to a live first generation that every surviving
   * file agrees on; anything else is corruption.
   */
  lemma RecoveryWithoutTarget(commits: seq<Record>, temporary: Option<Record>)
    requires Ascending(commits)
    ensures
      var decision := DecideRecovery(None, commits, temporary);
      && !decision.Settle?
      && forall r :: decision == RollForward(r) <==>
           OnlySurvivor(commits, temporary, r) && r.generation == 1 && Active(r)
  {
    hide Active, AddRecoveryState, Ascending, OnlySurvivor;
    var candidates := if temporary.None? then Some(commits) else AddRecoveryState(commits, temporary.value);
    if candidates.None? {
      AddKeepsOrder(commits, temporary.value);
      TwoSurvivors(commits, temporary.value);
    } else {
      CandidatesSurvive(commits, temporary, candidates.value);
      OneSurvivor(commits, temporary, candidates.value);
    }
  }

  lemma TwoSurvivors(commits: seq<Record>, t: Record)
    requires exists x <- commits :: x.generation == t.generation && x != t
    ensures forall r :: !OnlySurvivor(commits, Some(t), r)
  {
    var y :| y in commits && y != t;
    assert Survives(commits, Some(t), y) && Survives(commits, Some(t), t);
  }

  lemma CandidatesSurvive(commits: seq<Record>, temporary: Option<Record>, ordered: seq<Record>)
    requires Ascending(commits)
    requires Some(ordered) == if temporary.None? then Some(commits) else AddRecoveryState(commits, temporary.value)
    ensures Ascending(ordered) && forall x :: x in ordered <==> Survives(commits, temporary, x)
  {
    hide AddRecoveryState, Ascending;
    if temporary.Some? {
      AddKeepsOrder(commits, temporary.value);
    }
  }

  /** The candidates are the survivors, so one candidate is one survivor. */
  lemma OneSurvivor(commits: seq<Record>, temporary: Option<Record>, ordered: seq<Record>)
    requires Ascending(ordered) && forall x :: x in ordered <==> Survives(commits, temporary, x)
    ensures forall r :: ordered == [r] <==> OnlySurvivor(commits, temporary, r)
  {
    hide Survives;
    forall r ensures ordered == [r] <==> OnlySurvivor(commits, temporary, r) {
      if ordered == [r] {
        assert r in ordered;
        assert forall x | Survives(commits, temporary, x) :: x in ordered;
      }
      if OnlySurvivor(commits, temporary, r) {
        assert r in ordered;
        var n := |ordered| - 1;
        assert ordered[0] in ordered && ordered[n] in ordered;
        assert n == 0;
      }
    }
  }

  function DecideOver(t: Record, ordered: seq<Record>): Recovery {
    DecideRecovery(Some(t), ordered, None)
  }

  lemma DecisionOverOrdered(t: Record, ordered: seq<Record>)
    requires Ascending(ordered)
    ensures var all := AddRecoveryState(ordered, t);
      DecideOver(t, ordered) ==
        if all.None? || !Chain(all.value) then Broken
        else
          var last := all.value[|all.value| - 1];
          if last.generation > t.generation then RollForward(last) else Settle
  {
    hide ValidSuccessor, Chain, Linked, Forward, Older, AddRecoveryState;
    AddKeepsOrder(ordered, t);
    if SameGenerationAgrees(ordered, t) {
      var all := AddRecoveryState(ordered, t).value;
      var older := Older(ordered, t.generation);
      var k := |older|;
      PutTargetInPlace(ordered, t, all);
      var newer := all[k + 1..];
      assert [t] + newer == all[k..];
      ForwardFollows(t, newer);
      LinkedIsChain(older);
      LinkedIsChain([t] + newer);
      ChainSplit(all, k);
      assert all[..k] == older;
    }
  }

  lemma ChainSplit(all: seq<Record>, k: nat)
    requires k < |all|
    ensures Chain(all) <==>
      Chain(all[..k]) && Chain(all[k..]) && (k > 0 ==> ValidSuccessor(all[k - 1], all[k]))
  {
    if Chain(all[..k]) && Chain(all[k..]) && (k > 0 ==> ValidSuccessor(all[k - 1], all[k])) {
      forall i | 0 <= i < |all| - 1 ensures ValidSuccessor(all[i], all[i + 1]) {
        if i < k - 1 {
          assert ValidSuccessor(all[..k][i], all[..k][i + 1]);
        } else if i >= k {
          assert ValidSuccessor(all[k..][i - k], all[k..][i - k + 1]);
        }
      }
    }
    if Chain(all) {
      forall i | 0 <= i < k - 1 ensures ValidSuccessor(all[..k][i], all[..k][i + 1]) {
        assert ValidSuccessor(all[i], all[i + 1]);
      }
      forall i | 0 <= i < |all| - k - 1 ensures ValidSuccessor(all[k..][i], all[k..][i + 1]) {
        assert ValidSuccessor(all[k + i], all[k + i + 1]);
      }
    }
  }

  /** The commit shadows of `a`, read in generation order. */
  ghost predicate CommitsAre(d: Disk, a: string, commits: seq<Record>) {
    && Ascending(commits)
    && (forall r <- commits :: CommitFile(a, r.generation) in d && d[CommitFile(a, r.generation)] == r)
    && (forall g: int :: CommitFile(a, g) in d ==> d[CommitFile(a, g)] in commits)
  }

  function TargetOf(d: Disk, a: string): Option<Record> {
    if TargetFile(a) in d then Some(d[TargetFile(a)]) else None
  }

  function TemporaryOf(d: Disk, a: string): Option<Record> {
    if TemporaryFile(a) in d then Some(d[TemporaryFile(a)]) else None
  }

  /**
   * Crash recovery never reports corruption: on every state the protocol can leave, the
   * decision rolls forward to the pending commit shadow when there is one and otherwise
   * settles the target.
   */
  lemma RecoveryNeverBroken(d: Disk, a: string, commits: seq<Record>)
    requires Sound(d, a)
    requires CommitsAre(d, a, commits)
    requires commits != [] || TemporaryFile(a) in d
    ensures DecideRecovery(TargetOf(d, a), commits, TemporaryOf(d, a)) ==
      if CommitFile(a, NextGeneration(d, a)) in d then RollForward(d[CommitFile(a, NextGeneration(d, a))])
      else Settle
  {
    hide Sound, CommitsAre, AddRecoveryState, Chain, Linked, Forward, Older, SameGenerationAgrees;
    TemporaryIsKnown(d, a, commits);
    if TargetFile(a) in d {
      var t := d[TargetFile(a)];
      assert Ascending(commits) by {
        CommitsAscend(d, a, commits);
      }
      RecoveryIsChainCheck(t, commits, TemporaryOf(d, a));
      NeighboursChain(d, a, commits);
      NextIsNewer(d, a);
    } else {
      OnlyFirstCommit(d, a, commits);
    }
  }

  lemma CommitsAscend(d: Disk, a: string, commits: seq<Record>)
    requires CommitsAre(d, a, commits)
    ensures Ascending(commits)
  {
  }

  lemma NextIsNewer(d: Disk, a: string)
    requires Sound(d, a) && TargetFile(a) in d
    ensures var next := CommitFile(a, NextGeneration(d, a));
      next in d ==> d[next].generation > d[TargetFile(a)].generation
  {
    hide ValidRecord, ValidSuccessor;
  }

  /** The temporary file is a copy of a commit shadow, so it adds no candidate. */
  lemma TemporaryIsKnown(d: Disk, a: string, commits: seq<Record>)
    requires Sound(d, a) && CommitsAre(d, a, commits)
    ensures var temporary := TemporaryOf(d, a);
      (if temporary.None? then Some(commits) else AddRecoveryState(commits, temporary.value)) == Some(commits)
  {
    hide ValidRecord, ValidSuccessor, AddRecoveryState;
    if TemporaryFile(a) in d {
      AddPresent(commits, d[TemporaryFile(a)]);
    }
  }

  /** Before the first target there is one commit shadow, and it is live. */
  lemma OnlyFirstCommit(d: Disk, a: string, commits: seq<Record>)
    requires Sound(d, a) && CommitsAre(d, a, commits) && TargetFile(a) !in d
    requires commits != [] || TemporaryFile(a) in d
    ensures NextGeneration(d, a) == 1 && CommitFile(a, 1) in d && commits == [d[CommitFile(a, 1)]]
    ensures commits[0].generation == 1 && Active(commits[0])
  {
    hide ValidRecord, ValidSuccessor;
    if commits != [] {
      var n := |commits| - 1;
      assert commits[0] in commits && commits[n] in commits;
      assert commits[0].generation == 1 == commits[n].generation;
      assert n == 0;
    }
    assert CommitFile(a, 1) in d && d[CommitFile(a, 1)] in commits;
  }

  lemma TailAscends(states: seq<Record>)
    requires Ascending(states) && states != []
    ensures Ascending(states[1..])
    ensures forall x <- states[1..] :: states[0].generation < x.generation
  {
  }

  lemma {:induction false} AddPresent(states: seq<Record>, r: Record)
    requires Ascending(states) && r in states
    ensures AddRecoveryState(states, r) == Some(states)
  {
    hide Ascending;
    assert states == [states[0]] + states[1..];
    if r != states[0] {
      TailAscends(states);
      AddPresent(states[1..], r);
    }
  }

  lemma NeighboursChain(d: Disk, a: string, commits: seq<Record>)
    requires Sound(d, a) && TargetFile(a) in d && CommitsAre(d, a, commits)
    ensures var t, next := d[TargetFile(a)], CommitFile(a, NextGeneration(d, a));
      var all := AddRecoveryState(commits, t);
      && all.Some?
      && Chain(all.value)
      && |all.value| > 0
      && all.value[|all.value| - 1] == if next in d then d[next] else t
  {
    hide Sound, CommitsAre, AddRecoveryState, Chain;
    var all := AroundTarget(d, a, commits);
    NeighboursLink(d, a, all);
    LastNeighbour(d, a, all);
  }

  /** The target and what stands beside it: at most its own copy and its two neighbours. */
  ghost predicate BesideTarget(d: Disk, a: string, x: Record)
    requires TargetFile(a) in d
  {
    var t := d[TargetFile(a)];
    && t.generation - 1 <= x.generation <= t.generation + 1
    && (x == t || (CommitFile(a, x.generation) in d && d[CommitFile(a, x.generation)] == x))
  }

  ghost predicate Neighbours(d: Disk, a: string, all: seq<Record>)
    requires TargetFile(a) in d
  {
    && Ascending(all) && d[TargetFile(a)] in all
    && (forall x <- all :: BesideTarget(d, a, x))
    && (CommitFile(a, NextGeneration(d, a)) in d ==> d[CommitFile(a, NextGeneration(d, a))] in all)
  }

  lemma AroundTarget(d: Disk, a: string, commits: seq<Record>) returns (all: seq<Record>)
    requires Sound(d, a) && TargetFile(a) in d && CommitsAre(d, a, commits)
    ensures AddRecoveryState(commits, d[TargetFile(a)]) == Some(all) && Neighbours(d, a, all)
  {
    hide ValidRecord, ValidSuccessor, AddRecoveryState;
    AddKeepsOrder(commits, d[TargetFile(a)]);
    all := AddRecoveryState(commits, d[TargetFile(a)]).value;
  }

  lemma NeighboursLink(d: Disk, a: string, all: seq<Record>)
    requires Sound(d, a) && TargetFile(a) in d && Neighbours(d, a, all)
    ensures Chain(all)
  {
    hide ValidRecord, ValidSuccessor;
    var t := d[TargetFile(a)];
    var k :| 0 <= k < |all| && all[k] == t;
    forall i | 0 <= i < |all| - 1 ensures ValidSuccessor(all[i], all[i + 1]) {
      assert BesideTarget(d, a, all[i]) && BesideTarget(d, a, all[i + 1]);
      assert k <= i || k >= i + 1;
      assert all[i].generation + 1 == all[i + 1].generation;
    }
  }

  lemma LastNeighbour(d: Disk, a: string, all: seq<Record>)
    requires Sound(d, a) && TargetFile(a) in d && Neighbours(d, a, all)
    ensures var next := CommitFile(a, NextGeneration(d, a));
      |all| > 0 && all[|all| - 1] == if next in d then d[next] else d[TargetFile(a)]
  {
    hide ValidRecord, ValidSuccessor;
    var t, n := d[TargetFile(a)], |all| - 1;
    var k :| 0 <= k < |all| && all[k] == t;
    assert BesideTarget(d, a, all[n]) && all[n].generation >= t.generation;
    var next := CommitFile(a, NextGeneration(d, a));
    if next in d {
      var m :| 0 <= m < |all| && all[m] == d[next];
      assert all[n].generation >= all[m].generation;
    }
  }
}

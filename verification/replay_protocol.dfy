/** The optimistic-concurrency protocol behind the Antigravity reasoning-replay cache.

    Both the local map and the Home key/value store keep at most one cell per key.  A cell
    carries a stamp that no other write ever carries (the revision of the local map, the
    generation of a Home value) and a branch, the identity of one append-only conversation.
    This module is the state machine the two implementations share: one `Action` is one
    atomic effect on the store, a run is a sequence of actions by any number of requests. */
module ReplayProtocol {
  import opened Bytes

  type Key = string
  type Item = seq<byte>

  /** Branch 0 stands for the empty branch name; nonces are positive. */
  const NO_BRANCH: nat := 0

  datatype Cell = Cell(stamp: nat, branch: nat, items: seq<Item>, deleted: bool)

  datatype Write = Write(key: Key, cell: Cell)

  /** `cells` is the store.  `log` lists every write ever made, in commit order, and
      `stamps` and `branches` count the nonces handed out: they are history, not storage. */
  datatype World = World(cells: map<Key, Cell>, log: seq<Write>, stamps: nat, branches: nat)

  /** What a request remembers of the state it read.  `Nothing` is a read that saw no value
      and did not manage to fence the absence. */
  datatype Seen = Nothing | Saw(cell: Cell)

  datatype Action =
    | Reserve(key: Key)                                  // a read fences a miss
    | Publish(key: Key, seen: Seen, items: seq<Item>)    // conditional replace
    | Retract(key: Key, seen: Seen)                      // conditional delete
    | Store(key: Key, items: seq<Item>)                  // unconditional set
    | Tombstone(key: Key)                                // unconditional delete
    | Vanish(keys: set<Key>)                             // eviction, expiry, purge, clear
    | Burn                                               // nonces drawn for a write that lost

  const Empty := World(map[], [], 0, 0)

  // ---------------------------------------------------------------- the machine

  predicate Matches(w: World, k: Key, seen: Seen) {
    match seen
    case Nothing => k !in w.cells
    case Saw(cell) => k in w.cells && w.cells[k].stamp == cell.stamp
  }

  predicate Descends(w: World, k: Key, seen: Seen, items: seq<Item>) {
    && seen.Saw?
    && seen.cell.branch != NO_BRANCH
    && k in w.cells
    && !w.cells[k].deleted
    && w.cells[k].branch == seen.cell.branch
    && w.cells[k].items <= items
  }

  predicate Accepts(w: World, k: Key, seen: Seen, items: seq<Item>) {
    Matches(w, k, seen) || Descends(w, k, seen, items)
  }

  /** Whether a publish over the state it read starts a new branch. */
  predicate Rotates(seen: Seen, items: seq<Item>) {
    seen.Nothing? || seen.cell.branch == NO_BRANCH || !(seen.cell.items <= items)
  }

  /** The branch the mutex-guarded version stores: rotation is considered only when the
      current entry is the one that was read. */
  function ChosenBranch(w: World, k: Key, seen: Seen, items: seq<Item>): nat {
    if seen.Nothing? || seen.cell.branch == NO_BRANCH
       || (Matches(w, k, seen) && !(seen.cell.items <= items))
    then w.branches + 1
    else seen.cell.branch
  }

  /** A request can only hold what some write once stored: snapshots are opaque to callers. */
  predicate Issued(w: World, seen: Seen) {
    seen.Saw? ==> exists i :: 0 <= i < |w.log| && w.log[i].cell == seen.cell
  }

  function Put(w: World, k: Key, branch: nat, items: seq<Item>, deleted: bool): World {
    var cell := Cell(w.stamps + 1, branch, items, deleted);
    World(w.cells[k := cell], w.log + [Write(k, cell)], w.stamps + 1,
          if branch > w.branches then branch else w.branches)
  }

  function Apply(w: World, a: Action): World {
    match a
    case Reserve(k) => if k in w.cells then w else Put(w, k, w.branches + 1, [], true)
    case Publish(k, seen, items) =>
      if Issued(w, seen) && Accepts(w, k, seen, items)
      then Put(w, k, ChosenBranch(w, k, seen, items), items, false) else w
    case Retract(k, seen) =>
      if Issued(w, seen) && Matches(w, k, seen) then Put(w, k, w.branches + 1, [], true) else w
    case Store(k, items) => Put(w, k, w.branches + 1, items, false)
    case Tombstone(k) => Put(w, k, w.branches + 1, [], true)
    case Vanish(keys) => w.(cells := w.cells - keys)
    case Burn => w.(stamps := w.stamps + 1, branches := w.branches + 1)
  }

  function Exec(w: World, run: seq<Action>): World
    decreases |run|
  {
    if run == [] then w else Exec(Apply(w, run[0]), run[1..])
  }

  // ---------------------------------------------------------------- the invariant

  ghost predicate NoncesBounded(w: World) {
    forall i :: 0 <= i < |w.log| ==>
      1 <= w.log[i].cell.stamp <= w.stamps && 1 <= w.log[i].cell.branch <= w.branches
  }

  ghost predicate StampsUnique(w: World) {
    forall i, j :: 0 <= i < j < |w.log| ==> w.log[i].cell.stamp != w.log[j].cell.stamp
  }

  /** The heart of the protocol: the writes of one branch belong to one key, only the first
      may be a tombstone, and each extends the ones before it. */
  ghost predicate BranchesGrow(w: World) {
    forall i, j :: 0 <= i < j < |w.log| && w.log[i].cell.branch == w.log[j].cell.branch ==>
      && w.log[i].key == w.log[j].key
      && !w.log[j].cell.deleted
      && w.log[i].cell.items <= w.log[j].cell.items
  }

  ghost predicate TombstonesEmpty(w: World) {
    forall i :: 0 <= i < |w.log| && w.log[i].cell.deleted ==> w.log[i].cell.items == []
  }

  /** Position `i` of the log is the write that stored the current cell of `k`, and the last
      write of its branch. */
  ghost predicate StoredBy(w: World, k: Key, i: int) {
    && 0 <= i < |w.log|
    && k in w.cells
    && w.log[i] == Write(k, w.cells[k])
    && forall j :: i < j < |w.log| ==> w.log[j].cell.branch != w.cells[k].branch
  }

  ghost predicate CellsLogged(w: World) {
    forall k :: k in w.cells ==> exists i :: StoredBy(w, k, i)
  }

  ghost predicate Inv(w: World) {
    && NoncesBounded(w) && StampsUnique(w) && BranchesGrow(w) && TombstonesEmpty(w) && CellsLogged(w)
  }

  /** A write of a fresh branch, or one that extends the current cell of its key. */
  ghost predicate LegalPut(w: World, k: Key, branch: nat, items: seq<Item>, deleted: bool) {
    && (deleted ==> items == [])
    && (|| branch == w.branches + 1
        || (k in w.cells && !deleted && branch == w.cells[k].branch && w.cells[k].items <= items))
  }

  /** Everything already written under the branch of a legal put extends to the new list. */
  lemma PutExtendsBranch(w: World, k: Key, branch: nat, items: seq<Item>, deleted: bool, i: int)
    requires Inv(w) && LegalPut(w, k, branch, items, deleted)
    requires 0 <= i < |w.log| && w.log[i].cell.branch == branch
    ensures w.log[i].key == k && !deleted && w.log[i].cell.items <= items
    ensures k in w.cells && w.cells[k].branch == branch
  {
    var c :| StoredBy(w, k, c);
    assert i <= c;
    assert i < c ==> w.log[i].cell.items <= w.log[c].cell.items;
  }

  lemma PutKeepsOthersStored(w: World, k: Key, branch: nat, items: seq<Item>, deleted: bool, q: Key)
    requires Inv(w) && LegalPut(w, k, branch, items, deleted)
    requires q in w.cells && q != k
    ensures exists i :: StoredBy(Put(w, k, branch, items, deleted), q, i)
  {
    var v := Put(w, k, branch, items, deleted);
    var i :| StoredBy(w, q, i);
    if branch == w.cells[q].branch {
      PutExtendsBranch(w, k, branch, items, deleted, i);
    }
    assert v.log[i] == w.log[i];
    assert StoredBy(v, q, i);
  }

  lemma PutKeepsCellsLogged(w: World, k: Key, branch: nat, items: seq<Item>, deleted: bool)
    requires Inv(w) && LegalPut(w, k, branch, items, deleted)
    ensures CellsLogged(Put(w, k, branch, items, deleted))
  {
    var v := Put(w, k, branch, items, deleted);
    forall q | q in v.cells
      ensures exists i :: StoredBy(v, q, i)
    {
      if q == k {
        assert StoredBy(v, k, |w.log|);
      } else {
        PutKeepsOthersStored(w, k, branch, items, deleted, q);
      }
    }
  }

  lemma PutKeepsInv(w: World, k: Key, branch: nat, items: seq<Item>, deleted: bool)
    requires Inv(w) && LegalPut(w, k, branch, items, deleted)
    ensures Inv(Put(w, k, branch, items, deleted))
  {
    var v := Put(w, k, branch, items, deleted);
    forall i | 0 <= i < |w.log| && w.log[i].cell.branch == branch
      ensures w.log[i].key == k && !deleted && w.log[i].cell.items <= items
    {
      PutExtendsBranch(w, k, branch, items, deleted, i);
    }
    assert 1 <= branch <= v.branches by {
      if branch != w.branches + 1 { var c :| StoredBy(w, k, c); }
    }
    PutKeepsCellsLogged(w, k, branch, items, deleted);
  }

  lemma IssuedCellIsCurrent(w: World, k: Key, seen: Seen)
    requires Inv(w) && seen.Saw? && Issued(w, seen) && Matches(w, k, seen)
    ensures w.cells[k] == seen.cell
  {
    var i :| 0 <= i < |w.log| && w.log[i].cell == seen.cell;
    var c :| StoredBy(w, k, c);
    assert i == c;
  }

  lemma PublishIsLegal(w: World, k: Key, seen: Seen, items: seq<Item>)
    requires Inv(w) && Issued(w, seen) && Accepts(w, k, seen, items)
    ensures LegalPut(w, k, ChosenBranch(w, k, seen, items), items, false)
  {
    if seen.Saw? && Matches(w, k, seen) {
      IssuedCellIsCurrent(w, k, seen);
    }
  }

  /** Dropping cells and drawing nonces touch no write. */
  lemma ForgettingKeepsInv(w: World, v: World)
    requires Inv(w) && v.log == w.log && w.stamps <= v.stamps && w.branches <= v.branches
    requires forall q :: q in v.cells ==> q in w.cells && v.cells[q] == w.cells[q]
    ensures Inv(v)
  {
    forall q | q in v.cells
      ensures exists i :: StoredBy(v, q, i)
    {
      var i :| StoredBy(w, q, i);
      assert StoredBy(v, q, i);
    }
  }

  /** The put an action performs, if it performs one. */
  ghost predicate Puts(w: World, v: World) {
    exists k, branch, items, deleted ::
      LegalPut(w, k, branch, items, deleted) && v == Put(w, k, branch, items, deleted)
  }

  lemma ApplyPutsOrForgets(w: World, a: Action)
    requires Inv(w)
    ensures Apply(w, a) == w || Puts(w, Apply(w, a)) || a.Vanish? || a.Burn?
  {
    var v := Apply(w, a);
    match a
    case Publish(k, seen, items) =>
      if v != w {
        PublishIsLegal(w, k, seen, items);
        assert LegalPut(w, k, ChosenBranch(w, k, seen, items), items, false);
      }
    case Store(k, items) => assert LegalPut(w, k, w.branches + 1, items, false);
    case Reserve(k) => assert LegalPut(w, k, w.branches + 1, [], true);
    case Retract(k, _) => assert LegalPut(w, k, w.branches + 1, [], true);
    case Tombstone(k) => assert LegalPut(w, k, w.branches + 1, [], true);
    case _ =>
  }

  lemma ApplyKeepsInv(w: World, a: Action)
    requires Inv(w)
    ensures Inv(Apply(w, a))
  {
    var v := Apply(w, a);
    ApplyPutsOrForgets(w, a);
    if a.Vanish? || a.Burn? {
      ForgettingKeepsInv(w, v);
    } else if v != w {
      var k, branch, items, deleted :|
        LegalPut(w, k, branch, items, deleted) && v == Put(w, k, branch, items, deleted);
      PutKeepsInv(w, k, branch, items, deleted);
    }
  }

  lemma {:induction false} ExecKeepsInv(w: World, run: seq<Action>)
    requires Inv(w)
    ensures Inv(Exec(w, run))
    decreases |run|
  {
    if run != [] {
      ApplyKeepsInv(w, run[0]);
      ExecKeepsInv(Apply(w, run[0]), run[1..]);
    }
  }

  lemma {:induction false} ExecConcat(w: World, a: seq<Action>, b: seq<Action>)
    ensures Exec(w, a + b) == Exec(Exec(w, a), b)
    decreases |a|
  {
    if a == [] {
      assert a + b == b;
    } else {
      assert (a + b)[1..] == a[1..] + b;
      ExecConcat(Apply(w, a[0]), a[1..], b);
    }
  }

  /** A state some run leads to from the empty store. */
  ghost predicate Reached(w: World) {
    exists run :: Exec(Empty, run) == w
  }

  lemma ReachedInv(w: World)
    requires Reached(w)
    ensures Inv(w)
  {
    var run :| Exec(Empty, run) == w;
    ExecKeepsInv(Empty, run);
  }

  lemma ReachedExec(w: World, more: seq<Action>)
    requires Reached(w)
    ensures Reached(Exec(w, more))
  {
    var run :| Exec(Empty, run) == w;
    ExecConcat(Empty, run, more);
    assert Exec(Empty, run + more) == Exec(w, more);
  }

  lemma ReachedApply(w: World, a: Action)
    requires Reached(w)
    ensures Reached(Apply(w, a))
  {
    ReachedExec(w, [a]);
    assert Exec(w, [a]) == Exec(Apply(w, a), [a][1..]) == Apply(w, a);
  }

  // ---------------------------------------------------------------- theorem 1: nothing is lost

  /** In every run, the lists stored under one branch form one chain of prefixes, all for one
      key: a same-branch publish never drops or rewrites what another request published. */
  lemma BranchesFormChains(w: World, i: nat, j: nat)
    requires Reached(w) && i < j < |w.log| && w.log[i].cell.branch == w.log[j].cell.branch
    ensures w.log[i].key == w.log[j].key
    ensures w.log[i].cell.items <= w.log[j].cell.items
    ensures !w.log[j].cell.deleted
  {
    ReachedInv(w);
  }

  /** How the cell of one key may differ after a run: the same branch with a longer list, or
      a branch that no write had used when the run began. */
  ghost predicate Evolved(w: World, v: World) {
    && w.branches <= v.branches
    && forall k :: k in v.cells ==>
         || v.cells[k].branch > w.branches
         || (k in w.cells && v.cells[k].branch == w.cells[k].branch && w.cells[k].items <= v.cells[k].items)
  }

  lemma ApplyEvolves(w: World, v: World, a: Action)
    requires Inv(v) && Evolved(w, v)
    ensures Evolved(w, Apply(v, a))
  {
    if a.Publish? && Issued(v, a.seen) && Accepts(v, a.key, a.seen, a.items) {
      PublishIsLegal(v, a.key, a.seen, a.items);
    }
  }

  lemma {:induction false} ExecEvolves(w: World, v: World, run: seq<Action>)
    requires Inv(v) && Evolved(w, v)
    ensures Evolved(w, Exec(v, run))
    decreases |run|
  {
    if run != [] {
      ApplyKeepsInv(v, run[0]);
      ApplyEvolves(w, v, run[0]);
      ExecEvolves(w, Apply(v, run[0]), run[1..]);
    }
  }

  /** No run shortens or rewrites a stored list except by starting a branch never used before. */
  lemma RunsNeverRewrite(w: World, run: seq<Action>, k: Key)
    requires Reached(w)
    requires k in w.cells && k in Exec(w, run).cells
    ensures var before, after := w.cells[k], Exec(w, run).cells[k];
            || (after.branch == before.branch && before.items <= after.items)
            || after.branch > w.branches
  {
    ReachedInv(w);
    ExecEvolves(w, w, run);
  }

  // ---------------------------------------------------------------- theorem 2: stale reads stay stale

  /** Some list could still be published, or the state retracted, with this snapshot. */
  predicate Alive(w: World, k: Key, cell: Cell) {
    && k in w.cells
    && (|| w.cells[k].stamp == cell.stamp
        || (!w.cells[k].deleted && w.cells[k].branch == cell.branch && cell.branch != NO_BRANCH))
  }

  lemma AliveIffAcceptable(w: World, k: Key, cell: Cell)
    ensures Alive(w, k, cell) <==> exists items :: Accepts(w, k, Saw(cell), items)
  {
    if Alive(w, k, cell) {
      assert Accepts(w, k, Saw(cell), w.cells[k].items);
    }
  }

  /** An issued snapshot that is no longer alive never comes back to life in one step. */
  lemma DeadStaysDeadOnce(w: World, a: Action, k: Key, cell: Cell)
    requires Inv(w) && Issued(w, Saw(cell)) && !Alive(w, k, cell)
    ensures !Alive(Apply(w, a), k, cell) && Issued(Apply(w, a), Saw(cell))
  {
    var v := Apply(w, a);
    var i :| 0 <= i < |w.log| && w.log[i].cell == cell;
    assert v.log[i].cell == cell;
    if k in v.cells && (k !in w.cells || v.cells[k] != w.cells[k]) {
      assert v.cells[k].stamp == w.stamps + 1;
      if v.cells[k].branch == cell.branch {
        PublishIsLegal(w, k, a.seen, a.items);
      }
    }
  }

  lemma {:induction false} DeadStaysDeadFrom(w: World, run: seq<Action>, k: Key, cell: Cell, items: seq<Item>)
    requires Inv(w) && Issued(w, Saw(cell)) && !Alive(w, k, cell)
    ensures !Alive(Exec(w, run), k, cell)
    ensures !Accepts(Exec(w, run), k, Saw(cell), items)
    ensures !Matches(Exec(w, run), k, Saw(cell))
    decreases |run|
  {
    if run != [] {
      DeadStaysDeadOnce(w, run[0], k, cell);
      ApplyKeepsInv(w, run[0]);
      DeadStaysDeadFrom(Apply(w, run[0]), run[1..], k, cell, items);
    }
  }

  /** The fence: once dead, dead in every later state of every run. */
  lemma DeadStaysDead(w: World, run: seq<Action>, k: Key, cell: Cell, items: seq<Item>)
    requires Reached(w) && Issued(w, Saw(cell)) && !Alive(w, k, cell)
    ensures !Accepts(Exec(w, run), k, Saw(cell), items)
    ensures !Matches(Exec(w, run), k, Saw(cell))
  {
    ReachedInv(w);
    DeadStaysDeadFrom(w, run, k, cell, items);
  }

  /** The actions on `k` that end every conversation in progress there. */
  predicate Ends(w: World, a: Action, k: Key) {
    match a
    case Store(q, _) => q == k
    case Tombstone(q) => q == k
    case Vanish(keys) => k in keys
    case Retract(q, seen) => q == k && Issued(w, seen) && Matches(w, k, seen)
    case _ => false
  }

  /** A tombstone, an unconditional set, an eviction, an expiry or a clear kills every snapshot
      taken before it, for good. */
  lemma EndedIsFenced(w: World, a: Action, run: seq<Action>, k: Key, cell: Cell, items: seq<Item>)
    requires Reached(w) && Ends(w, a, k) && Issued(w, Saw(cell))
    ensures !Accepts(Exec(Apply(w, a), run), k, Saw(cell), items)
    ensures !Matches(Exec(Apply(w, a), run), k, Saw(cell))
  {
    var v := Apply(w, a);
    var i :| 0 <= i < |w.log| && w.log[i].cell == cell;
    assert v.log[i].cell == cell;
    ReachedInv(w);
    ReachedApply(w, a);
    DeadStaysDead(v, run, k, cell, items);
  }

  /** A snapshot read under one key authorises nothing under another, now or later. */
  lemma SnapshotsDoNotCross(w: World, run: seq<Action>, i: nat, k: Key, items: seq<Item>)
    requires Reached(w) && i < |w.log| && w.log[i].key != k
    ensures !Accepts(Exec(w, run), k, Saw(w.log[i].cell), items)
    ensures !Matches(Exec(w, run), k, Saw(w.log[i].cell))
  {
    ReachedInv(w);
    if Alive(w, k, w.log[i].cell) {
      var c :| StoredBy(w, k, c);
    }
    DeadStaysDead(w, run, k, w.log[i].cell, items);
  }

  lemma CurrentIsIssued(w: World, k: Key)
    requires Reached(w) && k in w.cells
    ensures Issued(w, Saw(w.cells[k]))
    ensures w.cells[k].deleted ==> w.cells[k].items == []
  {
    ReachedInv(w);
    var i :| StoredBy(w, k, i);
    assert w.log[i].cell == w.cells[k];
  }

  predicate Touches(a: Action, k: Key) {
    match a
    case Vanish(keys) => k in keys
    case Burn => false
    case _ => a.key == k
  }

  /** Whatever happens to other keys, the evictions it causes among them included, leaves the
      verdict on a snapshot of this key as it was. */
  lemma {:induction false} AcceptanceIsPerKey(w: World, run: seq<Action>, k: Key, seen: Seen, items: seq<Item>)
    requires forall a :: a in run ==> !Touches(a, k)
    ensures Accepts(Exec(w, run), k, seen, items) <==> Accepts(w, k, seen, items)
    ensures Matches(Exec(w, run), k, seen) <==> Matches(w, k, seen)
    decreases |run|
  {
    if run != [] {
      assert run[0] in run;
      AcceptanceIsPerKey(Apply(w, run[0]), run[1..], k, seen, items);
    }
  }

  /** Stamps are never reused, so a state that was overwritten never matches again. */
  lemma OverwrittenStaysOverwritten(w: World, a: Action, k: Key, cell: Cell)
    requires Reached(w) && Issued(w, Saw(cell)) && !Matches(w, k, Saw(cell))
    ensures !Matches(Apply(w, a), k, Saw(cell))
  {
    ReachedInv(w);
    var i :| 0 <= i < |w.log| && w.log[i].cell == cell;
  }

  lemma {:induction false} OverwrittenNeverMatches(w: World, run: seq<Action>, k: Key, cell: Cell)
    requires Reached(w) && Issued(w, Saw(cell)) && !Matches(w, k, Saw(cell))
    ensures !Matches(Exec(w, run), k, Saw(cell))
    decreases |run|
  {
    if run != [] {
      OverwrittenStaysOverwritten(w, run[0], k, cell);
      IssuedPersists(w, run[0], Saw(cell));
      ReachedApply(w, run[0]);
      OverwrittenNeverMatches(Apply(w, run[0]), run[1..], k, cell);
    }
  }

  lemma IssuedPersists(w: World, a: Action, seen: Seen)
    requires Issued(w, seen)
    ensures Issued(Apply(w, a), seen)
  {
    if seen.Saw? {
      var i :| 0 <= i < |w.log| && w.log[i].cell == seen.cell;
      assert Apply(w, a).log[i].cell == seen.cell;
    }
  }

  lemma {:induction false} StillIssued(w: World, run: seq<Action>, seen: Seen)
    requires Issued(w, seen)
    ensures Issued(Exec(w, run), seen)
    decreases |run|
  {
    if run != [] {
      IssuedPersists(w, run[0], seen);
      StillIssued(Apply(w, run[0]), run[1..], seen);
    }
  }

  /** Why reads fence a miss: a snapshot of plain absence can be accepted, refused and then
      accepted again. */
  lemma UnfencedAbsenceRecurs(k: Key, items: seq<Item>)
    ensures Accepts(Empty, k, Nothing, items)
    ensures !Accepts(Exec(Empty, [Tombstone(k)]), k, Nothing, items)
    ensures Accepts(Exec(Empty, [Tombstone(k), Vanish({k})]), k, Nothing, items)
  {
    var stored := Apply(Empty, Tombstone(k));
    assert Exec(Empty, [Tombstone(k)]) == stored;
    assert [Tombstone(k), Vanish({k})][1..] == [Vanish({k})];
    assert Exec(stored, [Vanish({k})]) == Apply(stored, Vanish({k}));
  }

  // ---------------------------------------------------------------- theorem 3: the two branch rules agree

  /** Whenever a publish is accepted, deciding rotation from the snapshot alone, as Home mode
      does before its first attempt, picks the branch the mutex-guarded version would pick. */
  lemma BranchRulesAgree(w: World, k: Key, seen: Seen, items: seq<Item>)
    requires Reached(w) && Issued(w, seen) && Accepts(w, k, seen, items)
    ensures ChosenBranch(w, k, seen, items)
         == if Rotates(seen, items) then w.branches + 1 else seen.cell.branch
    ensures !Matches(w, k, seen) ==> !Rotates(seen, items)
  {
    ReachedInv(w);
    if seen.Saw? && Descends(w, k, seen, items) {
      var i :| 0 <= i < |w.log| && w.log[i].cell == seen.cell;
      var c :| StoredBy(w, k, c);
      assert i < c ==> w.log[i].cell.items <= w.log[c].cell.items;
    }
  }

  // ---------------------------------------------------------------- what each action does

  /** Which lists a snapshot still authorises: any list over the very state it read, and over a later live
      state of its branch the lists that continue what is stored there, element by element. */
  lemma AcceptsExactly(w: World, k: Key, cell: Cell, items: seq<Item>)
    ensures Accepts(w, k, Saw(cell), items) <==>
      && k in w.cells
      && (|| w.cells[k].stamp == cell.stamp
          || (&& !w.cells[k].deleted && cell.branch != 0 && w.cells[k].branch == cell.branch
              && |w.cells[k].items| <= |items|
              && forall i :: 0 <= i < |w.cells[k].items| ==> items[i] == w.cells[k].items[i]))
    ensures Accepts(w, k, Nothing, items) <==> k !in w.cells
  {
  }

  /** A publish over a later live state of its branch is stored, on that branch, exactly when it continues
      that state, however far it goes on; otherwise nothing happens. */
  lemma PublishExtends(w: World, k: Key, cell: Cell, items: seq<Item>)
    requires Issued(w, Saw(cell)) && cell.branch != 0
    requires k in w.cells && w.cells[k].stamp != cell.stamp && !w.cells[k].deleted && w.cells[k].branch == cell.branch
    ensures var now, v := w.cells[k], Apply(w, Publish(k, Saw(cell), items));
      if |now.items| <= |items| && items[..|now.items|] == now.items
      then v.cells == w.cells[k := Cell(w.stamps + 1, cell.branch, items, false)]
      else v == w
  {
  }

  /** A publish over the very state it read is stored whatever it holds: on the same branch when it continues
      that state, on a new one otherwise. */
  lemma PublishReplaces(w: World, k: Key, cell: Cell, items: seq<Item>)
    requires Issued(w, Saw(cell)) && k in w.cells && w.cells[k].stamp == cell.stamp
    ensures var continues := cell.branch != 0 && |cell.items| <= |items| && items[..|cell.items|] == cell.items;
      Apply(w, Publish(k, Saw(cell), items)).cells
        == w.cells[k := Cell(w.stamps + 1, if continues then cell.branch else w.branches + 1, items, false)]
  {
  }

  /** The other writes: what they store, and that they touch nothing else. */
  lemma WritesExactly(w: World, k: Key, items: seq<Item>, seen: Seen, keys: set<Key>)
    ensures Apply(w, Store(k, items)).cells == w.cells[k := Cell(w.stamps + 1, w.branches + 1, items, false)]
    ensures Apply(w, Tombstone(k)).cells == w.cells[k := Cell(w.stamps + 1, w.branches + 1, [], true)]
    ensures Apply(w, Reserve(k)).cells ==
      if k in w.cells then w.cells else w.cells[k := Cell(w.stamps + 1, w.branches + 1, [], true)]
    ensures Apply(w, Retract(k, seen)).cells ==
      if Issued(w, seen) && (if seen.Saw? then k in w.cells && w.cells[k].stamp == seen.cell.stamp else k !in w.cells)
      then w.cells[k := Cell(w.stamps + 1, w.branches + 1, [], true)] else w.cells
    ensures Apply(w, Publish(k, Nothing, items)).cells ==
      if k in w.cells then w.cells else w.cells[k := Cell(w.stamps + 1, w.branches + 1, items, false)]
    ensures Apply(w, Vanish(keys)).cells == map q | q in w.cells && q !in keys :: w.cells[q]
    ensures Apply(w, Burn).cells == w.cells
  {
  }
}

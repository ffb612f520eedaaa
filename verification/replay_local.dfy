/** The process-memory form of the Antigravity replay cache: a map guarded by one mutex, a
    global revision counter and an eviction epoch.  Every method body is one critical section.
    `world` is the history of the protocol; each method says which protocol actions it was. */
module LocalReplayCache {
  import opened Wrappers
  import opened ReplayProtocol
  import opened ReplayItems

  const TTL: int := 3_600_000_000_000
  const MAX_ENTRIES: nat := 10240
  const EVICT_BATCH: nat := 128

  datatype Entry = Entry(items: seq<Item>, timestamp: int, revision: nat, branch: nat, deleted: bool)

  datatype Snapshot = Snapshot(loaded: bool, found: bool, revision: nat, branch: nat,
                               items: seq<Item>, evictionEpoch: nat)

  datatype Candidate = Candidate(key: Key, timestamp: int)

  function CellOf(e: Entry): Cell {
    Cell(e.revision, e.branch, e.items, e.deleted)
  }

  function CellsOf(entries: map<Key, Entry>): map<Key, Cell> {
    map k | k in entries :: CellOf(entries[k])
  }

  predicate Expired(e: Entry, now: int) {
    now - e.timestamp > TTL
  }

  function ExpiredKeys(entries: map<Key, Entry>, now: int): set<Key> {
    set k | k in entries && Expired(entries[k], now)
  }

  function Min(a: nat, b: nat): nat {
    if a < b then a else b
  }

  // ---------------------------------------------------------------- ordering eviction candidates

  ghost predicate Ordered(cs: seq<Candidate>) {
    forall i, j :: 0 <= i < j < |cs| ==> cs[i].timestamp <= cs[j].timestamp
  }

  ghost predicate DistinctKeys(cs: seq<Candidate>) {
    forall i, j :: 0 <= i < j < |cs| ==> cs[i].key != cs[j].key
  }

  ghost predicate SameElements(a: seq<Candidate>, b: seq<Candidate>) {
    |a| == |b| && forall c :: c in a <==> c in b
  }

  function InsertByTime(c: Candidate, cs: seq<Candidate>): (r: seq<Candidate>)
    ensures SameElements(r, [c] + cs)
  {
    if cs == [] || c.timestamp <= cs[0].timestamp then [c] + cs
    else [cs[0]] + InsertByTime(c, cs[1..])
  }

  function SortByTime(cs: seq<Candidate>): (r: seq<Candidate>)
    ensures SameElements(r, cs)
  {
    if cs == [] then [] else InsertByTime(cs[0], SortByTime(cs[1..]))
  }

  lemma {:induction false} InsertOrders(c: Candidate, cs: seq<Candidate>)
    requires Ordered(cs) && DistinctKeys(cs) && forall x :: x in cs ==> x.key != c.key
    ensures Ordered(InsertByTime(c, cs)) && DistinctKeys(InsertByTime(c, cs))
  {
    if cs != [] && c.timestamp > cs[0].timestamp {
      InsertOrders(c, cs[1..]);
      var rest := InsertByTime(c, cs[1..]);
      forall i | 0 <= i < |rest|
        ensures cs[0].timestamp <= rest[i].timestamp && cs[0].key != rest[i].key
      {
        assert rest[i] in [c] + cs[1..];
      }
    }
  }

  lemma {:induction false} SortOrders(cs: seq<Candidate>)
    requires DistinctKeys(cs)
    ensures Ordered(SortByTime(cs)) && DistinctKeys(SortByTime(cs))
  {
    if cs != [] {
      SortOrders(cs[1..]);
      InsertOrders(cs[0], SortByTime(cs[1..]));
    }
  }

  /** One candidate for each entry, none twice. */
  ghost predicate Lists(cs: seq<Candidate>, entries: map<Key, Entry>) {
    && (forall c :: c in cs <==> c.key in entries && c.timestamp == entries[c.key].timestamp)
    && DistinctKeys(cs)
    && |cs| == |entries|
  }

  ghost function FirstKeys(cs: seq<Candidate>, n: nat): set<Key>
    requires n <= |cs|
  {
    set i | 0 <= i < n :: cs[i].key
  }

  lemma {:induction false} FirstKeysListed(cs: seq<Candidate>, entries: map<Key, Entry>, n: nat)
    requires Lists(cs, entries) && n <= |cs|
    ensures FirstKeys(cs, n) <= entries.Keys && |FirstKeys(cs, n)| == n
  {
    if n > 0 {
      FirstKeysListed(cs, entries, n - 1);
      assert cs[n - 1] in cs && cs[n - 1].key !in FirstKeys(cs, n - 1);
      assert FirstKeys(cs, n) == FirstKeys(cs, n - 1) + {cs[n - 1].key};
    }
  }

  /** The first `n` candidates in time order are the oldest `n` entries. */
  lemma OldestFirst(cs: seq<Candidate>, entries: map<Key, Entry>, n: nat)
    requires Lists(cs, entries) && Ordered(cs) && n <= |cs|
    ensures NoneNewer(entries, FirstKeys(cs, n))
  {
    forall g, s | g in FirstKeys(cs, n) && s in entries && s !in FirstKeys(cs, n)
      ensures g in entries && entries[g].timestamp <= entries[s].timestamp
    {
      var i :| 0 <= i < n && cs[i].key == g;
      var c := Candidate(s, entries[s].timestamp);
      assert c in cs;
      var j :| 0 <= j < |cs| && cs[j] == c;
      assert cs[i] in cs;
    }
  }

  /** No key of `gone` is newer than an entry that stays. */
  ghost predicate NoneNewer(entries: map<Key, Entry>, gone: set<Key>) {
    forall g, s :: g in gone && s in entries && s !in gone ==>
      g in entries && entries[g].timestamp <= entries[s].timestamp
  }

  /** An entry with fewer than `|gone|` others at most as new as it is among those that leave. */
  lemma {:induction false} OldestAreEvicted(entries: map<Key, Entry>, gone: set<Key>, k: Key)
    requires gone <= entries.Keys && NoneNewer(entries, gone) && k in entries
    requires |NoNewerThan(entries, k)| < |gone|
    ensures k in gone
  {
    if k !in gone {
      assert gone <= NoNewerThan(entries, k);
      SubsetSize(gone, NoNewerThan(entries, k));
    }
  }

  function NoNewerThan(entries: map<Key, Entry>, k: Key): set<Key>
    requires k in entries
  {
    set s | s in entries && s != k && entries[s].timestamp <= entries[k].timestamp
  }

  lemma {:induction false} SubsetSize(a: set<Key>, b: set<Key>)
    requires a <= b
    ensures |a| <= |b|
  {
    assert b == a + (b - a);
  }

  function EntryOf(cell: Cell, now: int): Entry {
    Entry(cell.items, now, cell.stamp, cell.branch, cell.deleted)
  }

  /** The cell is stored under the key and nothing else changes, except that one batch leaves, none of it
      newer than what stays, when the cache is over its capacity. */
  ghost predicate Settled(before: map<Key, Entry>, after: map<Key, Entry>, key: Key, cell: Cell, now: int,
                          gone: set<Key>) {
    var written := before[key := EntryOf(cell, now)];
    && after == written - gone && gone <= written.Keys && NoneNewer(written, gone)
    && |gone| == if |written| > 10240 then 128 else 0
  }

  /** A live entry of the branch, with a chain that the given one begins with and may go on from. */
  predicate Continues(entry: Entry, branch: nat, items: seq<Item>) {
    && !entry.deleted && branch != 0 && entry.branch == branch
    && |entry.items| <= |items| && items[..|entry.items|] == entry.items
  }

  /** What acceptance means for the entries. */
  lemma AcceptanceByEntry(w: World, entries: map<Key, Entry>, key: Key, read: Cell, items: seq<Item>)
    requires w.cells == CellsOf(entries)
    ensures Accepts(w, key, Saw(read), items) <==>
      key in entries && (entries[key].revision == read.stamp || Continues(entries[key], read.branch, items))
  {
    AcceptsExactly(w, key, read, items);
  }

  class Cache {
    var entries: map<Key, Entry>
    var nextRevision: nat
    var evictionEpoch: nat
    /** The source of branch names: every draw is new. */
    var generations: nat
    ghost var world: World
    const norm: Item -> Option<Item>

    ghost predicate Linked()
      reads this
    {
      && world.cells == CellsOf(entries)
      && world.stamps == nextRevision
      && world.branches == generations
      && Reached(world)
    }

    ghost predicate Valid()
      reads this
    {
      Linked() && |entries| <= 10240 && Idempotent(norm)
    }

    /** The normaliser works on the fields of an item, which `parse` reads and `render` writes. */
    constructor (parse: Item -> Fields, render: Fields -> Item)
      requires ReadsBack(parse, render)
      ensures Valid() && world == Empty && entries == map[] && norm == FieldNormalizer(parse, render)
    {
      norm := FieldNormalizer(parse, render);
      entries, nextRevision, evictionEpoch, generations := map[], 0, 0, 0;
      world := Empty;
      new;
      assert Exec(Empty, []) == Empty;
      FieldNormalizerIsIdempotent(parse, render);
    }

    /** `snapshot` is what a read of `cell` hands out; callers can make no other. */
    ghost predicate TakenFrom(snapshot: Snapshot, cell: Cell)
      reads this
    {
      && snapshot.loaded && snapshot.found
      && snapshot.revision == cell.stamp && snapshot.branch == cell.branch && snapshot.items == cell.items
      && Issued(world, Saw(cell))
    }

    /** The acceptance test of the code, eviction epoch included. */
    predicate MatchesSnapshot(key: Key, snapshot: Snapshot)
      reads this
    {
      var found := key in entries;
      && found == snapshot.found
      && (|| (found && entries[key].revision == snapshot.revision)
          || (!found && snapshot.evictionEpoch == evictionEpoch))
    }

    predicate IsDescendant(key: Key, snapshot: Snapshot, items: seq<Item>)
      reads this
    {
      && key in entries && !entries[key].deleted
      && snapshot.branch != NO_BRANCH && entries[key].branch == snapshot.branch
      && entries[key].items <= items
    }

    method NewGeneration() returns (g: nat)
      modifies this`generations
      ensures g == generations == old(generations) + 1
    {
      generations := generations + 1;
      g := generations;
    }

    /** The shared tail of every write: the next revision and the new entry.  `action` is the
        protocol action this write performs. */
    method Write(key: Key, items: seq<Item>, now: int, branch: nat, deleted: bool, ghost action: Action)
      requires world.cells == CellsOf(entries) && world.stamps == nextRevision && Reached(world)
      requires Apply(world, action) == Put(world, key, branch, items, deleted)
      requires generations == if branch > world.branches then branch else world.branches
      modifies this`entries, this`nextRevision, this`world
      ensures Linked()
      ensures world == Apply(old(world), action)
      ensures nextRevision == old(nextRevision) + 1
      ensures entries == old(entries)[key := Entry(items, now, nextRevision, branch, deleted)]
    {
      nextRevision := nextRevision + 1;
      entries := entries[key := Entry(items, now, nextRevision, branch, deleted)];
      ReachedApply(world, action);
      world := Apply(world, action);
      assert world.cells == CellsOf(entries);
    }

    /** The entries named by `gone` leave the store. */
    ghost method Forget(before: map<Key, Entry>, gone: set<Key>)
      requires Reached(world) && world.cells == CellsOf(before) && entries == before - gone
      modifies this`world
      ensures Reached(world) && world == Apply(old(world), Vanish(gone)) && world.cells == CellsOf(entries)
    {
      ReachedApply(world, Vanish(gone));
      world := Apply(world, Vanish(gone));
    }

    /** Removes exactly min(count, size) entries, none newer than any survivor, and advances
        the epoch by as many. */
    method EvictOldest(count: nat) returns (ghost gone: set<Key>)
      requires Linked()
      modifies this`entries, this`evictionEpoch, this`world
      ensures Linked()
      ensures gone <= old(entries).Keys && |gone| == Min(count, |old(entries)|)
      ensures entries == old(entries) - gone
      ensures |entries| == |old(entries)| - |gone|
      ensures evictionEpoch == old(evictionEpoch) + |gone|
      ensures NoneNewer(old(entries), gone)
      ensures world == Apply(old(world), Vanish(gone))
    {
      ghost var before := entries;
      gone := RemoveOldest(count);
      EvictionSizes(before, gone);
      Forget(before, gone);
    }

    method RemoveOldest(count: nat) returns (ghost gone: set<Key>)
      modifies this`entries, this`evictionEpoch
      ensures gone <= old(entries).Keys && |gone| == Min(count, |old(entries)|)
      ensures entries == old(entries) - gone
      ensures evictionEpoch == old(evictionEpoch) + |gone|
      ensures NoneNewer(old(entries), gone)
    {
      gone := {};
      if count == 0 || |entries| == 0 {
        assert entries - gone == entries;
        return;
      }
      var candidates := OldestFirstCandidates(entries);
      var n := if count > |candidates| then |candidates| else count;
      FirstKeysListed(candidates, entries, n);
      OldestFirst(candidates, entries, n);
      gone := FirstKeys(candidates, n);
      RemoveFirst(candidates, n);
    }

    method RemoveFirst(candidates: seq<Candidate>, n: nat)
      requires n <= |candidates|
      modifies this`entries, this`evictionEpoch
      ensures entries == old(entries) - FirstKeys(candidates, n)
      ensures evictionEpoch == old(evictionEpoch) + n
    {
      for i := 0 to n
        invariant entries == old(entries) - FirstKeys(candidates, i)
        invariant evictionEpoch == old(evictionEpoch) + i
      {
        assert FirstKeys(candidates, i + 1) == FirstKeys(candidates, i) + {candidates[i].key};
        evictionEpoch := evictionEpoch + 1;
        entries := entries - {candidates[i].key};
      }
    }

    /** Enforces the capacity after an insertion. */
    method EvictIfOver() returns (ghost gone: set<Key>)
      requires Linked() && |entries| <= 10240 + 1 && Idempotent(norm)
      modifies this`entries, this`evictionEpoch, this`world
      ensures Valid()
      ensures gone <= old(entries).Keys
      ensures |gone| == if |old(entries)| > 10240 then 128 else 0
      ensures entries == old(entries) - gone
      ensures evictionEpoch == old(evictionEpoch) + |gone|
      ensures NoneNewer(old(entries), gone)
      ensures world == Apply(old(world), Vanish(gone))
    {
      gone := {};
      VanishNothing(world);
      assert entries - gone == entries;
      if |entries| > MAX_ENTRIES {
        gone := EvictOldest(EVICT_BATCH);
      }
    }

    /** A write and the enforcement of the capacity after it. */
    method WriteWithin(key: Key, items: seq<Item>, now: int, branch: nat, deleted: bool, ghost action: Action)
      returns (ghost gone: set<Key>)
      requires world.cells == CellsOf(entries) && world.stamps == nextRevision && Reached(world)
      requires |entries| <= 10240 && Idempotent(norm)
      requires Apply(world, action) == Put(world, key, branch, items, deleted)
      requires generations == if branch > world.branches then branch else world.branches
      modifies this`entries, this`nextRevision, this`evictionEpoch, this`world
      ensures Valid()
      ensures world == Apply(Apply(old(world), action), Vanish(gone))
      ensures evictionEpoch == old(evictionEpoch) + |gone|
      ensures Settled(old(entries), entries, key, Apply(old(world), action).cells[key], now, gone)
    {
      Write(key, items, now, branch, deleted, action);
      gone := EvictIfOver();
    }

    /** A read, which fences a miss with a tombstone and slides the expiry of a hit. */
    method Get(key: Key, now: int) returns (items: seq<Item>, snapshot: Snapshot, found: bool, ghost gone: set<Key>)
      requires Valid()
      modifies this
      ensures key == "" ==> !snapshot.loaded && !found && unchanged(this)
      ensures key != "" ==>
        && Valid()
        && key in entries && entries[key].timestamp == now
        && TakenFrom(snapshot, CellOf(entries[key])) && snapshot.evictionEpoch == evictionEpoch
        && (found <==> !entries[key].deleted && entries[key].items != [])
        && items == (if found then entries[key].items else [])
      ensures key != "" && key in old(entries) && now - old(entries)[key].timestamp <= 60 * 60 * 1_000_000_000 ==>
        && world == old(world) && evictionEpoch == old(evictionEpoch)
        && entries == old(entries)[key := old(entries)[key].(timestamp := now)]
      ensures key != "" && !(key in old(entries) && now - old(entries)[key].timestamp <= 60 * 60 * 1_000_000_000) ==>
        && entries[key].deleted
        && world == Apply(Apply(Apply(old(world), Vanish({key})), Vanish(gone)), Reserve(key))
        && gone <= old(entries).Keys - {key} && NoneNewer(old(entries) - {key}, gone)
        && |gone| == (if |old(entries) - {key}| >= 10240 then 128 else 0)
        && entries - {key} == old(entries) - {key} - gone
        && evictionEpoch == old(evictionEpoch) + |gone| + (if key in old(entries) then 1 else 0)
    {
      items, found, gone := [], false, {};
      if key == "" {
        return [], Snapshot(false, false, 0, 0, [], 0), false, {};
      }
      if key in entries && !Expired(entries[key], now) {
        snapshot, found := Touch(key, now);
        items := snapshot.items;
        return;
      }
      Drop(key);
      snapshot, gone := ReserveAbsent(key, now);
    }

    method Touch(key: Key, now: int) returns (snapshot: Snapshot, found: bool)
      requires Valid() && key in entries
      modifies this`entries
      ensures Valid()
      ensures entries == old(entries)[key := old(entries)[key].(timestamp := now)]
      ensures TakenFrom(snapshot, CellOf(entries[key])) && snapshot.evictionEpoch == evictionEpoch
      ensures found <==> !entries[key].deleted && entries[key].items != []
      ensures snapshot.items == if found then entries[key].items else []
    {
      var entry := entries[key].(timestamp := now);
      entries := entries[key := entry];
      assert world.cells == CellsOf(entries);
      snapshot := Snapshot(true, true, entry.revision, entry.branch, [], evictionEpoch);
      CurrentIsIssued(world, key);
      found := !entry.deleted && entry.items != [];
      if found {
        snapshot := snapshot.(items := entry.items);
      }
    }

    /** An expired entry leaves, as an eviction would make it. */
    method Drop(key: Key)
      requires Valid()
      modifies this`entries, this`evictionEpoch, this`world
      ensures Valid() && key !in entries
      ensures entries == old(entries) - {key}
      ensures evictionEpoch == old(evictionEpoch) + if key in old(entries) then 1 else 0
      ensures world == Apply(old(world), Vanish({key}))
    {
      ghost var before := entries;
      if key in entries {
        evictionEpoch := evictionEpoch + 1;
        EvictionSizes(entries, {key});
        entries := entries - {key};
      } else {
        assert entries == entries - {key};
      }
      Forget(before, {key});
    }

    /** Makes room, then stores the tombstone that fences this key from now on. */
    method ReserveAbsent(key: Key, now: int) returns (snapshot: Snapshot, ghost gone: set<Key>)
      requires Valid() && key !in entries
      modifies this
      ensures Valid()
      ensures key in entries && entries[key].timestamp == now && entries[key].deleted && entries[key].items == []
      ensures TakenFrom(snapshot, CellOf(entries[key])) && snapshot.evictionEpoch == evictionEpoch
      ensures world == Apply(Apply(old(world), Vanish(gone)), Reserve(key))
      ensures gone <= old(entries).Keys && NoneNewer(old(entries), gone)
      ensures |gone| == if |old(entries)| >= 10240 then 128 else 0
      ensures entries - {key} == old(entries) - gone
      ensures evictionEpoch == old(evictionEpoch) + |gone|
    {
      gone := {};
      VanishNothing(world);
      assert entries - gone == entries;
      if |entries| >= MAX_ENTRIES {
        gone := EvictOldest(EVICT_BATCH);
      }
      snapshot := Fence(key, now);
    }

    method Fence(key: Key, now: int) returns (snapshot: Snapshot)
      requires Linked() && key !in entries
      modifies this`entries, this`nextRevision, this`generations, this`world
      ensures Linked()
      ensures entries == old(entries)[key := Entry([], now, nextRevision, generations, true)]
      ensures world == Apply(old(world), Reserve(key))
      ensures TakenFrom(snapshot, CellOf(entries[key])) && snapshot.evictionEpoch == evictionEpoch
    {
      var branch := NewGeneration();
      Write(key, [], now, branch, true, Reserve(key));
      CurrentIsIssued(world, key);
      snapshot := Snapshot(true, true, nextRevision, branch, [], evictionEpoch);
    }

    /** Publishes `items` when nothing changed since the read, or when the live entry is an
        earlier state of the same conversation. */
    method ReplaceIfUnchanged(key: Key, snapshot: Snapshot, items: seq<Item>, now: int, ghost read: Cell)
      returns (outcome: Outcome, ghost gone: set<Key>)
      requires Valid()
      requires snapshot.loaded ==> TakenFrom(snapshot, read)
      modifies this
      ensures Valid()
      ensures key == "" ==> outcome == Done(false)
      ensures outcome.Invalid? <==> key != "" && Normalized(norm, items).None?
      ensures !(outcome.Done? && outcome.ok) ==> unchanged(this)
      ensures outcome.Done? && key != "" && snapshot.loaded ==>
        (outcome.ok <==> Accepts(old(world), key, Saw(read), Normalized(norm, items).value))
      ensures outcome.Done? && key != "" && snapshot.loaded ==>
        (outcome.ok <==>
           && key in old(entries)
           && (|| old(entries)[key].revision == snapshot.revision
               || Continues(old(entries)[key], snapshot.branch, Normalized(norm, items).value)))
      ensures outcome == Done(true) && key in entries ==>
        && entries[key].items == Normalized(norm, items).value && !entries[key].deleted && entries[key].timestamp == now
      ensures outcome == Done(true) && snapshot.loaded ==>
        && key != "" && Normalized(norm, items).Some?
        && world == Apply(Apply(old(world), Publish(key, Saw(read), Normalized(norm, items).value)), Vanish(gone))
        && evictionEpoch == old(evictionEpoch) + |gone|
        && Settled(old(entries), entries, key,
                   Apply(old(world), Publish(key, Saw(read), Normalized(norm, items).value)).cells[key], now, gone)
      ensures key != "" && Normalized(norm, items).Some? && !snapshot.loaded ==>
        && outcome == Done(true)
        && world == Apply(Apply(old(world), Store(key, Normalized(norm, items).value)), Vanish(gone))
        && evictionEpoch == old(evictionEpoch) + |gone|
        && Settled(old(entries), entries, key,
                   Apply(old(world), Store(key, Normalized(norm, items).value)).cells[key], now, gone)
    {
      outcome, gone := Done(false), {};
      if key == "" {
        return;
      }
      var normalized := Normalize(norm, items);
      if normalized.None? {
        return Invalid, {};
      }
      var ok;
      if !snapshot.loaded {
        NormalizedIsStable(norm, items);
        ok, gone := Cache(key, normalized.value, now);
      } else {
        AcceptanceByEntry(world, entries, key, read, normalized.value);
        ok, gone := Publishes(key, snapshot, normalized.value, now, read);
      }
      outcome := Done(ok);
    }

    /** The rest of a conditional publish, on a normalised chain. */
    method Publishes(key: Key, snapshot: Snapshot, items: seq<Item>, now: int, ghost read: Cell)
      returns (ok: bool, ghost gone: set<Key>)
      requires Valid() && TakenFrom(snapshot, read)
      modifies this
      ensures Valid()
      ensures ok <==> Accepts(old(world), key, Saw(read), items)
      ensures !ok ==> unchanged(this)
      ensures ok ==>
        && world == Apply(Apply(old(world), Publish(key, Saw(read), items)), Vanish(gone))
        && evictionEpoch == old(evictionEpoch) + |gone|
        && Settled(old(entries), entries, key, Apply(old(world), Publish(key, Saw(read), items)).cells[key], now, gone)
    {
      gone := {};
      var matches := MatchesSnapshot(key, snapshot);
      ok := matches || IsDescendant(key, snapshot, items);
      if !ok {
        return;
      }
      assert Accepts(world, key, Saw(read), items);
      IssuedIsBounded(world, read);
      var branch := snapshot.branch;
      if branch == NO_BRANCH || (matches && !(snapshot.items <= items)) {
        branch := NewGeneration();
      }
      gone := WriteWithin(key, items, now, branch, false, Publish(key, Saw(read), items));
    }

    /** Clears the entry when it is still the one that was read. */
    method DeleteIfUnchanged(key: Key, snapshot: Snapshot, now: int, ghost read: Cell)
      returns (ok: bool, ghost gone: set<Key>)
      requires Valid()
      requires snapshot.loaded ==> TakenFrom(snapshot, read)
      modifies this
      ensures Valid()
      ensures !ok ==> unchanged(this)
      ensures snapshot.loaded && key != "" ==> (ok <==> Matches(old(world), key, Saw(read)))
      ensures ok && snapshot.loaded ==>
        && world == Apply(Apply(old(world), Retract(key, Saw(read))), Vanish(gone))
        && evictionEpoch == old(evictionEpoch) + |gone|
      ensures key != "" && !snapshot.loaded ==> ok && world == Apply(Apply(old(world), Tombstone(key)), Vanish(gone))
      ensures ok ==>
        key != "" && Settled(old(entries), entries, key, Apply(old(world), Tombstone(key)).cells[key], now, gone)
    {
      ok, gone := false, {};
      if key == "" {
        return;
      }
      if !snapshot.loaded {
        gone := Delete(key, now);
        return true, gone;
      }
      if !MatchesSnapshot(key, snapshot) {
        return;
      }
      gone := Delete(key, now);
      ok := true;
    }

    /** Stores a chain unconditionally, on a branch of its own. */
    method Cache(key: Key, items: seq<Item>, now: int) returns (ok: bool, ghost gone: set<Key>)
      requires Valid()
      modifies this
      ensures Valid()
      ensures ok <==> key != "" && Normalized(norm, items).Some?
      ensures !ok ==> unchanged(this)
      ensures ok ==>
        && world == Apply(Apply(old(world), Store(key, Normalized(norm, items).value)), Vanish(gone))
        && Settled(old(entries), entries, key,
                   Apply(old(world), Store(key, Normalized(norm, items).value)).cells[key], now, gone)
      ensures evictionEpoch == old(evictionEpoch) + |gone|
    {
      ok, gone := false, {};
      if key == "" {
        return;
      }
      var normalized := Normalize(norm, items);
      if normalized.None? {
        return;
      }
      var branch := NewGeneration();
      gone := WriteWithin(key, normalized.value, now, branch, false, Store(key, normalized.value));
      ok := true;
    }

    /** Replaces the entry by a tombstone. */
    method Delete(key: Key, now: int) returns (ghost gone: set<Key>)
      requires Valid()
      modifies this
      ensures Valid()
      ensures key == "" ==> unchanged(this)
      ensures key != "" ==>
        && world == Apply(Apply(old(world), Tombstone(key)), Vanish(gone))
        && Settled(old(entries), entries, key, Apply(old(world), Tombstone(key)).cells[key], now, gone)
      ensures evictionEpoch == old(evictionEpoch) + |gone|
    {
      gone := {};
      if key == "" {
        return;
      }
      var branch := NewGeneration();
      gone := WriteWithin(key, [], now, branch, true, Tombstone(key));
    }

    method PurgeExpired(now: int)
      requires Valid()
      modifies this`entries, this`evictionEpoch, this`world
      ensures Valid()
      ensures entries == old(entries) - ExpiredKeys(old(entries), now)
      ensures forall k :: k in entries <==>
        k in old(entries) && now - old(entries)[k].timestamp <= 60 * 60 * 1_000_000_000
      ensures evictionEpoch == old(evictionEpoch) + |ExpiredKeys(old(entries), now)|
      ensures world == Apply(old(world), Vanish(ExpiredKeys(old(entries), now)))
    {
      ghost var before := entries;
      RemoveExpired(now);
      EvictionSizes(before, ExpiredKeys(before, now));
      Forget(before, ExpiredKeys(before, now));
    }

    method RemoveExpired(now: int)
      modifies this`entries, this`evictionEpoch
      ensures entries == old(entries) - ExpiredKeys(old(entries), now)
      ensures evictionEpoch == old(evictionEpoch) + |ExpiredKeys(old(entries), now)|
    {
      ghost var before, expired := entries, ExpiredKeys(entries, now);
      var todo := entries.Keys;
      while todo != {}
        invariant todo <= before.Keys
        invariant entries == before - (expired - todo)
        invariant evictionEpoch == old(evictionEpoch) + |expired - todo|
        decreases |todo|
      {
        var key :| key in todo;
        OneLess(before, expired, todo, key);
        todo := todo - {key};
        if Expired(entries[key], now) {
          evictionEpoch := evictionEpoch + 1;
          entries := entries - {key};
        }
      }
      assert expired - todo == expired;
    }

    method Clear()
      requires Valid()
      modifies this`entries, this`evictionEpoch, this`world
      ensures Valid()
      ensures entries == map[] && evictionEpoch == old(evictionEpoch) + 1
      ensures world == Apply(old(world), Vanish(old(entries).Keys))
    {
      ghost var before, gone := entries, entries.Keys;
      entries := map[];
      evictionEpoch := evictionEpoch + 1;
      Forget(before, gone);
    }
  }

  /** Taking `key` off the list of keys to look at. */
  lemma {:induction false} OneLess(before: map<Key, Entry>, expired: set<Key>, todo: set<Key>, key: Key)
    requires key in todo
    ensures key in expired ==>
      before - (expired - (todo - {key})) == before - (expired - todo) - {key}
      && |expired - (todo - {key})| == |expired - todo| + 1
    ensures key !in expired ==> expired - (todo - {key}) == expired - todo
  {
    if key in expired {
      assert expired - (todo - {key}) == (expired - todo) + {key};
    }
  }

  lemma IssuedIsBounded(w: World, cell: Cell)
    requires Reached(w) && Issued(w, Saw(cell))
    ensures 1 <= cell.branch <= w.branches
  {
    ReachedInv(w);
  }

  lemma VanishNothing(w: World)
    ensures Apply(w, Vanish({})) == w
  {
    assert w.cells - {} == w.cells;
  }

  lemma EvictionSizes(entries: map<Key, Entry>, gone: set<Key>)
    requires gone <= entries.Keys
    ensures |entries - gone| == |entries| - |gone|
  {
    assert (entries - gone).Keys == entries.Keys - gone;
    assert |(entries - gone).Keys| == |entries - gone| && |entries.Keys| == |entries|;
  }

  method OldestFirstCandidates(entries: map<Key, Entry>) returns (candidates: seq<Candidate>)
    ensures Lists(candidates, entries) && Ordered(candidates)
  {
    var listed := ListCandidates(entries);
    candidates := SortByTime(listed);
    SortOrders(listed);
    assert Lists(candidates, entries);
  }

  method ListCandidates(entries: map<Key, Entry>) returns (candidates: seq<Candidate>)
    ensures Lists(candidates, entries)
  {
    candidates := [];
    var todo := entries.Keys;
    while todo != {}
      invariant todo <= entries.Keys
      invariant forall i :: 0 <= i < |candidates| ==>
        candidates[i].key in entries.Keys - todo && candidates[i].timestamp == entries[candidates[i].key].timestamp
      invariant forall k :: k in entries && k !in todo ==> Candidate(k, entries[k].timestamp) in candidates
      invariant forall i, j :: 0 <= i < j < |candidates| ==> candidates[i].key != candidates[j].key
      invariant |candidates| + |todo| == |entries.Keys|
      decreases |todo|
    {
      var key :| key in todo;
      todo := todo - {key};
      candidates := candidates + [Candidate(key, entries[key].timestamp)];
    }
  }
}

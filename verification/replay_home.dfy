/** The Home form of the Antigravity replay cache: a remote key/value store whose only atomic
    operations are get, set and compare-and-swap, reached by any number of clients at once.

    Every method takes the interference as an argument: `env(n)` is what the other clients (and
    the expiry of keys) do to the store between this request's n-th and next operation.  A
    contract proved for all `env` therefore holds in every interleaving. */
module HomeReplayCache {
  import opened Wrappers
  import opened Sequences
  import opened ReplayProtocol
  import opened ReplayItems

  const ATTEMPTS := 4

  datatype Snapshot = Snapshot(loaded: bool, seen: Seen)

  /** Everything that happens to the store while a request loses `n` rounds. */
  function Waiting(env: nat -> seq<Action>, n: nat): seq<Action>
    decreases n, 0
  {
    if n == 0 then [] else LosingRound(env, n - 1) + env(2 * n - 1)
  }

  /** The same up to the read that follows the lost swap of round `n`, counted from 0. */
  function LosingRound(env: nat -> seq<Action>, n: nat): seq<Action>
    decreases n, 1
  {
    Waiting(env, n) + ([Burn] + env(2 * n))
  }

  /** All that happens while a read loses the race to reserve a key `n` times. */
  function Searching(env: nat -> seq<Action>, n: nat): seq<Action> {
    if n == 0 then [] else Searching(env, n - 1) + (env(2 * n - 2) + ([Burn] + env(2 * n - 1)))
  }

  lemma SearchesJoin(w: World, env: nat -> seq<Action>, n: nat)
    ensures Exec(Apply(Exec(Exec(w, Searching(env, n)), env(2 * n)), Burn), env(2 * n + 1))
      == Exec(w, Searching(env, n + 1))
  {
    var v := Exec(w, Searching(env, n));
    ExecConcat(w, Searching(env, n), env(2 * n) + ([Burn] + env(2 * n + 1)));
    ExecConcat(v, env(2 * n), [Burn] + env(2 * n + 1));
    assert ([Burn] + env(2 * n + 1))[1..] == env(2 * n + 1);
  }

  /** In round `n` of a read the key was missing at the lookup and there at the swap. */
  ghost predicate Missed(w: World, env: nat -> seq<Action>, k: Key, n: nat) {
    var v := Exec(w, Searching(env, n));
    k !in v.cells && k in Exec(v, env(2 * n)).cells
  }

  ghost predicate MissedBefore(w: World, env: nat -> seq<Action>, k: Key, rounds: nat) {
    forall n :: 0 <= n < rounds ==> Missed(w, env, k, n)
  }

  lemma MissedOneMore(start: World, w: World, v: World, env: nat -> seq<Action>, k: Key, n: nat)
    requires MissedBefore(start, env, k, n) && w == Exec(start, Searching(env, n))
    requires k !in w.cells && k in Exec(w, env(2 * n)).cells
    requires v == Exec(Apply(Exec(w, env(2 * n)), Burn), env(2 * n + 1))
    ensures MissedBefore(start, env, k, n + 1) && v == Exec(start, Searching(env, n + 1))
  {
    SearchesJoin(start, env, n);
    assert Missed(start, env, k, n);
  }

  /** Nobody else touches the key. */
  ghost predicate Undisturbed(env: nat -> seq<Action>, k: Key) {
    forall n, a :: a in env(n) ==> !Touches(a, k)
  }

  lemma RoundsJoin(w: World, env: nat -> seq<Action>, n: nat)
    ensures Exec(Exec(w, Waiting(env, n)), [Burn] + env(2 * n)) == Exec(w, LosingRound(env, n))
    ensures Exec(Exec(w, LosingRound(env, n)), env(2 * n + 1)) == Exec(w, Waiting(env, n + 1))
  {
    ExecConcat(w, Waiting(env, n), [Burn] + env(2 * n));
    ExecConcat(w, LosingRound(env, n), env(2 * n + 1));
  }

  /** Only chains that the normaliser leaves alone are ever written. */
  predicate WritesNormal(norm: Item -> Option<Item>, a: Action) {
    (a.Publish? || a.Store?) ==> IsNormal(norm, a.items)
  }

  predicate IsNormal(norm: Item -> Option<Item>, items: seq<Item>) {
    && 0 < |items| <= MAX_ITEMS_PER_ENTRY
    && TotalBytes(items) <= MAX_BYTES_PER_ENTRY
    && FilterMap(norm, items) == items
  }

  ghost predicate EnvNormal(norm: Item -> Option<Item>, env: nat -> seq<Action>) {
    forall n, a :: a in env(n) ==> WritesNormal(norm, a)
  }

  ghost predicate AllNormal(norm: Item -> Option<Item>, w: World) {
    forall k :: k in w.cells && !w.cells[k].deleted ==> IsNormal(norm, w.cells[k].items)
  }

  lemma {:induction false} ExecKeepsNormal(norm: Item -> Option<Item>, w: World, run: seq<Action>)
    requires AllNormal(norm, w) && forall a :: a in run ==> WritesNormal(norm, a)
    ensures AllNormal(norm, Exec(w, run))
    decreases |run|
  {
    if run != [] {
      assert run[0] in run;
      ExecKeepsNormal(norm, Apply(w, run[0]), run[1..]);
    }
  }

  lemma NormalizedIsNormal(norm: Item -> Option<Item>, items: seq<Item>)
    requires Idempotent(norm) && Normalized(norm, items).Some?
    ensures IsNormal(norm, Normalized(norm, items).value)
  {
    NormalizedIsStable(norm, items);
    KeptIsStable(norm, items);
    KeptBytesGrow(norm, items, 0);
  }

  /** What a publish writes is a chain that the normaliser of every later read leaves alone. */
  lemma PublishedIsNormal(parse: Item -> Fields, render: Fields -> Item, items: seq<Item>)
    requires ReadsBack(parse, render) && Normalized(FieldNormalizer(parse, render), items).Some?
    ensures IsNormal(FieldNormalizer(parse, render), Normalized(FieldNormalizer(parse, render), items).value)
  {
    FieldNormalizerIsIdempotent(parse, render);
    NormalizedIsNormal(FieldNormalizer(parse, render), items);
  }

  lemma NormalIsNormalized(norm: Item -> Option<Item>, items: seq<Item>)
    requires IsNormal(norm, items)
    ensures Normalized(norm, items) == Some(items)
  {
  }

  function Current(w: World, k: Key): Option<Cell> {
    if k in w.cells then Some(w.cells[k]) else None
  }

  function Expected(seen: Seen): Option<Cell> {
    if seen.Saw? then Some(seen.cell) else None
  }

  /** What the swap of round `n` expects: the value of the snapshot, then the value last read. */
  function ExpectedAt(w: World, env: nat -> seq<Action>, k: Key, seen: Seen, n: nat): Option<Cell> {
    if n == 0 then Expected(seen) else Current(Exec(w, LosingRound(env, n - 1)), k)
  }

  /** The swap of round `n` finds something else. */
  ghost predicate Lost(w: World, env: nat -> seq<Action>, k: Key, seen: Seen, n: nat) {
    Current(Exec(w, Waiting(env, n)), k) != ExpectedAt(w, env, k, seen, n)
  }

  ghost predicate LostBefore(w: World, env: nat -> seq<Action>, k: Key, seen: Seen, rounds: nat) {
    forall n :: 0 <= n < rounds ==> Lost(w, env, k, seen, n)
  }

  /** How the loop may end in `v` when it began in `w`: every round before the last was lost, and the last
      was not exactly when it succeeds.  A success is the publish of the mutex-guarded version, accepted
      at the instant of the swap.  A failure wrote nothing; short of losing all rounds, that version would
      have refused in the last state read, or, for a snapshot that saw plain absence, at the beginning. */
  ghost predicate LoopOutcome(w: World, v: World, env: nat -> seq<Action>, k: Key, seen: Seen, items: seq<Item>,
                              ok: bool, rounds: nat)
  {
    var before := Exec(w, Waiting(env, rounds));
    && rounds <= 4 && LostBefore(w, env, k, seen, rounds)
    && (ok <==> rounds < 4 && !Lost(w, env, k, seen, rounds))
    && (ok ==> Accepts(before, k, seen, items) && v == Apply(before, Publish(k, seen, items)))
    && (!ok && rounds == 4 ==> v == before)
    && (!ok && rounds < 4 ==>
          v == Exec(w, LosingRound(env, rounds)) && !Accepts(if seen.Saw? then v else w, k, seen, items))
  }

  lemma LostOneMore(start: World, w: World, env: nat -> seq<Action>, k: Key, seen: Seen, n: nat)
    requires LostBefore(start, env, k, seen, n) && w == Exec(start, Waiting(env, n))
    requires Current(w, k) != ExpectedAt(start, env, k, seen, n)
    ensures LostBefore(start, env, k, seen, n + 1) && Lost(start, env, k, seen, n)
    ensures ExpectedAt(start, env, k, seen, n + 1) == Current(Exec(w, [Burn] + env(2 * n)), k)
    ensures Exec(w, [Burn] + env(2 * n)) == Exec(start, LosingRound(env, n))
    ensures Exec(Exec(w, [Burn] + env(2 * n)), env(2 * n + 1)) == Exec(start, Waiting(env, n + 1))
  {
    RoundsJoin(start, env, n);
  }

  lemma {:induction false} CurrentIsPerKey(w: World, run: seq<Action>, k: Key)
    requires forall a :: a in run ==> !Touches(a, k)
    ensures Current(Exec(w, run), k) == Current(w, k)
    decreases |run|
  {
    if run != [] {
      assert run[0] in run;
      CurrentIsPerKey(Apply(w, run[0]), run[1..], k);
    }
  }

  lemma {:induction false} WaitingLeavesKey(env: nat -> seq<Action>, k: Key, n: nat)
    requires Undisturbed(env, k)
    ensures forall a :: a in Waiting(env, n) ==> !Touches(a, k)
    ensures forall a :: a in LosingRound(env, n) ==> !Touches(a, k)
  {
    if n > 0 {
      WaitingLeavesKey(env, k, n - 1);
    }
  }

  /** Without interference on the key a second swap is never lost. */
  lemma SecondSwapWins(w: World, env: nat -> seq<Action>, k: Key, seen: Seen)
    requires Undisturbed(env, k)
    ensures !Lost(w, env, k, seen, 1)
  {
    WaitingLeavesKey(env, k, 0);
    WaitingLeavesKey(env, k, 1);
    CurrentIsPerKey(w, Waiting(env, 1), k);
    CurrentIsPerKey(w, LosingRound(env, 0), k);
  }

  /** Comparing stored bytes and comparing stamps come to the same. */
  lemma MatchIsEquality(w: World, k: Key, seen: Seen)
    requires Reached(w) && Issued(w, seen)
    ensures Matches(w, k, seen) <==> Current(w, k) == Expected(seen)
  {
    ReachedInv(w);
    if seen.Saw? && Matches(w, k, seen) {
      IssuedCellIsCurrent(w, k, seen);
    }
  }

  class Home {
    /** The store is `world.cells`; the rest of `world` is history. */
    var world: World
    const norm: Item -> Option<Item>

    ghost predicate Valid()
      reads this
    {
      Reached(world) && AllNormal(norm, world) && Idempotent(norm)
    }

    /** The normaliser works on the fields of an item, which `parse` reads and `render` writes. */
    constructor (parse: Item -> Fields, render: Fields -> Item)
      requires ReadsBack(parse, render)
      ensures Valid() && world == Empty && norm == FieldNormalizer(parse, render)
    {
      norm := FieldNormalizer(parse, render);
      world := Empty;
      new;
      assert Exec(Empty, []) == Empty;
      FieldNormalizerIsIdempotent(parse, render);
    }

    method Interfere(run: seq<Action>)
      requires Valid() && forall a :: a in run ==> WritesNormal(norm, a)
      modifies this
      ensures Valid() && world == Exec(old(world), run)
    {
      ReachedExec(world, run);
      ExecKeepsNormal(norm, world, run);
      world := Exec(world, run);
    }

    method KVGet(key: Key) returns (value: Option<Cell>)
      ensures value == Current(world, key)
    {
      value := if key in world.cells then Some(world.cells[key]) else None;
    }

    /** The script runs as one step: it replaces the value exactly when the stored bytes are
        the expected ones.  A lost swap has still drawn its nonces. */
    method KVCompareAndSwap(key: Key, expected: Option<Cell>, value: Cell, action: Action)
      returns (swapped: bool)
      requires Valid() && WritesNormal(norm, action)
      requires Current(world, key) == expected ==>
        && Apply(world, action) == Put(world, key, value.branch, value.items, value.deleted)
        && value.stamp == world.stamps + 1
      modifies this
      ensures Valid()
      ensures swapped <==> Current(old(world), key) == expected
      ensures swapped ==> world == Apply(old(world), action) && world.cells == old(world.cells)[key := value]
      ensures !swapped ==> world == Apply(old(world), Burn)
    {
      swapped := Current(world, key) == expected;
      ghost var before := world;
      ReachedApply(world, if swapped then action else Burn);
      world := Apply(world, if swapped then action else Burn);
      assert AllNormal(norm, world) by {
        forall k | k in world.cells && !world.cells[k].deleted
          ensures IsNormal(norm, world.cells[k].items)
        {
          if k != key { assert world.cells[k] == before.cells[k]; }
        }
      }
    }

    /** A read: the value found, or the tombstone with which it fenced a miss.  It fails only after four
        rounds in each of which the key appeared between the lookup and the reservation.  The store
        changes by what others do, the nonces of lost reservations, and the reservation if one is won. */
    method Get(key: Key, env: nat -> seq<Action>)
      returns (items: seq<Item>, snapshot: Snapshot, found: bool, failed: bool, ghost rounds: nat)
      requires Valid() && EnvNormal(norm, env)
      modifies this
      ensures Valid()
      ensures key == "" ==> !snapshot.loaded && !found && !failed && unchanged(this)
      ensures key != "" ==>
        && rounds <= 4 && (failed <==> rounds == 4)
        && MissedBefore(old(world), env, key, rounds)
        && var v := Exec(old(world), Searching(env, rounds));
           if failed || key in v.cells then world == v
           else key !in Exec(v, env(2 * rounds)).cells && world == Apply(Exec(v, env(2 * rounds)), Reserve(key))
      ensures failed ==> snapshot == Snapshot(true, Nothing) && !found
      ensures key != "" && !failed ==>
        && key in world.cells && snapshot == Snapshot(true, Saw(world.cells[key]))
        && Issued(world, snapshot.seen)
        && (found <==> !world.cells[key].deleted)
        && items == (if found then world.cells[key].items else [])
    {
      items, snapshot, found, failed, rounds := [], Snapshot(false, Nothing), false, false, 0;
      if key == "" {
        return;
      }
      var raw;
      raw, rounds := Search(key, env);
      if raw.None? {
        snapshot, failed := Snapshot(true, Nothing), true;
        return;
      }
      snapshot := Snapshot(true, Saw(raw.value));
      CurrentIsIssued(world, key);
      if raw.value.deleted {
        return;
      }
      NormalIsNormalized(norm, raw.value.items);
      var normalized := Normalize(norm, raw.value.items);
      if normalized.None? || |normalized.value| != |raw.value.items| {
        return;
      }
      items, found := normalized.value, true;
    }

    /** Looks the key up, and reserves it when it is missing, up to four times. */
    method Search(key: Key, env: nat -> seq<Action>) returns (raw: Option<Cell>, ghost rounds: nat)
      requires Valid() && EnvNormal(norm, env)
      modifies this
      ensures Valid() && rounds <= 4 && (raw.None? <==> rounds == 4)
      ensures MissedBefore(old(world), env, key, rounds)
      ensures raw.Some? ==> Current(world, key) == raw
      ensures var v := Exec(old(world), Searching(env, rounds));
        if raw.None? || key in v.cells then world == v
        else key !in Exec(v, env(2 * rounds)).cells && world == Apply(Exec(v, env(2 * rounds)), Reserve(key))
    {
      raw, rounds := None, 0;
      ghost var start := world;
      for attempt := 0 to ATTEMPTS
        invariant Valid() && raw.None? && rounds == attempt
        invariant world == Exec(start, Searching(env, attempt))
        invariant MissedBefore(start, env, key, attempt)
      {
        raw := KVGet(key);
        if raw.Some? {
          return;
        }
        raw := ReserveRound(key, env, attempt, start);
        if raw.Some? {
          return;
        }
        rounds := rounds + 1;
      }
    }

    /** Round `n` of a read that began in `start` and found the key missing. */
    method ReserveRound(key: Key, env: nat -> seq<Action>, n: nat, ghost start: World) returns (raw: Option<Cell>)
      requires Valid() && EnvNormal(norm, env)
      requires key !in world.cells && world == Exec(start, Searching(env, n)) && MissedBefore(start, env, key, n)
      modifies this
      ensures Valid()
      ensures raw.Some? ==> Current(world, key) == raw && key !in Exec(old(world), env(2 * n)).cells
                            && world == Apply(Exec(old(world), env(2 * n)), Reserve(key))
      ensures raw.None? ==> world == Exec(start, Searching(env, n + 1)) && MissedBefore(start, env, key, n + 1)
    {
      ghost var before := world;
      raw := ReserveMissing(key, env(2 * n));
      if raw.None? {
        Interfere(env(2 * n + 1));
        MissedOneMore(start, before, world, env, key, n);
      }
    }

    /** Tries to store a tombstone for a key that was missing before `between` happened. */
    method ReserveMissing(key: Key, between: seq<Action>) returns (raw: Option<Cell>)
      requires Valid() && forall a :: a in between ==> WritesNormal(norm, a)
      modifies this
      ensures Valid()
      ensures var v := Exec(old(world), between);
        if key in v.cells then raw.None? && world == Apply(v, Burn)
        else Current(world, key) == raw && raw.Some? && world == Apply(v, Reserve(key))
    {
      Interfere(between);
      var reservation := Cell(world.stamps + 1, world.branches + 1, [], true);
      var swapped := KVCompareAndSwap(key, None, reservation, Reserve(key));
      raw := if swapped then Some(reservation) else None;
    }

    /** The conditional publish, with up to four compare-and-swap attempts.

        A success happens at one instant, the swap: there the mutex-guarded version would have
        accepted the chain too, and what is stored is what that version would store, branch
        included.  Every round before the last lost its swap to a change of this key after the
        value was read.  Without success nothing was written, and either all four swaps were lost so,
        or the mutex-guarded version would have refused too: in the last state read, or, for a snapshot
        that saw plain absence, when the request began.  If nobody else touches the key, the outcome is
        the verdict of that version. */
    method ReplaceIfUnchanged(key: Key, snapshot: Snapshot, items: seq<Item>, env: nat -> seq<Action>)
      returns (outcome: Outcome, rounds: nat)
      requires Valid() && EnvNormal(norm, env)
      requires Issued(world, snapshot.seen)
      modifies this
      ensures Valid() && rounds <= 4
      ensures outcome.Invalid? <==> key != "" && Normalized(norm, items).None?
      ensures outcome.Invalid? || key == "" ==> unchanged(this) && outcome != Done(true)
      ensures key != "" && Normalized(norm, items).Some? && !snapshot.loaded ==>
        outcome == Done(true) && world == Apply(old(world), Store(key, Normalized(norm, items).value))
      ensures key != "" && Normalized(norm, items).Some? && snapshot.loaded ==>
        && outcome.Done?
        && LoopOutcome(old(world), world, env, key, snapshot.seen, Normalized(norm, items).value, outcome.ok, rounds)
        && Settled(Exec(old(world), Waiting(env, rounds)), world, key, snapshot.seen, Normalized(norm, items).value,
                   outcome.ok, rounds)
        && (Undisturbed(env, key) ==>
              (outcome.ok <==> Accepts(old(world), key, snapshot.seen, Normalized(norm, items).value)))
    {
      outcome, rounds := Done(false), 0;
      if key == "" {
        return;
      }
      var normal := Normalize(norm, items);
      if normal.None? {
        return Invalid, 0;
      }
      var normalized := normal.value;
      NormalizedIsNormal(norm, items);
      if !snapshot.loaded {
        outcome := Cache(key, normalized);
        NormalIsNormalized(norm, normalized);
        return;
      }
      var ok;
      ghost var start := world;
      ok, rounds := SwapLoop(key, snapshot.seen, normalized, env);
      outcome := Done(ok);
      OutcomeSettles(start, world, env, key, snapshot.seen, normalized, ok, rounds);
      if Undisturbed(env, key) {
        UndisturbedVerdict(start, world, env, key, snapshot.seen, normalized, ok, rounds);
      }
    }

    method SwapLoop(key: Key, seen: Seen, items: seq<Item>, env: nat -> seq<Action>) returns (ok: bool, rounds: nat)
      requires Valid() && EnvNormal(norm, env)
      requires Issued(world, seen) && IsNormal(norm, items)
      modifies this
      ensures Valid() && LoopOutcome(old(world), world, env, key, seen, items, ok, rounds)
    {
      ok, rounds := false, 0;
      ghost var start := world;
      var expected := Expected(seen);
      var branch := if Rotates(seen, items) then world.branches + 1 else seen.cell.branch;
      FirstRoundBegins(world, env, key, seen, items);
      while rounds < ATTEMPTS
        invariant rounds <= ATTEMPTS && Valid() && !ok
        invariant RoundBegins(start, world, env, key, seen, items, expected, branch, rounds)
        decreases ATTEMPTS - rounds
      {
        var current;
        ok, current := NextRound(key, seen, items, expected, branch, env, rounds, start);
        if ok || current.None? {
          return;
        }
        expected := current;
        rounds := rounds + 1;
      }
      AllRoundsLost(start, world, env, key, seen, items, expected, branch);
    }

    /** Round `rounds` of a request that began in `start`. */
    method NextRound(key: Key, seen: Seen, items: seq<Item>, expected: Option<Cell>, branch: nat,
                     env: nat -> seq<Action>, rounds: nat, ghost start: World)
      returns (ok: bool, current: Option<Cell>)
      requires Valid() && EnvNormal(norm, env) && IsNormal(norm, items)
      requires rounds < ATTEMPTS && RoundBegins(start, world, env, key, seen, items, expected, branch, rounds)
      modifies this
      ensures Valid()
      ensures ok || current.None? ==> LoopOutcome(start, world, env, key, seen, items, ok, rounds)
      ensures !ok && current.Some? ==>
        RoundBegins(start, world, env, key, seen, items, current, branch, rounds + 1)
    {
      ghost var before := world;
      ok, current := Round(key, seen, items, expected, branch, env(2 * rounds), env(2 * rounds + 1), rounds == 0);
      if !ok {
        LostOneMore(start, before, env, key, seen, rounds);
      }
    }

    /** A swap and, when it is lost, the read that decides whether to try again.  `between` is what
        others do between the two, `later` what they do before the next round. */
    method Round(key: Key, seen: Seen, items: seq<Item>, expected: Option<Cell>, branch: nat,
                 between: seq<Action>, later: seq<Action>, ghost first: bool)
      returns (ok: bool, current: Option<Cell>)
      requires Valid() && IsNormal(norm, items)
      requires forall a :: a in between || a in later ==> WritesNormal(norm, a)
      requires ReadyToSwap(world, key, seen, items, expected, branch, first)
      modifies this
      ensures Valid()
      ensures ok <==> Current(old(world), key) == expected
      ensures ok ==> Accepts(old(world), key, seen, items) && world == Apply(old(world), Publish(key, seen, items))
      ensures !ok && current.None? ==>
        && world == Exec(old(world), [Burn] + between)
        && (seen.Saw? ==> !Accepts(world, key, seen, items))
      ensures !ok && current.Some? ==>
        && world == Exec(Exec(old(world), [Burn] + between), later)
        && current == Current(Exec(old(world), [Burn] + between), key)
        && ReadyToSwap(world, key, seen, items, current, branch, false)
    {
      current := None;
      ok := TrySwap(key, seen, items, expected, branch, first);
      if ok {
        return;
      }
      ghost var lost := world;
      Interfere(between);
      assert ([Burn] + between)[1..] == between;
      assert world == Exec(old(world), [Burn] + between);
      AfterLoss(lost, key, seen, between);
      current := Reread(key, seen, items);
      if current.Some? {
        AfterLoss(world, key, seen, later);
        Interfere(later);
      }
    }

    /** One compare-and-swap of the loop. */
    method TrySwap(key: Key, seen: Seen, items: seq<Item>, expected: Option<Cell>, branch: nat, ghost first: bool)
      returns (swapped: bool)
      requires Valid() && IsNormal(norm, items)
      requires ReadyToSwap(world, key, seen, items, expected, branch, first)
      modifies this
      ensures Valid() && Issued(world, seen)
      ensures swapped <==> Current(old(world), key) == expected
      ensures swapped ==> Accepts(old(world), key, seen, items) && world == Apply(old(world), Publish(key, seen, items))
      ensures !swapped ==> world == Apply(old(world), Burn) && !Matches(world, key, seen)
    {
      ghost var before := world;
      if Current(world, key) == expected {
        SwapIsPublish(world, key, seen, items, expected, first);
      }
      var value := Cell(world.stamps + 1, branch, items, false);
      swapped := KVCompareAndSwap(key, expected, value, Publish(key, seen, items));
      if !swapped {
        LostSwap(before, key, seen, expected, first);
      }
      IssuedPersists(before, if swapped then Publish(key, seen, items) else Burn, seen);
    }

    /** Reads the current value again; none means give up. */
    method Reread(key: Key, seen: Seen, items: seq<Item>) returns (current: Option<Cell>)
      requires Valid() && Issued(world, seen)
      requires seen.Saw? ==> !Matches(world, key, seen)
      ensures current.Some? ==>
        && current == Current(world, key)
        && seen.Saw? && ExtendsTo(current.value, seen, items) && !Rotates(seen, items)
      ensures current.None? && seen.Saw? ==> !Accepts(world, key, seen, items)
    {
      current := KVGet(key);
      if current.None? {
        return;
      }
      if current.value.deleted || seen.Nothing? || seen.cell.branch == NO_BRANCH
         || current.value.branch != seen.cell.branch {
        return None;
      }
      NormalIsNormalized(norm, current.value.items);
      var normalizedCurrent := Normalize(norm, current.value.items);
      if normalizedCurrent.None? || |normalizedCurrent.value| != |current.value.items|
         || !(normalizedCurrent.value <= items) {
        return None;
      }
      BranchRulesAgree(world, key, seen, items);
    }

    method DeleteIfUnchanged(key: Key, snapshot: Snapshot) returns (ok: bool)
      requires Valid() && Issued(world, snapshot.seen)
      modifies this
      ensures Valid()
      ensures key == "" ==> !ok && unchanged(this)
      ensures key != "" && snapshot.loaded ==> (ok <==> Matches(old(world), key, snapshot.seen))
      ensures key != "" && !snapshot.loaded ==> ok && world == Apply(old(world), Tombstone(key))
      ensures key != "" && snapshot.loaded && ok ==> world == Apply(old(world), Retract(key, snapshot.seen))
      ensures key != "" && !ok ==> world.cells == old(world).cells
    {
      if key == "" {
        return false;
      }
      if !snapshot.loaded {
        Delete(key);
        return true;
      }
      MatchIsEquality(world, key, snapshot.seen);
      var tombstone := Cell(world.stamps + 1, world.branches + 1, [], true);
      ok := KVCompareAndSwap(key, Expected(snapshot.seen), tombstone, Retract(key, snapshot.seen));
    }

    method Cache(key: Key, items: seq<Item>) returns (outcome: Outcome)
      requires Valid()
      modifies this
      ensures Valid()
      ensures outcome == Done(key != "" && Normalized(norm, items).Some?)
      ensures !outcome.ok ==> unchanged(this)
      ensures outcome.ok ==> world == Apply(old(world), Store(key, Normalized(norm, items).value))
    {
      if key == "" {
        return Done(false);
      }
      var normalized := Normalize(norm, items);
      if normalized.None? {
        return Done(false);
      }
      NormalizedIsNormal(norm, items);
      Interfere([Store(key, normalized.value)]);
      assert Exec(old(world), [Store(key, normalized.value)]) == Apply(old(world), Store(key, normalized.value));
      outcome := Done(true);
    }

    method Delete(key: Key)
      requires Valid()
      modifies this
      ensures Valid()
      ensures key == "" ==> unchanged(this)
      ensures key != "" ==> world == Apply(old(world), Tombstone(key))
    {
      if key != "" {
        Interfere([Tombstone(key)]);
        assert Exec(old(world), [Tombstone(key)]) == Apply(old(world), Tombstone(key));
      }
    }
  }

  /** A live value of the snapshot's branch that the new chain continues. */
  predicate ExtendsTo(cell: Cell, seen: Seen, items: seq<Item>)
    requires seen.Saw?
  {
    !cell.deleted && seen.cell.branch != NO_BRANCH && cell.branch == seen.cell.branch && cell.items <= items
  }

  /** What a snapshot still authorises: any chain while the value it saw is there, and over a later live
      value of its branch the chains that begin with that value's. */
  predicate Continuable(w: World, k: Key, seen: Seen, items: seq<Item>) {
    match seen
    case Nothing => k !in w.cells
    case Saw(cell) =>
      && k in w.cells
      && (|| w.cells[k].stamp == cell.stamp
          || (&& !w.cells[k].deleted && cell.branch != 0 && w.cells[k].branch == cell.branch
              && |w.cells[k].items| <= |items| && items[..|w.cells[k].items|] == w.cells[k].items))
  }

  /** What the last swap, made in `before`, comes to: a success found a value the snapshot authorises
      replacing and stored the chain, and a failure left behind one that it does not, unless all rounds
      were lost. */
  predicate Settled(before: World, after: World, k: Key, seen: Seen, items: seq<Item>, ok: bool, rounds: nat) {
    && (ok ==>
          && Continuable(before, k, seen, items)
          && k in after.cells && after.cells[k].items == items && !after.cells[k].deleted)
    && (!ok && rounds < 4 && seen.Saw? ==> !Continuable(after, k, seen, items))
  }

  lemma OutcomeSettles(w: World, v: World, env: nat -> seq<Action>, k: Key, seen: Seen, items: seq<Item>,
                       ok: bool, rounds: nat)
    requires Issued(w, seen) && LoopOutcome(w, v, env, k, seen, items, ok, rounds)
    ensures Settled(Exec(w, Waiting(env, rounds)), v, k, seen, items, ok, rounds)
  {
    var before := Exec(w, Waiting(env, rounds));
    StillIssued(w, Waiting(env, rounds), seen);
    if seen.Saw? {
      AcceptsExactly(before, k, seen.cell, items);
      AcceptsExactly(v, k, seen.cell, items);
    }
  }

  /** Between two rounds: what the request expects to find, and the branch it would store. */
  ghost predicate ReadyToSwap(w: World, k: Key, seen: Seen, items: seq<Item>, expected: Option<Cell>,
                              branch: nat, first: bool)
  {
    && Issued(w, seen)
    && branch == (if Rotates(seen, items) then w.branches + 1 else seen.cell.branch)
    && if first then expected == Expected(seen)
       else && seen.Saw? && !Matches(w, k, seen) && !Rotates(seen, items)
            && expected.Some? && ExtendsTo(expected.value, seen, items)
  }

  /** Round `rounds` of a request that began in `w` begins in `v`. */
  ghost predicate RoundBegins(w: World, v: World, env: nat -> seq<Action>, k: Key, seen: Seen, items: seq<Item>,
                              expected: Option<Cell>, branch: nat, rounds: nat)
  {
    && v == Exec(w, Waiting(env, rounds))
    && expected == ExpectedAt(w, env, k, seen, rounds) && LostBefore(w, env, k, seen, rounds)
    && ReadyToSwap(v, k, seen, items, expected, branch, rounds == 0)
  }

  lemma FirstRoundBegins(w: World, env: nat -> seq<Action>, k: Key, seen: Seen, items: seq<Item>)
    requires Issued(w, seen)
    ensures RoundBegins(w, w, env, k, seen, items, Expected(seen),
                        if Rotates(seen, items) then w.branches + 1 else seen.cell.branch, 0)
  {
  }

  lemma AllRoundsLost(w: World, v: World, env: nat -> seq<Action>, k: Key, seen: Seen, items: seq<Item>,
                      expected: Option<Cell>, branch: nat)
    requires RoundBegins(w, v, env, k, seen, items, expected, branch, ATTEMPTS)
    ensures LoopOutcome(w, v, env, k, seen, items, false, 4)
  {
  }

  /** If the swap succeeds, it is the publish of the mutex-guarded version. */
  lemma SwapIsPublish(w: World, k: Key, seen: Seen, items: seq<Item>, expected: Option<Cell>, first: bool)
    requires Reached(w) && Issued(w, seen) && Current(w, k) == expected
    requires first ==> expected == Expected(seen)
    requires !first ==> seen.Saw? && expected.Some? && ExtendsTo(expected.value, seen, items)
    ensures Accepts(w, k, seen, items)
    ensures ChosenBranch(w, k, seen, items) == if Rotates(seen, items) then w.branches + 1 else seen.cell.branch
  {
    MatchIsEquality(w, k, seen);
    BranchRulesAgree(w, k, seen, items);
  }

  /** If nobody else touches the key, the loop ends as the mutex-guarded version would decide. */
  lemma UndisturbedVerdict(w: World, v: World, env: nat -> seq<Action>, k: Key, seen: Seen, items: seq<Item>,
                           ok: bool, rounds: nat)
    requires Undisturbed(env, k) && LoopOutcome(w, v, env, k, seen, items, ok, rounds)
    ensures ok <==> Accepts(w, k, seen, items)
  {
    SecondSwapWins(w, env, k, seen);
    WaitingLeavesKey(env, k, rounds);
    AcceptanceIsPerKey(w, Waiting(env, rounds), k, seen, items);
    AcceptanceIsPerKey(w, LosingRound(env, rounds), k, seen, items);
  }

  lemma LostSwap(w: World, k: Key, seen: Seen, expected: Option<Cell>, first: bool)
    requires Reached(w) && Issued(w, seen) && Current(w, k) != expected
    requires if first then expected == Expected(seen) else !Matches(w, k, seen)
    ensures !Matches(w, k, seen)
  {
    MatchIsEquality(w, k, seen);
  }

  lemma AfterLoss(w: World, k: Key, seen: Seen, run: seq<Action>)
    requires Reached(w) && Issued(w, seen) && !Matches(w, k, seen)
    ensures Issued(Exec(w, run), seen)
    ensures seen.Saw? ==> !Matches(Exec(w, run), k, seen)
  {
    StillIssued(w, run, seen);
    if seen.Saw? {
      OverwrittenNeverMatches(w, run, k, seen.cell);
    }
  }
}

/** Home-mode storage of Codex turns: read, append, compare-and-swap, retry.

    As in the other Home cache, each method is given its interference: `env(n)` lists what other
    clients commit between this request's n-th and next operation on the store. */
module CodexHomeCache {
  import opened Wrappers
  import opened Sequences
  import opened CodexTurns

  type Key = string

  const ATTEMPTS := 32

  /** A change to one key that took effect in the store.  `Drop` is a delete or an expiry. */
  datatype Commit = Append(turn: Items) | Overwrite(items: Items) | Drop

  datatype Logged = Logged(key: Key, commit: Commit)

  type Log = seq<Logged>

  function Effect(current: Option<Items>, commit: Commit): Option<Items> {
    match commit
    case Append(turn) => Some(Appended(current.GetOr([]), turn))
    case Overwrite(items) => Some(items)
    case Drop => None
  }

  /** The fold of the commits to one key, in commit order. */
  function Value(log: Log, k: Key): Option<Items> {
    if log == [] then None
    else
      var before := Value(log[..|log| - 1], k);
      if log[|log| - 1].key == k then Effect(before, log[|log| - 1].commit) else before
  }

  function Lookup(store: map<Key, Items>, k: Key): Option<Items> {
    if k in store then Some(store[k]) else None
  }

  /** All that others commit while a request performs its first `n` operations. */
  function Others(env: nat -> Log, n: nat): Log {
    if n == 0 then [] else Others(env, n - 1) + env(n - 1)
  }

  /** What can go wrong in attempt n: the context is cancelled, a read fails, or the reply to
      the swap is lost after the swap was carried out. */
  datatype Faults = Faults(cancelled: nat -> bool, unreadable: nat -> bool, replyLost: nat -> bool) {
    predicate Strikes(n: nat) {
      cancelled(n) || unreadable(n) || replyLost(n)
    }
  }

  lemma ValueAfter(log: Log, entry: Logged, k: Key)
    ensures Value(log + [entry], k)
         == if entry.key == k then Effect(Value(log, k), entry.commit) else Value(log, k)
  {
    assert (log + [entry])[..|log|] == log;
  }

  lemma {:induction false} ValueOfOthers(log: Log, run: Log, k: Key)
    requires forall e :: e in run ==> e.key != k
    ensures Value(log + run, k) == Value(log, k)
    decreases |run|
  {
    if run == [] {
      assert log + run == log;
    } else {
      var n := |run| - 1;
      assert run[n] in run;
      ValueOfOthers(log, run[..n], k);
      assert log + run == (log + run[..n]) + [run[n]];
      ValueAfter(log + run[..n], run[n], k);
    }
  }

  /** In attempt `n` of a request that began after `log`, others changed the value of the key between the
      read and the swap. */
  ghost predicate Overtaken(log: Log, env: nat -> Log, k: Key, n: nat) {
    Value(log + Others(env, 2 * n), k) != Value(log + Others(env, 2 * n + 1), k)
  }

  /** Nobody else commits to the key. */
  ghost predicate Undisturbed(env: nat -> Log, k: Key) {
    forall n, e :: e in env(n) ==> e.key != k
  }

  lemma NotOvertaken(log: Log, env: nat -> Log, k: Key)
    requires Undisturbed(env, k)
    ensures !Overtaken(log, env, k, 0)
  {
    assert Others(env, 1) == Others(env, 0) + env(0) == env(0);
    assert log + Others(env, 0) == log;
    ValueOfOthers(log, env(0), k);
  }

  /** One turn as it is stored: the acceptable items, trimmed to the bounds. */
  function NormalTurn(norm: Item -> Option<Item>, items: Items): Items {
    Trim(FilterMap(norm, items))
  }

  /** The turn that is stored is the longest legal suffix of the acceptable items, all of them as normalised
      and in order. */
  lemma {:induction false} NormalTurnIsLongestLegal(norm: Item -> Option<Item>, items: Items)
    returns (positions: seq<nat>, start: nat)
    ensures forall i, j :: 0 <= i < j < |positions| ==> positions[i] < positions[j]
    ensures forall i :: 0 <= i < |positions| ==> positions[i] < |items| && norm(items[positions[i]]).Some?
    ensures forall n :: 0 <= n < |items| && n !in positions ==> norm(items[n]).None?
    ensures var kept := seq(|positions|, i requires 0 <= i < |positions| => norm(items[positions[i]]).value);
      LongestAt(kept, start) && NormalTurn(norm, items) == kept[start..]
  {
    positions := FilterMapPositions(norm, items);
    var kept := FilterMap(norm, items);
    assert kept == seq(|positions|, i requires 0 <= i < |positions| => norm(items[positions[i]]).value);
    start := TrimIsLongestLegal(kept);
  }

  class CodexHome {
    var store: map<Key, Items>
    ghost var log: Log
    const norm: Item -> Option<Item>

    /** Linearizability: the store is the fold of the commits made so far. */
    ghost predicate Valid()
      reads this
    {
      forall k :: Lookup(store, k) == Value(log, k)
    }

    constructor (norm: Item -> Option<Item>)
      ensures Valid() && log == [] && this.norm == norm
    {
      this.norm := norm;
      store := map[];
      log := [];
    }

    method Normalize(items: Items) returns (r: Items)
      ensures r == NormalTurn(norm, items)
    {
      var kept: Items := [];
      for i := 0 to |items|
        invariant kept == FilterMap(norm, items[..i])
      {
        assert items[..i + 1][..i] == items[..i];
        var item := norm(items[i]);
        if item.Some? {
          kept := kept + [item.value];
        }
      }
      assert items[..|items|] == items;
      r := TrimItems(kept);
    }

    method Write(key: Key, value: Option<Items>, ghost commit: Commit)
      requires Valid() && value == Effect(Value(log, key), commit)
      modifies this
      ensures Valid() && log == old(log) + [Logged(key, commit)]
    {
      forall k ensures Value(log + [Logged(key, commit)], k)
          == if key == k then value else Value(log, k) {
        ValueAfter(log, Logged(key, commit), k);
      }
      store := if value.Some? then store[key := value.value] else store - {key};
      log := log + [Logged(key, commit)];
    }

    method Interfere(run: Log)
      requires Valid()
      modifies this
      ensures Valid() && log == old(log) + run
    {
      for i := 0 to |run|
        invariant Valid() && log == old(log) + run[..i]
      {
        var entry := run[i];
        var value := Lookup(store, entry.key);
        match entry.commit {
          case Append(turn) =>
            var combined := AppendTurn(value.GetOr([]), turn);
            value := Some(combined);
          case Overwrite(items) => value := Some(items);
          case Drop => value := None;
        }
        Write(entry.key, value, entry.commit);
        assert old(log) + run[..i + 1] == old(log) + run[..i] + [entry];
      }
      assert run[..|run|] == run;
    }

    /** Swaps on equal contents: there is no version to compare. */
    method KVCompareAndSwap(key: Key, expected: Option<Items>, value: Items, ghost commit: Commit)
      returns (written: bool)
      requires Valid()
      requires Some(value) == Effect(expected, commit)
      modifies this
      ensures Valid()
      ensures written <==> Value(old(log), key) == expected
      ensures log == old(log) + if written then [Logged(key, commit)] else []
    {
      written := Lookup(store, key) == expected;
      if written {
        Write(key, Some(value), commit);
      }
    }

    /** Appends one completed turn.  `landed` says whether the turn was committed: at most once, at the
        end of this call.  Every attempt before the last was overtaken by a change to this key, and so
        was the last one unless the turn landed; the call gives up only after all its attempts or at a
        fault, so without either it succeeds. */
    method AppendBestEffort(key: Key, items: Items, env: nat -> Log, faults: Faults)
      returns (ok: bool, ghost landed: bool, ghost attempts: nat, ghost swapped: bool)
      requires Valid()
      modifies this
      ensures Valid()
      ensures key == "" || NormalTurn(norm, items) == [] ==> !ok && !landed && attempts == 0 && !swapped
      ensures log == LogAfter(old(log), env, Operations(attempts, swapped), key, NormalTurn(norm, items), landed)
      ensures key != "" && NormalTurn(norm, items) != [] ==>
        Outcome(old(log), env, key, faults, ok, landed, attempts, swapped)
    {
      ok, landed, attempts, swapped := false, false, 0, false;
      if key == "" {
        return;
      }
      var turn := Normalize(items);
      if turn == [] {
        return;
      }
      ok, landed, attempts, swapped := SwapLoop(key, turn, env, faults);
    }

    /** Reads, appends and swaps; `between` is what others commit after the read. */
    method Attempt(key: Key, turn: Items, between: Log) returns (written: bool)
      requires Valid()
      modifies this
      ensures Valid()
      ensures written <==> Value(old(log), key) == Value(old(log) + between, key)
      ensures log == old(log) + between + if written then [Logged(key, Append(turn))] else []
    {
      var existing := Lookup(store, key);
      Interfere(between);
      var combined := AppendTurn(existing.GetOr([]), turn);
      written := KVCompareAndSwap(key, existing, combined, Append(turn));
    }

    method SwapLoop(key: Key, turn: Items, env: nat -> Log, faults: Faults)
      returns (ok: bool, ghost landed: bool, ghost attempts: nat, ghost swapped: bool)
      requires Valid()
      modifies this
      ensures Valid()
      ensures Outcome(old(log), env, key, faults, ok, landed, attempts, swapped)
      ensures log == LogAfter(old(log), env, Operations(attempts, swapped), key, turn, landed)
    {
      ok, landed, attempts, swapped := false, false, 0, false;
      ghost var start := log;
      for attempt := 0 to ATTEMPTS
        invariant Valid() && attempts == attempt && !ok && !landed && !swapped
        invariant log == start + Others(env, Operations(attempt, false))
        invariant OvertakenBefore(start, env, key, attempt)
      {
        var done;
        done, ok, landed, swapped := Try(key, turn, attempt, env, faults, start);
        if done {
          return;
        }
        attempts := attempts + 1;
      }
      NothingLanded(start, env, 2 * ATTEMPTS, key, turn);
    }

    /** One attempt; not done when its swap was lost. */
    method Try(key: Key, turn: Items, attempt: nat, env: nat -> Log, faults: Faults, ghost start: Log)
      returns (done: bool, ok: bool, ghost landed: bool, ghost swapped: bool)
      requires Valid() && attempt < ATTEMPTS
      requires log == start + Others(env, Operations(attempt, false)) && OvertakenBefore(start, env, key, attempt)
      modifies this
      ensures Valid()
      ensures done ==>
        && Outcome(start, env, key, faults, ok, landed, attempt, swapped)
        && log == LogAfter(start, env, Operations(attempt, swapped), key, turn, landed)
      ensures !done ==>
        && !ok && !landed && !swapped
        && log == start + Others(env, Operations(attempt + 1, false)) && OvertakenBefore(start, env, key, attempt + 1)
    {
      done, ok, landed, swapped := true, false, false, false;
      if faults.cancelled(attempt) || faults.unreadable(attempt) {
        NothingLanded(start, env, 2 * attempt, key, turn);
        return;
      }
      var written := Swap(key, turn, attempt, env, start);
      landed, swapped := written, true;
      if faults.replyLost(attempt) {
        return;
      }
      ok := written;
      if !written {
        LostAttempt(start, env, key, turn, attempt);
        Interfere(env(2 * attempt + 1));
        done, swapped := false, false;
      }
    }

    /** The read and the swap of one attempt. */
    method Swap(key: Key, turn: Items, attempt: nat, env: nat -> Log, ghost start: Log) returns (written: bool)
      requires Valid() && log == start + Others(env, Operations(attempt, false))
      modifies this
      ensures Valid() && (written <==> !Overtaken(start, env, key, attempt))
      ensures log == LogAfter(start, env, Operations(attempt, true), key, turn, written)
    {
      OthersOneMore(start, env, 2 * attempt);
      written := Attempt(key, turn, env(2 * attempt));
    }

    method Cache(key: Key, items: Items) returns (ok: bool)
      requires Valid()
      modifies this
      ensures Valid()
      ensures ok <==> key != "" && NormalTurn(norm, items) != []
      ensures log == old(log) + if ok then [Logged(key, Overwrite(NormalTurn(norm, items)))] else []
    {
      var turn := Normalize(items);
      ok := key != "" && turn != [];
      if ok {
        Write(key, Some(turn), Overwrite(turn));
      }
    }

    method Delete(key: Key)
      requires Valid()
      modifies this
      ensures Valid()
      ensures log == old(log) + if key != "" then [Logged(key, Drop)] else []
    {
      if key != "" {
        Write(key, None, Drop);
      }
    }
  }

  lemma OthersOneMore(log: Log, env: nat -> Log, n: nat)
    ensures log + Others(env, n) + env(n) == log + Others(env, n + 1)
  {
  }

  /** Two operations on the store to an attempt, the read and the swap. */
  function Operations(attempts: nat, swapped: bool): nat {
    2 * attempts + if swapped then 1 else 0
  }

  /** The log after `operations` operations of an append, with its commit at the end if it landed. */
  function LogAfter(log: Log, env: nat -> Log, operations: nat, k: Key, turn: Items, landed: bool): Log {
    log + Others(env, operations) + if landed then [Logged(k, Append(turn))] else []
  }

  lemma NothingLanded(log: Log, env: nat -> Log, operations: nat, k: Key, turn: Items)
    ensures LogAfter(log, env, operations, k, turn, false) == log + Others(env, operations)
  {
  }

  lemma LostAttempt(log: Log, env: nat -> Log, k: Key, turn: Items, attempt: nat)
    ensures LogAfter(log, env, Operations(attempt, true), k, turn, false) + env(2 * attempt + 1)
      == log + Others(env, Operations(attempt + 1, false))
  {
    OthersOneMore(log, env, 2 * attempt + 1);
    NothingLanded(log, env, 2 * attempt + 1, k, turn);
  }

  ghost predicate OvertakenBefore(log: Log, env: nat -> Log, k: Key, attempts: nat) {
    forall n :: 0 <= n < attempts ==> Overtaken(log, env, k, n)
  }

  /** How an append may end after `attempts` lost attempts; `swapped` says whether the store saw one
      more swap. */
  ghost predicate Outcome(log: Log, env: nat -> Log, k: Key, faults: Faults,
                          ok: bool, landed: bool, attempts: nat, swapped: bool) {
    && attempts <= 32 && OvertakenBefore(log, env, k, attempts)
    && (ok ==> landed)
    && (landed <==> swapped && !Overtaken(log, env, k, attempts))
    && (!ok ==> attempts == 32 || faults.Strikes(attempts))
  }

  /** Without a fault and without a commit of others to this key an append succeeds, at once. */
  lemma UndisturbedAppendSucceeds(log: Log, env: nat -> Log, k: Key, faults: Faults,
                                  ok: bool, landed: bool, attempts: nat, swapped: bool)
    requires Outcome(log, env, k, faults, ok, landed, attempts, swapped)
    requires Undisturbed(env, k) && !faults.Strikes(0)
    ensures ok && attempts == 0 && swapped
  {
    NotOvertaken(log, env, k);
  }

  // ---------------------------------------------------------------- every reachable list

  /** Writers only ever commit normalised lists. */
  predicate CommitsLegal(c: Commit) {
    match c
    case Append(turn) => true
    case Overwrite(items) => Legal(items)
    case Drop => true
  }

  lemma {:induction false} StoredListsAreLegal(log: Log, k: Key)
    requires forall e :: e in log ==> CommitsLegal(e.commit)
    ensures Value(log, k).Some? ==> Legal(Value(log, k).value)
    decreases |log|
  {
    if log != [] {
      var n := |log| - 1;
      assert log[n] in log;
      StoredListsAreLegal(log[..n], k);
      if log[n].key == k && log[n].commit.Append? {
        var existing, turn := Value(log[..n], k).GetOr([]), log[n].commit.turn;
        var _ := TrimIsLongestLegal(Base(existing));
        var _ := TrimIsLongestLegal(Base(existing) + turn);
      }
    }
  }

  /** If every turn carries one marker, at its head, no marker id is ever stored twice. */
  lemma {:induction false} StoredMarkersAreDistinct(log: Log, k: Key)
    requires forall e :: e in log && e.commit.Append? ==> OneTurn(e.commit.turn)
    requires forall e :: e in log && e.commit.Overwrite? ==> DistinctMarkers(e.commit.items)
    ensures Value(log, k).Some? ==> DistinctMarkers(Value(log, k).value)
    decreases |log|
  {
    if log != [] {
      var n := |log| - 1;
      assert log[n] in log;
      StoredMarkersAreDistinct(log[..n], k);
      if log[n].key == k && log[n].commit.Append? {
        AppendKeepsMarkersDistinct(Value(log[..n], k).GetOr([]), log[n].commit.turn);
      }
    }
  }

  /** A repeated append is absorbed whatever happened before it, in every reachable state. */
  lemma RepeatedAppendIsAbsorbed(log: Log, k: Key, turn: Items)
    requires forall e :: e in log ==> CommitsLegal(e.commit)
    requires NamedTurn(turn)
    ensures var once := log + [Logged(k, Append(turn))];
            Value(once + [Logged(k, Append(turn))], k) == Value(once, k)
  {
    var once := log + [Logged(k, Append(turn))];
    StoredListsAreLegal(log, k);
    ValueAfter(log, Logged(k, Append(turn)), k);
    ValueAfter(once, Logged(k, Append(turn)), k);
    assert Legal(Value(log, k).GetOr([]));
    AppendIsIdempotent(Value(log, k).GetOr([]), turn);
  }

  /** The turns appended to `k` in a stretch of the log. */
  function TurnsOf(log: Log, k: Key): seq<Items> {
    if log == [] then []
    else
      var before := TurnsOf(log[..|log| - 1], k);
      var last := log[|log| - 1];
      if last.key == k && last.commit.Append? then before + [last.commit.turn] else before
  }

  lemma {:induction false} FoldOneMore(base: Items, turns: seq<Items>, t: Items)
    ensures FoldAppends(base, turns + [t]) == Appended(FoldAppends(base, turns), t)
  {
    assert (turns + [t])[..|turns|] == turns;
  }

  lemma {:induction false} ValueIsFold(log: Log, more: Log, k: Key)
    requires forall e :: e in more && e.key == k ==> e.commit.Append?
    ensures Value(log + more, k).GetOr([]) == FoldAppends(Value(log, k).GetOr([]), TurnsOf(more, k))
    decreases |more|
  {
    if more == [] {
      assert log + more == log;
    } else {
      var n := |more| - 1;
      ValueIsFold(log, more[..n], k);
      assert more[n] in more;
      assert log + more == (log + more[..n]) + [more[n]];
      ValueAfter(log + more[..n], more[n], k);
      if more[n].key == k {
        FoldOneMore(Value(log, k).GetOr([]), TurnsOf(more[..n], k), more[n].commit.turn);
      }
    }
  }

  /** Until the next overwrite, delete or expiry, whatever is appended in whatever interleaving, the
      stored list is one trim of the history of the committed appends. */
  lemma StoredIsOneTrim(log: Log, more: Log, k: Key)
    requires forall e :: e in more && e.key == k ==> e.commit.Append?
    requires TurnsOf(more, k) != [] || Legal(Value(log, k).GetOr([]))
    ensures Value(log + more, k).GetOr([]) == Trim(History(Value(log, k).GetOr([]), TurnsOf(more, k)))
  {
    ValueIsFold(log, more, k);
    AppendsEqualOneTrim(Value(log, k).GetOr([]), TurnsOf(more, k));
  }

  /** Writers pass on turns led by a marker. */
  predicate CommitsNamed(c: Commit) {
    match c
    case Append(turn) => NamedTurn(turn)
    case Overwrite(items) => Sound(items)
    case Drop => true
  }

  lemma {:induction false} StoredListsAreSound(log: Log, k: Key)
    requires forall e :: e in log ==> CommitsNamed(e.commit)
    ensures Sound(Value(log, k).GetOr([]))
    decreases |log|
  {
    if log != [] {
      var n := |log| - 1;
      assert log[n] in log;
      StoredListsAreSound(log[..n], k);
      if log[n].key == k && log[n].commit.Append? {
        AppendKeepsSound(Value(log[..n], k).GetOr([]), log[n].commit.turn);
      }
    }
  }

  lemma {:induction false} TurnsAreNamed(log: Log, k: Key)
    requires forall e :: e in log ==> CommitsNamed(e.commit)
    ensures Named(TurnsOf(log, k))
    decreases |log|
  {
    if log != [] {
      assert log[|log| - 1] in log;
      TurnsAreNamed(log[..|log| - 1], k);
    }
  }

  /** With turns led by markers, repeated ones included: the stored list is one trim of what was stored
      and the committed turns that were new when they came.  A turn reported as stored is lost to
      trimming and nothing else. */
  lemma CommittedTurnsAreTrimmedOnce(log: Log, more: Log, k: Key)
    requires forall e :: e in log ==> CommitsNamed(e.commit)
    requires forall e :: e in more ==> CommitsNamed(e.commit)
    requires forall e :: e in more && e.key == k ==> e.commit.Append?
    ensures var before, turns := Value(log, k).GetOr([]), TurnsOf(more, k);
      Value(log + more, k).GetOr([]) == Trim(before + Concat(Recorded(before, turns)))
  {
    ValueIsFold(log, more, k);
    StoredListsAreSound(log, k);
    TurnsAreNamed(more, k);
    RecordedTurnsAreTrimmedOnce(Value(log, k).GetOr([]), TurnsOf(more, k));
  }
}

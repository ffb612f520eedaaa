/** Cumulative concurrency releases: sequences marked per group, sent outside the lock, and
    acknowledged together with everything below them. */
module ReleaseFlusher {
  import opened Wrappers

  datatype Group = Group(credentialID: string, model: string)

  /** A ticket is a channel; its number is its position in the issue order. */
  datatype Ticket = Ticket(group: Group, sequence: int)

  datatype State = State(latest: int, acked: int, waiters: map<int, seq<nat>>)

  type Groups = map<Group, State>

  datatype Frame = Frame(group: Group, sequence: int)

  /** `groups` and `closed` are the flusher's own state: the closed channels are the completed
      tickets.  `todo` is what the running flush found dirty when it began and has not sent yet.
      `tickets`, `attempted` and `delivered` are the history. */
  datatype Ledger = Ledger(groups: Groups, closed: set<nat>, todo: map<Group, int>, tickets: seq<Ticket>,
                           attempted: seq<Frame>, delivered: seq<Frame>)

  const EmptyLedger := Ledger(map[], {}, map[], [], [], [])

  function StateOf(groups: Groups, g: Group): State {
    if g in groups then groups[g] else State(0, 0, map[])
  }

  function WaitersAt(s: State, q: int): seq<nat> {
    if q in s.waiters then s.waiters[q] else []
  }

  predicate Markable(g: Group, q: int) {
    q > 0 && g.credentialID != "" && g.model != ""
  }

  function Enlisted(s: State, q: int, id: nat): State {
    State(if q > s.latest then q else s.latest, s.acked, s.waiters[q := WaitersAt(s, q) + [id]])
  }

  function Mark(l: Ledger, g: Group, q: int): Ledger {
    if !Markable(g, q) then l
    else
      var s, id := StateOf(l.groups, g), |l.tickets|;
      if q <= s.acked then l.(tickets := l.tickets + [Ticket(g, q)], closed := l.closed + {id})
      else l.(tickets := l.tickets + [Ticket(g, q)], groups := l.groups[g := Enlisted(s, q, id)])
  }

  function Marks(l: Ledger, run: seq<Ticket>): Ledger {
    if run == [] then l
    else Mark(Marks(l, run[..|run| - 1]), run[|run| - 1].group, run[|run| - 1].sequence)
  }

  /** A flush begins: it remembers the latest sequence of every dirty group. */
  function Begin(l: Ledger): Ledger {
    l.(todo := Pending(l.groups))
  }

  /** The running flush sends a frame it remembers. */
  function Attempt(l: Ledger, f: Frame): Ledger {
    l.(attempted := l.attempted + [f], todo := l.todo - {f.group})
  }

  /** The tickets a new acknowledgement completes. */
  function Due(s: State, acked: int): set<nat> {
    set q, i | q in s.waiters && q <= acked && 0 <= i < |s.waiters[q]| :: s.waiters[q][i]
  }

  function Raised(s: State, acked: int): State {
    State(s.latest, acked, map q | q in s.waiters && q > acked :: s.waiters[q])
  }

  /** Home accepted a frame. */
  function Acknowledge(l: Ledger, f: Frame): Ledger {
    var s := StateOf(l.groups, f.group);
    if f.sequence <= s.acked then l.(delivered := l.delivered + [f], groups := l.groups[f.group := s])
    else l.(delivered := l.delivered + [f],
            closed := l.closed + Due(s, f.sequence),
            groups := l.groups[f.group := Raised(s, f.sequence)])
  }

  /** The frames a flush will send: the latest sequence of every dirty group. */
  function Pending(groups: Groups): map<Group, int> {
    map g | g in groups && groups[g].latest > groups[g].acked :: groups[g].latest
  }

  predicate Idle(groups: Groups) {
    forall g :: g in groups ==> groups[g].latest <= groups[g].acked
  }

  // ---------------------------------------------------------------- the invariant

  ghost predicate AckedBelowLatest(groups: Groups) {
    forall g :: g in groups ==> 0 <= groups[g].acked <= groups[g].latest
  }

  ghost predicate Waits(groups: Groups, g: Group, q: int, i: int) {
    g in groups && q in groups[g].waiters && 0 <= i < |groups[g].waiters[q]|
  }

  /** Every waiting channel is an open ticket of that group and sequence, listed once. */
  ghost predicate WaitersOpen(groups: Groups, closed: set<nat>, tickets: seq<Ticket>) {
    && (forall g, q, i :: Waits(groups, g, q, i) ==>
          var id := groups[g].waiters[q][i];
          id < |tickets| && tickets[id] == Ticket(g, q) && id !in closed && groups[g].acked < q)
    && (forall g, q, i, j :: Waits(groups, g, q, i) && Waits(groups, g, q, j) && i != j ==>
          groups[g].waiters[q][i] != groups[g].waiters[q][j])
  }

  /** Every open ticket waits in the list that will complete it. */
  ghost predicate OpenWaits(groups: Groups, closed: set<nat>, tickets: seq<Ticket>) {
    forall id :: 0 <= id < |tickets| && id !in closed ==>
      id in WaitersAt(StateOf(groups, tickets[id].group), tickets[id].sequence)
  }

  /** Every complete ticket is covered by an acknowledgement. */
  ghost predicate ClosedAcked(groups: Groups, closed: set<nat>, tickets: seq<Ticket>) {
    forall id :: id in closed ==>
      id < |tickets| && tickets[id].sequence <= StateOf(groups, tickets[id].group).acked
  }

  ghost predicate TicketsMarked(groups: Groups, tickets: seq<Ticket>) {
    forall id :: 0 <= id < |tickets| ==>
      0 < tickets[id].sequence <= StateOf(groups, tickets[id].group).latest
  }

  /** Nothing is counted as acknowledged that Home did not accept, and nothing is sent that no
      caller marked. */
  ghost predicate Honest(groups: Groups, tickets: seq<Ticket>, attempted: seq<Frame>, delivered: seq<Frame>) {
    && (forall g :: g in groups && groups[g].acked > 0 ==> Frame(g, groups[g].acked) in delivered)
    && (forall g :: g in groups ==> Ticket(g, groups[g].latest) in tickets)
    && (forall f :: f in attempted ==> Ticket(f.group, f.sequence) in tickets)
    && (forall f :: f in delivered ==> f in attempted)
  }

  /** Frames of one group go out in nondecreasing order. */
  ghost predicate Monotone(groups: Groups, attempted: seq<Frame>) {
    && (forall i, j :: 0 <= i < j < |attempted| && attempted[i].group == attempted[j].group ==>
          attempted[i].sequence <= attempted[j].sequence)
    && (forall f :: f in attempted ==> f.sequence <= StateOf(groups, f.group).latest)
  }

  /** What the running flush remembers was marked, and nothing newer of its group has gone out. */
  ghost predicate Remembered(groups: Groups, tickets: seq<Ticket>, attempted: seq<Frame>, todo: map<Group, int>) {
    forall g :: g in todo ==>
      && g in groups && todo[g] <= groups[g].latest && Ticket(g, todo[g]) in tickets
      && forall e :: e in attempted && e.group == g ==> e.sequence <= todo[g]
  }

  ghost predicate Inv(l: Ledger) {
    && AckedBelowLatest(l.groups)
    && WaitersOpen(l.groups, l.closed, l.tickets)
    && OpenWaits(l.groups, l.closed, l.tickets)
    && ClosedAcked(l.groups, l.closed, l.tickets)
    && TicketsMarked(l.groups, l.tickets)
    && Honest(l.groups, l.tickets, l.attempted, l.delivered)
    && Monotone(l.groups, l.attempted)
    && Remembered(l.groups, l.tickets, l.attempted, l.todo)
  }

  ghost predicate ClosedIssued(closed: set<nat>, tickets: seq<Ticket>) {
    forall id :: id in closed ==> id < |tickets|
  }

  lemma MarkKeepsWaitersOpen(l: Ledger, g: Group, q: int)
    requires WaitersOpen(l.groups, l.closed, l.tickets) && ClosedIssued(l.closed, l.tickets) && Markable(g, q)
    ensures var v := Mark(l, g, q); WaitersOpen(v.groups, v.closed, v.tickets)
  {
    var v := Mark(l, g, q);
    forall h, p, i | Waits(v.groups, h, p, i)
      ensures var id := v.groups[h].waiters[p][i];
              id < |v.tickets| && v.tickets[id] == Ticket(h, p) && id !in v.closed && v.groups[h].acked < p
      ensures (Waits(l.groups, h, p, i) && v.groups[h].waiters[p][i] == l.groups[h].waiters[p][i])
           || (v.groups[h].waiters[p][i] == |l.tickets| && i == |v.groups[h].waiters[p]| - 1)
    {
      if !Waits(l.groups, h, p, i) {
        assert h == g && p == q;
      }
    }
  }

  lemma MarkKeepsOpenWaits(l: Ledger, g: Group, q: int)
    requires OpenWaits(l.groups, l.closed, l.tickets) && Markable(g, q)
    ensures var v := Mark(l, g, q); OpenWaits(v.groups, v.closed, v.tickets)
  {
    var v := Mark(l, g, q);
    forall id | 0 <= id < |v.tickets| && id !in v.closed
      ensures id in WaitersAt(StateOf(v.groups, v.tickets[id].group), v.tickets[id].sequence)
    {
      if id < |l.tickets| {
        assert id in WaitersAt(StateOf(l.groups, l.tickets[id].group), l.tickets[id].sequence);
      }
    }
  }

  lemma MarkKeepsHonest(l: Ledger, g: Group, q: int)
    requires Honest(l.groups, l.tickets, l.attempted, l.delivered) && Markable(g, q)
    ensures var v := Mark(l, g, q); Honest(v.groups, v.tickets, v.attempted, v.delivered)
  {
    var v := Mark(l, g, q);
    assert v.tickets[|l.tickets|] == Ticket(g, q);
    forall t | t in l.tickets ensures t in v.tickets {}
  }

  lemma MarkKeepsOrder(l: Ledger, g: Group, q: int)
    requires Markable(g, q)
    requires AckedBelowLatest(l.groups) && TicketsMarked(l.groups, l.tickets)
    requires ClosedAcked(l.groups, l.closed, l.tickets) && Monotone(l.groups, l.attempted)
    ensures var v := Mark(l, g, q);
      && AckedBelowLatest(v.groups) && TicketsMarked(v.groups, v.tickets)
      && ClosedAcked(v.groups, v.closed, v.tickets) && Monotone(v.groups, v.attempted)
  {
    MarkAdvances(l, g, q);
  }

  lemma MarkKeepsRemembered(l: Ledger, g: Group, q: int)
    requires Remembered(l.groups, l.tickets, l.attempted, l.todo) && Markable(g, q)
    ensures var v := Mark(l, g, q); Remembered(v.groups, v.tickets, v.attempted, v.todo)
  {
    var v := Mark(l, g, q);
    MarkAdvances(l, g, q);
    forall t | t in l.tickets ensures t in v.tickets {}
    forall h | h in v.todo ensures v.todo[h] <= v.groups[h].latest {
      assert StateOf(l.groups, h).latest <= StateOf(v.groups, h).latest;
    }
  }

  lemma MarkKeepsInv(l: Ledger, g: Group, q: int)
    requires Inv(l)
    ensures Inv(Mark(l, g, q))
  {
    if Markable(g, q) {
      MarkKeepsWaitersOpen(l, g, q);
      MarkKeepsOpenWaits(l, g, q);
      MarkKeepsHonest(l, g, q);
      MarkKeepsOrder(l, g, q);
      MarkKeepsRemembered(l, g, q);
    }
  }

  lemma {:induction false} MarksKeepInv(l: Ledger, run: seq<Ticket>)
    requires Inv(l)
    ensures Inv(Marks(l, run))
    decreases |run|
  {
    if run != [] {
      MarksKeepInv(l, run[..|run| - 1]);
      MarkKeepsInv(Marks(l, run[..|run| - 1]), run[|run| - 1].group, run[|run| - 1].sequence);
    }
  }

  lemma BeginKeepsInv(l: Ledger)
    requires Inv(l)
    ensures Inv(Begin(l))
  {
  }

  /** A frame the running flush has still to send. */
  predicate Sendable(l: Ledger, f: Frame) {
    f.group in l.todo && l.todo[f.group] == f.sequence
  }

  lemma AttemptKeepsOrder(l: Ledger, f: Frame)
    requires Monotone(l.groups, l.attempted) && Remembered(l.groups, l.tickets, l.attempted, l.todo) && Sendable(l, f)
    ensures Monotone(l.groups, Attempt(l, f).attempted)
  {
    var v := Attempt(l, f);
    forall i, j | 0 <= i < j < |v.attempted| && v.attempted[i].group == v.attempted[j].group
      ensures v.attempted[i].sequence <= v.attempted[j].sequence
    {
      assert v.attempted[i] in l.attempted;
    }
  }

  lemma AttemptKeepsRemembered(l: Ledger, f: Frame)
    requires Remembered(l.groups, l.tickets, l.attempted, l.todo) && Sendable(l, f)
    ensures var v := Attempt(l, f); Remembered(v.groups, v.tickets, v.attempted, v.todo)
  {
    var v := Attempt(l, f);
    forall g, e | g in v.todo && e in v.attempted && e.group == g ensures e.sequence <= v.todo[g] {
      assert e in l.attempted;
    }
  }

  lemma AttemptKeepsHonest(l: Ledger, f: Frame)
    requires Honest(l.groups, l.tickets, l.attempted, l.delivered)
    requires Remembered(l.groups, l.tickets, l.attempted, l.todo) && Sendable(l, f)
    ensures Honest(l.groups, l.tickets, Attempt(l, f).attempted, l.delivered)
  {
  }

  lemma AttemptKeepsInv(l: Ledger, f: Frame)
    requires Inv(l) && Sendable(l, f)
    ensures Inv(Attempt(l, f))
  {
    AttemptKeepsOrder(l, f);
    AttemptKeepsRemembered(l, f);
    AttemptKeepsHonest(l, f);
  }

  lemma DueAreTickets(l: Ledger, g: Group, acked: int, id: nat)
    requires WaitersOpen(l.groups, l.closed, l.tickets) && g in l.groups
    requires id in Due(l.groups[g], acked)
    ensures id < |l.tickets| && l.tickets[id].group == g && l.tickets[id].sequence <= acked
  {
    var s := l.groups[g];
    var q, k :| q in s.waiters && q <= acked && 0 <= k < |s.waiters[q]| && s.waiters[q][k] == id;
    assert Waits(l.groups, g, q, k);
  }

  lemma AcknowledgeKeepsWaitersOpen(l: Ledger, f: Frame)
    requires WaitersOpen(l.groups, l.closed, l.tickets) && f.group in l.groups
    ensures var v := Acknowledge(l, f); WaitersOpen(v.groups, v.closed, v.tickets)
  {
    var v := Acknowledge(l, f);
    forall h, p, i | Waits(v.groups, h, p, i)
      ensures Waits(l.groups, h, p, i) && v.groups[h].waiters[p][i] == l.groups[h].waiters[p][i]
      ensures v.groups[h].waiters[p][i] !in v.closed && v.groups[h].acked < p
    {
      assert Waits(l.groups, h, p, i);
      var id := l.groups[h].waiters[p][i];
      if id in Due(l.groups[f.group], f.sequence) {
        DueAreTickets(l, f.group, f.sequence, id);
      }
    }
  }

  lemma AcknowledgeKeepsOpenWaits(l: Ledger, f: Frame)
    requires OpenWaits(l.groups, l.closed, l.tickets) && f.group in l.groups
    ensures var v := Acknowledge(l, f); OpenWaits(v.groups, v.closed, v.tickets)
  {
    var v := Acknowledge(l, f);
    forall id | 0 <= id < |v.tickets| && id !in v.closed
      ensures id in WaitersAt(StateOf(v.groups, v.tickets[id].group), v.tickets[id].sequence)
    {
      assert id in WaitersAt(StateOf(l.groups, l.tickets[id].group), l.tickets[id].sequence);
    }
  }

  lemma AcknowledgeKeepsOrder(l: Ledger, f: Frame)
    requires f.group in l.groups && f.sequence <= l.groups[f.group].latest
    requires WaitersOpen(l.groups, l.closed, l.tickets)
    requires AckedBelowLatest(l.groups) && TicketsMarked(l.groups, l.tickets)
    requires ClosedAcked(l.groups, l.closed, l.tickets) && Monotone(l.groups, l.attempted)
    ensures var v := Acknowledge(l, f);
      && AckedBelowLatest(v.groups) && TicketsMarked(v.groups, v.tickets)
      && ClosedAcked(v.groups, v.closed, v.tickets) && Monotone(v.groups, v.attempted)
  {
    var v := Acknowledge(l, f);
    AcknowledgeAdvances(l, f);
    forall id | id in v.closed
      ensures id < |v.tickets| && v.tickets[id].sequence <= StateOf(v.groups, v.tickets[id].group).acked
    {
      if id !in l.closed {
        DueAreTickets(l, f.group, f.sequence, id);
      }
    }
  }

  lemma AcknowledgeKeepsHonest(l: Ledger, f: Frame)
    requires Honest(l.groups, l.tickets, l.attempted, l.delivered) && f.group in l.groups && f in l.attempted
    ensures var v := Acknowledge(l, f); Honest(v.groups, v.tickets, v.attempted, v.delivered)
  {
    var v := Acknowledge(l, f);
    assert v.delivered[|l.delivered|] == f;
    forall e | e in l.delivered ensures e in v.delivered {}
  }

  lemma AcknowledgeKeepsRemembered(l: Ledger, f: Frame)
    requires Remembered(l.groups, l.tickets, l.attempted, l.todo) && f.group in l.groups
    ensures var v := Acknowledge(l, f); Remembered(v.groups, v.tickets, v.attempted, v.todo)
  {
  }

  lemma AcknowledgeKeepsInv(l: Ledger, f: Frame)
    requires Inv(l) && f.group in l.groups && f in l.attempted
    ensures Inv(Acknowledge(l, f))
  {
    AcknowledgeKeepsRemembered(l, f);
    AcknowledgeKeepsWaitersOpen(l, f);
    AcknowledgeKeepsOpenWaits(l, f);
    AcknowledgeKeepsOrder(l, f);
    AcknowledgeKeepsHonest(l, f);
  }

  // ---------------------------------------------------------------- runs

  /** One atomic step of the flusher: a mark by some caller, the start of a flush, the start of a send,
      its success. */
  datatype Event = Marked(ticket: Ticket) | Began | Attempted(frame: Frame) | Accepted(frame: Frame)

  /** Flushes do not overlap: one loop runs them, so a flush begins when the one before has sent all it
      remembered.  It sends only what it remembers, in any order. */
  function Step(l: Ledger, e: Event): Ledger {
    match e
    case Marked(t) => Mark(l, t.group, t.sequence)
    case Began => if l.todo == map[] then Begin(l) else l
    case Attempted(f) => if Sendable(l, f) then Attempt(l, f) else l
    case Accepted(f) => if f.group in l.groups && f in l.attempted then Acknowledge(l, f) else l
  }

  function Exec(l: Ledger, run: seq<Event>): Ledger {
    if run == [] then l else Step(Exec(l, run[..|run| - 1]), run[|run| - 1])
  }

  /** A state some interleaving leads to. */
  ghost predicate Reached(l: Ledger) {
    exists run :: Exec(EmptyLedger, run) == l
  }

  lemma {:induction false} ExecKeepsInv(l: Ledger, run: seq<Event>)
    requires Inv(l)
    ensures Inv(Exec(l, run))
    decreases |run|
  {
    if run != [] {
      var before, e := Exec(l, run[..|run| - 1]), run[|run| - 1];
      ExecKeepsInv(l, run[..|run| - 1]);
      StepKeepsInv(before, e);
    }
  }

  lemma StepKeepsInv(l: Ledger, e: Event)
    requires Inv(l)
    ensures Inv(Step(l, e))
  {
    match e
    case Marked(t) => MarkKeepsInv(l, t.group, t.sequence);
    case Began => BeginKeepsInv(l);
    case Attempted(f) => if Sendable(l, f) { AttemptKeepsInv(l, f); }
    case Accepted(f) => if f.group in l.groups && f in l.attempted { AcknowledgeKeepsInv(l, f); }
  }

  lemma ReachedInv(l: Ledger)
    requires Reached(l)
    ensures Inv(l)
  {
    var run :| Exec(EmptyLedger, run) == l;
    ExecKeepsInv(EmptyLedger, run);
  }

  lemma ReachedStep(l: Ledger, e: Event)
    requires Reached(l)
    ensures Reached(Step(l, e))
  {
    var run :| Exec(EmptyLedger, run) == l;
    assert (run + [e])[..|run|] == run;
    assert Exec(EmptyLedger, run + [e]) == Step(l, e);
  }

  // ---------------------------------------------------------------- what every run keeps

  /** In every interleaving, acknowledged sequences never pass marked ones, a ticket is complete
      exactly when its sequence is acknowledged, and it completes only after Home accepted a
      frame of its group at least as large. */
  lemma CompleteIffAcknowledged(l: Ledger, id: nat)
    requires Reached(l) && id < |l.tickets|
    ensures var s := StateOf(l.groups, l.tickets[id].group);
      && (id in l.closed <==> l.tickets[id].sequence <= s.acked)
      && s.acked <= s.latest && l.tickets[id].sequence <= s.latest
    ensures id in l.closed ==>
      exists f :: f in l.delivered && f.group == l.tickets[id].group && f.sequence >= l.tickets[id].sequence
  {
    ReachedInv(l);
    var t := l.tickets[id];
    var s := StateOf(l.groups, t.group);
    if id !in l.closed {
      assert id in WaitersAt(s, t.sequence);
      var i :| 0 <= i < |s.waiters[t.sequence]| && s.waiters[t.sequence][i] == id;
      assert Waits(l.groups, t.group, t.sequence, i);
    } else {
      assert Frame(t.group, s.acked) in l.delivered;
    }
  }

  /** Whatever callers mark while flushes run, frames of one group go out in nondecreasing order, and
      each carries a sequence some caller marked for that group. */
  lemma FramesAreMarkedAndOrdered(l: Ledger, i: nat, j: nat)
    requires Reached(l) && i < j < |l.attempted| && l.attempted[i].group == l.attempted[j].group
    ensures l.attempted[i].sequence <= l.attempted[j].sequence
    ensures Ticket(l.attempted[j].group, l.attempted[j].sequence) in l.tickets
  {
    ReachedInv(l);
    assert l.attempted[j] in l.attempted;
  }

  /** When the flusher is idle every ticket issued so far is complete. */
  lemma IdleMeansComplete(l: Ledger)
    requires Reached(l) && Idle(l.groups)
    ensures forall id :: 0 <= id < |l.tickets| ==> id in l.closed
  {
    forall id: nat | id < |l.tickets| ensures id in l.closed {
      CompleteIffAcknowledged(l, id);
    }
  }

  /** The flusher is idle as soon as every ticket is complete. */
  lemma CompleteMeansIdle(l: Ledger)
    requires Reached(l) && forall id :: 0 <= id < |l.tickets| ==> id in l.closed
    ensures Idle(l.groups)
  {
    ReachedInv(l);
    forall g | g in l.groups ensures l.groups[g].latest <= l.groups[g].acked {
      var id :| 0 <= id < |l.tickets| && l.tickets[id] == Ticket(g, l.groups[g].latest);
      CompleteIffAcknowledged(l, id);
    }
  }

  /** A mark is refused without a positive sequence or a group.  Otherwise it adds one ticket, complete at
      once exactly when its sequence is acknowledged already; the latest sequence is the larger one, and
      nothing else changes. */
  lemma MarkEffect(l: Ledger, g: Group, q: int)
    requires Reached(l)
    ensures var v := Mark(l, g, q);
      if q <= 0 || g.credentialID == "" || g.model == "" then v == l
      else
        && v.tickets == l.tickets + [Ticket(g, q)]
        && (|l.tickets| in v.closed <==> q <= StateOf(l.groups, g).acked)
        && (forall id: nat :: id < |l.tickets| ==> (id in v.closed <==> id in l.closed))
        && StateOf(v.groups, g).acked == StateOf(l.groups, g).acked
        && StateOf(v.groups, g).latest >= q && StateOf(v.groups, g).latest >= StateOf(l.groups, g).latest
        && StateOf(v.groups, g).latest in {q, StateOf(l.groups, g).latest}
        && (forall h :: h != g ==> StateOf(v.groups, h) == StateOf(l.groups, h))
  {
    ReachedInv(l);
  }

  /** An accepted frame raises the acknowledged sequence of its group to its own, unless that is lower,
      and completes exactly the tickets of the group up to it. */
  lemma AcknowledgeEffect(l: Ledger, f: Frame)
    requires Reached(l) && f.group in l.groups && f in l.attempted
    ensures var s, v := StateOf(l.groups, f.group), Acknowledge(l, f);
      && StateOf(v.groups, f.group).acked == (if f.sequence > s.acked then f.sequence else s.acked)
      && StateOf(v.groups, f.group).latest == s.latest
      && (forall h :: h != f.group ==> StateOf(v.groups, h) == StateOf(l.groups, h))
      && v.tickets == l.tickets && v.todo == l.todo && v.delivered == l.delivered + [f]
      && forall id :: 0 <= id < |l.tickets| ==>
           (id in v.closed <==>
              id in l.closed || (l.tickets[id].group == f.group && l.tickets[id].sequence <= f.sequence))
  {
    var v := Acknowledge(l, f);
    ReachedStep(l, Accepted(f));
    assert Step(l, Accepted(f)) == v;
    forall id: nat | id < |l.tickets|
      ensures id in v.closed <==>
        id in l.closed || (l.tickets[id].group == f.group && l.tickets[id].sequence <= f.sequence)
    {
      CompleteIffAcknowledged(l, id);
      CompleteIffAcknowledged(v, id);
    }
  }

  /** What a flush sends: for each group with a ticket that is not complete one frame, which carries the
      largest sequence marked for that group. */
  lemma FlushSends(l: Ledger, g: Group)
    requires Reached(l)
    ensures g in Begin(l).todo <==> exists id :: 0 <= id < |l.tickets| && l.tickets[id].group == g && id !in l.closed
    ensures g in Begin(l).todo ==>
      && Ticket(g, Begin(l).todo[g]) in l.tickets
      && forall id :: 0 <= id < |l.tickets| && l.tickets[id].group == g ==> l.tickets[id].sequence <= Begin(l).todo[g]
  {
    ReachedInv(l);
    forall id: nat | id < |l.tickets| && l.tickets[id].group == g
      ensures l.tickets[id].sequence <= StateOf(l.groups, g).latest
      ensures id !in l.closed ==> g in Begin(l).todo
    {
      CompleteIffAcknowledged(l, id);
    }
    if g in Begin(l).todo {
      var id :| 0 <= id < |l.tickets| && l.tickets[id] == Ticket(g, l.groups[g].latest);
      CompleteIffAcknowledged(l, id);
    }
  }

  /** The acknowledged sequence of every group only moves forward. */
  ghost predicate Advances(l: Ledger, v: Ledger) {
    && l.tickets <= v.tickets && l.closed <= v.closed
    && forall g :: StateOf(l.groups, g).acked <= StateOf(v.groups, g).acked
                && StateOf(l.groups, g).latest <= StateOf(v.groups, g).latest
  }

  lemma MarkAdvances(l: Ledger, g: Group, q: int)
    ensures Advances(l, Mark(l, g, q))
    ensures Mark(l, g, q).attempted == l.attempted && Mark(l, g, q).delivered == l.delivered
    ensures Mark(l, g, q).todo == l.todo
    ensures forall h :: h in l.groups ==> h in Mark(l, g, q).groups
  {
  }

  lemma AcknowledgeAdvances(l: Ledger, f: Frame)
    requires f.group in l.groups
    ensures Advances(l, Acknowledge(l, f))
    ensures StateOf(Acknowledge(l, f).groups, f.group).acked >= f.sequence
  {
  }

  /** No acknowledgement is ever taken back, and no completed ticket reopened. */
  lemma {:induction false} RunsAdvance(l: Ledger, run: seq<Event>)
    ensures Advances(l, Exec(l, run))
    decreases |run|
  {
    if run != [] {
      var before, e := Exec(l, run[..|run| - 1]), run[|run| - 1];
      RunsAdvance(l, run[..|run| - 1]);
      StepAdvances(before, e);
    }
  }

  lemma StepAdvances(l: Ledger, e: Event)
    ensures Advances(l, Step(l, e))
  {
    match e
    case Marked(t) => MarkAdvances(l, t.group, t.sequence);
    case Began =>
    case Attempted(_) =>
    case Accepted(f) => if f.group in l.groups { AcknowledgeAdvances(l, f); }
  }

  lemma {:induction false} MarksAdvance(l: Ledger, run: seq<Ticket>)
    ensures Advances(l, Marks(l, run))
    ensures Marks(l, run).attempted == l.attempted && Marks(l, run).delivered == l.delivered
    ensures Marks(l, run).todo == l.todo
    ensures forall h :: h in l.groups ==> h in Marks(l, run).groups
    decreases |run|
  {
    if run != [] {
      MarksAdvance(l, run[..|run| - 1]);
      MarkAdvances(Marks(l, run[..|run| - 1]), run[|run| - 1].group, run[|run| - 1].sequence);
    }
  }

  ghost predicate SameLatest(before: Groups, after: Groups) {
    && before.Keys == after.Keys
    && forall g :: g in before ==> before[g].latest == after[g].latest
  }

  // ---------------------------------------------------------------- one send

  /** A send with callers marking meanwhile, and its acknowledgement if it was accepted. */
  function Sent(l: Ledger, f: Frame, marks: seq<Ticket>, accepted: bool): Ledger {
    var marked := Marks(Attempt(l, f), marks);
    if accepted then Acknowledge(marked, f) else marked
  }

  lemma SentAdvances(l: Ledger, f: Frame, marks: seq<Ticket>, accepted: bool)
    requires f.group in l.groups
    ensures var v := Sent(l, f, marks, accepted);
      && Advances(l, v) && v.attempted == l.attempted + [f] && v.todo == l.todo - {f.group}
      && (forall g :: g in l.groups ==> g in v.groups)
      && (accepted ==> v.groups[f.group].acked >= f.sequence)
      && (marks == [] ==> SameLatest(l.groups, v.groups))
  {
    MarksAdvance(Attempt(l, f), marks);
    if accepted {
      AcknowledgeAdvances(Marks(Attempt(l, f), marks), f);
    }
  }

  /** Progress of a flush that began in `start`, still has the groups `todo` to send and lost the
      groups `lost`. */
  ghost predicate Flushing(start: Ledger, l: Ledger, todo: set<Group>, lost: set<Group>) {
    var pending := Pending(start.groups);
    && todo <= pending.Keys && lost <= pending.Keys - todo
    && l.todo == (map g | g in todo :: pending[g])
    && Advances(start, l)
    && (forall g :: g in start.groups ==> g in l.groups)
    && (forall g :: g in pending.Keys - todo ==> Frame(g, pending[g]) in l.attempted)
    && (forall g :: g in pending.Keys - todo - lost ==> StateOf(l.groups, g).acked >= pending[g])
    && |l.attempted| + |todo| == |start.attempted| + |pending.Keys|
  }

  lemma FlushingStarts(l: Ledger)
    ensures Flushing(l, Begin(l), Pending(l.groups).Keys, {})
  {
  }

  lemma {:induction false} SentIsAttempted(l: Ledger, f: Frame, marks: seq<Ticket>, accepted: bool)
    requires f.group in l.groups
    ensures var v := Sent(l, f, marks, accepted);
      f in v.attempted && forall e :: e in l.attempted ==> e in v.attempted
  {
    SentAdvances(l, f, marks, accepted);
    var v := Sent(l, f, marks, accepted);
    assert v.attempted[|l.attempted|] == f;
    forall e | e in l.attempted ensures e in v.attempted {}
  }

  lemma {:induction false} FlushingSends(start: Ledger, l: Ledger, todo: set<Group>, lost: set<Group>, g: Group,
                      marks: seq<Ticket>, accepted: bool)
    requires Flushing(start, l, todo, lost) && g in todo
    ensures var f := Frame(g, Pending(start.groups)[g]);
      Sendable(l, f) && f.group in l.groups
      && Flushing(start, Sent(l, f, marks, accepted), todo - {g}, if accepted then lost else lost + {g})
  {
    var pending := Pending(start.groups);
    var f := Frame(g, pending[g]);
    SentAdvances(l, f, marks, accepted);
    SentIsAttempted(l, f, marks, accepted);
    forall h | h in pending.Keys - (todo - {g}) - (if accepted then lost else lost + {g})
      ensures StateOf(Sent(l, f, marks, accepted).groups, h).acked >= pending[h]
    {
      if h != g { assert h in pending.Keys - todo - lost; }
    }
  }

  /** The groups a flush lost are those whose frame the transport did not accept. */
  ghost predicate Refused(start: Ledger, lost: set<Group>, sends: Frame -> bool) {
    forall g :: g in lost ==> g in Pending(start.groups) && !sends(Frame(g, Pending(start.groups)[g]))
  }

  ghost predicate Quiet(marks: nat -> seq<Ticket>) {
    forall n :: marks(n) == []
  }

  ghost predicate AckedUpTo(start: Ledger, l: Ledger, lost: set<Group>) {
    forall g :: g in start.groups && g !in lost ==>
      g in l.groups && l.groups[g].acked >= start.groups[g].latest
  }

  lemma QuietSends(start: Ledger, l: Ledger, f: Frame, marks: nat -> seq<Ticket>, n: nat, accepted: bool)
    requires f.group in l.groups
    requires Quiet(marks) ==> SameLatest(start.groups, l.groups)
    ensures Quiet(marks) ==> SameLatest(start.groups, Sent(l, f, marks(n), accepted).groups)
  {
    SentAdvances(l, f, marks(n), accepted);
  }

  /** After a flush, every group whose frame was accepted is acknowledged at least up to what was
      marked before the flush began; if none was lost, every earlier ticket is complete, and if
      nothing was marked meanwhile nothing is left to send. */
  lemma FlushedMeansAcked(start: Ledger, l: Ledger, lost: set<Group>)
    requires Reached(start) && Reached(l) && Flushing(start, l, {}, lost)
    ensures AckedUpTo(start, l, lost)
    ensures lost == {} ==> forall id :: 0 <= id < |start.tickets| ==> id in l.closed
    ensures lost == {} && SameLatest(start.groups, l.groups) ==> Idle(l.groups)
  {
    ReachedInv(start);
    forall g | g in start.groups && g !in lost
      ensures g in l.groups && l.groups[g].acked >= start.groups[g].latest
    {
      if g in Pending(start.groups) {
        assert g in Pending(start.groups).Keys - {} - lost;
      }
      assert StateOf(start.groups, g).acked <= StateOf(l.groups, g).acked;
    }
    if lost == {} {
      forall id: nat | id < |start.tickets| ensures id in l.closed {
        assert start.tickets[id] == l.tickets[id];
        CompleteIffAcknowledged(start, id);
        CompleteIffAcknowledged(l, id);
      }
    }
  }

  // ---------------------------------------------------------------- the flusher

  function DueAmong(s: State, acked: int, keys: set<int>): set<nat> {
    set q, i | q in keys && q in s.waiters && q <= acked && 0 <= i < |s.waiters[q]| :: s.waiters[q][i]
  }

  lemma SomeMember(s: set<int>)
    requires s != {}
    ensures exists q :: q in s
  {
    assert (forall q :: q !in s) ==> s == {};
  }

  class Flusher {
    var groups: Groups
    var closed: set<nat>
    var issued: nat
    /** The same state with its history. */
    var ledger: Ledger

    ghost predicate Linked()
      reads this
    {
      groups == ledger.groups && closed == ledger.closed && issued == |ledger.tickets|
    }

    ghost predicate Valid()
      reads this
    {
      Linked() && Reached(ledger)
    }

    constructor ()
      ensures Valid() && ledger == EmptyLedger
    {
      groups, closed, issued := map[], {}, 0;
      ledger := EmptyLedger;
      new;
      assert Exec(EmptyLedger, []) == EmptyLedger;
    }

    /** Completing a ticket closes its channel, which panics when done twice. */
    method Complete(id: nat)
      requires id !in closed
      modifies this`closed
      ensures closed == old(closed) + {id}
    {
      closed := closed + {id};
    }

    method MarkDirty(group: Group, sequence: int) returns (ticket: Option<nat>)
      requires Valid()
      modifies this
      ensures Valid() && ledger == Mark(old(ledger), group, sequence)
      ensures ticket.None? <==> sequence <= 0 || group.credentialID == "" || group.model == ""
      ensures ticket.Some? ==> ticket == Some(|old(ledger).tickets|)
    {
      if !Markable(group, sequence) {
        return None;
      }
      ReachedStep(ledger, Marked(Ticket(group, sequence)));
      ledger := Mark(ledger, group, sequence);
      var done := issued;
      issued := issued + 1;
      var state := StateOf(groups, group);
      if sequence <= state.acked {
        closed := closed + {done};
      } else {
        state := state.(waiters := state.waiters[sequence := WaitersAt(state, sequence) + [done]]);
        if sequence > state.latest {
          state := state.(latest := sequence);
        }
        groups := groups[group := state];
      }
      ticket := Some(done);
    }

    method CompleteAll(ids: seq<nat>)
      requires forall i :: 0 <= i < |ids| ==> ids[i] !in closed
      requires forall i, j :: 0 <= i < j < |ids| ==> ids[i] != ids[j]
      modifies this`closed
      ensures closed == old(closed) + set i | 0 <= i < |ids| :: ids[i]
    {
      for k := 0 to |ids|
        invariant closed == old(closed) + set i | 0 <= i < k :: ids[i]
      {
        Complete(ids[k]);
        assert (set i | 0 <= i < k + 1 :: ids[i]) == (set i | 0 <= i < k :: ids[i]) + {ids[k]};
      }
    }

    /** Closes the channels the new acknowledgement covers, list by list. */
    method CompleteDue(state: State, acked: int) returns (raised: State)
      requires forall q, i :: q in state.waiters && 0 <= i < |state.waiters[q]| ==> state.waiters[q][i] !in closed
      requires forall q, p, i, j :: q in state.waiters && p in state.waiters
                 && 0 <= i < |state.waiters[q]| && 0 <= j < |state.waiters[p]| && (q, i) != (p, j)
                 ==> state.waiters[q][i] != state.waiters[p][j]
      modifies this`closed
      ensures closed == old(closed) + Due(state, acked)
      ensures raised == Raised(state, acked)
    {
      raised := state.(acked := acked);
      var todo := state.waiters.Keys;
      while todo != {}
        invariant todo <= state.waiters.Keys
        invariant raised == State(state.latest, acked,
                                  map q | q in state.waiters && (q > acked || q in todo) :: state.waiters[q])
        invariant closed == old(closed) + DueAmong(state, acked, state.waiters.Keys - todo)
        decreases |todo|
      {
        SomeMember(todo);
        var q :| q in todo;
        ghost var before := DueAmong(state, acked, state.waiters.Keys - todo);
        todo := todo - {q};
        if q <= acked {
          var ids := state.waiters[q];
          CompleteAll(ids);
          raised := raised.(waiters := raised.waiters - {q});
          assert DueAmong(state, acked, state.waiters.Keys - todo) == before + set i | 0 <= i < |ids| :: ids[i];
        } else {
          assert DueAmong(state, acked, state.waiters.Keys - todo) == before;
        }
      }
      assert DueAmong(state, acked, state.waiters.Keys) == Due(state, acked);
    }

    /** The critical section after a successful send. */
    method Acked(frame: Frame)
      requires Valid() && frame.group in groups && frame in ledger.attempted
      modifies this
      ensures Valid() && ledger == Acknowledge(old(ledger), frame)
    {
      var state := StateOf(groups, frame.group);
      if frame.sequence > state.acked {
        WaitersDistinct(ledger, frame.group);
        state := CompleteDue(state, frame.sequence);
      }
      groups := groups[frame.group := state];
      ReachedStep(ledger, Accepted(frame));
      ledger := Acknowledge(ledger, frame);
    }

    method Interfere(run: seq<Ticket>)
      requires Valid()
      modifies this
      ensures Valid() && ledger == Marks(old(ledger), run)
    {
      for i := 0 to |run|
        invariant Valid() && ledger == Marks(old(ledger), run[..i])
      {
        assert run[..i + 1][..i] == run[..i];
        var _ := MarkDirty(run[i].group, run[i].sequence);
      }
      assert run[..|run|] == run;
    }

    /** One flush.  `sends(f)` says whether the transport accepts a frame, and `marks(n)` is what
        callers mark while the n-th frame is being sent, the lock being free. */
    method Flush(sends: Frame -> bool, marks: nat -> seq<Ticket>) returns (failed: bool, ghost lost: set<Group>)
      requires Valid() && ledger.todo == map[]
      modifies this
      ensures Valid() && ledger.todo == map[] && Flushing(old(ledger), ledger, {}, lost)
      ensures failed <==> lost != {}
      ensures Refused(old(ledger), lost, sends)
      ensures AckedUpTo(old(ledger), ledger, lost)
      ensures !failed ==> forall id :: 0 <= id < |old(ledger).tickets| ==> id in closed
      ensures !failed && Quiet(marks) ==> Idle(groups)
    {
      failed, lost := false, {};
      var pending := Pending(groups);
      var todo := pending.Keys;
      var n: nat := 0;
      ghost var start := ledger;
      FlushingStarts(ledger);
      ReachedStep(ledger, Began);
      ledger := Begin(ledger);
      while todo != {}
        invariant Valid()
        invariant Flushing(start, ledger, todo, lost)
        invariant failed <==> lost != {}
        invariant Refused(start, lost, sends)
        invariant Quiet(marks) ==> SameLatest(start.groups, ledger.groups)
        decreases |todo|
      {
        var group :| group in todo;
        var frame := Frame(group, pending[group]);
        FlushingSends(start, ledger, todo, lost, group, marks(n), sends(frame));
        QuietSends(start, ledger, frame, marks, n, sends(frame));
        todo := todo - {group};
        var ok := SendOne(frame, sends(frame), marks(n));
        if !ok {
          failed, lost := true, lost + {group};
        }
        n := n + 1;
      }
      FlushedMeansAcked(start, ledger, lost);
    }

    /** Sends one frame with the lock free, and records the acknowledgement if it was accepted. */
    method SendOne(frame: Frame, accepted: bool, marks: seq<Ticket>) returns (ok: bool)
      requires Valid() && Sendable(ledger, frame) && frame.group in groups
      modifies this
      ensures Valid() && ok == accepted && ledger == Sent(old(ledger), frame, marks, accepted)
    {
      ReachedStep(ledger, Attempted(frame));
      MarksAdvance(Attempt(ledger, frame), marks);
      ledger := Attempt(ledger, frame);
      assert ledger.attempted[|old(ledger).attempted|] == frame;
      Interfere(marks);
      ok := accepted;
      if ok {
        Acked(frame);
      }
    }

    method IsIdle() returns (idle: bool)
      ensures idle <==> Idle(groups)
    {
      var todo := groups.Keys;
      while todo != {}
        invariant todo <= groups.Keys
        invariant forall g :: g in groups && g !in todo ==> groups[g].latest <= groups[g].acked
        decreases |todo|
      {
        var group :| group in todo;
        todo := todo - {group};
        if groups[group].latest > groups[group].acked {
          return false;
        }
      }
      idle := true;
    }

    /** What other goroutines do; a step that is not possible now does not happen. */
    method Perform(events: seq<Event>)
      requires Valid()
      modifies this
      ensures Valid() && ledger == Exec(old(ledger), events)
    {
      for i := 0 to |events|
        invariant Valid() && ledger == Exec(old(ledger), events[..i])
      {
        assert events[..i + 1][..i] == events[..i];
        ReachedStep(ledger, events[i]);
        match events[i] {
          case Marked(t) => var _ := MarkDirty(t.group, t.sequence);
          case Began => ledger := Step(ledger, events[i]);
          case Attempted(f) => ledger := Step(ledger, events[i]);
          case Accepted(f) =>
            if f.group in groups && f in ledger.attempted {
              Acked(f);
            }
        }
      }
      assert events[..|events|] == events;
    }

    /** Waits for the running flusher to drain.  `others(n)` is everything that happens after the n-th
        poll.  The result is nil exactly when some poll finds the flusher idle, at the first such poll,
        and then every ticket issued so far is complete. */
    method WaitIdle(polls: nat, others: nat -> seq<Event>) returns (drained: bool, ghost polled: nat)
      requires Valid()
      modifies this
      ensures Valid() && polled <= polls && ledger == Exec(old(ledger), Between(others, polled))
      ensures BusyBefore(old(ledger), others, polled)
      ensures drained <==> polled < polls
      ensures drained ==> Idle(groups) && forall id :: 0 <= id < |ledger.tickets| ==> id in closed
    {
      drained, polled := false, 0;
      ghost var start := ledger;
      for n := 0 to polls
        invariant Valid() && polled == n && !drained
        invariant ledger == Exec(start, Between(others, n)) && BusyBefore(start, others, n)
      {
        drained := IsIdle();
        if drained {
          IdleMeansComplete(ledger);
          return;
        }
        Perform(others(n));
        PolledOnce(start, others, n);
        polled := polled + 1;
      }
    }
  }

  /** The first `n` polls do not find the flusher idle. */
  ghost predicate BusyBefore(start: Ledger, others: nat -> seq<Event>, n: nat) {
    forall m :: 0 <= m < n ==> !Idle(Exec(start, Between(others, m)).groups)
  }

  lemma {:induction false} PolledOnce(start: Ledger, others: nat -> seq<Event>, n: nat)
    requires BusyBefore(start, others, n) && !Idle(Exec(start, Between(others, n)).groups)
    ensures BusyBefore(start, others, n + 1)
    ensures Exec(Exec(start, Between(others, n)), others(n)) == Exec(start, Between(others, n + 1))
  {
    ExecConcat(start, Between(others, n), others(n));
  }

  /** All that happens during the first `n` polls. */
  function Between(others: nat -> seq<Event>, n: nat): seq<Event> {
    if n == 0 then [] else Between(others, n - 1) + others(n - 1)
  }

  lemma {:induction false} ExecConcat(l: Ledger, a: seq<Event>, b: seq<Event>)
    ensures Exec(l, a + b) == Exec(Exec(l, a), b)
    decreases |b|
  {
    if b == [] {
      assert a + b == a;
    } else {
      assert (a + b)[..|a + b| - 1] == a + b[..|b| - 1];
      ExecConcat(l, a, b[..|b| - 1]);
    }
  }

  lemma WaitersDistinct(l: Ledger, g: Group)
    requires Reached(l) && g in l.groups
    ensures var w := l.groups[g].waiters;
      && (forall q, i :: q in w && 0 <= i < |w[q]| ==> w[q][i] !in l.closed)
      && (forall q, p, i, j :: q in w && p in w && 0 <= i < |w[q]| && 0 <= j < |w[p]| && (q, i) != (p, j)
            ==> w[q][i] != w[p][j])
  {
    ReachedInv(l);
    var w := l.groups[g].waiters;
    forall q, p, i, j | q in w && p in w && 0 <= i < |w[q]| && 0 <= j < |w[p]| && (q, i) != (p, j)
      ensures w[q][i] != w[p][j] && w[q][i] !in l.closed
    {
      assert Waits(l.groups, g, q, i) && Waits(l.groups, g, p, j);
    }
    forall q, i | q in w && 0 <= i < |w[q]| ensures w[q][i] !in l.closed {
      assert Waits(l.groups, g, q, i);
    }
  }
}

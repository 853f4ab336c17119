/**
 The only writer of the audit log, run by any number of transactions at once. Each
 append takes a transaction-scoped advisory lock, reads the hash of the visible row
 with the largest id, links a new row to it and inserts it; the transaction may
 append again, commit or roll back. Every database statement is one step and the
 steps of different transactions interleave freely.
 */
module AuditWriter {
  import opened Prelude
  import opened AuditChain

  type Txn = nat

  /** What a statement sees: all committed rows, or those committed when the transaction began. */
  datatype Isolation = ReadCommitted | RepeatableRead

  datatype Stage =
    | Idle                    // no append in progress
    | Waiting                 // asked for the lock
    | Granted                 // holds the lock, head not read yet
    | HeadRead(prev: string)  // about to insert a row linked to prev

  datatype Session = Session(stage: Stage, own: seq<Row>, snapshot: seq<Row>)

  /** Rows are listed in the order they were committed; ids come from a sequence that never goes back. */
  datatype State = State(
    isolation: Isolation, committed: seq<Row>, nextId: int,
    holder: Option<Txn>, sessions: map<Txn, Session>)

  datatype Step =
    | Request(t: Txn)
    | Grant(t: Txn)
    | ReadHead(t: Txn)
    | Insert(t: Txn, content: Content)
    | Commit(t: Txn)
    | Rollback(t: Txn)

  function Visible(s: State, session: Session): seq<Row> {
    (if s.isolation == ReadCommitted then s.committed else session.snapshot) + session.own
  }

  /** `ORDER BY id DESC LIMIT 1` */
  function LatestById(rows: seq<Row>): (r: Option<Row>)
    ensures r == None <==> rows == []
    ensures r.Some? ==> r.value in rows && forall x | x in rows :: x.id <= r.value.id
  {
    if rows == [] then None
    else
      match LatestById(rows[1..])
      case None => Some(rows[0])
      case Some(r) => if rows[0].id > r.id then Some(rows[0]) else Some(r)
  }

  /** The last hash, or the genesis hash when there is none or it is empty. */
  function HeadHash(rows: seq<Row>): string {
    match LatestById(rows)
    case None => GENESIS_HASH
    case Some(r) => if r.rowHash == "" then GENESIS_HASH else r.rowHash
  }

  function NewRow(H: Hash, id: int, prev: string, content: Content): Row {
    Row(id, content, prev, ComputeRowHash(H, prev, CanonicalPayload(content)))
  }

  /** The unique constraint on the row hash: some row the transaction's insert is checked against has it. */
  predicate Taken(rows: seq<Row>, hash: string) { exists i :: 0 <= i < |rows| && rows[i].rowHash == hash }

  /** An insert that breaks the constraint aborts its transaction; the id it drew is gone. */
  function Inserted(s: State, t: Txn, row: Row): State
    requires t in s.sessions
  {
    var s' := s.(nextId := s.nextId + 1);
    if Taken(s.committed + s.sessions[t].own, row.rowHash) then Close(s', t)
    else s'.(sessions := s.sessions[t := s.sessions[t].(stage := Idle, own := s.sessions[t].own + [row])])
  }

  /** One statement; a step that is not possible in the state changes nothing. */
  function Next(H: Hash, s: State, step: Step): State {
    match step
    case Request(t) =>
      if t !in s.sessions then s.(sessions := s.sessions[t := Session(Waiting, [], s.committed)])
      else if s.sessions[t].stage == Idle then s.(sessions := s.sessions[t := s.sessions[t].(stage := Waiting)])
      else s
    case Grant(t) =>
      if t in s.sessions && s.sessions[t].stage == Waiting && (s.holder == None || s.holder == Some(t))
      then s.(holder := Some(t), sessions := s.sessions[t := s.sessions[t].(stage := Granted)])
      else s
    case ReadHead(t) =>
      if t in s.sessions && s.sessions[t].stage == Granted
      then s.(sessions := s.sessions[t := s.sessions[t].(stage := HeadRead(HeadHash(Visible(s, s.sessions[t]))))])
      else s
    case Insert(t, content) =>
      if t in s.sessions && s.sessions[t].stage.HeadRead? then
        Inserted(s, t, NewRow(H, s.nextId, s.sessions[t].stage.prev, content))
      else s
    case Commit(t) =>
      if t in s.sessions && s.sessions[t].stage == Idle
      then Close(s.(committed := s.committed + s.sessions[t].own), t)
      else s
    case Rollback(t) => if t in s.sessions then Close(s, t) else s
  }

  /** The end of a transaction releases its lock. */
  function Close(s: State, t: Txn): State {
    s.(holder := if s.holder == Some(t) then None else s.holder, sessions := s.sessions - {t})
  }

  function Run(H: Hash, s: State, steps: seq<Step>): State
    decreases |steps|
  {
    if steps == [] then s else Run(H, Next(H, s, steps[0]), steps[1..])
  }

  // ---- what every step keeps --------------------------------------------------

  ghost predicate Ascending(rows: seq<Row>) {
    forall i, j | 0 <= i < j < |rows| :: rows[i].id < rows[j].id
  }

  /** An intact chain whose ids ascend and lie below the next id. */
  ghost predicate GoodChain(H: Hash, rows: seq<Row>, nextId: int) {
    && Intact(H, rows) && Ascending(rows)
    && forall r | r in rows :: r.id < nextId
  }

  /** Only the lock holder has rows of its own or is between taking the lock and inserting. */
  ghost predicate OnlyHolderActive(s: State, t: Txn)
    requires t in s.sessions
  {
    s.holder == Some(t) || (s.sessions[t].own == [] && s.sessions[t].stage in {Idle, Waiting})
  }

  ghost predicate SessionGood(H: Hash, s: State, t: Txn)
    requires t in s.sessions
  {
    var rows := s.committed + s.sessions[t].own;
    && OnlyHolderActive(s, t)
    && GoodChain(H, rows, s.nextId)
    && (s.sessions[t].stage.HeadRead? ==> s.sessions[t].stage.prev == Head(rows))
  }

  ghost predicate Inv(H: Hash, s: State) {
    && s.isolation == ReadCommitted
    && GoodChain(H, s.committed, s.nextId)
    && (s.holder.Some? ==> s.holder.value in s.sessions)
    && forall t | t in s.sessions :: SessionGood(H, s, t)
  }

  /** In a good chain the row with the largest id is the last one, so the head read is the chain's head. */
  lemma HeadHashIsHead(H: Hash, rows: seq<Row>, nextId: int)
    requires GoodChain(H, rows, nextId)
    ensures HeadHash(rows) == Head(rows)
  {
    hide CanonicalPayload;
    if rows != [] {
      var r := LatestById(rows).value;
      var last := rows[|rows| - 1];
      assert last in rows;
      var k :| 0 <= k < |rows| && rows[k] == r;
      assert k == |rows| - 1;
      assert Linked(H, rows, |rows| - 1);
    }
  }

  lemma GrowGoodChain(H: Hash, rows: seq<Row>, nextId: int, content: Content)
    requires GoodChain(H, rows, nextId)
    ensures GoodChain(H, rows + [NewRow(H, nextId, Head(rows), content)], nextId + 1)
  {
    hide CanonicalPayload;
    var row := NewRow(H, nextId, Head(rows), content);
    AppendKeepsIntact(H, rows, row);
    assert forall i | 0 <= i < |rows| :: rows[i] in rows;
  }

  lemma HigherIdKeepsGood(H: Hash, rows: seq<Row>, n: int, m: int)
    requires GoodChain(H, rows, n) && n <= m
    ensures GoodChain(H, rows, m)
  {}

  lemma InsertKeepsInv(H: Hash, s: State, t: Txn, content: Content)
    requires Inv(H, s) && t in s.sessions && s.sessions[t].stage.HeadRead?
    ensures Inv(H, Next(H, s, Insert(t, content)))
  {
    hide CanonicalPayload, GoodChain, Taken;
    var s' := Next(H, s, Insert(t, content));
    var rows := s.committed + s.sessions[t].own;
    assert SessionGood(H, s, t);
    GrowGoodChain(H, rows, s.nextId, content);
    if t in s'.sessions {
      assert s'.committed + s'.sessions[t].own == rows + [NewRow(H, s.nextId, Head(rows), content)];
    }
    HigherIdKeepsGood(H, s.committed, s.nextId, s'.nextId);
    forall u | u in s'.sessions ensures SessionGood(H, s', u) {
      assert SessionGood(H, s, u);
      if u != t { assert s.committed + s.sessions[u].own == s.committed; }
    }
  }

  /** Under the lock the unique constraint refuses an insert only if the hash is broken. */
  lemma RefusedOnlyIfBroken(H: Hash, s: State, t: Txn, content: Content)
    requires Inv(H, s) && t in s.sessions && s.sessions[t].stage.HeadRead?
    ensures var rows := s.committed + s.sessions[t].own;
            var row := NewRow(H, s.nextId, s.sessions[t].stage.prev, content);
            t !in Next(H, s, Insert(t, content)).sessions ==> HashBroken(H, Texts(rows + [row]))
  {
    hide CanonicalPayload, HashBroken;
    var rows := s.committed + s.sessions[t].own;
    var row := NewRow(H, s.nextId, s.sessions[t].stage.prev, content);
    assert SessionGood(H, s, t);
    AppendKeepsIntact(H, rows, row);
    if Taken(rows, row.rowHash) && !HashBroken(H, Texts(rows + [row])) {
      var i :| 0 <= i < |rows| && rows[i].rowHash == row.rowHash;
      HashesDistinct(H, rows + [row], i + 1, |rows| + 1);
    }
  }

  lemma CommitKeepsInv(H: Hash, s: State, t: Txn)
    requires Inv(H, s) && t in s.sessions && s.sessions[t].stage == Idle
    ensures Inv(H, Next(H, s, Commit(t)))
  {
    hide CanonicalPayload, GoodChain;
    var s' := Next(H, s, Commit(t));
    assert SessionGood(H, s, t);
    forall u | u in s'.sessions ensures SessionGood(H, s', u) {
      assert SessionGood(H, s, u);
      if s.holder == Some(t) {
        assert s'.committed + s'.sessions[u].own == s.committed + s.sessions[t].own;
      } else {
        assert s'.committed == s.committed;
      }
    }
  }

  lemma NextKeepsInv(H: Hash, s: State, step: Step)
    requires Inv(H, s)
    ensures Inv(H, Next(H, s, step))
  {
    hide CanonicalPayload, GoodChain, HeadHash;
    var s' := Next(H, s, step);
    if s' != s {
      match step
      case Insert(t, content) => InsertKeepsInv(H, s, t, content);
      case Commit(t) => CommitKeepsInv(H, s, t);
      case Request(t) =>
        assert s.committed + [] == s.committed;
        forall u | u in s'.sessions
          ensures SessionGood(H, s', u)
        {
          if u in s.sessions { assert SessionGood(H, s, u); }
        }
      case Grant(t) =>
        forall u | u in s'.sessions ensures SessionGood(H, s', u) {
          assert SessionGood(H, s, u);
        }
      case ReadHead(t) =>
        assert SessionGood(H, s, t);
        HeadHashIsHead(H, s.committed + s.sessions[t].own, s.nextId);
        forall u | u in s'.sessions ensures SessionGood(H, s', u) { assert SessionGood(H, s, u); }
      case Rollback(t) =>
        forall u | u in s'.sessions ensures SessionGood(H, s', u) { assert SessionGood(H, s, u); }
    }
  }

  lemma {:induction false} RunKeepsInv(H: Hash, s: State, steps: seq<Step>)
    requires Inv(H, s)
    ensures Inv(H, Run(H, s, steps))
    decreases |steps|
  {
    if steps != [] {
      NextKeepsInv(H, s, steps[0]);
      RunKeepsInv(H, Next(H, s, steps[0]), steps[1..]);
    }
  }

  // ---- the guarantee ----------------------------------------------------------

  function InsertById(r: Row, rows: seq<Row>): seq<Row> {
    if rows == [] || r.id <= rows[0].id then [r] + rows else [rows[0]] + InsertById(r, rows[1..])
  }

  /** The listing `verify_chain` reads: every committed row, by ascending id. */
  function OrderedById(rows: seq<Row>): seq<Row> {
    if rows == [] then [] else InsertById(rows[0], OrderedById(rows[1..]))
  }

  lemma {:induction false} AscendingIsOrdered(rows: seq<Row>)
    requires Ascending(rows)
    ensures OrderedById(rows) == rows
  {
    if rows != [] {
      AscendingIsOrdered(rows[1..]);
      assert rows == [rows[0]] + rows[1..];
    }
  }

  /** A database with an intact log and no transaction open. */
  ghost predicate Quiescent(H: Hash, s: State) {
    s.holder == None && s.sessions == map[] && GoodChain(H, s.committed, s.nextId)
  }

  /** No interleaving of appends, commits and rollbacks forks the chain, and none rewrites it. */
  lemma NoFork(H: Hash, s: State, steps: seq<Step>)
    requires Quiescent(H, s) && s.isolation == ReadCommitted
    ensures var end := Run(H, s, steps);
            Intact(H, OrderedById(end.committed)) && s.committed <= end.committed
  {
    hide CanonicalPayload;
    RunKeepsInv(H, s, steps);
    AscendingIsOrdered(Run(H, s, steps).committed);
    RunAppendsOnly(H, s, steps);
  }

  lemma {:induction false} RunAppendsOnly(H: Hash, s: State, steps: seq<Step>)
    ensures s.committed <= Run(H, s, steps).committed
    decreases |steps|
  {
    hide CanonicalPayload, HeadHash;
    if steps != [] {
      assert s.committed <= Next(H, s, steps[0]).committed;
      RunAppendsOnly(H, Next(H, s, steps[0]), steps[1..]);
    }
  }

  // ---- whose entries end up in the log --------------------------------------------

  /** Without a commit nothing is added, whatever transactions append and roll back. */
  lemma {:induction false} NoCommitAddsNothing(H: Hash, s: State, steps: seq<Step>)
    requires forall step: Step | step in steps :: !step.Commit?
    ensures Run(H, s, steps).committed == s.committed
    decreases |steps|
  {
    hide CanonicalPayload, HeadHash, Taken;
    if steps != [] {
      assert steps[0] in steps;
      NoCommitAddsNothing(H, Next(H, s, steps[0]), steps[1..]);
    }
  }

  /** How far a transaction's append has come. */
  datatype Phase = Resting | Asking | Holding | Ready

  /** A transactional list of entries: no hashes, no ids, no rows. */
  datatype Ledger = Ledger(entries: seq<Content>, holder: Option<Txn>, open: map<Txn, Draft>)
  datatype Draft = Draft(phase: Phase, entries: seq<Content>)

  function Drafted(l: Ledger, t: Txn, phase: Phase): Ledger
    requires t in l.open
  {
    l.(open := l.open[t := l.open[t].(phase := phase)])
  }

  function Ended(l: Ledger, t: Txn): Ledger {
    l.(holder := if l.holder == Some(t) then None else l.holder, open := l.open - {t})
  }

  /**
   What a step means for the entries: an insert drafts, a commit publishes the drafts in order, a rollback drops
   them.
   */
  function Booked(l: Ledger, step: Step): Ledger {
    var phase := if step.t in l.open then Some(l.open[step.t].phase) else None;
    match step
    case Request(t) =>
      if phase == None then l.(open := l.open[t := Draft(Asking, [])])
      else if phase == Some(Resting) then Drafted(l, t, Asking)
      else l
    case Grant(t) =>
      if phase == Some(Asking) && (l.holder == None || l.holder == Some(t))
      then Drafted(l.(holder := Some(t)), t, Holding)
      else l
    case ReadHead(t) => if phase == Some(Holding) then Drafted(l, t, Ready) else l
    case Insert(t, content) =>
      if phase == Some(Ready)
      then l.(open := l.open[t := Draft(Resting, l.open[t].entries + [content])])
      else l
    case Commit(t) => if phase == Some(Resting) then Ended(l.(entries := l.entries + l.open[t].entries), t) else l
    case Rollback(t) => if phase.Some? then Ended(l, t) else l
  }

  function BookedAll(l: Ledger, steps: seq<Step>): Ledger
    decreases |steps|
  {
    if steps == [] then l else BookedAll(Booked(l, steps[0]), steps[1..])
  }

  function Entries(rows: seq<Row>): (r: seq<Content>)
    ensures |r| == |rows|
  {
    seq(|rows|, i requires 0 <= i < |rows| => rows[i].content)
  }

  function PhaseOf(stage: Stage): Phase {
    match stage case Idle => Resting case Waiting => Asking case Granted => Holding case HeadRead(_) => Ready
  }

  function LedgerOf(s: State): Ledger {
    Ledger(Entries(s.committed), s.holder, map t | t in s.sessions ::
      Draft(PhaseOf(s.sessions[t].stage), Entries(s.sessions[t].own)))
  }

  /** An insert that the unique constraint refuses. */
  predicate Refused(H: Hash, s: State, step: Step) {
    && step.Insert? && step.t in s.sessions && s.sessions[step.t].stage.HeadRead?
    && Taken(s.committed
      + s.sessions[step.t].own, NewRow(H, s.nextId, s.sessions[step.t].stage.prev, step.content).rowHash)
  }

  predicate NoneRefused(H: Hash, s: State, steps: seq<Step>)
    decreases |steps|
  {
    steps == [] || (!Refused(H, s, steps[0]) && NoneRefused(H, Next(H, s, steps[0]), steps[1..]))
  }

  lemma EntriesAppend(a: seq<Row>, b: seq<Row>)
    ensures Entries(a + b) == Entries(a) + Entries(b)
  {}

  /** Each statement does to the rows what it does to the entries; in any isolation level. */
  lemma NextIsBooked(H: Hash, s: State, step: Step)
    requires !Refused(H, s, step)
    ensures LedgerOf(Next(H, s, step)) == Booked(LedgerOf(s), step)
  {
    hide CanonicalPayload, HeadHash, Taken, Entries;
    var t := step.t;
    if t in s.sessions {
      EntriesAppend(s.committed, s.sessions[t].own);
      if step.Insert? && s.sessions[t].stage.HeadRead? {
        var row := NewRow(H, s.nextId, s.sessions[t].stage.prev, step.content);
        EntriesAppend(s.sessions[t].own, [row]);
        OneEntry(row);
      }
    }
    NoEntry();
    assert LedgerOf(Next(H, s, step)).open == Booked(LedgerOf(s), step).open;
  }

  lemma OneEntry(row: Row)
    ensures Entries([row]) == [row.content]
  {}

  lemma NoEntry()
    ensures Entries([]) == []
  {}

  /**
   The log is the transactional list: after any run its entries, in order, are those the list
   computes from the statements alone, and so are the drafts of the open transactions.
   */
  lemma {:induction false} RunIsBooked(H: Hash, s: State, steps: seq<Step>)
    requires NoneRefused(H, s, steps)
    ensures LedgerOf(Run(H, s, steps)) == BookedAll(LedgerOf(s), steps)
    decreases |steps|
  {
    hide Next, Booked, LedgerOf, Refused;
    if steps != [] {
      NextIsBooked(H, s, steps[0]);
      RunIsBooked(H, Next(H, s, steps[0]), steps[1..]);
    }
  }

  /** Some insert of the run exhibits a break of the hash on the chain it was to extend. */
  ghost predicate BreaksHash(H: Hash, s: State, steps: seq<Step>) {
    exists n :: 0 <= n < |steps| && BreaksHashAt(H, Run(H, s, steps[..n]), steps[n])
  }

  ghost predicate BreaksHashAt(H: Hash, s: State, step: Step) {
    && step.Insert? && step.t in s.sessions && s.sessions[step.t].stage.HeadRead?
    && var rows := s.committed + s.sessions[step.t].own;
       HashBroken(H, Texts(rows + [NewRow(H, s.nextId, s.sessions[step.t].stage.prev, step.content)]))
  }

  lemma {:induction false} RefusedBreaksHash(H: Hash, s: State, steps: seq<Step>)
    requires Inv(H, s) && !NoneRefused(H, s, steps)
    ensures BreaksHash(H, s, steps)
    decreases |steps|
  {
    hide Inv, Next, Refused, BreaksHashAt, HashBroken;
    if Refused(H, s, steps[0]) {
      RefusedAt(H, s, steps[0]);
      assert steps[..0] == [] && BreaksHashAt(H, Run(H, s, steps[..0]), steps[0]);
    } else {
      var s', rest := Next(H, s, steps[0]), steps[1..];
      NextKeepsInv(H, s, steps[0]);
      RefusedBreaksHash(H, s', rest);
      var n :| 0 <= n < |rest| && BreaksHashAt(H, Run(H, s', rest[..n]), rest[n]);
      assert steps[..n + 1][0] == steps[0] && steps[..n + 1][1..] == rest[..n];
      assert Run(H, s, steps[..n + 1]) == Run(H, s', rest[..n]) && steps[n + 1] == rest[n];
    }
  }

  lemma RefusedAt(H: Hash, s: State, step: Step)
    requires Inv(H, s) && Refused(H, s, step)
    ensures BreaksHashAt(H, s, step)
  {
    hide CanonicalPayload, HashBroken, Taken, Inv;
    RefusedOnlyIfBroken(H, s, step.t, step.content);
  }

  /**
   Under READ COMMITTED, from a quiet log: the entries of the log are those there were and then
   those of the committed transactions, in commit order, unless an insert exhibits a broken hash.
   */
  lemma LogIsLedger(H: Hash, s: State, steps: seq<Step>)
    requires Quiescent(H, s) && s.isolation == ReadCommitted
    ensures LedgerOf(Run(H, s, steps)) == BookedAll(Ledger(Entries(s.committed), None, map[]), steps)
            || BreaksHash(H, s, steps)
  {
    hide CanonicalPayload, Run, BookedAll, BreaksHash;
    if NoneRefused(H, s, steps) {
      RunIsBooked(H, s, steps);
      assert LedgerOf(s) == Ledger(Entries(s.committed), None, map[]);
    } else {
      RefusedBreaksHash(H, s, steps);
    }
  }

  // ---- why READ COMMITTED ------------------------------------------------------

  function Empty(isolation: Isolation): State { State(isolation, [], 1, None, map[]) }

  /** Two appends; the second transaction asks for the lock while the first still holds it. */
  function FirstAppend(c: Content): seq<Step> {
    [Request(1), Request(2), Grant(1), ReadHead(1), Insert(1, c), Commit(1)]
  }

  function SecondAppend(c: Content): seq<Step> {
    [Grant(2), ReadHead(2), Insert(2, c), Commit(2)]
  }

  lemma {:induction false} RunConcat(H: Hash, s: State, a: seq<Step>, b: seq<Step>)
    ensures Run(H, s, a + b) == Run(H, Run(H, s, a), b)
    decreases |a|
  {
    hide Next;
    if a == [] {
      assert a + b == b;
    } else {
      assert (a + b)[1..] == a[1..] + b;
      RunConcat(H, Next(H, s, a[0]), a[1..], b);
    }
  }

  lemma RunTwo(H: Hash, s: State, x: Step, y: Step)
    ensures Run(H, s, [x, y]) == Next(H, Next(H, s, x), y)
  {
    hide Next;
    assert [x, y][1..] == [y] && [y][1..] == [];
    var s1 := Next(H, s, x);
    assert Run(H, s1, [y]) == Run(H, Next(H, s1, y), []);
  }

  lemma RunFour(H: Hash, s: State, w: Step, x: Step, y: Step, z: Step)
    ensures Run(H, s, [w, x, y, z]) == Next(H, Next(H, Next(H, Next(H, s, w), x), y), z)
  {
    hide Next;
    assert [w, x, y, z] == [w, x] + [y, z];
    RunConcat(H, s, [w, x], [y, z]);
    RunTwo(H, s, w, x);
    RunTwo(H, Run(H, s, [w, x]), y, z);
  }

  lemma FirstAppendRuns(H: Hash, c: Content)
    ensures Run(H, Empty(RepeatableRead), FirstAppend(c)) ==
            State(RepeatableRead, [NewRow(H, 1, GENESIS_HASH, c)], 2, None, map[2 := Session(Waiting, [], [])])
  {
    hide CanonicalPayload;
    var s0 := Empty(RepeatableRead);
    RunTwo(H, s0, Request(1), Request(2));
    var s2 := Run(H, s0, [Request(1), Request(2)]);
    assert s2.sessions == map[1 := Session(Waiting, [], []), 2 := Session(Waiting, [], [])];
    RunFour(H, s2, Grant(1), ReadHead(1), Insert(1, c), Commit(1));
    assert FirstAppend(c) == [Request(1), Request(2)] + [Grant(1), ReadHead(1), Insert(1, c), Commit(1)];
    RunConcat(H, s0, [Request(1), Request(2)], [Grant(1), ReadHead(1), Insert(1, c), Commit(1)]);
  }

  lemma SecondAppendRuns(H: Hash, d: Content, r: Row)
    requires r.rowHash != NewRow(H, 2, GENESIS_HASH, d).rowHash
    ensures var s := State(RepeatableRead, [r], 2, None, map[2 := Session(Waiting, [], [])]);
            Run(H, s, SecondAppend(d)).committed == [r, NewRow(H, 2, GENESIS_HASH, d)]
  {
    hide CanonicalPayload;
    RunFour(H, State(RepeatableRead, [r], 2, None, map[2 := Session(Waiting, [], [])]),
            Grant(2), ReadHead(2), Insert(2, d), Commit(2));
  }

  /** What the first row of a log hashes. */
  function FirstText(c: Content): string { GENESIS_HASH + CanonicalPayload(c) }

  /**
   With one snapshot per transaction the same code forks: two entries whose hashes the unique
   constraint tells apart are both committed, and both link to the genesis hash.
   */
  lemma SnapshotIsolationForks(H: Hash, c: Content, d: Content)
    requires H(FirstText(c)) != H(FirstText(d))
    ensures var rows := Run(H, Empty(RepeatableRead), FirstAppend(c) + SecondAppend(d)).committed;
      && |rows| == 2 && rows[0].content == c && rows[1].content == d
      && rows[0].prevHash == GENESIS_HASH && rows[1].prevHash == GENESIS_HASH && rows[0].id < rows[1].id
      && (Intact(H, OrderedById(rows)) <==> H(FirstText(c)) == GENESIS_HASH)
  {
    hide CanonicalPayload, Run;
    var r1, r2 := NewRow(H, 1, GENESIS_HASH, c), NewRow(H, 2, GENESIS_HASH, d);
    RunConcat(H, Empty(RepeatableRead), FirstAppend(c), SecondAppend(d));
    FirstAppendRuns(H, c);
    SecondAppendRuns(H, d, r1);
    AscendingIsOrdered([r1, r2]);
    if Intact(H, [r1, r2]) { assert Linked(H, [r1, r2], 1); }
    if r1.rowHash == GENESIS_HASH { assert Linked(H, [r1, r2], 0) && Linked(H, [r1, r2], 1); }
  }

  /** No run from an empty log ends in a chain the verifier refuses. */
  ghost predicate NeverForks(H: Hash, isolation: Isolation) {
    forall steps :: Intact(H, OrderedById(Run(H, Empty(isolation), steps).committed))
  }

  /**
   The chain never forks exactly under READ COMMITTED, unless the hash is broken on whichever two
   different entries one names.
   */
  lemma NeverForksIff(H: Hash, isolation: Isolation, c: Content, d: Content)
    requires !SameOnWire(c, d)
    ensures (NeverForks(H, isolation) <==> isolation == ReadCommitted) || HashBroken(H, {FirstText(c), FirstText(d)})
  {
    hide CanonicalPayload, Run, Intact, OrderedById;
    if isolation == ReadCommitted {
      forall steps ensures Intact(H, OrderedById(Run(H, Empty(isolation), steps).committed)) {
        EmptyQuiescent(H);
        NoFork(H, Empty(isolation), steps);
      }
    } else {
      TextsDiffer(c, d);
      var x, y := FirstText(c), FirstText(d);
      assert x in {x, y} && y in {x, y};
      if H(x) != H(y) && H(x) != GENESIS_HASH {
        SnapshotIsolationForks(H, c, d);
        ForksNoLater(H, c, d);
      }
    }
  }

  lemma ForksNoLater(H: Hash, c: Content, d: Content)
    requires !Intact(H, OrderedById(Run(H, Empty(RepeatableRead), FirstAppend(c) + SecondAppend(d)).committed))
    ensures !NeverForks(H, RepeatableRead)
  {}

  lemma EmptyQuiescent(H: Hash)
    ensures Quiescent(H, Empty(ReadCommitted))
  {}

  lemma TextsDiffer(c: Content, d: Content)
    requires !SameOnWire(c, d)
    ensures FirstText(c) != FirstText(d)
  {
    PayloadDeterminesFields(c, d);
    hide CanonicalPayload;
    assert FirstText(c)[64..] == CanonicalPayload(c) && FirstText(d)[64..] == CanonicalPayload(d);
  }

  // ---- one append, as four steps ------------------------------------------------

  /** The session of transaction t once it has asked for the lock. */
  function Asked(s: State, t: Txn): Session {
    if t in s.sessions then s.sessions[t].(stage := Waiting) else Session(Waiting, [], s.committed)
  }

  lemma AppendWaits(H: Hash, s: State, t: Txn, content: Content)
    requires (t in s.sessions ==> s.sessions[t].stage == Idle) && s.holder != None && s.holder != Some(t)
    ensures Run(H, s, [Request(t), Grant(t), ReadHead(t), Insert(t, content)])
              == s.(sessions := s.sessions[t := Asked(s, t)])
  {
    hide CanonicalPayload, HeadHash;
    RunFour(H, s, Request(t), Grant(t), ReadHead(t), Insert(t, content));
  }

  lemma AppendProceeds(H: Hash, s: State, t: Txn, content: Content)
    requires (t in s.sessions ==> s.sessions[t].stage == Idle) && (s.holder == None || s.holder == Some(t))
    ensures var prev := HeadHash(Visible(s, Asked(s, t)));
            var ready := s.(holder := Some(t), sessions := s.sessions[t := Asked(s, t).(stage := HeadRead(prev))]);
            Run(H, s, [Request(t), Grant(t), ReadHead(t), Insert(t, content)])
            == Inserted(ready, t, NewRow(H, s.nextId, prev, content))
  {
    hide CanonicalPayload, HeadHash, Inserted;
    RunFour(H, s, Request(t), Grant(t), ReadHead(t), Insert(t, content));
    var s1 := Next(H, s, Request(t));
    assert s1 == s.(sessions := s.sessions[t := Asked(s, t)]);
    var s2 := Next(H, s1, Grant(t));
    assert s2.sessions == s.sessions[t := Asked(s, t).(stage := Granted)];
    var s3 := Next(H, s2, ReadHead(t));
    var prev := HeadHash(Visible(s, Asked(s, t)));
    assert Visible(s2, s2.sessions[t]) == Visible(s, Asked(s, t));
    assert s3.sessions == s.sessions[t := Asked(s, t).(stage := HeadRead(prev))];
  }

  // ---- the service --------------------------------------------------------------

  /** What an append comes to: it waits, the unique constraint aborts the transaction, or the row is in. */
  datatype Appended = LockHeld | DuplicateHash | Added(row: Row)

  /** The log as one database session sees it change, statement by statement. */
  class AuditLogWriter {
    const H: Hash
    const isolation: Isolation
    var committed: seq<Row>
    var nextId: int
    var holder: Option<Txn>
    var sessions: map<Txn, Session>

    constructor (H: Hash, isolation: Isolation)
      ensures this.H == H && Now() == Empty(isolation)
    {
      this.H, this.isolation := H, isolation;
      committed, nextId, holder, sessions := [], 1, None, map[];
    }

    function Now(): State
      reads this
    {
      State(isolation, committed, nextId, holder, sessions)
    }

    /** Appends one entry for transaction t, or leaves it waiting while another holds the lock. */
    method Append(t: Txn, content: Content) returns (result: Appended)
      requires t in sessions ==> sessions[t].stage == Idle
      modifies this
      ensures Now() == Run(H, old(Now()), [Request(t), Grant(t), ReadHead(t), Insert(t, content)])
      ensures result == LockHeld <==> old(holder) != None && old(holder) != Some(t)
      ensures result == DuplicateHash ==> t !in sessions && committed == old(committed)
      ensures result.Added? ==>
                && t in sessions && sessions[t].own == old(OwnRows(t)) + [result.row] && result.row.content == content
                && !Taken(old(committed) + old(OwnRows(t)), result.row.rowHash)
    {
      hide CanonicalPayload, HeadHash, Taken, Run;
      ghost var s0 := Now();
      var session := if t in sessions then sessions[t].(stage := Waiting) else Session(Waiting, [], committed);
      if holder != None && holder != Some(t) {
        AppendWaits(H, s0, t, content);
        sessions := sessions[t := session];
        return LockHeld;
      }
      AppendProceeds(H, s0, t, content);
      holder := Some(t);
      var rows := (if isolation == ReadCommitted then committed else session.snapshot) + session.own;
      var prev := HeadHash(rows);
      var r := Row(nextId, content, prev, ComputeRowHash(H, prev, CanonicalPayload(content)));
      nextId := nextId + 1;
      if Taken(committed + session.own, r.rowHash) {
        holder, sessions := None, sessions - {t};
        return DuplicateHash;
      }
      sessions := sessions[t := session.(stage := Idle, own := session.own + [r])];
      return Added(r);
    }

    ghost function OwnRows(t: Txn): seq<Row>
      reads this
    {
      if t in sessions then sessions[t].own else []
    }

    /** Commits transaction t, publishing its rows and releasing the lock. */
    method CommitTransaction(t: Txn)
      requires t in sessions && sessions[t].stage == Idle
      modifies this
      ensures Now() == Next(H, old(Now()), Commit(t))
      ensures committed == old(committed) + old(OwnRows(t)) && t !in sessions && holder != Some(t)
    {
      hide CanonicalPayload, HeadHash;
      committed := committed + sessions[t].own;
      holder := if holder == Some(t) then None else holder;
      sessions := sessions - {t};
    }

    method RollbackTransaction(t: Txn)
      requires t in sessions
      modifies this
      ensures Now() == Next(H, old(Now()), Rollback(t))
      ensures committed == old(committed) && t !in sessions && holder != Some(t)
    {
      hide CanonicalPayload, HeadHash;
      holder := if holder == Some(t) then None else holder;
      sessions := sessions - {t};
    }

    /** Recomputes the chain over the committed rows by ascending id. */
    method VerifyChain() returns (ok: bool, firstBad: Option<int>)
      ensures ok <==> Intact(H, OrderedById(committed))
      ensures !ok ==> exists k: nat ::
                BreaksAt(H, OrderedById(committed), k) && firstBad == Some(OrderedById(committed)[k].id)
    {
      ok, firstBad := VerifyRows(H, OrderedById(committed));
    }
  }
}

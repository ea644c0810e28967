/** Many transactions over one live catalog: every interleaving of their statements, savepoints
    and commits with allocations on the live catalog itself. */
module OverlayRuns {
  import opened Options
  import opened Sequences
  import opened Snapshots
  import opened ChangeSets
  import opened CatalogOverlay

  /** An id handed out: its kind and number. */
  datatype Given = Given(kind: Kind, id: nat)

  /** A statement at work on its private copy: the allocators it read, those of the copy now,
      and the ids it has drawn from the copy. */
  datatype Statement = Statement(expected: Next, current: Next, drawn: seq<Given>)

  datatype Transaction = Transaction(journal: Journal, savepoints: set<Savepoint>, statement: Option<Statement>)

  /** `publishing` are the snapshots on their way to being restored; `given` is everything that
      was ever handed out. */
  datatype State = State(base: Next, txns: map<nat, Transaction>, publishing: multiset<Next>, given: seq<Given>)

  datatype Step =
    | Allocate(kind: Kind)
    | Raise(to: Next)
    | Begin(txn: nat)
    | End(txn: nat)
    | Start(txn: nat)
    | Draw(txn: nat, kind: Kind)
    | RaiseCopy(txn: nat, to: Next)
    | GiveUp(txn: nat)
    | Commit(txn: nat, change: ChangeSet)
    | Save(txn: nat)
    | Rollback(txn: nat, savepoint: Savepoint)
    | Publish(txn: nat)
    | Restore(snapshot: Next)

  ghost predicate Idle(s: State, t: nat) {
    t in s.txns && s.txns[t].statement.None?
  }

  ghost predicate Working(s: State, t: nat) {
    t in s.txns && s.txns[t].statement.Some?
  }

  function Doing(s: State, t: nat): Statement
    requires t in s.txns && s.txns[t].statement.Some?
  {
    s.txns[t].statement.value
  }

  function SetTxn(s: State, t: nat, txn: Transaction): State {
    s.(txns := s.txns[t := txn])
  }

  function SetStatement(s: State, t: nat, statement: Option<Statement>): State
    requires t in s.txns
  {
    SetTxn(s, t, s.txns[t].(statement := statement))
  }

  /** A statement that draws the next id of a kind from its copy. */
  function Drawn(p: Statement, k: Kind): Statement {
    Statement(p.expected, With(p.current, k, At(p.current, k) + 1), p.drawn + [Given(k, At(p.current, k))])
  }

  /** A statement ends by claiming what it drew. The claim is refused, and the statement with it,
      if the live allocators are not the ones it read. */
  ghost predicate IsCommit(s: State, t: nat, change: ChangeSet, s': State) {
    && Working(s, t)
    && change.highWater.next == Doing(s, t).current
    && match ClaimAllocators(s.base, Doing(s, t).expected, Doing(s, t).current)
       case Claimed(next) =>
         var j := s.txns[t].journal;
         s' == SetTxn(s, t, s.txns[t].(
                        journal := Journal(j.changes + [change], Merge(j.highWater, change.highWater)),
                        statement := None)).(base := next, given := s.given + Doing(s, t).drawn)
       case _ => s' == SetStatement(s, t, None)
  }

  ghost predicate NextState(s: State, step: Step, s': State) {
    match step
    case Allocate(k) =>
      CanAllocate(k, At(s.base, k))
      && s' == s.(base := With(s.base, k, At(s.base, k) + 1), given := s.given + [Given(k, At(s.base, k))])
    case Raise(to) => s' == s.(base := MaxNext(s.base, to))
    case Begin(t) => t !in s.txns && s' == SetTxn(s, t, Transaction(Journal([], NOTHING), {}, None))
    case End(t) => Idle(s, t) && s' == s.(txns := s.txns - {t})
    case Start(t) =>
      Idle(s, t)
      && var seen := MaterializedNext(s.base, s.txns[t].journal);
         s' == SetStatement(s, t, Some(Statement(seen, seen, [])))
    case Draw(t, k) =>
      Working(s, t) && CanAllocate(k, At(Doing(s, t).current, k))
      && s' == SetStatement(s, t, Some(Drawn(Doing(s, t), k)))
    case RaiseCopy(t, to) =>
      Working(s, t)
      && s' == SetStatement(s, t, Some(Doing(s, t).(current := MaxNext(Doing(s, t).current, to))))
    case GiveUp(t) => Working(s, t) && s' == SetStatement(s, t, None)
    case Commit(t, change) => IsCommit(s, t, change, s')
    case Save(t) =>
      Idle(s, t)
      && var j := s.txns[t].journal;
         s' == SetTxn(s, t, s.txns[t].(savepoints := s.txns[t].savepoints + {Savepoint(|j.changes|, j.highWater)}))
    case Rollback(t, p) =>
      Idle(s, t) && p in s.txns[t].savepoints
      && var j := RolledBack(s.txns[t].journal, p);
         s' == if j.Some? then SetTxn(s, t, s.txns[t].(journal := j.value)) else s
    case Publish(t) =>
      Idle(s, t)
      && s' == s.(publishing := s.publishing + multiset{MaterializedNext(s.base, s.txns[t].journal)})
    case Restore(snapshot) =>
      snapshot in s.publishing
      && s' == s.(publishing := s.publishing - multiset{snapshot}, base := MaxNext(s.base, snapshot))
  }

  // ---------------------------------------------------------------- invariant

  ghost predicate AllBelow(given: seq<Given>, next: Next) {
    forall g | g in given :: g.id < At(next, g.kind)
  }

  ghost predicate NoneBelow(given: seq<Given>, next: Next) {
    forall g | g in given :: g.id >= At(next, g.kind)
  }

  /** Everything a journal reserved has been claimed from the live allocators. */
  ghost predicate JournalOk(base: Next, j: Journal) {
    AtLeast(base, j.highWater.next) && forall c | c in j.changes :: AtLeast(base, c.highWater.next)
  }

  ghost predicate StatementOk(p: Statement) {
    AtLeast(p.current, p.expected) && Distinct(p.drawn) && AllBelow(p.drawn, p.current) && NoneBelow(p.drawn, p.expected)
  }

  ghost predicate TxnOk(base: Next, txn: Transaction) {
    && JournalOk(base, txn.journal)
    && (forall p | p in txn.savepoints :: AtLeast(base, p.highWater.next))
    && (txn.statement.Some? ==> StatementOk(txn.statement.value))
  }

  ghost predicate Inv(s: State) {
    && Distinct(s.given)
    && AllBelow(s.given, s.base)
    && (forall t | t in s.txns :: TxnOk(s.base, s.txns[t]))
  }

  lemma AtLeastTrans(a: Next, b: Next, c: Next)
    requires AtLeast(a, b) && AtLeast(b, c)
    ensures AtLeast(a, c)
  {
  }

  lemma MaxNextBounds(a: Next, b: Next)
    ensures AtLeast(MaxNext(a, b), a) && AtLeast(MaxNext(a, b), b)
    ensures AtLeast(a, b) ==> MaxNext(a, b) == a
  {
  }

  /** The live allocators never go back, and so keep every transaction well. */
  lemma TxnKept(base: Next, base': Next, txn: Transaction)
    requires TxnOk(base, txn) && AtLeast(base', base)
    ensures TxnOk(base', txn)
  {
  }

  lemma BelowKept(given: seq<Given>, base: Next, base': Next)
    requires AllBelow(given, base) && AtLeast(base', base)
    ensures AllBelow(given, base')
  {
    AtLeastAt(base', base);
  }

  /** Ids at or above a bound are new to ids below it. */
  lemma DistinctAppend(a: seq<Given>, b: seq<Given>, next: Next)
    requires Distinct(a) && Distinct(b) && AllBelow(a, next) && NoneBelow(b, next)
    ensures Distinct(a + b)
  {
    var s := a + b;
    forall i, j | 0 <= i < j < |s| ensures s[i] != s[j] {
      if i < |a| <= j {
        assert s[i] in a && s[j] in b;
      }
    }
  }

  lemma RaiseKeeps(s: State, base': Next)
    requires Inv(s) && AtLeast(base', s.base)
    ensures Inv(s.(base := base'))
  {
    BelowKept(s.given, s.base, base');
    forall t | t in s.txns ensures TxnOk(base', s.txns[t]) {
      TxnKept(s.base, base', s.txns[t]);
    }
  }

  lemma AllocateKeeps(s: State, k: Kind, s': State)
    requires Inv(s) && NextState(s, Allocate(k), s')
    ensures Inv(s')
  {
    var g := Given(k, At(s.base, k));
    AtLeastAt(s'.base, s.base);
    RaiseKeeps(s, s'.base);
    DistinctAppend(s.given, [g], s.base);
  }

  lemma SetKeeps(s: State, t: nat, txn: Transaction)
    requires Inv(s) && TxnOk(s.base, txn)
    ensures Inv(SetTxn(s, t, txn))
  {
  }

  lemma {:induction false} ChangesBelow(base: Next, changes: seq<ChangeSet>, n: nat)
    requires n <= |changes| && forall c | c in changes :: AtLeast(base, c.highWater.next)
    ensures ChangesNext(base, changes, n) == base
  {
    if n > 0 {
      ChangesBelow(base, changes, n - 1);
      assert changes[n - 1] in changes;
      MaxNextBounds(base, changes[n - 1].highWater.next);
    }
  }

  /** A statement starts from exactly the live allocators. */
  lemma SeenIsLive(base: Next, j: Journal)
    requires JournalOk(base, j)
    ensures MaterializedNext(base, j) == base
  {
    ChangesBelow(base, j.changes, |j.changes|);
    MaxNextBounds(base, j.highWater.next);
  }

  lemma DrawKeeps(p: Statement, k: Kind)
    requires StatementOk(p)
    ensures StatementOk(Drawn(p, k))
  {
    var next := With(p.current, k, At(p.current, k) + 1);
    AtLeastAt(next, p.current);
    AtLeastTrans(next, p.current, p.expected);
    AtLeastAt(p.current, p.expected);
    DistinctAppend(p.drawn, [Given(k, At(p.current, k))], p.current);
    BelowKept(p.drawn, p.current, next);
  }

  lemma RaiseCopyKeeps(p: Statement, to: Next)
    requires StatementOk(p)
    ensures StatementOk(p.(current := MaxNext(p.current, to)))
  {
    MaxNextBounds(p.current, to);
    AtLeastTrans(MaxNext(p.current, to), p.current, p.expected);
    BelowKept(p.drawn, p.current, MaxNext(p.current, to));
  }

  lemma NothingDrawn(p: Statement)
    requires StatementOk(p) && p.current == p.expected
    ensures p.drawn == []
  {
    if p.drawn != [] {
      HasElement(p.drawn);
    }
  }

  lemma HasElement(given: seq<Given>)
    requires given != []
    ensures exists g :: g in given
  {
    assert given[0] in given;
  }

  lemma CommitKeeps(s: State, t: nat, change: ChangeSet, s': State)
    requires Inv(s) && IsCommit(s, t, change, s')
    ensures Inv(s')
  {
    hide JournalOk;
    var txn, p := s.txns[t], s.txns[t].statement.value;
    assert TxnOk(s.base, txn);
    match ClaimAllocators(s.base, p.expected, p.current)
    case Claimed(next) =>
      MaxNextBounds(s.base, p.current);
      RaiseKeeps(s, next);
      if p.current == p.expected {
        NothingDrawn(p);
        assert s.given + p.drawn == s.given;
      } else {
        DistinctAppend(s.given, p.drawn, s.base);
        BelowKept(p.drawn, p.current, next);
      }
      JournalGrows(next, txn.journal, change);
      SetKeeps(s.(base := next), t, s'.txns[t]);
    case _ =>
      SetKeeps(s, t, txn.(statement := None));
  }

  lemma JournalGrows(base: Next, j: Journal, change: ChangeSet)
    requires AtLeast(base, change.highWater.next)
    ensures JournalOk(base, j) ==> JournalOk(base, Journal(j.changes + [change], Merge(j.highWater, change.highWater)))
  {
  }

  lemma RollbackKeeps(base: Next, j: Journal, p: Savepoint)
    requires JournalOk(base, j) && AtLeast(base, p.highWater.next) && p.len <= |j.changes|
    ensures JournalOk(base, RolledBack(j, p).value)
  {
  }

  lemma StatementKeeps(s: State, t: nat, p: Option<Statement>)
    requires Inv(s) && t in s.txns && (p.Some? ==> StatementOk(p.value))
    ensures Inv(SetStatement(s, t, p))
  {
    assert TxnOk(s.base, s.txns[t]);
    SetKeeps(s, t, s.txns[t].(statement := p));
  }

  lemma StepKeeps(s: State, step: Step, s': State)
    requires Inv(s) && NextState(s, step, s')
    ensures Inv(s')
  {
    hide Inv, IsCommit, TxnOk, StatementOk, SetTxn, JournalOk, MaxNext, AtLeast, MaterializedNext, RolledBack;
    match step
    case Allocate(k) =>
      AllocateKeeps(s, k, s');
    case Raise(to) =>
      MaxNextBounds(s.base, to);
      RaiseKeeps(s, s'.base);
    case Begin(t) =>
      FreshTxn(s.base);
      SetKeeps(s, t, Transaction(Journal([], NOTHING), {}, None));
    case End(t) =>
      EndKeeps(s, t);
    case Start(t) =>
      FreshStatement(MaterializedNext(s.base, s.txns[t].journal));
      StatementKeeps(s, t, Some(Statement(MaterializedNext(s.base, s.txns[t].journal),
                                          MaterializedNext(s.base, s.txns[t].journal), [])));
    case Draw(t, k) =>
      WorkingOk(s, t);
      DrawKeeps(Doing(s, t), k);
      StatementKeeps(s, t, Some(Drawn(Doing(s, t), k)));
    case RaiseCopy(t, to) =>
      WorkingOk(s, t);
      RaiseCopyKeeps(Doing(s, t), to);
      StatementKeeps(s, t, Some(Doing(s, t).(current := MaxNext(Doing(s, t).current, to))));
    case GiveUp(t) =>
      StatementKeeps(s, t, None);
    case Commit(t, change) =>
      CommitKeeps(s, t, change, s');
    case Save(t) =>
      SaveKeeps(s, t, s');
    case Rollback(t, p) =>
      RollbackStepKeeps(s, t, p, s');
    case Publish(t) =>
      PublishKeeps(s, s');
    case Restore(snapshot) =>
      MaxNextBounds(s.base, snapshot);
      RaiseKeeps(s, s'.base);
      PublishKeeps(s.(base := s'.base), s');
  }

  lemma FreshTxn(base: Next)
    ensures TxnOk(base, Transaction(Journal([], NOTHING), {}, None))
  {
  }

  lemma FreshStatement(seen: Next)
    ensures StatementOk(Statement(seen, seen, []))
  {
  }

  lemma WorkingOk(s: State, t: nat)
    requires Inv(s) && Working(s, t)
    ensures StatementOk(Doing(s, t))
  {
    assert TxnOk(s.base, s.txns[t]);
  }

  lemma EndKeeps(s: State, t: nat)
    requires Inv(s)
    ensures Inv(s.(txns := s.txns - {t}))
  {
  }

  lemma SaveKeeps(s: State, t: nat, s': State)
    requires Inv(s) && NextState(s, Save(t), s')
    ensures Inv(s')
  {
    assert TxnOk(s.base, s.txns[t]);
    SetKeeps(s, t, s'.txns[t]);
  }

  lemma RollbackStepKeeps(s: State, t: nat, p: Savepoint, s': State)
    requires Inv(s) && NextState(s, Rollback(t, p), s')
    ensures Inv(s')
  {
    assert TxnOk(s.base, s.txns[t]);
    if p.len <= |s.txns[t].journal.changes| {
      RollbackKeeps(s.base, s.txns[t].journal, p);
      SetKeeps(s, t, s'.txns[t]);
    }
  }

  lemma PublishKeeps(s: State, s': State)
    requires Inv(s) && s' == s.(publishing := s'.publishing)
    ensures Inv(s')
  {
  }

  // ---------------------------------------------------------------- runs

  ghost predicate Initial(s: State) {
    s.txns == map[] && s.publishing == multiset{} && s.given == []
  }

  ghost predicate IsRun(states: seq<State>, steps: seq<Step>) {
    && |states| == |steps| + 1
    && Initial(states[0])
    && forall i | 0 <= i < |steps| :: NextState(states[i], steps[i], states[i + 1])
  }

  lemma {:induction false} RunKeeps(states: seq<State>, steps: seq<Step>, n: nat)
    requires IsRun(states, steps) && n <= |steps|
    ensures Inv(states[n])
  {
    hide NextState, Inv;
    if n == 0 {
      InitialInv(states[0]);
    } else {
      RunKeeps(states, steps, n - 1);
      StepKeeps(states[n - 1], steps[n - 1], states[n]);
    }
  }

  lemma InitialInv(s: State)
    requires Initial(s)
    ensures Inv(s)
  {
  }

  /** In no run is an id of any kind handed out twice, and the live allocators are past every id
      that was. */
  lemma NoIdTwice(states: seq<State>, steps: seq<Step>, n: nat, i: nat, j: nat)
    requires IsRun(states, steps) && n <= |steps| && i < j < |states[n].given|
    ensures states[n].given[i] != states[n].given[j]
    ensures states[n].given[i].id < At(states[n].base, states[n].given[i].kind)
  {
    hide NextState;
    RunKeeps(states, steps, n);
    assert states[n].given[i] in states[n].given;
  }

  /** A statement that drew ids succeeds exactly when the live allocators are still those it
      started from; one that drew none always does. */
  lemma CommitSucceedsIff(s: State, t: nat, change: ChangeSet, s': State)
    requires Inv(s) && IsCommit(s, t, change, s')
    ensures var p := Doing(s, t);
            |s'.txns[t].journal.changes| == |s.txns[t].journal.changes| + 1
            <==> p.current == p.expected || s.base == p.expected
  {
    WorkingOk(s, t);
  }
}

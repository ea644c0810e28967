/** Column ids of one live relation. A claim compares every other allocator, if the statement drew
    from one, but never the relation's own counter, which it only raises. */
module ColumnRuns {
  import opened Sequences
  import opened Snapshots
  import opened CatalogOverlay

  /** A statement at work: the column counter and the other allocators of the catalog it copied,
      and those of its copy now. */
  datatype Statement = Statement(seen: nat, current: nat, expected: Next, desired: Next)

  datatype State = State(live: nat, base: Next, statements: map<nat, Statement>, given: seq<nat>)

  /** `AddLive` adds a column to the live catalog itself, which leaves the other allocators at
      `to`; `Raise` is everything else that moves them. */
  datatype Step =
    | AddLive(to: Next)
    | Raise(to: Next)
    | Start(txn: nat)
    | Add(txn: nat)
    | Draw(txn: nat, to: Next)
    | GiveUp(txn: nat)
    | Claim(txn: nat)

  function Ids(from: nat, to: nat): (ids: seq<nat>)
    requires from <= to
    ensures |ids| == to - from && forall i | 0 <= i < |ids| :: ids[i] == from + i
  {
    seq(to - from, i requires 0 <= i < to - from => from + i)
  }

  ghost predicate IsClaim(s: State, t: nat, s': State) {
    && t in s.statements && s.statements[t].seen <= s.statements[t].current
    && var p := s.statements[t];
       match ClaimAllocators(s.base, p.expected, p.desired)
       case Claimed(next) =>
         s' == State(Max(s.live, p.current), next, s.statements - {t}, s.given + Ids(p.seen, p.current))
       case _ => s' == s.(statements := s.statements - {t})
  }

  ghost predicate Follows(s: State, step: Step, s': State) {
    match step
    case AddLive(to) => AtLeast(to, s.base) && s' == s.(live := s.live + 1, base := to, given := s.given + [s.live])
    case Raise(to) => AtLeast(to, s.base) && s' == s.(base := to)
    case Start(t) =>
      t !in s.statements && s' == s.(statements := s.statements[t := Statement(s.live, s.live, s.base, s.base)])
    case Add(t) =>
      t in s.statements
      && s' == s.(statements := s.statements[t := s.statements[t].(current := s.statements[t].current + 1)])
    case Draw(t, to) =>
      t in s.statements && AtLeast(to, s.statements[t].desired)
      && s' == s.(statements := s.statements[t := s.statements[t].(desired := to)])
    case GiveUp(t) => t in s.statements && s' == s.(statements := s.statements - {t})
    case Claim(t) => IsClaim(s, t, s')
  }

  ghost predicate StatementOk(first: nat, s: State, p: Statement) {
    && first <= p.seen <= s.live && p.seen <= p.current
    && AtLeast(s.base, p.expected) && AtLeast(p.desired, p.expected)
  }

  /** Exactly the ids from `first` up to the live counter have been given, and every statement
      started in that range. */
  ghost predicate Inv(first: nat, s: State) {
    && first <= s.live
    && (forall id: nat :: id in s.given <==> first <= id < s.live)
    && (forall t | t in s.statements :: StatementOk(first, s, s.statements[t]))
  }

  lemma GivenMore(given: seq<nat>, from: nat, to: nat)
    requires from <= to
    ensures forall id: nat :: id in given + Ids(from, to) <==> id in given || from <= id < to
  {
    forall id: nat ensures id in Ids(from, to) <==> from <= id < to {
      if from <= id < to {
        assert Ids(from, to)[id - from] == id;
      }
    }
  }

  lemma ClaimKeeps(first: nat, s: State, t: nat, s': State)
    requires Inv(first, s) && IsClaim(s, t, s')
    ensures Inv(first, s')
  {
    assert StatementOk(first, s, s.statements[t]);
    GivenMore(s.given, s.statements[t].seen, s.statements[t].current);
  }

  lemma StepKeeps(first: nat, s: State, step: Step, s': State)
    requires Inv(first, s) && Follows(s, step, s')
    ensures Inv(first, s')
  {
    if step.Claim? {
      hide IsClaim, Inv;
      ClaimKeeps(first, s, step.txn, s');
    } else if step.Add? || step.Draw? {
      assert StatementOk(first, s, s.statements[step.txn]);
    }
  }

  // ---------------------------------------------------------------- raced claims

  ghost predicate Taken(s: State, t: nat)
    requires t in s.statements
  {
    ClaimAllocators(s.base, s.statements[t].expected, s.statements[t].desired).Claimed?
  }

  /** The statement added columns, the live counter has moved since it read it, and the compare
      does not notice: the statement drew nothing else, or nothing else has moved. */
  ghost predicate Raced(s: State, step: Step) {
    && step.Claim? && step.txn in s.statements
    && var p := s.statements[step.txn];
    && p.seen < p.current && s.live != p.seen
    && (p.desired == p.expected || s.base == p.expected)
  }

  /** A claim that is taken gives an id a second time if and only if it is raced. */
  lemma ClaimRepeatsIff(first: nat, s: State, t: nat, s': State)
    requires Inv(first, s) && Follows(s, Claim(t), s')
    ensures Taken(s, t) && (exists id: nat :: id in s.given && s.statements[t].seen <= id < s.statements[t].current)
       <==> Raced(s, Claim(t))
  {
    assert StatementOk(first, s, s.statements[t]);
    assert s.statements[t].seen in s.given <==> first <= s.statements[t].seen < s.live;
  }

  // ---------------------------------------------------------------- runs

  ghost predicate IsRun(first: nat, states: seq<State>, steps: seq<Step>) {
    && |states| == |steps| + 1
    && states[0].live == first && states[0].statements == map[] && states[0].given == []
    && forall i | 0 <= i < |steps| :: Follows(states[i], steps[i], states[i + 1])
  }

  lemma {:induction false} RunKeeps(first: nat, states: seq<State>, steps: seq<Step>, n: nat)
    requires IsRun(first, states, steps) && n <= |steps|
    ensures Inv(first, states[n])
  {
    hide Follows;
    if n == 0 {
      assert Inv(first, states[0]);
    } else {
      RunKeeps(first, states, steps, n - 1);
      StepKeeps(first, states[n - 1], steps[n - 1], states[n]);
    }
  }

  /** No column id is given twice over a run if and only if no claim is raced. */
  lemma {:induction false} DistinctIffUnraced(first: nat, states: seq<State>, steps: seq<Step>, n: nat)
    requires IsRun(first, states, steps) && n <= |steps|
    ensures Distinct(states[n].given) <==> forall i | 0 <= i < n :: !Raced(states[i], steps[i])
  {
    hide Follows, Inv, Raced;
    if n > 0 {
      DistinctIffUnraced(first, states, steps, n - 1);
      RunKeeps(first, states, steps, n - 1);
      StepDistinct(first, states[n - 1], steps[n - 1], states[n]);
    }
  }

  lemma StepDistinct(first: nat, s: State, step: Step, s': State)
    requires Inv(first, s) && Follows(s, step, s')
    ensures Distinct(s'.given) <==> Distinct(s.given) && !Raced(s, step)
  {
    if step.Claim? {
      ClaimDistinct(first, s, step.txn, s');
    } else if step.AddLive? {
      AppendDistinct(s.given, [s.live]);
      assert forall id :: id in [s.live] ==> id !in s.given;
    }
  }

  lemma AppendDistinct(a: seq<nat>, b: seq<nat>)
    requires Distinct(b)
    ensures Distinct(a + b) <==> Distinct(a) && forall id :: id in b ==> id !in a
  {
    var c := a + b;
    if Distinct(a) && forall id :: id in b ==> id !in a {
      forall i, j | 0 <= i < j < |c| ensures c[i] != c[j] {
        if i < |a| <= j {
          assert c[i] in a && c[j] in b;
        }
      }
    }
    if Distinct(c) {
      forall i, j | 0 <= i < j < |a| ensures a[i] != a[j] {
        assert c[i] == a[i] && c[j] == a[j];
      }
      forall id | id in b ensures id !in a {
        var j :| 0 <= j < |b| && b[j] == id;
        assert c[|a| + j] == id;
        assert forall i | 0 <= i < |a| :: c[i] == a[i];
      }
    }
  }

  lemma ClaimDistinct(first: nat, s: State, t: nat, s': State)
    requires Inv(first, s) && Follows(s, Claim(t), s')
    ensures Distinct(s'.given) <==> Distinct(s.given) && !Raced(s, Claim(t))
  {
    var from, to := s.statements[t].seen, s.statements[t].current;
    ClaimRepeatsIff(first, s, t, s');
    if Taken(s, t) {
      hide Raced, Inv, AtLeast, MaxNext;
      AppendDistinct(s.given, Ids(from, to));
      GivenMore([], from, to);
      assert [] + Ids(from, to) == Ids(from, to);
    }
  }

  // ---------------------------------------------------------------- columns that draw other ids

  /** Whoever adds a column draws another id with it, as a table rewrite draws storage ids. */
  ghost predicate Draws(s: State, step: Step) {
    && (step.AddLive? ==> step.to != s.base)
    && (step.Claim? && step.txn in s.statements && s.statements[step.txn].seen < s.statements[step.txn].current ==>
          s.statements[step.txn].desired != s.statements[step.txn].expected)
  }

  /** The live counter has not moved unless another allocator has. */
  ghost predicate MovesWithOthers(s: State) {
    forall t | t in s.statements && s.live != s.statements[t].seen :: s.base != s.statements[t].expected
  }

  lemma DrawingKeeps(first: nat, s: State, step: Step, s': State)
    requires Inv(first, s) && Follows(s, step, s') && Draws(s, step) && MovesWithOthers(s)
    ensures MovesWithOthers(s') && !Raced(s, step)
  {
    forall t | t in s'.statements && s'.live != s'.statements[t].seen ensures s'.base != s'.statements[t].expected {
      if t in s.statements {
        assert StatementOk(first, s, s.statements[t]);
      }
      if step.Claim? {
        assert StatementOk(first, s, s.statements[step.txn]);
      }
    }
  }

  /** Then the compare refuses every raced claim, and no column id is given twice. */
  lemma {:induction false} DistinctIfDrawing(first: nat, states: seq<State>, steps: seq<Step>, n: nat)
    requires IsRun(first, states, steps) && n <= |steps|
    requires forall i | 0 <= i < n :: Draws(states[i], steps[i])
    ensures MovesWithOthers(states[n]) && Distinct(states[n].given)
  {
    hide Follows, Inv, Raced, Draws;
    if n > 0 {
      DistinctIfDrawing(first, states, steps, n - 1);
      RunKeeps(first, states, steps, n - 1);
      DrawingKeeps(first, states[n - 1], steps[n - 1], states[n]);
      StepDistinct(first, states[n - 1], steps[n - 1], states[n]);
    }
  }

  /** Two transactions that each add a column to the relation and draw nothing else can both
      claim, with the same id. */
  lemma SameIdTwice(first: nat, base: Next) returns (states: seq<State>, steps: seq<Step>)
    ensures IsRun(first, states, steps) && |steps| == 6
    ensures states[6].given == [first, first]
  {
    var a, b := Statement(first, first, base, base), Statement(first, first + 1, base, base);
    steps := [Start(0), Start(1), Add(0), Add(1), Claim(0), Claim(1)];
    states := [State(first, base, map[], []),
               State(first, base, map[0 := a], []),
               State(first, base, map[0 := a, 1 := a], []),
               State(first, base, map[0 := b, 1 := a], []),
               State(first, base, map[0 := b, 1 := b], []),
               State(first + 1, base, map[1 := b], [first]),
               State(first + 1, base, map[], [first, first])];
    assert Ids(first, first + 1) == [first];
    assert MaxNext(base, base) == base;
  }
}

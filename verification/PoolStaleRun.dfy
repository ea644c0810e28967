/** A trace in which a thread inserts bytes that another has meanwhile replaced: a reader sees
    them, and a writer logs them over the newer ones. */
module PoolStaleRun {
  import opened Options
  import opened Redo
  import opened Frames
  import A = Allocator
  import P = Page
  import opened Pool
  import opened PoolRuns
  import opened PoolLoads
  import opened PoolTornRun

  const WRITE_X := Record(X, 2, 3, FullImage([7]))
  const LOST_X := Record(X, 3, 4, FullImage([]))

  // ---------------------------------------------------------------- traces from one state to another

  ghost predicate Leads(m: Machine, n: Machine) {
    exists ms, mvs :: IsTrace(ms, mvs) && ms[0] == m && ms[|mvs|] == n
  }

  lemma Rests(m: Machine)
    ensures Leads(m, m)
  {
    assert IsTrace([m], []);
  }

  lemma ThenMoves(m: Machine, n: Machine, p: Machine, mv: Move)
    requires Leads(m, n) && Moves(n, p, mv)
    ensures Leads(m, p)
  {
    hide Moves;
    var ms, mvs :| IsTrace(ms, mvs) && ms[0] == m && ms[|mvs|] == n;
    var ms', mvs' := ms + [p], mvs + [mv];
    forall i | 0 <= i < |mvs'| ensures Moves(ms'[i], ms'[i + 1], mvs'[i]) {
      if i < |mvs| {
        assert Moves(ms[i], ms[i + 1], mvs[i]);
      }
    }
    assert IsTrace(ms', mvs');
  }

  lemma {:induction false} ThenSteps(m: Machine, n: Machine, states: seq<State>, steps: seq<Step>, i: nat)
    requires Leads(m, n) && IsRun(states, steps) && i <= |steps| && states[0] == n.pool
    ensures Leads(m, n.(pool := states[i]))
  {
    hide Leads, Next;
    if i > 0 {
      ThenSteps(m, n, states, steps, i - 1);
      ThenMoves(m, n.(pool := states[i - 1]), n.(pool := states[i]), Does(steps[i - 1]));
    }
  }

  /** A run of the pool is a trace during which the threads that wait do nothing. */
  lemma ThenRuns(m: Machine, n: Machine, t: State)
    requires Leads(m, n) && Reaches(n.pool, t)
    ensures Leads(m, n.(pool := t))
  {
    hide Leads, Next;
    var states, steps :| IsRun(states, steps) && states[0] == n.pool && states[|steps|] == t;
    ThenSteps(m, n, states, steps, |steps|);
  }

  // ---------------------------------------------------------------- the other thread

  /** `X` as its writer left it. */
  function Left(): Frame {
    Held(0, Formatted(3, [7]), true, Some(2), 1, false).(pins := 0)
  }

  function Dirtied(al: A.Alloc): State {
    Opened().(wal := [FORMAT_X, FORMAT_Y, WRITE_X], walEnd := 3, nextId := 1, alloc := al, frames := map[X := Left()])
  }

  const STOLEN_HOMES := map[X := P.Home(Formatted(3, [7]), []), Y := P.Home(Formatted(2, []), [])]

  function StealAt(al: A.Alloc, stage: P.IoStage): State {
    Dirtied(al).(frames := map[X := Pinned(Left().(evicting := true))], steals := map[X := stage],
                 walDurable := if stage.Reserved? then 2 else 3,
                 homes := match stage
                          case InFlight => HOMES[X := P.Written(HOMES[X], Formatted(3, [7]))]
                          case Durable => STOLEN_HOMES
                          case _ => HOMES)
  }

  function Stolen(al: A.Alloc): State {
    Dirtied(al).(frames := map[], walDurable := 3, homes := STOLEN_HOMES)
  }

  lemma WritesX() returns (t: State)
    ensures Reaches(Opened(), t)
    ensures t == Opened().(wal := [FORMAT_X, FORMAT_Y, WRITE_X], walEnd := 3, nextId := 1, alloc := t.alloc,
                           frames := map[X := Left().(pins := 1)], guards := map[0 := Guard(X, Writing)],
                           writers := map[X := Writer(0, false, true, true, None)])
  {
    var o := Opened();
    Stays(o);
    hide Reaches;
    var a := OpenForWrite(o, o, 0, X);
    t := LogAndPublish(o, a, 0, WRITE_X, true);
    assert t.frames == map[X := Left().(pins := 1)];
    assert t.wal == [FORMAT_X, FORMAT_Y, WRITE_X];
  }

  lemma WritesAndLeaves() returns (al: A.Alloc)
    ensures Reaches(Opened(), Dirtied(al))
  {
    hide Reaches;
    var b := WritesX();
    var c := DropWriter(Opened(), b, 0);
    al := c.alloc;
    assert c.frames == map[X := Left()];
    assert c.guards == map[] && c.writers == map[];
  }

  lemma StealReserves(al: A.Alloc)
    ensures Next(Dirtied(al), StealAt(al, P.Reserved), StealReserve(X))
  {
    assert IsStealReserve(Dirtied(al), StealAt(al, P.Reserved), X);
  }

  lemma StealForces(al: A.Alloc)
    ensures Next(StealAt(al, P.Reserved), StealAt(al, P.Forced), StealForce(X))
  {
    hide Left;
    assert IsStealForce(StealAt(al, P.Reserved), StealAt(al, P.Forced), X);
  }

  lemma StealWrites(al: A.Alloc)
    ensures Next(StealAt(al, P.Forced), StealAt(al, P.InFlight), StealWrite(X))
  {
    hide P.Written;
    assert IsStealWrite(StealAt(al, P.Forced), StealAt(al, P.InFlight), X);
  }

  lemma SyncedHomes()
    ensures SyncFiles(HOMES[X := P.Written(HOMES[X], Formatted(3, [7]))], {X.file}) == STOLEN_HOMES
  {
  }

  lemma StealSyncs(al: A.Alloc)
    ensures Next(StealAt(al, P.InFlight), StealAt(al, P.Durable), StealSync(X))
  {
    SyncedHomes();
    hide SyncFiles, Left, P.Written;
    assert IsStealSync(StealAt(al, P.InFlight), StealAt(al, P.Durable), X);
  }

  lemma StealEnds(al: A.Alloc)
    ensures Next(StealAt(al, P.Durable), Stolen(al), StealFinish(X))
  {
    var s := StealAt(al, P.Durable);
    assert s.frames - {X} == map[] && s.steals - {X} == map[];
    assert IsStealFinish(s, Stolen(al), X);
  }

  /** Another thread writes `X`, and the pool steals it. */
  lemma WrittenAndStolen() returns (al: A.Alloc)
    ensures Reaches(Opened(), Stolen(al))
  {
    al := WritesAndLeaves();
    hide Reaches, Next, Opened, Dirtied, StealAt, Stolen;
    var o := Opened();
    StealReserves(al);
    StealForces(al);
    StealWrites(al);
    StealSyncs(al);
    StealEnds(al);
    Then(o, Dirtied(al), StealAt(al, P.Reserved), StealReserve(X));
    Then(o, StealAt(al, P.Reserved), StealAt(al, P.Forced), StealForce(X));
    Then(o, StealAt(al, P.Forced), StealAt(al, P.InFlight), StealWrite(X));
    Then(o, StealAt(al, P.InFlight), StealAt(al, P.Durable), StealSync(X));
    Then(o, StealAt(al, P.Durable), Stolen(al), StealFinish(X));
  }

  // ---------------------------------------------------------------- the thread that was late

  function StaleFrame(): Frame {
    Held(1, Formatted(1, []), false, None, 0, true)
  }

  /** The late thread holds `X` with the bytes it loaded at first. */
  function Late(al: A.Alloc, mode: Mode): State {
    Stolen(al).(frames := map[X := StaleFrame()], nextId := 2, guards := map[0 := Guard(X, mode)])
  }

  lemma LateInserts(al: A.Alloc) returns (al': A.Alloc)
    requires Reaches(Opened(), Stolen(al))
    ensures Leads(Machine(Opened(), map[]), Machine(Late(al', Reading), map[]))
  {
    hide Reaches, Leads;
    var o := Machine(Opened(), map[]);
    Rests(o);
    var a := o.(accesses := map[9 := Missed(X)]);
    assert IsLookUp(o, a, 9, X);
    ThenMoves(o, o, a, LookUp(9, X));
    var b := o.(accesses := map[9 := Loaded(X, Formatted(1, []))]);
    assert a.accesses[9 := Loaded(X, Formatted(1, []))] == b.accesses;
    assert IsLoad(a, b, 9);
    ThenMoves(o, a, b, Load(9));
    ThenRuns(o, b, Stolen(al));
    al' := LateReads(o, b.(pool := Stolen(al)), al);
  }

  lemma LateReads(o: Machine, c: Machine, al: A.Alloc) returns (al': A.Alloc)
    requires Leads(o, c) && c == Machine(Stolen(al), map[9 := Loaded(X, Formatted(1, []))])
    ensures Leads(o, Machine(Late(al', Reading), map[]))
  {
    hide Leads;
    var d := Machine(Inserted(Stolen(al), 0, X, Formatted(1, []), false), map[]);
    al' := d.pool.alloc;
    assert c.accesses - {9} == map[];
    assert IsInsert(c, d, 9, 0, false);
    ThenMoves(o, c, d, Insert(9, 0, false));
    var e := Machine(Late(al', Reading), map[]);
    assert d.pool == Late(al', Waiting(false)) by {
      assert d.pool.frames == map[X := StaleFrame()];
    }
    assert d.pool.guards[0 := Guard(X, Reading)] == e.pool.guards;
    assert IsLatchShared(d.pool, e.pool, 0);
    ThenMoves(o, d, e, Does(LatchShared(0)));
  }

  lemma LateLeaves(al: A.Alloc)
    ensures Reaches(Late(al, Reading), Unheld(al))
  {
    var s, a := Late(al, Reading), Unheld(al);
    Stays(s);
    hide Reaches;
    assert s.frames[X := Unpinned(s.frames[X])] == a.frames && s.guards - {0} == map[];
    assert IsDrop(s, a, 0);
    Then(s, s, a, Drop(0));
  }

  function Unheld(al: A.Alloc): State {
    Late(al, Reading).(frames := map[X := StaleFrame().(pins := 0)], guards := map[])
  }

  lemma LateReturns(al: A.Alloc)
    ensures Reaches(Late(al, Reading), Late(al, Waiting(true)))
  {
    LateLeaves(al);
    hide Reaches;
    var a, b := Unheld(al), Late(al, Waiting(true));
    assert a.frames[X := Pinned(a.frames[X])] == b.frames && a.guards[0 := Guard(X, Waiting(true))] == b.guards;
    assert IsPin(a, b, 0, X, true);
    Then(Late(al, Reading), a, b, Pin(0, X, true));
  }

  lemma LateWrites(al: A.Alloc) returns (t: State)
    ensures Reaches(Late(al, Reading), t) && t.wal == Late(al, Reading).wal + [LOST_X] && t.walEnd == 4
  {
    hide Reaches;
    var s := Late(al, Reading);
    LateReturns(al);
    var c := LatchAndJoin(s, Late(al, Waiting(true)), 0, X);
    t := LogAndPublish(s, c, 0, LOST_X, true);
  }

  lemma LogSays(al: A.Alloc)
    ensures var w := Late(al, Reading).wal;
            && ContentAt(w, X, 3) == Formatted(3, [7]) && ContentAt(w + [LOST_X], X, 4) == Formatted(4, [])
  {
    var w := [FORMAT_X, FORMAT_Y, WRITE_X];
    assert w[..2] == [FORMAT_X, FORMAT_Y];
    assert (w + [LOST_X])[..3] == w;
  }

  /** A late insert happens: in `r` a reader of `X` does not see what the log says of the page.
      From there a writer logs, as the full image of the page, the bytes it finds, and in `w` the
      change the log had is gone. */
  lemma LateInsertLosesUpdate() returns (o: Machine, r: Machine, w: Machine)
    ensures Started(o) && Leads(o, r) && Leads(r, w)
    ensures var s := r.pool;
            && 0 in s.guards && s.guards[0] == Guard(X, Reading) && X in s.frames && s.frames[X].data.Formatted?
            && ContentAt(s.wal, X, s.walEnd).Formatted? && 7 in ContentAt(s.wal, X, s.walEnd).changes
            && 7 !in s.frames[X].data.changes
            && |w.pool.wal| == |s.wal| + 1 && w.pool.wal[..|s.wal|] == s.wal
            && w.pool.wal[|s.wal|].kind == FullImage(s.frames[X].data.changes)
            && ContentAt(w.pool.wal, X, w.pool.walEnd).Formatted? && 7 !in ContentAt(w.pool.wal, X, w.pool.walEnd).changes
  {
    var al := WrittenAndStolen();
    hide Reaches, Leads, Stolen, Dirtied;
    o := Machine(Opened(), map[]);
    OpenedIsInitial();
    var al' := LateInserts(al);
    r := Machine(Late(al', Reading), map[]);
    var t := LateWrites(al');
    Rests(r);
    ThenRuns(r, r, t);
    w := r.(pool := t);
    LogSays(al');
    LateSays(al');
  }

  lemma LateSays(al: A.Alloc)
    ensures var s := Late(al, Reading); |s.wal| == 3 && s.walEnd == 3
  {
  }
}

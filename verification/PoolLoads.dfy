/** The miss path as threads run it: a lookup that finds the page absent, a load from its home
    that holds no lock, and an insert of the loaded bytes. Other threads may do anything between. */
module PoolLoads {
  import opened Options
  import opened Redo
  import opened Frames
  import A = Allocator
  import P = Page
  import opened Pool
  import opened PoolRuns
  import T = PoolTheorems

  /** How far a thread is on a page it found absent. */
  datatype Access = Missed(key: PageKey) | Loaded(key: PageKey, image: Bytes)

  datatype Machine = Machine(pool: State, accesses: map<nat, Access>)

  datatype Move =
    | Does(st: Step)
    | LookUp(thread: nat, k: PageKey)
    | Load(thread: nat)
    | GiveUp(thread: nat)
    | Insert(thread: nat, g: nat, exclusive: bool)
    | Join(thread: nat, g: nat, exclusive: bool)

  ghost predicate IsLookUp(m: Machine, n: Machine, thread: nat, k: PageKey) {
    && thread !in m.accesses && k !in m.pool.frames
    && n == m.(accesses := m.accesses[thread := Missed(k)])
  }

  ghost predicate IsLoad(m: Machine, n: Machine, thread: nat) {
    && thread in m.accesses && m.accesses[thread].Missed? && m.accesses[thread].key in m.pool.homes
    && var k := m.accesses[thread].key;
    && n == m.(accesses := m.accesses[thread := Loaded(k, P.Latest(m.pool.homes[k]))])
  }

  /** The page is not found, the load fails, or there is no room. */
  ghost predicate IsGiveUp(m: Machine, n: Machine, thread: nat) {
    thread in m.accesses && n == m.(accesses := m.accesses - {thread})
  }

  /** The loaded bytes become a clean frame, however long ago they were loaded. */
  ghost predicate IsInsert(m: Machine, n: Machine, thread: nat, g: nat, x: bool) {
    && thread in m.accesses && m.accesses[thread].Loaded? && g !in m.pool.guards
    && var k, b := m.accesses[thread].key, m.accesses[thread].image;
    && k !in m.pool.frames && |m.pool.frames| < m.pool.capacity
    && n == Machine(Inserted(m.pool, g, k, b, x), m.accesses - {thread})
  }

  /** Somebody else brought the page in; the loaded bytes are let go. */
  ghost predicate IsJoin(m: Machine, n: Machine, thread: nat, g: nat, x: bool) {
    && thread in m.accesses && m.accesses[thread].Loaded? && g !in m.pool.guards
    && var k := m.accesses[thread].key;
    && k in m.pool.frames && !m.pool.frames[k].evicting
    && n == Machine(WithFrame(m.pool, k, Pinned(m.pool.frames[k]))
                    .(alloc := A.AtLeast(m.pool.alloc, k.file, k.num + 1),
                      guards := m.pool.guards[g := Guard(k, Waiting(x))]),
                    m.accesses - {thread})
  }

  ghost predicate Moves(m: Machine, n: Machine, mv: Move) {
    match mv
    case Does(st) => Next(m.pool, n.pool, st) && n.accesses == m.accesses
    case LookUp(thread, k) => IsLookUp(m, n, thread, k)
    case Load(thread) => IsLoad(m, n, thread)
    case GiveUp(thread) => IsGiveUp(m, n, thread)
    case Insert(thread, g, x) => IsInsert(m, n, thread, g, x)
    case Join(thread, g, x) => IsJoin(m, n, thread, g, x)
  }

  ghost predicate IsTrace(ms: seq<Machine>, mvs: seq<Move>) {
    && |ms| == |mvs| + 1
    && (forall i | 0 <= i < |mvs| :: Moves(ms[i], ms[i + 1], mvs[i]))
  }

  ghost predicate Started(m: Machine) {
    Initial(m.pool) && m.accesses == map[]
  }

  // ---------------------------------------------------------------- stale images

  /** The log holds a record of the page that the image lacks. */
  ghost predicate Stale(s: State, k: PageKey, b: Bytes) {
    exists i :: 0 <= i < |s.wal| && s.wal[i].key == k && Stamp(b) < s.wal[i].end
  }

  /** What is known of an image from the moment it was loaded. */
  ghost predicate ImageOk(s: State, k: PageKey, b: Bytes) {
    b.Formatted? && IsVersion(s.wal, k, b) && Stamp(b) <= s.walEnd
  }

  ghost predicate ImagesOk(m: Machine) {
    forall t | t in m.accesses && m.accesses[t].Loaded? :: ImageOk(m.pool, m.accesses[t].key, m.accesses[t].image)
  }

  /** The bytes an image gives a page are the latest if and only if it lacks no record. */
  lemma InsertedLatestIff(s: State, k: PageKey, b: Bytes)
    requires Inv(s) && ImageOk(s, k, b)
    ensures b == ContentAt(s.wal, k, s.walEnd) <==> !Stale(s, k, b)
  {
    assert P.LogOk(View(s, k), k) by {
      assert P.PageInv(View(s, k), k);
    }
    hide Inv;
    StampIsLast(s.wal, k, s.walEnd);
    if !Stale(s, k, b) {
      ContentSame(s.wal, k, Stamp(b), s.walEnd);
    }
  }

  lemma HomeImage(s: State, k: PageKey)
    requires Inv(s) && k in s.homes
    ensures ImageOk(s, k, P.Latest(s.homes[k]))
  {
    assert P.PageInv(View(s, k), k);
    hide P.PageStep, P.MissingOk, P.DirtyOk, P.FpiOk, P.CaptureOk, P.StealOk, P.CurrentOk;
  }

  lemma ImageStays(s: State, t: State, st: Step, k: PageKey, b: Bytes)
    requires Inv(s) && Next(s, t, st) && ImageOk(s, k, b)
    ensures ImageOk(t, k, b)
  {
    hide Inv, Next;
    LogAdvances(s, t, st);
    if t.wal != s.wal {
      VersionAppend(s.wal, t.wal[|s.wal|], k, b);
    }
  }

  lemma LogAdvances(s: State, t: State, st: Step)
    requires Next(s, t, st)
    ensures s.walEnd <= t.walEnd
    ensures t.wal == s.wal || (t.wal != [] && t.wal == s.wal + [t.wal[|t.wal| - 1]] && s.walEnd < t.wal[|t.wal| - 1].end)
  {
    T.StepGrowsLog(s, t, st);
    hide Next;
    if t.wal != s.wal {
      assert t.wal == s.wal + [t.wal[|s.wal|]];
    }
  }

  // ---------------------------------------------------------------- unraced moves are steps

  /** The insert of an image that lacks nothing is the miss of the pool. */
  lemma InsertIsMiss(m: Machine, n: Machine, thread: nat, g: nat, x: bool)
    requires Inv(m.pool) && ImagesOk(m) && IsInsert(m, n, thread, g, x)
    requires !Stale(m.pool, m.accesses[thread].key, m.accesses[thread].image)
    ensures Next(m.pool, n.pool, Miss(g, m.accesses[thread].key, x))
  {
    var s, k, b := m.pool, m.accesses[thread].key, m.accesses[thread].image;
    assert ImageOk(s, k, b);
    assert k !in s.writers;
    InsertedLatestIff(s, k, b);
    T.CurrentIsLogged(s, k);
    hide Inv;
    assert b == P.Latest(HomeOf(s, k));
    assert k in s.homes;
    assert IsMiss(s, n.pool, g, k, x);
  }

  lemma ResidentInUse(s: State, k: PageKey)
    requires Inv(s) && k in s.frames
    ensures A.AtLeast(s.alloc, k.file, k.num + 1) == s.alloc
  {
    assert NumbersOk(s);
    hide Inv;
    A.AtLeastInUse(s.alloc, k.file, k.num);
  }

  lemma JoinIsPin(m: Machine, n: Machine, thread: nat, g: nat, x: bool)
    requires Inv(m.pool) && IsJoin(m, n, thread, g, x)
    ensures Next(m.pool, n.pool, Pin(g, m.accesses[thread].key, x))
  {
    hide Inv, A.AtLeast;
    var s, k := m.pool, m.accesses[thread].key;
    ResidentInUse(s, k);
    assert IsPin(s, n.pool, g, k, x);
  }

  /** The insert of an image that lacks a record. */
  ghost predicate Raced(m: Machine, mv: Move) {
    && mv.Insert? && mv.thread in m.accesses && m.accesses[mv.thread].Loaded?
    && Stale(m.pool, m.accesses[mv.thread].key, m.accesses[mv.thread].image)
  }

  ghost predicate Unraced(ms: seq<Machine>, mvs: seq<Move>, n: nat)
    requires n <= |mvs| && n <= |ms|
  {
    forall i | 0 <= i < n :: !Raced(ms[i], mvs[i])
  }

  /** A move that is not raced leaves the pool alone or is a step of it. */
  lemma MoveIsStep(m: Machine, n: Machine, mv: Move)
    requires Inv(m.pool) && ImagesOk(m) && Moves(m, n, mv) && !Raced(m, mv)
    ensures n.pool == m.pool || exists st :: Next(m.pool, n.pool, st)
    ensures Inv(n.pool)
  {
    hide Inv, Next, ImagesOk, Stale;
    if mv.Does? {
      StepKeeps(m.pool, n.pool, mv.st);
    } else if mv.Insert? {
      InsertIsMiss(m, n, mv.thread, mv.g, mv.exclusive);
      StepKeeps(m.pool, n.pool, Miss(mv.g, m.accesses[mv.thread].key, mv.exclusive));
    } else if mv.Join? {
      JoinIsPin(m, n, mv.thread, mv.g, mv.exclusive);
      StepKeeps(m.pool, n.pool, Pin(mv.g, m.accesses[mv.thread].key, mv.exclusive));
    }
  }

  lemma KeptImage(m: Machine, n: Machine, mv: Move, t: nat)
    requires Moves(m, n, mv) && t in n.accesses && n.accesses[t].Loaded? && !(mv.Load? && t == mv.thread)
    ensures t in m.accesses && m.accesses[t] == n.accesses[t]
  {
    hide Next;
  }

  lemma LoadedImage(m: Machine, n: Machine, t: nat)
    requires Inv(m.pool) && IsLoad(m, n, t)
    ensures ImageOk(n.pool, n.accesses[t].key, n.accesses[t].image)
  {
    hide Inv, ImageOk;
    HomeImage(m.pool, n.accesses[t].key);
  }

  lemma ImagesStay(m: Machine, n: Machine, mv: Move)
    requires Inv(m.pool) && ImagesOk(m) && Moves(m, n, mv) && !Raced(m, mv)
    ensures ImagesOk(n)
  {
    hide Inv, Next, Raced, ImageOk, Moves, IsLoad;
    MoveIsStep(m, n, mv);
    forall t | t in n.accesses && n.accesses[t].Loaded?
      ensures ImageOk(n.pool, n.accesses[t].key, n.accesses[t].image)
    {
      if mv.Load? && t == mv.thread {
        LoadIs(m, n, t);
        LoadedImage(m, n, t);
      } else {
        KeptImage(m, n, mv, t);
        if n.pool != m.pool {
          var st :| Next(m.pool, n.pool, st);
          ImageStays(m.pool, n.pool, st, n.accesses[t].key, n.accesses[t].image);
        }
      }
    }
  }

  lemma LoadIs(m: Machine, n: Machine, t: nat)
    requires Moves(m, n, Load(t))
    ensures IsLoad(m, n, t)
  {
    hide IsLoad;
  }

  // ---------------------------------------------------------------- traces

  lemma {:induction false} TraceKeeps(ms: seq<Machine>, mvs: seq<Move>, n: nat)
    requires IsTrace(ms, mvs) && Started(ms[0]) && n <= |mvs| && Unraced(ms, mvs, n)
    ensures Inv(ms[n].pool) && ImagesOk(ms[n])
  {
    hide Inv, Moves, ImagesOk, Initial, Raced;
    if n == 0 {
      InitialInv(ms[0].pool);
      assert ImagesOk(ms[0]) by {
        NoImages(ms[0]);
      }
    } else {
      TraceKeeps(ms, mvs, n - 1);
      MoveIsStep(ms[n - 1], ms[n], mvs[n - 1]);
      ImagesStay(ms[n - 1], ms[n], mvs[n - 1]);
    }
  }

  lemma NoImages(m: Machine)
    requires m.accesses == map[]
    ensures ImagesOk(m)
  {
  }

  /** A trace without a raced insert is a run of the pool, once lookups and loads are left out:
      state `i` of the trace is state `at[i]` of the run. */
  lemma {:induction false} UnracedIsRun(ms: seq<Machine>, mvs: seq<Move>, n: nat)
    returns (states: seq<State>, steps: seq<Step>, at: seq<nat>)
    requires IsTrace(ms, mvs) && Started(ms[0]) && n <= |mvs| && Unraced(ms, mvs, n)
    ensures IsRun(states, steps) && Initial(states[0]) && |at| == n + 1
    ensures forall i | 0 <= i <= n :: at[i] < |states| && states[at[i]] == ms[i].pool
    ensures forall i, j | 0 <= i <= j <= n :: at[i] <= at[j]
    ensures at[n] == |steps|
  {
    hide Inv, Moves, ImagesOk, Initial, Raced, Next;
    if n == 0 {
      states, steps, at := [ms[0].pool], [], [0];
    } else {
      states, steps, at := UnracedIsRun(ms, mvs, n - 1);
      TraceKeeps(ms, mvs, n - 1);
      MoveIsStep(ms[n - 1], ms[n], mvs[n - 1]);
      if ms[n].pool == ms[n - 1].pool {
        at := at + [|steps|];
      } else {
        var st :| Next(ms[n - 1].pool, ms[n].pool, st);
        Extends(states, steps, ms[n].pool, st);
        states, steps := states + [ms[n].pool], steps + [st];
        at := at + [|steps|];
      }
    }
  }

  lemma Extends(states: seq<State>, steps: seq<Step>, t: State, st: Step)
    requires IsRun(states, steps) && Next(states[|steps|], t, st)
    ensures IsRun(states + [t], steps + [st])
  {
    hide Next;
    var states', steps' := states + [t], steps + [st];
    forall i | 0 <= i < |steps'| ensures Next(states'[i], states'[i + 1], steps'[i]) {
      if i < |steps| {
        assert Next(states[i], states[i + 1], steps[i]);
      }
    }
  }

  /** Without a raced insert every reader sees the latest bytes of its page. */
  lemma UnracedReaderSeesLatest(ms: seq<Machine>, mvs: seq<Move>, n: nat, g: nat)
    requires IsTrace(ms, mvs) && Started(ms[0]) && n <= |mvs| && Unraced(ms, mvs, n)
    requires g in ms[n].pool.guards && ms[n].pool.guards[g].mode == Reading
    ensures var s, k := ms[n].pool, ms[n].pool.guards[g].key;
            k in s.frames && s.frames[k].data == ContentAt(s.wal, k, s.walEnd)
  {
    hide Inv, Moves, Raced;
    TraceKeeps(ms, mvs, n);
    T.ReaderSeesLatest(ms[n].pool, g);
  }

  /** The frame an insert brings in holds the latest bytes of its page. */
  ghost predicate GivesLatest(m: Machine, n: Machine, mv: Move) {
    mv.Insert? && mv.thread in m.accesses ==>
      var k := m.accesses[mv.thread].key;
      k in n.pool.frames && n.pool.frames[k].data == ContentAt(n.pool.wal, k, n.pool.walEnd)
  }

  lemma GivesLatestIff(m: Machine, n: Machine, mv: Move)
    requires Inv(m.pool) && ImagesOk(m) && Moves(m, n, mv)
    ensures GivesLatest(m, n, mv) <==> !Raced(m, mv)
  {
    hide Inv, ContentAt, Stale, Next;
    if mv.Insert? {
      InsertedLatestIff(m.pool, m.accesses[mv.thread].key, m.accesses[mv.thread].image);
    }
  }

  /** Over every trace, every insert gives its page the latest bytes if and only if none is raced. */
  lemma {:induction false} LatestIffUnraced(ms: seq<Machine>, mvs: seq<Move>, n: nat)
    requires IsTrace(ms, mvs) && Started(ms[0]) && n <= |mvs|
    ensures (forall i | 0 <= i < n :: GivesLatest(ms[i], ms[i + 1], mvs[i])) <==> Unraced(ms, mvs, n)
  {
    hide Inv, Moves, ImagesOk, Initial, Raced, GivesLatest;
    if n > 0 {
      LatestIffUnraced(ms, mvs, n - 1);
      if Unraced(ms, mvs, n - 1) {
        TraceKeeps(ms, mvs, n - 1);
        GivesLatestIff(ms[n - 1], ms[n], mvs[n - 1]);
      }
    }
  }

  /** A thread that inserts what it loaded and takes its latch reads the latest bytes of the page if
      and only if the insert was not raced. */
  lemma InserterSeesLatestIff(ms: seq<Machine>, mvs: seq<Move>, j: nat)
    requires IsTrace(ms, mvs) && Started(ms[0]) && j + 1 < |mvs| && Unraced(ms, mvs, j)
    requires mvs[j].Insert? && mvs[j + 1] == Does(LatchShared(mvs[j].g))
    ensures var s, g := ms[j + 2].pool, mvs[j].g;
            && g in s.guards && s.guards[g].mode == Reading && s.guards[g].key in s.frames
            && (s.frames[s.guards[g].key].data == ContentAt(s.wal, s.guards[g].key, s.walEnd) <==> !Raced(ms[j], mvs[j]))
  {
    TraceKeeps(ms, mvs, j);
    assert Moves(ms[j], ms[j + 1], mvs[j]) && Moves(ms[j + 1], ms[j + 2], mvs[j + 1]);
    hide Inv, ImagesOk, Started, IsTrace, Unraced, Raced, ContentAt;
    GivesLatestIff(ms[j], ms[j + 1], mvs[j]);
    LatchedAfterInsert(ms[j], ms[j + 1], ms[j + 2].pool, mvs[j]);
  }

  lemma LatchedAfterInsert(m: Machine, n: Machine, t: State, mv: Move)
    requires mv.Insert? && Moves(m, n, mv) && Next(n.pool, t, LatchShared(mv.g))
    ensures var k := m.accesses[mv.thread].key;
            && mv.g in t.guards && t.guards[mv.g] == Guard(k, Reading) && k in t.frames && k in n.pool.frames
            && t.frames[k] == n.pool.frames[k] && t.wal == n.pool.wal && t.walEnd == n.pool.walEnd
  {
    assert IsLatchShared(n.pool, t, mv.g);
    hide Next;
  }

  // ---------------------------------------------------------------- what was logged meanwhile

  /** A record of `k` was logged from log position `from` on. */
  ghost predicate LoggedFrom(s: State, k: PageKey, from: nat) {
    exists i :: from <= i < |s.wal| && s.wal[i].key == k
  }

  ghost predicate LogExtends(s: State, t: State) {
    && s.walEnd <= t.walEnd && s.wal <= t.wal
    && (forall i | |s.wal| <= i < |t.wal| :: s.walEnd < t.wal[i].end)
  }

  lemma MoveLogExtends(m: Machine, n: Machine, mv: Move)
    requires Moves(m, n, mv)
    ensures LogExtends(m.pool, n.pool)
  {
    hide Next;
    if mv.Does? {
      LogAdvances(m.pool, n.pool, mv.st);
    }
  }

  lemma {:induction false} TraceLogExtends(ms: seq<Machine>, mvs: seq<Move>, i: nat, j: nat)
    requires IsTrace(ms, mvs) && i <= j <= |mvs|
    ensures LogExtends(ms[i].pool, ms[j].pool)
    decreases j
  {
    hide Moves;
    if i < j {
      TraceLogExtends(ms, mvs, i, j - 1);
      MoveLogExtends(ms[j - 1], ms[j], mvs[j - 1]);
    }
  }

  lemma {:induction false} TraceHomeGrows(ms: seq<Machine>, mvs: seq<Move>, i: nat, j: nat, k: PageKey)
    requires IsTrace(ms, mvs) && Started(ms[0]) && i <= j <= |mvs| && Unraced(ms, mvs, j)
    ensures Stamp(P.Latest(HomeOf(ms[i].pool, k))) <= Stamp(P.Latest(HomeOf(ms[j].pool, k)))
    decreases j
  {
    hide Inv, Moves, ImagesOk, Initial, Raced, Next, HomeOf;
    if i < j {
      TraceHomeGrows(ms, mvs, i, j - 1, k);
      TraceKeeps(ms, mvs, j - 1);
      MoveIsStep(ms[j - 1], ms[j], mvs[j - 1]);
      if ms[j].pool != ms[j - 1].pool {
        var st :| Next(ms[j - 1].pool, ms[j].pool, st);
        T.HomeGrows(ms[j - 1].pool, ms[j].pool, st, k);
      }
    }
  }

  /** The home of a page that is not resident holds all its records. */
  lemma AbsentIsWhole(s: State, k: PageKey)
    requires Inv(s) && k !in s.frames
    ensures !Stale(s, k, P.Latest(HomeOf(s, k)))
  {
    assert P.CurrentOk(View(s, k), k) by {
      assert P.PageInv(View(s, k), k);
    }
    assert k !in s.writers;
    hide Inv;
  }

  /** Move `j` inserts what move `i` loaded. */
  ghost predicate InsertsLoad(ms: seq<Machine>, mvs: seq<Move>, i: nat, j: nat)
    requires IsTrace(ms, mvs) && i < j < |mvs|
  {
    && mvs[i].Load? && mvs[j].Insert? && mvs[j].thread == mvs[i].thread
    && mvs[i].thread in ms[i].accesses && mvs[i].thread in ms[i + 1].accesses && mvs[i].thread in ms[j].accesses
    && ms[j].accesses[mvs[j].thread] == ms[i + 1].accesses[mvs[i].thread]
  }

  /** An image loaded while its page was not resident is raced if and only if a record of the page
      was logged between the load and the insert. */
  lemma RacedIffLogged(ms: seq<Machine>, mvs: seq<Move>, i: nat, j: nat)
    requires IsTrace(ms, mvs) && Started(ms[0]) && i < j < |mvs| && Unraced(ms, mvs, i)
    requires InsertsLoad(ms, mvs, i, j)
    requires ms[i].accesses[mvs[i].thread].key !in ms[i].pool.frames
    ensures Raced(ms[j], mvs[j]) <==> LoggedFrom(ms[j].pool, ms[i].accesses[mvs[i].thread].key, |ms[i].pool.wal|)
  {
    assert Moves(ms[i], ms[i + 1], mvs[i]);
    var s, t, k := ms[i].pool, ms[j].pool, ms[i].accesses[mvs[i].thread].key;
    var b := P.Latest(s.homes[k]);
    assert ms[j].accesses[mvs[j].thread] == Loaded(k, b);
    TraceKeeps(ms, mvs, i);
    TraceLogExtends(ms, mvs, i, j);
    AbsentIsWhole(s, k);
    HomeImage(s, k);
    hide Inv, Moves;
    StaleIff(s, t, k, b);
  }

  lemma StaleIff(s: State, t: State, k: PageKey, b: Bytes)
    requires LogExtends(s, t) && !Stale(s, k, b) && ImageOk(s, k, b)
    ensures Stale(t, k, b) <==> LoggedFrom(t, k, |s.wal|)
  {
    hide IsVersion;
    if i :| 0 <= i < |t.wal| && t.wal[i].key == k && Stamp(b) < t.wal[i].end {
      assert i < |s.wal| ==> t.wal[i] == s.wal[i];
    }
  }

  lemma StaleWasLogged(s: State, t: State, k: PageKey, was: Bytes, b: Bytes)
    requires LogExtends(s, t) && !Stale(s, k, was) && Stamp(was) <= Stamp(b)
    ensures Stale(t, k, b) ==> LoggedFrom(t, k, |s.wal|)
  {
    assert forall i | 0 <= i < |s.wal| :: t.wal[i] == s.wal[i];
  }

  /** Whatever happens between lookup and load, an access during which no record of its page is
      logged is not raced. */
  lemma QuietIsUnraced(ms: seq<Machine>, mvs: seq<Move>, h: nat, i: nat, j: nat)
    requires IsTrace(ms, mvs) && Started(ms[0]) && h <= i < j < |mvs| && Unraced(ms, mvs, i)
    requires InsertsLoad(ms, mvs, i, j)
    requires ms[i].accesses[mvs[i].thread].key !in ms[h].pool.frames
    requires !LoggedFrom(ms[j].pool, ms[i].accesses[mvs[i].thread].key, |ms[h].pool.wal|)
    ensures !Raced(ms[j], mvs[j])
  {
    assert Moves(ms[i], ms[i + 1], mvs[i]);
    var s, t, k := ms[h].pool, ms[j].pool, ms[i].accesses[mvs[i].thread].key;
    var b := P.Latest(ms[i].pool.homes[k]);
    assert ms[j].accesses[mvs[j].thread] == Loaded(k, b) && b == P.Latest(HomeOf(ms[i].pool, k));
    TraceKeeps(ms, mvs, h);
    TraceLogExtends(ms, mvs, h, j);
    TraceHomeGrows(ms, mvs, h, i, k);
    AbsentIsWhole(s, k);
    hide Inv, Moves;
    StaleWasLogged(s, t, k, P.Latest(HomeOf(s, k)), b);
  }
}

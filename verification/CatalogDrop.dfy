/** Building the dependency graph, and the operation that drops a batch of tables. */
module CatalogDrop {
  import opened Options
  import opened DropClosure
  import opened CatalogGraph
  import opened CatalogReferences

  function RefTargets(refs: Refs, relation: nat): (ids: set<Id>)
    ensures forall x :: x in ids <==> Refers(refs, relation, x)
  {
    (set k | k in refs.columns :: Column(relation, k))
    + (set f | f in refs.functions :: Function(f))
    + (set q | q in refs.sequences :: Sequence(q))
  }

  function DefaultTargets(d: Option<Default>, relation: nat): (ids: set<Id>)
    ensures forall x :: x in ids <==> d.Some? && DefaultRefers(d.value, relation, x)
  {
    match d
    case Some(Nextval(q)) => {Sequence(q)}
    case Some(Expr(refs)) => RefTargets(refs, relation)
    case _ => {}
  }

  function ColumnIds(relation: nat, columns: set<nat>): (ids: set<Id>)
    ensures forall x :: x in ids <==> ColumnsOf(relation, columns, x)
  {
    set k | k in columns :: Column(relation, k)
  }

  function ConstraintTargets(k: ConstraintObject): (ids: set<Id>)
    ensures forall x :: x in ids <==> ConstraintRefers(k, x)
  {
    match k.kind
    case Check(refs) => RefTargets(refs, k.table)
    case Key(columns, _) => ColumnIds(k.table, columns)
    case Foreign(columns, parent, parentKey, parentColumns, supporting) =>
      ColumnIds(k.table, columns) + {Table(parent), Constraint(parentKey)} + ColumnIds(parent, parentColumns)
      + (if supporting.Some? then {Index(supporting.value)} else {})
  }

  function TableEdges(c: Catalog): (edges: set<Edge>)
    ensures forall e :: e in edges <==> HasEdge(c, e) && e.dependent.Table?
  {
    (set t | t in c.tables :: Edge(Table(t), Schema(c.tables[t].schema), Normal))
    + (set t | t in c.tables && c.tables[t].kind.Toast? :: Edge(Table(t), Table(c.tables[t].kind.base), Internal))
  }

  function ColumnEdges(c: Catalog): (edges: set<Edge>)
    ensures forall e :: e in edges <==> HasEdge(c, e) && e.dependent.Column?
  {
    (set t, k | t in c.tables && k in c.tables[t].columns :: Edge(Column(t, k), Table(t), Internal))
    + (set v, k | v in c.views && k in c.views[v].columns :: Edge(Column(v, k), View(v), Internal))
  }

  function DefaultEdges(c: Catalog): (edges: set<Edge>)
    ensures forall e :: e in edges <==> HasEdge(c, e) && e.dependent.ColumnDefault?
  {
    (set t, k | t in c.tables && k in c.tables[t].columns && c.tables[t].columns[k].Some? ::
         Edge(ColumnDefault(t, k), Column(t, k), Internal))
    + (set t, k, x | t in c.tables && k in c.tables[t].columns && x in DefaultTargets(c.tables[t].columns[k], t) ::
         Edge(ColumnDefault(t, k), x, Normal))
  }

  function ViewEdges(c: Catalog): (edges: set<Edge>)
    ensures forall e :: e in edges <==> HasEdge(c, e) && e.dependent.View?
  {
    (set v | v in c.views :: Edge(View(v), Schema(c.views[v].schema), Normal))
    + (set v, x | v in c.views && x in c.views[v].refs :: Edge(View(v), x, Normal))
  }

  function IndexEdges(c: Catalog): (edges: set<Edge>)
    ensures forall e :: e in edges <==> HasEdge(c, e) && e.dependent.Index?
  {
    (set i | i in c.indexes :: Edge(Index(i), Table(c.indexes[i].table), Auto))
    + (set i, k | i in c.indexes && k in c.indexes[i].columns :: Edge(Index(i), Column(c.indexes[i].table, k), Normal))
    + (set k | k in c.constraints && c.constraints[k].kind.Key? ::
         Edge(Index(c.constraints[k].kind.index), Constraint(k), Internal))
  }

  function SequenceEdges(c: Catalog): (edges: set<Edge>)
    ensures forall e :: e in edges <==> HasEdge(c, e) && e.dependent.Sequence?
  {
    (set q | q in c.sequences :: Edge(Sequence(q), Schema(c.sequences[q].schema), Normal))
    + (set t, k, q | t in c.tables && k in c.tables[t].columns && q in c.sequences && OwnsSequence(c, t, k, q) ::
         Edge(Sequence(q), Column(t, k), Auto))
  }

  function ConstraintEdges(c: Catalog): (edges: set<Edge>)
    ensures forall e :: e in edges <==> HasEdge(c, e) && e.dependent.Constraint?
  {
    (set k | k in c.constraints :: Edge(Constraint(k), Table(c.constraints[k].table), Auto))
    + (set k, x | k in c.constraints && x in ConstraintTargets(c.constraints[k]) :: Edge(Constraint(k), x, Normal))
  }

  function BuildDependencies(c: Catalog): (edges: set<Edge>)
    ensures forall e :: e in edges <==> HasEdge(c, e)
  {
    TableEdges(c) + ColumnEdges(c) + DefaultEdges(c) + ViewEdges(c) + IndexEdges(c) + SequenceEdges(c)
    + ConstraintEdges(c)
    + set t | t in c.statistics :: Edge(Statistics(t), Table(t), Auto)
  }

  // ---------------------------------------------------------------- dropping a batch

  datatype DropResult = Dropped(catalog: Catalog) | Undefined(table: nat) | Refused(why: Result)

  function Roots(targets: seq<nat>): set<Id> {
    set t | t in targets :: Table(t)
  }

  /** A table goes with its hidden relation. */
  function GoesWith(c: Catalog, t: nat): set<nat> {
    {t} + if t in c.tables && c.tables[t].kind.User? && c.tables[t].toast.Some? then {c.tables[t].toast.value} else {}
  }

  /** The first `n` targets and their hidden relations. */
  function Gone(c: Catalog, targets: seq<nat>, n: nat): set<nat>
    requires n <= |targets|
  {
    if n == 0 then {} else Gone(c, targets, n - 1) + GoesWith(c, targets[n - 1])
  }

  lemma {:induction false} GoneIff(c: Catalog, targets: seq<nat>, n: nat, t: nat)
    requires n <= |targets|
    ensures t in Gone(c, targets, n) <==> exists i | 0 <= i < n :: t in GoesWith(c, targets[i])
  {
    if n > 0 {
      GoneIff(c, targets, n - 1, t);
    }
  }

  /** No target is missing, repeated, or goes with an earlier one. */
  ghost predicate Droppable(c: Catalog, targets: seq<nat>) {
    forall i | 0 <= i < |targets| :: targets[i] in c.tables && targets[i] !in Gone(c, targets, i)
  }

  lemma TablesOfClosure(c: Catalog, roots: set<Id>, targets: seq<nat>, s: set<Id>, t: nat)
    requires Valid(c) && Closes(c, BuildDependencies(c), roots, s) && roots == Roots(targets)
    requires t in c.tables
    ensures Table(t) in s <==> t in Gone(c, targets, |targets|)
  {
    hide BuildDependencies, Gone;
    var edges := BuildDependencies(c);
    GoneIff(c, targets, |targets|, t);
    assert ToastOk(c, t);
    if Table(t) in s {
      var b := t;
      if t !in targets {
        b := HiddenOfTarget(c, roots, targets, s, t);
      }
      var i :| 0 <= i < |targets| && targets[i] == b;
      assert t in GoesWith(c, targets[i]);
    }
    if t in Gone(c, targets, |targets|) {
      var i :| 0 <= i < |targets| && t in GoesWith(c, targets[i]);
      assert Table(targets[i]) in roots;
      if t != targets[i] {
        assert ToastOk(c, targets[i]);
        Follow(c, edges, roots, s, Edge(Table(t), Table(targets[i]), Internal));
      }
    }
  }

  /** A table that is dropped without being a target is the hidden relation of one. */
  lemma HiddenOfTarget(c: Catalog, roots: set<Id>, targets: seq<nat>, s: set<Id>, t: nat) returns (b: nat)
    requires Valid(c) && Closes(c, BuildDependencies(c), roots, s) && roots == Roots(targets)
    requires t in c.tables && Table(t) in s && t !in targets
    ensures b in targets && t in GoesWith(c, b)
  {
    hide BuildDependencies;
    var edges := BuildDependencies(c);
    assert ToastOk(c, t);
    var e := Justified(c, edges, roots, s, Table(t));
    b := e.referenced.table;
    if b !in targets {
      var f := Justified(c, edges, roots, s, Table(b));
    }
  }

  lemma ClosureDrops(c: Catalog, targets: seq<nat>, s: set<Id>)
    requires IsClosure(BuildDependencies(c), Roots(targets), s)
    ensures Closes(c, BuildDependencies(c), Roots(targets), s)
  {
    hide IsClosure;
  }

  lemma ValidIndexes(c: Catalog)
    requires Valid(c)
    ensures NamesOk(c) && forall t | t in c.tables :: c.tables[t].toast != Some(t)
  {
    assert forall t | t in c.tables :: ToastOk(c, t);
  }

  /** The tables that go with the targets. */
  function AllGone(c: Catalog, targets: seq<nat>): set<nat> {
    Gone(c, targets, |targets|)
  }

  function TargetSet(targets: seq<nat>): set<nat> {
    set t | t in targets
  }

  lemma ClosureTables(c: Catalog, targets: seq<nat>, s: set<Id>)
    requires Valid(c) && Closes(c, BuildDependencies(c), Roots(targets), s)
    ensures HasTables(c, AllGone(c, targets), s)
  {
    hide Valid, Closes, BuildDependencies, Gone;
    forall t | t in c.tables ensures Table(t) in s <==> t in AllGone(c, targets) {
      TablesOfClosure(c, Roots(targets), targets, s, t);
    }
  }

  lemma TargetsOwned(c: Catalog, targets: seq<nat>)
    ensures (exists root :: Owned(BuildDependencies(c), Roots(targets), {}, root)) <==> OwnedTarget(c, TargetSet(targets))
  {
    OwnedIff(c, BuildDependencies(c), Roots(targets), TargetSet(targets));
  }

  lemma RefusalIsUse(c: Catalog, targets: seq<nat>, why: Result)
    requires Valid(c) && RefusedFor(BuildDependencies(c), Roots(targets), {}, why)
    ensures OwnedTarget(c, TargetSet(targets)) || InUse(c, AllGone(c, targets))
  {
    hide Valid, BuildDependencies, OwnedTarget, InUse, Owned, Gone, IsClosure, Roots;
    TargetsOwned(c, targets);
    if why.StillReferenced? {
      var s :| IsClosure(BuildDependencies(c), Roots(targets), s) && Blocks(why.edge, s);
      ClosureDrops(c, targets, s);
      ClosureTables(c, targets, s);
      BlockedIff(c, BuildDependencies(c), Roots(targets), s, AllGone(c, targets));
    }
  }

  lemma AcceptedIsUnused(c: Catalog, targets: seq<nat>, s: set<Id>)
    requires Valid(c) && Accepted(BuildDependencies(c), Roots(targets), {}, s)
    ensures CatalogGraph.Dropped(c, BuildDependencies(c), Roots(targets), s)
    ensures !OwnedTarget(c, TargetSet(targets)) && !InUse(c, AllGone(c, targets))
  {
    hide Valid, BuildDependencies, OwnedTarget, InUse, Owned, Gone, IsClosure, Roots;
    ClosureDrops(c, targets, s);
    TargetsOwned(c, targets);
    ClosureTables(c, targets, s);
    BlockedIff(c, BuildDependencies(c), Roots(targets), s, AllGone(c, targets));
  }

  /** The closure of the targets is computed first; then the targets go with their hidden
      relations, and then everything else the closure holds. The drop is refused if and only if a
      target is hidden and its base is none, or something that stays names something that goes. What
      is left is exactly the rest of the catalog, and it is valid: nothing that it names is missing. */
  method DropTables(c: Catalog, targets: seq<nat>) returns (r: DropResult)
    requires Valid(c)
    ensures r.Refused? <==> OwnedTarget(c, TargetSet(targets)) || InUse(c, AllGone(c, targets))
    ensures r.Refused? ==> RefusedFor(BuildDependencies(c), Roots(targets), {}, r.why)
    ensures r.Undefined? <==> !r.Refused? && !Droppable(c, targets)
    ensures r.Undefined? ==> r.table in targets
    ensures r.Dropped? ==> r.catalog == Reduced(c, AllGone(c, targets)) && Valid(r.catalog) && Whole(r.catalog)
  {
    hide *;
    ValidIndexes(c);
    var closed := Close(BuildDependencies(c), Roots(targets), {});
    if !closed.Closure? {
      RefusalIsUse(c, targets, closed);
      return Refused(closed);
    }
    AcceptedIsUnused(c, targets, closed.ids);
    var tables := RemoveTables(c, targets);
    if tables.Err? {
      return Undefined(tables.missing);
    }
    var rest := RemoveOwned(c, closed.ids);
    rest := rest.(tables := tables.left, tableNames := tables.names);
    DropIs(c, targets, closed.ids, rest);
    DropLeaves(c, targets, closed.ids);
    return Dropped(rest);
  }

  lemma DropLeaves(c: Catalog, targets: seq<nat>, s: set<Id>)
    requires Valid(c) && Valid(Without(c, s)) && CatalogGraph.Dropped(c, BuildDependencies(c), Roots(targets), s)
    ensures Without(c, s) == Reduced(c, AllGone(c, targets)) && Whole(Without(c, s))
  {
    hide Valid, BuildDependencies, Reduced, Without, Whole, Closes, Gone, Accepted, Roots, HasTables;
    ClosureTables(c, targets, s);
    WithoutIs(c, BuildDependencies(c), Roots(targets), s, AllGone(c, targets));
    ValidIff(Without(c, s));
  }

  datatype Removed = Left(left: map<nat, TableObject>, names: map<string, nat>) | Err(missing: nat)

  /** The entries of an index of names that do not lead to `gone`. */
  function Unlisted(names: map<string, nat>, gone: set<nat>): map<string, nat> {
    map x | x in names && names[x] !in gone :: names[x]
  }

  method RemoveTables(c: Catalog, targets: seq<nat>) returns (r: Removed)
    requires NamesOk(c) && forall t | t in c.tables :: c.tables[t].toast != Some(t)
    ensures r.Left? ==> r.left == c.tables - Gone(c, targets, |targets|) && Droppable(c, targets)
    ensures r.Left? ==> r.names == Unlisted(c.tableNames, Gone(c, targets, |targets|))
    ensures r.Err? ==> !Droppable(c, targets) && r.missing in targets
  {
    hide GoesWith, NamesOk, Unlisted, Gone;
    var tables, names := c.tables, c.tableNames;
    NoneGone(c, targets);
    for i := 0 to |targets|
      invariant tables == c.tables - Gone(c, targets, i)
      invariant names == Unlisted(c.tableNames, Gone(c, targets, i))
      invariant forall k | 0 <= k < i :: targets[k] in c.tables && targets[k] !in Gone(c, targets, k)
    {
      if targets[i] !in tables {
        return Err(targets[i]);
      }
      GoneNext(c, targets, i);
      tables, names := RemoveWithToast(c, tables, names, Gone(c, targets, i), targets[i]);
    }
    return Left(tables, names);
  }

  lemma GoneNext(c: Catalog, targets: seq<nat>, i: nat)
    requires i < |targets|
    ensures Gone(c, targets, i + 1) == Gone(c, targets, i) + GoesWith(c, targets[i])
  {
  }

  lemma NoneGone(c: Catalog, targets: seq<nat>)
    ensures c.tables - Gone(c, targets, 0) == c.tables && Unlisted(c.tableNames, Gone(c, targets, 0)) == c.tableNames
  {
  }

  /** Removes a table and, if it has one that is still there, its hidden relation. */
  method RemoveWithToast(c: Catalog, tables: map<nat, TableObject>, names: map<string, nat>, ghost gone: set<nat>, t: nat)
    returns (left: map<nat, TableObject>, listed: map<string, nat>)
    requires NamesOk(c) && tables == c.tables - gone && names == Unlisted(c.tableNames, gone) && t in tables
    requires c.tables[t].toast != Some(t)
    ensures left == c.tables - (gone + GoesWith(c, t)) && listed == Unlisted(c.tableNames, gone + GoesWith(c, t))
  {
    hide NamesOk, Unlisted;
    var toast := tables[t].toast;
    left, listed := RemoveTable(c, tables, names, gone, t);
    if tables[t].kind.User? && toast.Some? && toast.value in tables {
      left, listed := RemoveTable(c, left, listed, gone + {t}, toast.value);
    } else {
      AlreadyGone(c, gone + {t}, gone + GoesWith(c, t));
      return;
    }
    assert gone + {t} + {toast.value} == gone + GoesWith(c, t);
  }

  lemma AlreadyGone(c: Catalog, a: set<nat>, b: set<nat>)
    requires a <= b && NamesOk(c) && forall t | t in b && t !in a :: t !in c.tables
    ensures c.tables - a == c.tables - b && Unlisted(c.tableNames, a) == Unlisted(c.tableNames, b)
  {
    assert (c.tables - a).Keys == (c.tables - b).Keys;
  }

  /** Removes a table and its entry in the index of names, if that leads to it. */
  method RemoveTable(c: Catalog, tables: map<nat, TableObject>, names: map<string, nat>, ghost gone: set<nat>, t: nat)
    returns (left: map<nat, TableObject>, listed: map<string, nat>)
    requires NamesOk(c) && tables == c.tables - gone && names == Unlisted(c.tableNames, gone) && t in tables
    ensures left == c.tables - (gone + {t}) && listed == Unlisted(c.tableNames, gone + {t})
  {
    left, listed := tables - {t}, names;
    assert left.Keys == c.tables.Keys - (gone + {t});
    if tables[t].schema == PUBLIC_SCHEMA && tables[t].name in names && names[tables[t].name] == t {
      listed := names - {tables[t].name};
    }
    OneUnlisted(c, gone, t);
  }

  lemma OneUnlisted(c: Catalog, gone: set<nat>, t: nat)
    requires NamesOk(c) && t in c.tables && t !in gone
    ensures var names, x := Unlisted(c.tableNames, gone), c.tables[t].name;
            Unlisted(c.tableNames, gone + {t})
            == if c.tables[t].schema == PUBLIC_SCHEMA && x in names && names[x] == t then names - {x} else names
  {
    assert Lists(c.tableNames, c.tables, TableName);
  }

  lemma DropIs(c: Catalog, targets: seq<nat>, s: set<Id>, rest: Catalog)
    requires Valid(c) && CatalogGraph.Dropped(c, BuildDependencies(c), Roots(targets), s)
    requires rest == WithoutOwned(c, s).(tables := rest.tables, tableNames := rest.tableNames)
    requires rest.tables == c.tables - Gone(c, targets, |targets|)
    requires rest.tableNames == Unlisted(c.tableNames, Gone(c, targets, |targets|))
    ensures rest == Without(c, s) && Valid(rest)
  {
    assert NamesOk(c);
    hide BuildDependencies, Gone, NamesOk, Valid, CatalogGraph.Dropped, Unlisted;
    hide KeptTables, KeptTableNames, KeptIndexes, KeptIndexNames, KeptSequences, KeptSequenceNames;
    hide KeptConstraints, KeptStatistics;
    forall t | t in c.tables ensures Table(t) in s <==> t in Gone(c, targets, |targets|) {
      TablesOfClosure(c, Roots(targets), targets, s, t);
    }
    TablesLeft(c, Gone(c, targets, |targets|), s);
    DropKeepsValid(c, BuildDependencies(c), Roots(targets), s);
  }

  lemma TablesLeft(c: Catalog, gone: set<nat>, s: set<Id>)
    requires NamesOk(c) && forall t | t in c.tables :: Table(t) in s <==> t in gone
    ensures c.tables - gone == KeptTables(c, s) && Unlisted(c.tableNames, gone) == KeptTableNames(c, s)
  {
    assert forall x | x in c.tableNames :: c.tableNames[x] in c.tables;
  }

  /** The catalog without the indexes, sequences, constraints and statistics in `s`. */
  function WithoutOwned(c: Catalog, s: set<Id>): Catalog {
    Without(c, s).(tables := c.tables, tableNames := c.tableNames)
  }

  /** An index or a sequence of `public` goes with the entry under its name. */
  function RemoveOne(c: Catalog, x: Id): Catalog {
    match x
    case Constraint(k) => c.(constraints := c.constraints - {k})
    case Index(i) => if i in c.indexes then RemoveIndex(c, i) else c
    case Sequence(q) => if q in c.sequences then RemoveSequence(c, q) else c
    case Statistics(t) => c.(statistics := c.statistics - {t})
    case _ => c
  }

  function RemoveIndex(c: Catalog, i: nat): Catalog
    requires i in c.indexes
  {
    c.(indexes := c.indexes - {i},
       indexNames := if c.indexes[i].schema == PUBLIC_SCHEMA then c.indexNames - {c.indexes[i].name} else c.indexNames)
  }

  function RemoveSequence(c: Catalog, q: nat): Catalog
    requires q in c.sequences
  {
    c.(sequences := c.sequences - {q},
       sequenceNames := if c.sequences[q].schema == PUBLIC_SCHEMA then c.sequenceNames - {c.sequences[q].name}
                        else c.sequenceNames)
  }

  lemma RemoveOneIs(c: Catalog, s: set<Id>, x: Id)
    requires NamesOk(c)
    ensures RemoveOne(WithoutOwned(c, s), x) == WithoutOwned(c, s + {x})
  {
    hide NamesOk, KeptTables, KeptTableNames, KeptIndexes, KeptIndexNames, KeptSequences, KeptSequenceNames,
         KeptConstraints, KeptStatistics;
    IndexesNext(c, s, x);
    IndexNamesNext(c, s, x);
    SequencesNext(c, s, x);
    SequenceNamesNext(c, s, x);
    OthersNext(c, s, x);
  }

  lemma OthersNext(c: Catalog, s: set<Id>, x: Id)
    ensures KeptConstraints(c, s + {x})
         == if x.Constraint? then KeptConstraints(c, s) - {x.constraint} else KeptConstraints(c, s)
    ensures KeptStatistics(c, s + {x})
         == if x.Statistics? then KeptStatistics(c, s) - {x.analyzed} else KeptStatistics(c, s)
  {
    assert KeptConstraints(c, s + {x})
        == if x.Constraint? then KeptConstraints(c, s) - {x.constraint} else KeptConstraints(c, s);
  }

  lemma IndexesNext(c: Catalog, s: set<Id>, x: Id)
    ensures KeptIndexes(c, s + {x})
         == if x.Index? && x.index in KeptIndexes(c, s) then KeptIndexes(c, s) - {x.index} else KeptIndexes(c, s)
  {
  }

  lemma SequencesNext(c: Catalog, s: set<Id>, x: Id)
    ensures KeptSequences(c, s + {x})
         == if x.Sequence? && x.sequence in KeptSequences(c, s) then KeptSequences(c, s) - {x.sequence}
            else KeptSequences(c, s)
  {
  }

  lemma IndexNamesNext(c: Catalog, s: set<Id>, x: Id)
    requires NamesOk(c)
    ensures KeptIndexNames(c, s + {x})
         == if x.Index? && x.index in KeptIndexes(c, s) && KeptIndexes(c, s)[x.index].schema == PUBLIC_SCHEMA
            then KeptIndexNames(c, s) - {KeptIndexes(c, s)[x.index].name} else KeptIndexNames(c, s)
  {
    assert Lists(c.indexNames, c.indexes, IndexName);
    hide NamesOk;
  }

  lemma SequenceNamesNext(c: Catalog, s: set<Id>, x: Id)
    requires NamesOk(c)
    ensures KeptSequenceNames(c, s + {x})
         == if x.Sequence? && x.sequence in KeptSequences(c, s) && KeptSequences(c, s)[x.sequence].schema == PUBLIC_SCHEMA
            then KeptSequenceNames(c, s) - {KeptSequences(c, s)[x.sequence].name} else KeptSequenceNames(c, s)
  {
    assert Lists(c.sequenceNames, c.sequences, SequenceName);
    hide NamesOk;
  }

  method RemoveOwned(c: Catalog, closure: set<Id>) returns (rest: Catalog)
    requires NamesOk(c)
    ensures rest == WithoutOwned(c, closure)
  {
    hide WithoutOwned, RemoveOne, NamesOk;
    NoneRemoved(c);
    rest := c;
    var todo := closure;
    assert closure - todo == {};
    while todo != {}
      invariant todo <= closure && rest == WithoutOwned(c, closure - todo)
    {
      var x :| x in todo;
      RemoveOneIs(c, closure - todo, x);
      assert closure - (todo - {x}) == (closure - todo) + {x};
      rest := RemoveOne(rest, x);
      todo := todo - {x};
    }
    assert closure - todo == closure;
  }

  lemma NoneRemoved(c: Catalog)
    ensures WithoutOwned(c, {}) == c
  {
    var w := WithoutOwned(c, {});
    assert w.indexes == c.indexes && w.sequences == c.sequences;
    assert w.constraints == c.constraints;
    assert w.statistics == c.statistics;
    assert w.indexNames == c.indexNames && w.sequenceNames == c.sequenceNames;
  }
}

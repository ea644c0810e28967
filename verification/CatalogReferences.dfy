/** What a valid catalog holds and when tables can be dropped from it, over the fields of its
    objects and without the dependency graph. */
module CatalogReferences {
  import opened Options
  import opened DropClosure
  import opened CatalogGraph

  // ---------------------------------------------------------------- nothing is missing

  ghost predicate HasColumns(c: Catalog, t: nat, columns: set<nat>) {
    t in c.tables && columns <= c.tables[t].columns.Keys
  }

  /** Whatever an expression of table `t` names is there. */
  ghost predicate ExprWhole(c: Catalog, t: nat, refs: Refs) {
    HasColumns(c, t, refs.columns) && refs.functions <= c.functions && refs.sequences <= c.sequences.Keys
  }

  ghost predicate DefaultWhole(c: Catalog, t: nat, d: Default) {
    match d
    case Const => true
    case Nextval(q) => q in c.sequences
    case Expr(refs) => ExprWhole(c, t, refs)
  }

  ghost predicate TableWhole(c: Catalog, t: nat)
    requires t in c.tables
  {
    && c.tables[t].schema in c.schemas
    && (c.tables[t].kind.Toast? ==> c.tables[t].kind.base in c.tables)
    && (forall k | k in c.tables[t].columns && c.tables[t].columns[k].Some? :: DefaultWhole(c, t, c.tables[t].columns[k].value))
  }

  ghost predicate ConstraintWhole(c: Catalog, k: ConstraintObject) {
    && k.table in c.tables
    && match k.kind
       case Check(refs) => ExprWhole(c, k.table, refs)
       case Key(columns, index) => HasColumns(c, k.table, columns) && index in c.indexes
       case Foreign(columns, parent, parentKey, parentColumns, supporting) =>
         && HasColumns(c, k.table, columns) && HasColumns(c, parent, parentColumns)
         && parentKey in c.constraints && (supporting.Some? ==> supporting.value in c.indexes)
  }

  /** Whatever the query of a view names is there. */
  ghost predicate ViewWhole(c: Catalog, v: ViewObject) {
    && v.schema in c.schemas
    && (forall n | Schema(n) in v.refs :: n in c.schemas)
    && (forall n | Table(n) in v.refs :: n in c.tables)
    && (forall n | View(n) in v.refs :: n in c.views)
    && (forall n | Index(n) in v.refs :: n in c.indexes)
    && (forall n | Sequence(n) in v.refs :: n in c.sequences)
    && (forall n | Constraint(n) in v.refs :: n in c.constraints)
    && (forall n | Function(n) in v.refs :: n in c.functions)
    && (forall n | SystemRelation(n) in v.refs :: n in c.systemRelations)
    && (forall n | Statistics(n) in v.refs :: n in c.statistics)
    && (forall r, k | Column(r, k) in v.refs ::
          (r in c.tables && k in c.tables[r].columns) || (r in c.views && k in c.views[r].columns))
    && (forall r, k | ColumnDefault(r, k) in v.refs ::
          r in c.tables && k in c.tables[r].columns && c.tables[r].columns[k].Some?)
  }

  /** Every object that another one names is there. */
  ghost predicate Whole(c: Catalog) {
    && (forall t | t in c.tables :: TableWhole(c, t))
    && (forall v | v in c.views :: ViewWhole(c, c.views[v]))
    && (forall i | i in c.indexes :: HasColumns(c, c.indexes[i].table, c.indexes[i].columns))
    && (forall q | q in c.sequences :: c.sequences[q].schema in c.schemas)
    && (forall k | k in c.constraints :: ConstraintWhole(c, c.constraints[k]))
    && c.statistics <= c.tables.Keys
  }

  /** Under its name each public user table is found, and nothing else. */
  ghost predicate TablesNamed(c: Catalog) {
    forall x, t :: x in c.tableNames && c.tableNames[x] == t <==>
      t in c.tables && c.tables[t].schema == 1 && c.tables[t].kind.User? && c.tables[t].name == x
  }

  ghost predicate IndexesNamed(c: Catalog) {
    forall x, i :: x in c.indexNames && c.indexNames[x] == i <==>
      i in c.indexes && c.indexes[i].schema == 1 && c.indexes[i].name == x
  }

  ghost predicate SequencesNamed(c: Catalog) {
    forall x, q :: x in c.sequenceNames && c.sequenceNames[x] == q <==>
      q in c.sequences && c.sequences[q].schema == 1 && c.sequences[q].name == x
  }

  lemma TablesNamedIff(c: Catalog)
    ensures TablesNamed(c) <==> Lists(c.tableNames, c.tables, TableName)
  {
    if TablesNamed(c) {
      forall x | x in c.tableNames
        ensures c.tableNames[x] in c.tables && TableName(c.tables[c.tableNames[x]]) == Some(x)
      {
        assert x in c.tableNames && c.tableNames[x] == c.tableNames[x];
      }
      forall t | t in c.tables && TableName(c.tables[t]).Some?
        ensures TableName(c.tables[t]).value in c.tableNames && c.tableNames[TableName(c.tables[t]).value] == t
      {
      }
    }
  }

  lemma IndexesNamedIff(c: Catalog)
    ensures IndexesNamed(c) <==> Lists(c.indexNames, c.indexes, IndexName)
  {
    if IndexesNamed(c) {
      forall x | x in c.indexNames
        ensures c.indexNames[x] in c.indexes && IndexName(c.indexes[c.indexNames[x]]) == Some(x)
      {
        assert x in c.indexNames && c.indexNames[x] == c.indexNames[x];
      }
      forall i | i in c.indexes && IndexName(c.indexes[i]).Some?
        ensures IndexName(c.indexes[i]).value in c.indexNames && c.indexNames[IndexName(c.indexes[i]).value] == i
      {
      }
    }
  }

  lemma SequencesNamedIff(c: Catalog)
    ensures SequencesNamed(c) <==> Lists(c.sequenceNames, c.sequences, SequenceName)
  {
    if SequencesNamed(c) {
      forall x | x in c.sequenceNames
        ensures c.sequenceNames[x] in c.sequences && SequenceName(c.sequences[c.sequenceNames[x]]) == Some(x)
      {
        assert x in c.sequenceNames && c.sequenceNames[x] == c.sequenceNames[x];
      }
      forall q | q in c.sequences && SequenceName(c.sequences[q]).Some?
        ensures SequenceName(c.sequences[q]).value in c.sequenceNames
             && c.sequenceNames[SequenceName(c.sequences[q]).value] == q
      {
      }
    }
  }

  lemma NamedIff(c: Catalog)
    ensures TablesNamed(c) && IndexesNamed(c) && SequencesNamed(c) <==> NamesOk(c)
  {
    hide TablesNamed, IndexesNamed, SequencesNamed, Lists;
    TablesNamedIff(c);
    IndexesNamedIff(c);
    SequencesNamedIff(c);
  }

  // ---------------------------------------------------------------- edges say just that

  ghost predicate NoEdgeDangles(c: Catalog) {
    forall e | HasEdge(c, e) :: Exists(c, e.dependent) && Exists(c, e.referenced)
  }

  lemma Leads(c: Catalog, dependent: Id, referenced: Id, kind: Kind)
    requires NoEdgeDangles(c) && HasEdge(c, Edge(dependent, referenced, kind))
    ensures Exists(c, dependent) && Exists(c, referenced)
  {
  }

  lemma ExprLeads(c: Catalog, t: nat, refs: Refs, dependent: Id)
    requires NoEdgeDangles(c) && t in c.tables && c.tables.Keys !! c.views.Keys
    requires forall x | Refers(refs, t, x) :: HasEdge(c, Edge(dependent, x, Normal))
    ensures ExprWhole(c, t, refs)
  {
    hide HasEdge;
    forall k | k in refs.columns ensures k in c.tables[t].columns {
      Leads(c, dependent, Column(t, k), Normal);
    }
    forall f | f in refs.functions ensures f in c.functions {
      Leads(c, dependent, Function(f), Normal);
    }
    forall q | q in refs.sequences ensures q in c.sequences {
      Leads(c, dependent, Sequence(q), Normal);
    }
  }

  lemma ColumnsLead(c: Catalog, t: nat, columns: set<nat>, dependent: Id)
    requires NoEdgeDangles(c) && t in c.tables && c.tables.Keys !! c.views.Keys
    requires forall k | k in columns :: HasEdge(c, Edge(dependent, Column(t, k), Normal))
    ensures HasColumns(c, t, columns)
  {
    hide HasEdge;
    forall k | k in columns ensures k in c.tables[t].columns {
      Leads(c, dependent, Column(t, k), Normal);
    }
  }

  lemma TableLeads(c: Catalog, t: nat)
    requires NoEdgeDangles(c) && t in c.tables && c.tables.Keys !! c.views.Keys
    ensures TableWhole(c, t)
  {
    Leads(c, Table(t), Schema(c.tables[t].schema), Normal);
    if c.tables[t].kind.Toast? {
      Leads(c, Table(t), Table(c.tables[t].kind.base), Internal);
    }
    forall k | k in c.tables[t].columns && c.tables[t].columns[k].Some?
      ensures DefaultWhole(c, t, c.tables[t].columns[k].value)
    {
      match c.tables[t].columns[k].value
      case Const =>
      case Nextval(q) => Leads(c, ColumnDefault(t, k), Sequence(q), Normal);
      case Expr(refs) => ExprLeads(c, t, refs, ColumnDefault(t, k));
    }
  }

  lemma ConstraintLeads(c: Catalog, k: nat)
    requires NoEdgeDangles(c) && k in c.constraints && c.tables.Keys !! c.views.Keys
    ensures ConstraintWhole(c, c.constraints[k])
  {
    var o := c.constraints[k];
    Leads(c, Constraint(k), Table(o.table), Auto);
    match o.kind
    case Check(refs) => ExprLeads(c, o.table, refs, Constraint(k));
    case Key(columns, index) =>
      ColumnsLead(c, o.table, columns, Constraint(k));
      Leads(c, Index(index), Constraint(k), Internal);
    case Foreign(columns, parent, parentKey, parentColumns, supporting) =>
      ColumnsLead(c, o.table, columns, Constraint(k));
      Leads(c, Constraint(k), Table(parent), Normal);
      Leads(c, Constraint(k), Constraint(parentKey), Normal);
      ColumnsLead(c, parent, parentColumns, Constraint(k));
      if supporting.Some? {
        Leads(c, Constraint(k), Index(supporting.value), Normal);
      }
  }

  lemma ViewLeads(c: Catalog, v: nat)
    requires NoEdgeDangles(c) && v in c.views
    ensures ViewWhole(c, c.views[v])
  {
    Leads(c, View(v), Schema(c.views[v].schema), Normal);
    forall x | x in c.views[v].refs ensures Exists(c, x) {
      Leads(c, View(v), x, Normal);
    }
    hide HasEdge;
  }

  lemma EdgesLead(c: Catalog)
    requires NoEdgeDangles(c) && c.tables.Keys !! c.views.Keys
    ensures Whole(c)
  {
    hide NoEdgeDangles, TableWhole, ViewWhole, ConstraintWhole;
    forall t | t in c.tables ensures TableWhole(c, t) {
      TableLeads(c, t);
    }
    forall v | v in c.views ensures ViewWhole(c, c.views[v]) {
      ViewLeads(c, v);
    }
    forall i | i in c.indexes ensures HasColumns(c, c.indexes[i].table, c.indexes[i].columns) {
      IndexLeads(c, i);
    }
    forall q | q in c.sequences ensures c.sequences[q].schema in c.schemas {
      Leads(c, Sequence(q), Schema(c.sequences[q].schema), Normal);
    }
    forall k | k in c.constraints ensures ConstraintWhole(c, c.constraints[k]) {
      ConstraintLeads(c, k);
    }
    forall t | t in c.statistics ensures t in c.tables {
      Leads(c, Statistics(t), Table(t), Auto);
    }
  }

  lemma IndexLeads(c: Catalog, i: nat)
    requires NoEdgeDangles(c) && i in c.indexes && c.tables.Keys !! c.views.Keys
    ensures HasColumns(c, c.indexes[i].table, c.indexes[i].columns)
  {
    Leads(c, Index(i), Table(c.indexes[i].table), Auto);
    ColumnsLead(c, c.indexes[i].table, c.indexes[i].columns, Index(i));
  }

  lemma WholeEdge(c: Catalog, e: Edge)
    requires Whole(c) && HasEdge(c, e)
    ensures Exists(c, e.dependent) && Exists(c, e.referenced)
  {
    hide ConstraintWhole, ViewWhole, TableWhole;
    match e.dependent
    case Constraint(k) => WholeConstraint(c, k, e);
    case View(v) => WholeView(c, v, e);
    case Table(t) => WholeTable(c, t, e);
    case ColumnDefault(t, k) => WholeTable(c, t, e);
    case Index(i) =>
      if i in c.indexes && IndexEdge(c.indexes[i], e) {
        assert HasColumns(c, c.indexes[i].table, c.indexes[i].columns);
      } else {
        WholeKey(c, e.referenced.constraint);
      }
    case _ =>
  }

  lemma WholeConstraint(c: Catalog, k: nat, e: Edge)
    requires k in c.constraints && ConstraintWhole(c, c.constraints[k]) && HasEdge(c, e) && e.dependent == Constraint(k)
    ensures Exists(c, e.referenced)
  {
  }

  lemma WholeKey(c: Catalog, k: nat)
    requires k in c.constraints && ConstraintWhole(c, c.constraints[k]) && c.constraints[k].kind.Key?
    ensures c.constraints[k].kind.index in c.indexes
  {
  }

  lemma WholeView(c: Catalog, v: nat, e: Edge)
    requires v in c.views && ViewWhole(c, c.views[v]) && HasEdge(c, e) && e.dependent == View(v)
    ensures Exists(c, e.referenced)
  {
  }

  lemma WholeTable(c: Catalog, t: nat, e: Edge)
    requires t in c.tables && TableWhole(c, t) && HasEdge(c, e)
    requires e.dependent == Table(t) || (e.dependent.ColumnDefault? && e.dependent.relation == t)
    ensures Exists(c, e.referenced)
  {
  }

  /** Validation says, over the fields: every object that another names is there, names lead to
      what they name, a hidden relation and its base name each other, and a key and its index are on
      one table. */
  lemma ValidIff(c: Catalog)
    ensures Valid(c) <==>
              && Whole(c) && TablesNamed(c) && IndexesNamed(c) && SequencesNamed(c) && c.tables.Keys !! c.views.Keys
              && (forall t | t in c.tables :: ToastOk(c, t))
              && (forall k | k in c.constraints && c.constraints[k].kind.Key? ::
                    var i := c.constraints[k].kind.index;
                    i in c.indexes ==> c.indexes[i].table == c.constraints[k].table)
  {
    hide Whole, TablesNamed, IndexesNamed, SequencesNamed, NamesOk, HasEdge, Exists, ToastOk;
    NamedIff(c);
    if c.tables.Keys !! c.views.Keys {
      assert NoEdgeDangles(c) ==> Whole(c) by {
        if NoEdgeDangles(c) {
          EdgesLead(c);
        }
      }
      if Whole(c) {
        forall e | HasEdge(c, e) ensures Exists(c, e.dependent) && Exists(c, e.referenced) {
          WholeEdge(c, e);
        }
      }
    }
    KeysOwn(c);
  }

  lemma KeysOwn(c: Catalog)
    ensures (forall k, i | OwnsIndex(c, k, i) :: i in c.indexes ==> c.indexes[i].table == c.constraints[k].table)
       <==> (forall k | k in c.constraints && c.constraints[k].kind.Key? ::
               var i := c.constraints[k].kind.index;
               i in c.indexes ==> c.indexes[i].table == c.constraints[k].table)
  {
    if forall k, i | OwnsIndex(c, k, i) :: i in c.indexes ==> c.indexes[i].table == c.constraints[k].table {
      forall k | k in c.constraints && c.constraints[k].kind.Key? && c.constraints[k].kind.index in c.indexes
        ensures c.indexes[c.constraints[k].kind.index].table == c.constraints[k].table
      {
        assert OwnsIndex(c, k, c.constraints[k].kind.index);
      }
    }
  }

  // ---------------------------------------------------------------- what goes with tables

  predicate GoneIndex(c: Catalog, gone: set<nat>, i: nat) {
    i in c.indexes && c.indexes[i].table in gone
  }

  predicate GoneConstraint(c: Catalog, gone: set<nat>, k: nat) {
    k in c.constraints && c.constraints[k].table in gone
  }

  /** The sequence is owned, and a column of a table that goes draws from it. */
  ghost predicate GoneSequence(c: Catalog, gone: set<nat>, q: nat) {
    && q in c.sequences && c.sequences[q].owned
    && exists t, k :: t in gone && t in c.tables && k in c.tables[t].columns && c.tables[t].columns[k] == Some(Nextval(q))
  }

  ghost predicate Goes(c: Catalog, gone: set<nat>, x: Id) {
    match x
    case Table(t) => t in gone
    case Column(r, k) => r in gone && r in c.tables
    case ColumnDefault(r, k) => r in gone
    case Index(i) => GoneIndex(c, gone, i)
    case Constraint(k) => GoneConstraint(c, gone, k)
    case Sequence(q) => GoneSequence(c, gone, q)
    case Statistics(t) => t in gone
    case _ => false
  }

  /** What is left: everything but the tables, their indexes, constraints and statistics, the
      sequences they own, and the names of all these. */
  ghost function Reduced(c: Catalog, gone: set<nat>): Catalog {
    c.(tables := map t | t in c.tables && t !in gone :: c.tables[t],
       indexes := map i | i in c.indexes && c.indexes[i].table !in gone :: c.indexes[i],
       sequences := map q | q in c.sequences && !GoneSequence(c, gone, q) :: c.sequences[q],
       constraints := map k | k in c.constraints && c.constraints[k].table !in gone :: c.constraints[k],
       statistics := (set t | t in c.statistics && t !in gone),
       tableNames := map x | x in c.tableNames && c.tableNames[x] !in gone :: c.tableNames[x],
       indexNames := map x | x in c.indexNames && !GoneIndex(c, gone, c.indexNames[x]) :: c.indexNames[x],
       sequenceNames := map x | x in c.sequenceNames && !GoneSequence(c, gone, c.sequenceNames[x]) :: c.sequenceNames[x])
  }

  // ---------------------------------------------------------------- what keeps tables

  ghost predicate ExprUses(c: Catalog, gone: set<nat>, refs: Refs) {
    exists q :: q in refs.sequences && GoneSequence(c, gone, q)
  }

  ghost predicate DefaultUses(c: Catalog, gone: set<nat>, d: Default) {
    match d
    case Const => false
    case Nextval(q) => GoneSequence(c, gone, q)
    case Expr(refs) => ExprUses(c, gone, refs)
  }

  /** The constraint names something that goes: a foreign key its parent, its parent's key or its
      supporting index. */
  ghost predicate ConstraintUses(c: Catalog, gone: set<nat>, k: ConstraintKind) {
    match k
    case Check(refs) => ExprUses(c, gone, refs)
    case Key(_, _) => false
    case Foreign(_, parent, parentKey, _, supporting) =>
      parent in gone || GoneConstraint(c, gone, parentKey) || (supporting.Some? && GoneIndex(c, gone, supporting.value))
  }

  ghost predicate UsedByConstraint(c: Catalog, gone: set<nat>) {
    exists k :: k in c.constraints && c.constraints[k].table !in gone && ConstraintUses(c, gone, c.constraints[k].kind)
  }

  ghost predicate UsedByDefault(c: Catalog, gone: set<nat>) {
    exists t, k :: t in c.tables && t !in gone && k in c.tables[t].columns && c.tables[t].columns[k].Some?
                && DefaultUses(c, gone, c.tables[t].columns[k].value)
  }

  ghost predicate UsedByView(c: Catalog, gone: set<nat>) {
    exists v, x :: v in c.views && x in c.views[v].refs && Goes(c, gone, x)
  }

  /** Something that stays names something that goes. */
  ghost predicate InUse(c: Catalog, gone: set<nat>) {
    UsedByConstraint(c, gone) || UsedByDefault(c, gone) || UsedByView(c, gone)
  }

  /** A hidden relation is a target and its base is not. */
  ghost predicate OwnedTarget(c: Catalog, targets: set<nat>) {
    exists t :: t in targets && t in c.tables && c.tables[t].kind.Toast? && c.tables[t].kind.base !in targets
  }

  // ---------------------------------------------------------------- the closure

  /** The closure `s` has just the tables `gone`. */
  ghost predicate HasTables(c: Catalog, gone: set<nat>, s: set<Id>) {
    forall t | t in c.tables :: Table(t) in s <==> t in gone
  }

  /** What is there is in the closure if and only if it goes with the tables. */
  lemma ClosureIs(c: Catalog, edges: set<Edge>, roots: set<Id>, s: set<Id>, gone: set<nat>, x: Id)
    requires Valid(c) && Closes(c, edges, roots, s) && HasTables(c, gone, s) && Exists(c, x)
    ensures x in s <==> Goes(c, gone, x)
  {
    hide Valid, Closes, HasEdge;
    match x
    case Table(t) =>
    case Column(r, k) =>
      if r in c.tables {
        TablesAreNoViews(c, r, k);
        ColumnsGoWithTable(c, edges, roots, s, r, k);
      } else {
        ViewColumnsStay(c, edges, roots, s, r, k);
      }
    case ColumnDefault(r, k) => ColumnsGoWithTable(c, edges, roots, s, r, k);
    case Index(i) =>
      IndexTable(c, i);
      IndexesGoWithTable(c, edges, roots, s, i);
    case Constraint(k) =>
      ConstraintTable(c, k);
      ConstraintsGoWithTable(c, edges, roots, s, k);
    case Sequence(q) => SequenceGoes(c, edges, roots, s, gone, q);
    case Statistics(t) => StatisticsGo(c, edges, roots, s, t);
    case _ =>
      if x in s {
        NoViews(c, edges, roots, s, x);
      }
  }

  lemma TablesAreNoViews(c: Catalog, r: nat, k: nat)
    requires Valid(c) && r in c.tables && Exists(c, Column(r, k))
    ensures HasColumn(c, r, k)
  {
  }

  lemma IndexTable(c: Catalog, i: nat)
    requires Valid(c) && i in c.indexes
    ensures c.indexes[i].table in c.tables
  {
    assert HasEdge(c, Edge(Index(i), Table(c.indexes[i].table), Auto));
  }

  lemma ConstraintTable(c: Catalog, k: nat)
    requires Valid(c) && k in c.constraints
    ensures c.constraints[k].table in c.tables
  {
    assert HasEdge(c, Edge(Constraint(k), Table(c.constraints[k].table), Auto));
  }

  lemma StatisticsGo(c: Catalog, edges: set<Edge>, roots: set<Id>, s: set<Id>, t: nat)
    requires Valid(c) && Closes(c, edges, roots, s) && t in c.statistics
    ensures t in c.tables && (Statistics(t) in s <==> Table(t) in s)
  {
    var e := Edge(Statistics(t), Table(t), Auto);
    assert HasEdge(c, e);
    if Table(t) in s {
      Follow(c, edges, roots, s, e);
    }
    if Statistics(t) in s {
      var f := Justified(c, edges, roots, s, Statistics(t));
    }
  }

  lemma SequenceGoes(c: Catalog, edges: set<Edge>, roots: set<Id>, s: set<Id>, gone: set<nat>, q: nat)
    requires Valid(c) && Closes(c, edges, roots, s) && HasTables(c, gone, s) && q in c.sequences
    ensures Sequence(q) in s <==> GoneSequence(c, gone, q)
  {
    if GoneSequence(c, gone, q) {
      var t, k :| t in gone && t in c.tables && k in c.tables[t].columns && c.tables[t].columns[k] == Some(Nextval(q));
      assert OwnsSequence(c, t, k, q);
      if Sequence(q) !in s {
        SequencesGoWithOwner(c, edges, roots, s, t, k, q);
      }
    }
    if Sequence(q) in s {
      var e := Justified(c, edges, roots, s, Sequence(q));
      var t, k := e.referenced.relation, e.referenced.column;
      ColumnsGoWithTable(c, edges, roots, s, t, k);
      assert c.tables[t].columns[k] == Some(Nextval(q));
    }
  }

  lemma WithoutIs(c: Catalog, edges: set<Edge>, roots: set<Id>, s: set<Id>, gone: set<nat>)
    requires Valid(c) && Closes(c, edges, roots, s) && HasTables(c, gone, s)
    ensures Without(c, s) == Reduced(c, gone)
  {
    assert NamesOk(c);
    hide Valid, Closes, GoneSequence;
    forall i | i in c.indexes ensures Index(i) in s <==> c.indexes[i].table in gone {
      ClosureIs(c, edges, roots, s, gone, Index(i));
    }
    forall k | k in c.constraints ensures Constraint(k) in s <==> c.constraints[k].table in gone {
      ClosureIs(c, edges, roots, s, gone, Constraint(k));
    }
    forall q | q in c.sequences ensures Sequence(q) in s <==> GoneSequence(c, gone, q) {
      ClosureIs(c, edges, roots, s, gone, Sequence(q));
    }
    forall t | t in c.statistics ensures Statistics(t) in s <==> t in gone {
      ClosureIs(c, edges, roots, s, gone, Statistics(t));
    }
    ReducedNames(c, s, gone);
    assert KeptTables(c, s) == Reduced(c, gone).tables;
    assert KeptIndexes(c, s) == Reduced(c, gone).indexes;
    assert KeptSequences(c, s) == Reduced(c, gone).sequences;
    assert KeptConstraints(c, s) == Reduced(c, gone).constraints;
    assert KeptStatistics(c, s) == Reduced(c, gone).statistics;
  }

  lemma ReducedNames(c: Catalog, s: set<Id>, gone: set<nat>)
    requires NamesOk(c) && HasTables(c, gone, s)
    requires forall i | i in c.indexes :: Index(i) in s <==> c.indexes[i].table in gone
    requires forall q | q in c.sequences :: Sequence(q) in s <==> GoneSequence(c, gone, q)
    ensures KeptTableNames(c, s) == Reduced(c, gone).tableNames
    ensures KeptIndexNames(c, s) == Reduced(c, gone).indexNames
    ensures KeptSequenceNames(c, s) == Reduced(c, gone).sequenceNames
  {
    hide GoneSequence, TableName, IndexName, SequenceName, KeptTableNames, KeptIndexNames, KeptSequenceNames;
    ReducedTableNames(c, s, gone);
    ReducedIndexNames(c, s, gone);
    ReducedSequenceNames(c, s, gone);
  }

  lemma ReducedTableNames(c: Catalog, s: set<Id>, gone: set<nat>)
    requires Lists(c.tableNames, c.tables, TableName) && HasTables(c, gone, s)
    ensures KeptTableNames(c, s) == map x | x in c.tableNames && c.tableNames[x] !in gone :: c.tableNames[x]
  {
    assert forall x | x in c.tableNames :: c.tableNames[x] in c.tables;
  }

  lemma ReducedIndexNames(c: Catalog, s: set<Id>, gone: set<nat>)
    requires Lists(c.indexNames, c.indexes, IndexName)
    requires forall i | i in c.indexes :: Index(i) in s <==> c.indexes[i].table in gone
    ensures KeptIndexNames(c, s) == map x | x in c.indexNames && !GoneIndex(c, gone, c.indexNames[x]) :: c.indexNames[x]
  {
    assert forall x | x in c.indexNames :: c.indexNames[x] in c.indexes;
  }

  lemma ReducedSequenceNames(c: Catalog, s: set<Id>, gone: set<nat>)
    requires Lists(c.sequenceNames, c.sequences, SequenceName)
    requires forall q | q in c.sequences :: Sequence(q) in s <==> GoneSequence(c, gone, q)
    ensures KeptSequenceNames(c, s)
         == map x | x in c.sequenceNames && !GoneSequence(c, gone, c.sequenceNames[x]) :: c.sequenceNames[x]
  {
    hide GoneSequence;
    assert forall x | x in c.sequenceNames :: c.sequenceNames[x] in c.sequences;
  }

  // ---------------------------------------------------------------- when a drop is refused

  /** An edge that blocks the drop is a use. */
  lemma BlockIsUse(c: Catalog, edges: set<Edge>, roots: set<Id>, s: set<Id>, gone: set<nat>, e: Edge)
    requires Valid(c) && Closes(c, edges, roots, s) && HasTables(c, gone, s)
    requires HasEdge(c, e) && Blocks(e, s)
    ensures InUse(c, gone)
  {
    assert Exists(c, e.dependent) && Exists(c, e.referenced);
    hide Valid, Closes, GoneSequence, HasTables, Exists;
    ClosureIs(c, edges, roots, s, gone, e.referenced);
    ClosureIs(c, edges, roots, s, gone, e.dependent);
    UseOf(c, gone, e);
  }

  lemma UseOf(c: Catalog, gone: set<nat>, e: Edge)
    requires HasEdge(c, e) && e.kind == Normal && Goes(c, gone, e.referenced) && !Goes(c, gone, e.dependent)
    ensures InUse(c, gone)
  {
    hide GoneSequence;
    match e.dependent
    case Constraint(k) => assert ConstraintUses(c, gone, c.constraints[k].kind);
    case ColumnDefault(t, k) => assert DefaultUses(c, gone, c.tables[t].columns[k].value);
    case View(v) => assert e.referenced in c.views[v].refs && Goes(c, gone, e.referenced);
    case _ =>
  }

  lemma UseBlocks(c: Catalog, edges: set<Edge>, roots: set<Id>, s: set<Id>, gone: set<nat>, dependent: Id, x: Id)
    requires Valid(c) && Closes(c, edges, roots, s) && HasTables(c, gone, s)
    requires HasEdge(c, Edge(dependent, x, Normal)) && Goes(c, gone, x) && !Goes(c, gone, dependent)
    ensures exists e :: e in edges && Blocks(e, s)
  {
    var e := Edge(dependent, x, Normal);
    assert e in edges;
    assert Exists(c, e.dependent) && Exists(c, e.referenced);
    hide Valid, Closes, HasEdge, GoneSequence, HasTables, Exists;
    ClosureIs(c, edges, roots, s, gone, x);
    ClosureIs(c, edges, roots, s, gone, dependent);
    assert Blocks(e, s);
  }

  lemma ConstraintBlocks(c: Catalog, edges: set<Edge>, roots: set<Id>, s: set<Id>, gone: set<nat>)
    requires Valid(c) && Closes(c, edges, roots, s) && HasTables(c, gone, s) && UsedByConstraint(c, gone)
    ensures exists e :: e in edges && Blocks(e, s)
  {
    hide Valid, Closes, GoneSequence, HasTables, Blocks;
    var k :| k in c.constraints && c.constraints[k].table !in gone && ConstraintUses(c, gone, c.constraints[k].kind);
    match c.constraints[k].kind
    case Check(refs) =>
      var q :| q in refs.sequences && GoneSequence(c, gone, q);
      UseBlocks(c, edges, roots, s, gone, Constraint(k), Sequence(q));
    case Foreign(_, parent, parentKey, _, supporting) =>
      if parent in gone {
        UseBlocks(c, edges, roots, s, gone, Constraint(k), Table(parent));
      } else if GoneConstraint(c, gone, parentKey) {
        UseBlocks(c, edges, roots, s, gone, Constraint(k), Constraint(parentKey));
      } else {
        UseBlocks(c, edges, roots, s, gone, Constraint(k), Index(supporting.value));
      }
    case Key(_, _) =>
  }

  lemma DefaultBlocks(c: Catalog, edges: set<Edge>, roots: set<Id>, s: set<Id>, gone: set<nat>)
    requires Valid(c) && Closes(c, edges, roots, s) && HasTables(c, gone, s) && UsedByDefault(c, gone)
    ensures exists e :: e in edges && Blocks(e, s)
  {
    hide Valid, Closes, GoneSequence, HasTables, Blocks;
    var t, k :| t in c.tables && t !in gone && k in c.tables[t].columns && c.tables[t].columns[k].Some?
             && DefaultUses(c, gone, c.tables[t].columns[k].value);
    var d := c.tables[t].columns[k].value;
    var q :| GoneSequence(c, gone, q) && DefaultRefers(d, t, Sequence(q));
    UseBlocks(c, edges, roots, s, gone, ColumnDefault(t, k), Sequence(q));
  }

  lemma ViewBlocks(c: Catalog, edges: set<Edge>, roots: set<Id>, s: set<Id>, gone: set<nat>)
    requires Valid(c) && Closes(c, edges, roots, s) && HasTables(c, gone, s) && UsedByView(c, gone)
    ensures exists e :: e in edges && Blocks(e, s)
  {
    hide Valid, Closes, GoneSequence, HasTables, Blocks;
    var v, x :| v in c.views && x in c.views[v].refs && Goes(c, gone, x);
    UseBlocks(c, edges, roots, s, gone, View(v), x);
  }

  /** The closure is blocked if and only if something that stays names something that goes. */
  lemma BlockedIff(c: Catalog, edges: set<Edge>, roots: set<Id>, s: set<Id>, gone: set<nat>)
    requires Valid(c) && Closes(c, edges, roots, s) && HasTables(c, gone, s)
    ensures (exists e :: e in edges && Blocks(e, s)) <==> InUse(c, gone)
  {
    if e :| e in edges && Blocks(e, s) {
      BlockIsUse(c, edges, roots, s, gone, e);
    }
    hide Valid, Closes, HasTables, UsedByConstraint, UsedByDefault, UsedByView, Blocks;
    if UsedByConstraint(c, gone) {
      ConstraintBlocks(c, edges, roots, s, gone);
    }
    if UsedByDefault(c, gone) {
      DefaultBlocks(c, edges, roots, s, gone);
    }
    if UsedByView(c, gone) {
      ViewBlocks(c, edges, roots, s, gone);
    }
  }

  lemma OwnedIff(c: Catalog, edges: set<Edge>, roots: set<Id>, targets: set<nat>)
    requires (forall e :: e in edges <==> HasEdge(c, e)) && (forall x :: x in roots <==> x.Table? && x.table in targets)
    ensures (exists root :: Owned(edges, roots, {}, root)) <==> OwnedTarget(c, targets)
  {
    if root :| Owned(edges, roots, {}, root) {
      var e :| e in edges && e.dependent == root && e.kind == Internal && e.referenced !in roots;
      assert HasEdge(c, e);
      assert root.table in targets && c.tables[root.table].kind.base !in targets;
    }
    if OwnedTarget(c, targets) {
      var t :| t in targets && t in c.tables && c.tables[t].kind.Toast? && c.tables[t].kind.base !in targets;
      var e := Edge(Table(t), Table(c.tables[t].kind.base), Internal);
      assert e in edges;
      assert Owned(edges, roots, {}, Table(t));
    }
  }
}

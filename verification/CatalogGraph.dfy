/** The dependency graph of a catalog, and dropping tables from it. */
module CatalogGraph {
  import opened Options
  import opened DropClosure

  /** What a stored expression refers to; its columns are those of its own relation. */
  datatype Refs = Refs(columns: set<nat>, functions: set<nat>, sequences: set<nat>)

  datatype Default = Const | Nextval(sequence: nat) | Expr(refs: Refs)

  datatype TableKind = User | Toast(base: nat)

  datatype TableObject = TableObject(
    schema: nat, name: string, columns: map<nat, Option<Default>>, kind: TableKind, toast: Option<nat>)

  datatype ViewObject = ViewObject(schema: nat, columns: set<nat>, refs: set<Id>)

  datatype IndexObject = IndexObject(schema: nat, name: string, table: nat, columns: set<nat>)

  datatype SequenceObject = SequenceObject(schema: nat, name: string, owned: bool)

  datatype ConstraintKind =
    | Check(refs: Refs)
    | Key(columns: set<nat>, index: nat)
    | Foreign(columns: set<nat>, parent: nat, parentKey: nat, parentColumns: set<nat>, supporting: Option<nat>)

  datatype ConstraintObject = ConstraintObject(table: nat, kind: ConstraintKind)

  datatype Catalog = Catalog(
    schemas: set<nat>,
    tables: map<nat, TableObject>,
    views: map<nat, ViewObject>,
    indexes: map<nat, IndexObject>,
    sequences: map<nat, SequenceObject>,
    constraints: map<nat, ConstraintObject>,
    statistics: set<nat>,
    functions: set<nat>,
    systemRelations: set<nat>,
    tableNames: map<string, nat>,
    indexNames: map<string, nat>,
    sequenceNames: map<string, nat>)

  const PUBLIC_SCHEMA: nat := 1

  // ---------------------------------------------------------------- names

  /** The name under which the index of table names lists a table, if it does. */
  function TableName(t: TableObject): Option<string> {
    if t.schema == PUBLIC_SCHEMA && t.kind.User? then Some(t.name) else None
  }

  function IndexName(i: IndexObject): Option<string> {
    if i.schema == PUBLIC_SCHEMA then Some(i.name) else None
  }

  function SequenceName(q: SequenceObject): Option<string> {
    if q.schema == PUBLIC_SCHEMA then Some(q.name) else None
  }

  /** `names` lists exactly the objects that have a name, each under its own. */
  ghost predicate Lists<T(!new)>(names: map<string, nat>, objects: map<nat, T>, name: T -> Option<string>) {
    && (forall x | x in names :: names[x] in objects && name(objects[names[x]]) == Some(x))
    && (forall i | i in objects && name(objects[i]).Some? ::
          name(objects[i]).value in names && names[name(objects[i]).value] == i)
  }

  ghost predicate NamesOk(c: Catalog) {
    && Lists(c.tableNames, c.tables, TableName)
    && Lists(c.indexNames, c.indexes, IndexName)
    && Lists(c.sequenceNames, c.sequences, SequenceName)
  }

  // ---------------------------------------------------------------- edges

  predicate HasColumn(c: Catalog, r: nat, k: nat) {
    r in c.tables && k in c.tables[r].columns
  }

  predicate HasDefault(c: Catalog, r: nat, k: nat) {
    HasColumn(c, r, k) && c.tables[r].columns[k].Some?
  }

  predicate Refers(refs: Refs, relation: nat, x: Id) {
    match x
    case Column(r, k) => r == relation && k in refs.columns
    case Function(f) => f in refs.functions
    case Sequence(q) => q in refs.sequences
    case _ => false
  }

  predicate DefaultRefers(d: Default, relation: nat, x: Id) {
    (d.Nextval? && x == Sequence(d.sequence)) || (d.Expr? && Refers(d.refs, relation, x))
  }

  predicate ColumnsOf(relation: nat, columns: set<nat>, x: Id) {
    x.Column? && x.relation == relation && x.column in columns
  }

  predicate ConstraintRefers(k: ConstraintObject, x: Id) {
    match k.kind
    case Check(refs) => Refers(refs, k.table, x)
    case Key(columns, _) => ColumnsOf(k.table, columns, x)
    case Foreign(columns, parent, parentKey, parentColumns, supporting) =>
      || ColumnsOf(k.table, columns, x)
      || x == Table(parent)
      || x == Constraint(parentKey)
      || ColumnsOf(parent, parentColumns, x)
      || (supporting.Some? && x == Index(supporting.value))
  }

  /** Whether the graph of a catalog has an edge, by the kind of its dependent. */
  predicate HasEdge(c: Catalog, e: Edge) {
    match e.dependent
    case Table(t) => t in c.tables && TableEdge(c.tables[t], e)
    case Column(r, k) =>
      e.kind == Internal && ((HasColumn(c, r, k) && e.referenced == Table(r))
                             || (r in c.views && k in c.views[r].columns && e.referenced == View(r)))
    case ColumnDefault(r, k) =>
      HasDefault(c, r, k)
      && ((e.kind == Internal && e.referenced == Column(r, k))
          || (e.kind == Normal && DefaultRefers(c.tables[r].columns[k].value, r, e.referenced)))
    case View(v) =>
      v in c.views && e.kind == Normal && (e.referenced == Schema(c.views[v].schema) || e.referenced in c.views[v].refs)
    case Index(i) =>
      || (i in c.indexes && IndexEdge(c.indexes[i], e))
      || (e.kind == Internal && e.referenced.Constraint? && OwnsIndex(c, e.referenced.constraint, i))
    case Sequence(q) =>
      q in c.sequences
      && ((e.kind == Normal && e.referenced == Schema(c.sequences[q].schema))
          || (e.kind == Auto && e.referenced.Column? && OwnsSequence(c, e.referenced.relation, e.referenced.column, q)))
    case Constraint(k) =>
      k in c.constraints
      && ((e.kind == Auto && e.referenced == Table(c.constraints[k].table))
          || (e.kind == Normal && ConstraintRefers(c.constraints[k], e.referenced)))
    case Statistics(t) => t in c.statistics && e.kind == Auto && e.referenced == Table(t)
    case _ => false
  }

  predicate TableEdge(t: TableObject, e: Edge) {
    (e.kind == Normal && e.referenced == Schema(t.schema))
    || (e.kind == Internal && t.kind.Toast? && e.referenced == Table(t.kind.base))
  }

  predicate IndexEdge(i: IndexObject, e: Edge) {
    (e.kind == Auto && e.referenced == Table(i.table))
    || (e.kind == Normal && ColumnsOf(i.table, i.columns, e.referenced))
  }

  /** A key constraint owns the index that backs it. */
  predicate OwnsIndex(c: Catalog, k: nat, i: nat) {
    k in c.constraints && c.constraints[k].kind.Key? && c.constraints[k].kind.index == i
  }

  /** A column whose default draws from an owned sequence owns the sequence. */
  predicate OwnsSequence(c: Catalog, r: nat, k: nat, q: nat) {
    q in c.sequences && c.sequences[q].owned && HasDefault(c, r, k) && c.tables[r].columns[k].value == Nextval(q)
  }

  predicate Exists(c: Catalog, x: Id) {
    match x
    case Schema(s) => s in c.schemas
    case Table(t) => t in c.tables
    case View(v) => v in c.views
    case Index(i) => i in c.indexes
    case Sequence(q) => q in c.sequences
    case Constraint(k) => k in c.constraints
    case Function(f) => f in c.functions
    case SystemRelation(o) => o in c.systemRelations
    case Statistics(t) => t in c.statistics
    case Column(r, k) => HasColumn(c, r, k) || (r in c.views && k in c.views[r].columns)
    case ColumnDefault(r, k) => HasDefault(c, r, k)
  }

  /** What validation guarantees: no edge dangles, a hidden relation and its base name each
      other, a key constraint and its index are on one table. */
  ghost predicate Valid(c: Catalog) {
    && (forall e | HasEdge(c, e) :: Exists(c, e.dependent) && Exists(c, e.referenced))
    && (forall t | t in c.tables :: ToastOk(c, t))
    && (forall k, i | OwnsIndex(c, k, i) :: i in c.indexes ==> c.indexes[i].table == c.constraints[k].table)
    && c.tables.Keys !! c.views.Keys
    && NamesOk(c)
  }

  ghost predicate ToastOk(c: Catalog, t: nat)
    requires t in c.tables
  {
    match c.tables[t].kind
    case User =>
      var x := c.tables[t].toast;
      x.Some? ==> x.value != t && x.value in c.tables && c.tables[x.value].kind == Toast(t)
    case Toast(base) =>
      && base != t
      && c.tables[t].toast.None?
      && base in c.tables && c.tables[base].kind.User? && c.tables[base].toast == Some(t)
  }

  // ---------------------------------------------------------------- dropping

  function KeptTables(c: Catalog, s: set<Id>): map<nat, TableObject> {
    map t | t in c.tables && Table(t) !in s :: c.tables[t]
  }

  function KeptIndexes(c: Catalog, s: set<Id>): map<nat, IndexObject> {
    map i | i in c.indexes && Index(i) !in s :: c.indexes[i]
  }

  function KeptSequences(c: Catalog, s: set<Id>): map<nat, SequenceObject> {
    map q | q in c.sequences && Sequence(q) !in s :: c.sequences[q]
  }

  function KeptConstraints(c: Catalog, s: set<Id>): map<nat, ConstraintObject> {
    map k | k in c.constraints && Constraint(k) !in s :: c.constraints[k]
  }

  function KeptStatistics(c: Catalog, s: set<Id>): set<nat> {
    set t | t in c.statistics && Statistics(t) !in s
  }

  function KeptTableNames(c: Catalog, s: set<Id>): map<string, nat> {
    map x | x in c.tableNames && Table(c.tableNames[x]) !in s :: c.tableNames[x]
  }

  function KeptIndexNames(c: Catalog, s: set<Id>): map<string, nat> {
    map x | x in c.indexNames && Index(c.indexNames[x]) !in s :: c.indexNames[x]
  }

  function KeptSequenceNames(c: Catalog, s: set<Id>): map<string, nat> {
    map x | x in c.sequenceNames && Sequence(c.sequenceNames[x]) !in s :: c.sequenceNames[x]
  }

  /** The catalog without the objects in `s`. */
  function Without(c: Catalog, s: set<Id>): Catalog {
    c.(tables := KeptTables(c, s),
       indexes := KeptIndexes(c, s),
       sequences := KeptSequences(c, s),
       constraints := KeptConstraints(c, s),
       statistics := KeptStatistics(c, s),
       tableNames := KeptTableNames(c, s),
       indexNames := KeptIndexNames(c, s),
       sequenceNames := KeptSequenceNames(c, s))
  }

  /** `s` is the closure of a drop of tables. */
  ghost predicate Closes(c: Catalog, edges: set<Edge>, roots: set<Id>, s: set<Id>) {
    && (forall e :: e in edges <==> HasEdge(c, e))
    && (forall x | x in roots :: x.Table?)
    && IsClosure(edges, roots, s)
  }

  /** `s` is the closure of a drop of tables that was not refused. */
  ghost predicate Dropped(c: Catalog, edges: set<Edge>, roots: set<Id>, s: set<Id>) {
    Closes(c, edges, roots, s) && Accepted(edges, roots, {}, s)
  }

  lemma Justified(c: Catalog, edges: set<Edge>, roots: set<Id>, s: set<Id>, x: Id) returns (e: Edge)
    requires Closes(c, edges, roots, s) && x in s && x !in roots
    ensures HasEdge(c, e) && Follows(e) && e.dependent == x && e.referenced in s
  {
    ClosureIsJustified(edges, roots, s, x);
    e :| e in edges && Follows(e) && e.dependent == x && e.referenced in s;
  }

  lemma Follow(c: Catalog, edges: set<Edge>, roots: set<Id>, s: set<Id>, e: Edge)
    requires Closes(c, edges, roots, s) && HasEdge(c, e) && Follows(e) && e.referenced in s
    ensures e.dependent in s
  {
    assert e in edges;
  }

  /** A closure of tables holds no view and no schema. */
  lemma NoViews(c: Catalog, edges: set<Edge>, roots: set<Id>, s: set<Id>, x: Id)
    requires Closes(c, edges, roots, s) && x in s
    ensures !x.View? && !x.Schema? && !x.Function? && !x.SystemRelation?
  {
    if x !in roots {
      var e := Justified(c, edges, roots, s, x);
    }
  }

  /** Columns and their defaults go exactly with their table. */
  lemma ColumnsGoWithTable(c: Catalog, edges: set<Edge>, roots: set<Id>, s: set<Id>, r: nat, k: nat)
    requires Valid(c) && Closes(c, edges, roots, s) && HasColumn(c, r, k)
    ensures Column(r, k) in s <==> Table(r) in s
    ensures HasDefault(c, r, k) ==> (ColumnDefault(r, k) in s <==> Table(r) in s)
  {
    if Table(r) in s {
      Follow(c, edges, roots, s, Edge(Column(r, k), Table(r), Internal));
      if HasDefault(c, r, k) {
        Follow(c, edges, roots, s, Edge(ColumnDefault(r, k), Column(r, k), Internal));
      }
    }
    if Column(r, k) in s {
      var e := Justified(c, edges, roots, s, Column(r, k));
    }
    if ColumnDefault(r, k) in s {
      var e := Justified(c, edges, roots, s, ColumnDefault(r, k));
      var f := Justified(c, edges, roots, s, Column(r, k));
    }
  }

  lemma ConstraintsGoWithTable(c: Catalog, edges: set<Edge>, roots: set<Id>, s: set<Id>, k: nat)
    requires Closes(c, edges, roots, s) && k in c.constraints
    ensures Constraint(k) in s <==> Table(c.constraints[k].table) in s
  {
    if Table(c.constraints[k].table) in s {
      Follow(c, edges, roots, s, Edge(Constraint(k), Table(c.constraints[k].table), Auto));
    }
    if Constraint(k) in s {
      var e := Justified(c, edges, roots, s, Constraint(k));
    }
  }

  lemma IndexesGoWithTable(c: Catalog, edges: set<Edge>, roots: set<Id>, s: set<Id>, i: nat)
    requires Valid(c) && Closes(c, edges, roots, s) && i in c.indexes
    ensures Index(i) in s <==> Table(c.indexes[i].table) in s
  {
    if Table(c.indexes[i].table) in s {
      Follow(c, edges, roots, s, Edge(Index(i), Table(c.indexes[i].table), Auto));
    }
    if Index(i) in s {
      var e := Justified(c, edges, roots, s, Index(i));
      if e.kind == Internal {
        ConstraintsGoWithTable(c, edges, roots, s, e.referenced.constraint);
      }
    }
  }

  lemma ViewColumnsStay(c: Catalog, edges: set<Edge>, roots: set<Id>, s: set<Id>, v: nat, k: nat)
    requires Valid(c) && Closes(c, edges, roots, s) && v in c.views
    ensures Column(v, k) !in s
  {
    if Column(v, k) in s {
      var e := Justified(c, edges, roots, s, Column(v, k));
      NoViews(c, edges, roots, s, e.referenced);
    }
  }

  lemma SequencesGoWithOwner(c: Catalog, edges: set<Edge>, roots: set<Id>, s: set<Id>, r: nat, k: nat, q: nat)
    requires Valid(c) && Closes(c, edges, roots, s) && OwnsSequence(c, r, k, q) && Sequence(q) !in s
    ensures Table(r) !in s
  {
    if Table(r) in s {
      ColumnsGoWithTable(c, edges, roots, s, r, k);
      Follow(c, edges, roots, s, Edge(Sequence(q), Column(r, k), Auto));
    }
  }

  lemma IndexesGoWithKey(c: Catalog, edges: set<Edge>, roots: set<Id>, s: set<Id>, k: nat, i: nat)
    requires Valid(c) && Closes(c, edges, roots, s) && OwnsIndex(c, k, i)
    ensures Index(i) in s <==> Constraint(k) in s
  {
    assert HasEdge(c, Edge(Index(i), Constraint(k), Internal));
    assert Exists(c, Index(i));
    IndexesGoWithTable(c, edges, roots, s, i);
    ConstraintsGoWithTable(c, edges, roots, s, k);
  }

  /** An object stays in the reduced catalog exactly when it was there and is not dropped. */
  lemma SurvivesIff(c: Catalog, edges: set<Edge>, roots: set<Id>, s: set<Id>, x: Id)
    requires Valid(c) && Closes(c, edges, roots, s)
    ensures Exists(Without(c, s), x) <==> Exists(c, x) && x !in s
  {
    if x in s {
      NoViews(c, edges, roots, s, x);
    }
    if x.Column? {
      if HasColumn(c, x.relation, x.column) {
        ColumnsGoWithTable(c, edges, roots, s, x.relation, x.column);
      } else if x.relation in c.views {
        ViewColumnsStay(c, edges, roots, s, x.relation, x.column);
      }
    } else if x.ColumnDefault? && HasDefault(c, x.relation, x.column) {
      ColumnsGoWithTable(c, edges, roots, s, x.relation, x.column);
    }
  }

  /** The graph rebuilt after the drop is the old graph without the edges of dropped objects. */
  lemma EdgeSurvivesIff(c: Catalog, edges: set<Edge>, roots: set<Id>, s: set<Id>, e: Edge)
    requires Valid(c) && Dropped(c, edges, roots, s)
    ensures HasEdge(Without(c, s), e) <==> HasEdge(c, e) && e.dependent !in s
  {
    hide Valid, Dropped, HasEdge, Without;
    match e.dependent
    case Index(i) => IndexEdgeSurvives(c, edges, roots, s, e, i);
    case Sequence(q) => SequenceEdgeSurvives(c, edges, roots, s, e, q);
    case _ => OtherEdgeSurvives(c, edges, roots, s, e);
  }

  lemma IndexEdgeSurvives(c: Catalog, edges: set<Edge>, roots: set<Id>, s: set<Id>, e: Edge, i: nat)
    requires Valid(c) && Dropped(c, edges, roots, s) && e.dependent == Index(i)
    ensures HasEdge(Without(c, s), e) <==> HasEdge(c, e) && e.dependent !in s
  {
    hide Valid, Closes, KeptTableNames, KeptIndexNames, KeptSequenceNames;
    if e.referenced.Constraint? && OwnsIndex(c, e.referenced.constraint, i) {
      IndexesGoWithKey(c, edges, roots, s, e.referenced.constraint, i);
    }
  }

  lemma SequenceEdgeSurvives(c: Catalog, edges: set<Edge>, roots: set<Id>, s: set<Id>, e: Edge, q: nat)
    requires Valid(c) && Dropped(c, edges, roots, s) && e.dependent == Sequence(q)
    ensures HasEdge(Without(c, s), e) <==> HasEdge(c, e) && e.dependent !in s
  {
    hide Valid, Closes, KeptTableNames, KeptIndexNames, KeptSequenceNames;
    if e.referenced.Column? && Sequence(q) !in s && OwnsSequence(c, e.referenced.relation, e.referenced.column, q) {
      SequencesGoWithOwner(c, edges, roots, s, e.referenced.relation, e.referenced.column, q);
    }
  }

  lemma OtherEdgeSurvives(c: Catalog, edges: set<Edge>, roots: set<Id>, s: set<Id>, e: Edge)
    requires Valid(c) && Dropped(c, edges, roots, s) && !e.dependent.Index? && !e.dependent.Sequence?
    ensures HasEdge(Without(c, s), e) <==> HasEdge(c, e) && e.dependent !in s
  {
    hide Closes, KeptTableNames, KeptIndexNames, KeptSequenceNames;
    if e.dependent.Column? || e.dependent.ColumnDefault? || e.dependent.View? {
      SurvivesIff(c, edges, roots, s, e.dependent);
      if e.dependent.Column? && e.dependent.relation in c.views {
        ViewColumnsStay(c, edges, roots, s, e.dependent.relation, e.dependent.column);
      }
    }
  }

  lemma ToastSurvives(c: Catalog, edges: set<Edge>, roots: set<Id>, s: set<Id>, t: nat)
    requires Valid(c) && Dropped(c, edges, roots, s) && t in c.tables && Table(t) !in s
    ensures ToastOk(Without(c, s), t)
  {
    assert ToastOk(c, t);
    match c.tables[t].kind
    case User =>
      var x := c.tables[t].toast;
      if x.Some? && Table(x.value) in s {
        var owner := Edge(Table(x.value), Table(t), Internal);
        assert HasEdge(c, owner) && owner in edges;
        if Table(x.value) in roots {
          assert Owned(edges, roots, {}, Table(x.value));
        } else {
          var e := Justified(c, edges, roots, s, Table(x.value));
        }
      }
    case Toast(base) =>
      if Table(base) in s {
        Follow(c, edges, roots, s, Edge(Table(t), Table(base), Internal));
      }
  }

  /** The name indexes list exactly the objects that are left. */
  lemma NamesSurvive(c: Catalog, s: set<Id>)
    requires NamesOk(c)
    ensures NamesOk(Without(c, s))
  {
  }

  /** Dropping tables leaves a valid catalog: in particular no surviving edge, of foreign keys
      that form cycles among the dropped tables or of any other kind, refers to a dropped object. */
  lemma DropKeepsValid(c: Catalog, edges: set<Edge>, roots: set<Id>, s: set<Id>)
    requires Valid(c) && Dropped(c, edges, roots, s)
    ensures Valid(Without(c, s))
    ensures forall e | HasEdge(Without(c, s), e) :: e.dependent !in s && e.referenced !in s
  {
    var c' := Without(c, s);
    forall e | HasEdge(c', e)
      ensures Exists(c', e.dependent) && Exists(c', e.referenced) && e.dependent !in s && e.referenced !in s
    {
      EdgeSurvivesIff(c, edges, roots, s, e);
      NothingDangles(edges, s, e);
      SurvivesIff(c, edges, roots, s, e.dependent);
      SurvivesIff(c, edges, roots, s, e.referenced);
    }
    forall t | t in c'.tables ensures ToastOk(c', t) {
      ToastSurvives(c, edges, roots, s, t);
    }
    NamesSurvive(c, s);
    forall k, i | OwnsIndex(c', k, i) && i in c'.indexes ensures c'.indexes[i].table == c'.constraints[k].table {
      assert OwnsIndex(c, k, i);
    }
  }
}

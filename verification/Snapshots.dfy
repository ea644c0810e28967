/** Catalog snapshots, their id allocators, and change sets between them. */
module Snapshots {
  import opened Options

  const PUBLIC_SCHEMA: nat := 1
  const VERSION: nat := 1
  const MAX_MUTATIONS: nat := 65_536

  /** Addresses of the objects a change can replace, in their order. */
  datatype ObjectId =
    | SchemaId(n: nat) | TableId(n: nat) | ViewId(n: nat) | IndexId(n: nat) | SequenceId(n: nat)
    | ConstraintId(n: nat) | StatisticsId(n: nat)

  function Rank(id: ObjectId): nat {
    match id
    case SchemaId(_) => 0
    case TableId(_) => 1
    case ViewId(_) => 2
    case IndexId(_) => 3
    case SequenceId(_) => 4
    case ConstraintId(_) => 5
    case StatisticsId(_) => 6
  }

  predicate Less(a: ObjectId, b: ObjectId) {
    Rank(a) < Rank(b) || (Rank(a) == Rank(b) && a.n < b.n)
  }

  lemma LessIsTotal(a: ObjectId, b: ObjectId)
    ensures !Less(a, a) && !(Less(a, b) && Less(b, a)) && (Less(a, b) || Less(b, a) || a == b)
  {
  }

  /** Kinds come in this order, and within a kind numbers do. */
  lemma LessIs(m: nat, n: nat)
    ensures Less(SchemaId(m), TableId(n)) && Less(TableId(m), ViewId(n)) && Less(ViewId(m), IndexId(n))
    ensures Less(IndexId(m), SequenceId(n)) && Less(SequenceId(m), ConstraintId(n)) && Less(ConstraintId(m), StatisticsId(n))
    ensures Less(SchemaId(m), SchemaId(n)) <==> m < n
    ensures Less(StatisticsId(m), StatisticsId(n)) <==> m < n
  {
  }

  /** An object's value. `body` is whatever else it holds. */
  datatype Object =
    | Schema(id: nat, name: string, body: string)
    | Table(id: nat, schema: nat, name: string, user: bool, columns: set<nat>, nextColumn: nat, body: string)
    | View(id: nat, schema: nat, name: string, nextColumn: nat, body: string)
    | Index(id: nat, schema: nat, name: string, body: string)
    | Sequence(id: nat, schema: nat, name: string, body: string)
    | Constraint(id: nat, body: string)
    | Statistics(id: nat, columns: set<nat>, finite: bool, body: string)

  function IdOf(o: Object): ObjectId {
    match o
    case Schema(id, _, _) => SchemaId(id)
    case Table(id, _, _, _, _, _, _) => TableId(id)
    case View(id, _, _, _, _) => ViewId(id)
    case Index(id, _, _, _) => IndexId(id)
    case Sequence(id, _, _, _) => SequenceId(id)
    case Constraint(id, _) => ConstraintId(id)
    case Statistics(id, _, _, _) => StatisticsId(id)
  }

  type Objects = map<ObjectId, Object>

  function Get(objects: Objects, id: ObjectId): Option<Object> {
    if id in objects then Some(objects[id]) else None
  }

  // ---------------------------------------------------------------- names

  datatype Space = Schemas | Tables | Views | Indexes | Sequences

  datatype Name = Name(space: Space, name: string)

  /** The name index entry of an object: only `public` objects have one, and schemas. */
  function NameOf(o: Object): Option<Name> {
    match o
    case Schema(_, name, _) => Some(Name(Schemas, name))
    case Table(_, schema, name, user, _, _, _) =>
      if schema == PUBLIC_SCHEMA && user then Some(Name(Tables, name)) else None
    case View(_, schema, name, _, _) => if schema == PUBLIC_SCHEMA then Some(Name(Views, name)) else None
    case Index(_, schema, name, _) => if schema == PUBLIC_SCHEMA then Some(Name(Indexes, name)) else None
    case Sequence(_, schema, name, _) => if schema == PUBLIC_SCHEMA then Some(Name(Sequences, name)) else None
    case _ => None
  }

  ghost predicate UniqueNames(objects: Objects) {
    forall a, b | a in objects && b in objects && NameOf(objects[a]).Some? && NameOf(objects[a]) == NameOf(objects[b]) ::
      a == b
  }

  ghost function NameIndex(objects: Objects): map<Name, nat>
    requires UniqueNames(objects)
  {
    map a | a in objects && NameOf(objects[a]).Some? :: NameOf(objects[a]).value := a.n
  }

  // ---------------------------------------------------------------- allocators

  /** The next id of each kind. */
  datatype Next = Next(schema: nat, table: nat, index: nat, sequence: nat, dictionary: nat, storage: nat, constraint: nat)

  function Max(a: nat, b: nat): nat { if a >= b then a else b }

  function MaxNext(a: Next, b: Next): Next {
    Next(Max(a.schema, b.schema), Max(a.table, b.table), Max(a.index, b.index), Max(a.sequence, b.sequence),
         Max(a.dictionary, b.dictionary), Max(a.storage, b.storage), Max(a.constraint, b.constraint))
  }

  predicate AtLeast(a: Next, b: Next) {
    a.schema >= b.schema && a.table >= b.table && a.index >= b.index && a.sequence >= b.sequence
    && a.dictionary >= b.dictionary && a.storage >= b.storage && a.constraint >= b.constraint
  }

  /** Reserved ids: the next of each kind, and the next column of each listed relation. */
  datatype HighWater = HighWater(next: Next, columns: map<nat, nat>)

  function RaiseColumn(o: Object, columns: map<nat, nat>): (r: Object)
    ensures IdOf(r) == IdOf(o) && NameOf(r) == NameOf(o)
  {
    match o
    case Table(id, schema, name, user, cols, next, body) =>
      Table(id, schema, name, user, cols, if id in columns then Max(next, columns[id]) else next, body)
    case View(id, schema, name, next, body) =>
      View(id, schema, name, if id in columns then Max(next, columns[id]) else next, body)
    case _ => o
  }

  function RaiseColumns(objects: Objects, columns: map<nat, nat>): (r: Objects)
    ensures r.Keys == objects.Keys
  {
    map id | id in objects :: RaiseColumn(objects[id], columns)
  }

  /** The next column of each relation. */
  function ColumnsNext(objects: Objects): map<nat, nat> {
    map n | n in RelationIds(objects) :: NextColumn(objects, n)
  }

  function RelationIds(objects: Objects): set<nat> {
    set id | id in objects && (id.TableId? || id.ViewId?) :: id.n
  }

  function NextOf(o: Object): nat {
    match o
    case Table(_, _, _, _, _, next, _) => next
    case View(_, _, _, next, _) => next
    case _ => 0
  }

  /** A relation is a table or a view; tables and views share ids. */
  function NextColumn(objects: Objects, n: nat): nat {
    if ViewId(n) in objects then NextOf(objects[ViewId(n)])
    else if TableId(n) in objects then NextOf(objects[TableId(n)])
    else 0
  }

  // ---------------------------------------------------------------- snapshots

  datatype Snapshot = Snapshot(objects: Objects, names: map<Name, nat>, next: Next)

  function Reserve(s: Snapshot, h: HighWater): Snapshot {
    s.(objects := RaiseColumns(s.objects, h.columns), next := MaxNext(s.next, h.next))
  }

  function HighWaterOf(s: Snapshot): HighWater {
    HighWater(s.next, ColumnsNext(s.objects))
  }

  ghost predicate WellKeyed(objects: Objects) {
    forall id | id in objects :: IdOf(objects[id]) == id
  }

  /** Statistics are finite and of columns of a user table. */
  predicate StatisticsOk(objects: Objects, o: Object) {
    o.Statistics? ==>
      && o.finite
      && TableId(o.id) in objects && objects[TableId(o.id)].Table?
      && objects[TableId(o.id)].user && o.columns <= objects[TableId(o.id)].columns
  }

  /** What validation of a snapshot guarantees of the parts modelled here. */
  ghost predicate Consistent(s: Snapshot) {
    && WellKeyed(s.objects)
    && UniqueNames(s.objects) && s.names == NameIndex(s.objects)
    && (forall id | id in s.objects :: StatisticsOk(s.objects, s.objects[id]))
    && (forall n: nat :: !(TableId(n) in s.objects && ViewId(n) in s.objects))
  }

  // ---------------------------------------------------------------- change sets

  datatype Mutation = Mutation(before: Option<Object>, after: Option<Object>)

  datatype ChangeSet = ChangeSet(version: nat, mutations: seq<Mutation>, highWater: HighWater)

  /** The object a mutation is about; every mutation of a well-formed change set has one. */
  function MutationId(m: Mutation): Option<ObjectId> {
    if m.after.Some? then Some(IdOf(m.after.value))
    else if m.before.Some? then Some(IdOf(m.before.value))
    else None
  }

  predicate Finite(o: Option<Object>) {
    o.Some? && o.value.Statistics? ==> o.value.finite
  }

  predicate MutationOk(m: Mutation) {
    && MutationId(m).Some?
    && (m.before.Some? ==> Some(IdOf(m.before.value)) == MutationId(m))
    && m.before != m.after
    && Finite(m.before) && Finite(m.after)
  }

  ghost predicate SortedMutations(ms: seq<Mutation>)
    requires forall m | m in ms :: MutationId(m).Some?
  {
    forall i, j | 0 <= i < j < |ms| :: Less(MutationId(ms[i]).value, MutationId(ms[j]).value)
  }

  ghost predicate WithinLimits(cs: ChangeSet) {
    |cs.mutations| <= MAX_MUTATIONS && |cs.highWater.columns| <= MAX_MUTATIONS
  }

  ghost predicate ShapeOk(cs: ChangeSet) {
    && cs.version == VERSION
    && WithinLimits(cs)
    && (forall m | m in cs.mutations :: MutationOk(m))
    && SortedMutations(cs.mutations)
  }
}

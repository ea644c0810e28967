/** The set of catalog objects a drop takes with it. */
module DropClosure {

  datatype Id =
    | Schema(schema: nat) | Table(table: nat) | View(view: nat) | Index(index: nat) | Sequence(sequence: nat)
    | Constraint(constraint: nat) | Function(func: nat) | SystemRelation(oid: nat) | Statistics(analyzed: nat)
    | Column(relation: nat, column: nat) | ColumnDefault(relation: nat, column: nat)

  datatype Kind = Normal | Auto | Internal

  datatype Edge = Edge(dependent: Id, referenced: Id, kind: Kind)

  datatype Result =
    | Closure(ids: set<Id>)
    | OwnedRoot(root: Id)
    | StillReferenced(edge: Edge)

  /** Dropping the referenced object drops the dependent one. */
  predicate Follows(e: Edge) { e.kind != Normal }

  ghost predicate Closed(edges: set<Edge>, s: set<Id>) {
    forall e | e in edges && Follows(e) && e.referenced in s :: e.dependent in s
  }

  /** `s` lies in every closed set that holds the roots. */
  ghost predicate Least(edges: set<Edge>, roots: set<Id>, s: set<Id>) {
    forall t: set<Id> | roots <= t && Closed(edges, t) :: s <= t
  }

  ghost predicate IsClosure(edges: set<Edge>, roots: set<Id>, s: set<Id>) {
    roots <= s && Closed(edges, s) && Least(edges, roots, s)
  }

  /** A root that an object outside the roots owns. */
  ghost predicate Owned(edges: set<Edge>, roots: set<Id>, allowed: set<Id>, root: Id) {
    root in roots && root !in allowed
    && exists e | e in edges :: e.dependent == root && e.kind == Internal && e.referenced !in roots
  }

  /** An object outside `s` that needs one inside. */
  predicate Blocks(e: Edge, s: set<Id>) {
    e.referenced in s && e.kind == Normal && e.dependent !in s
  }

  ghost predicate Accepted(edges: set<Edge>, roots: set<Id>, allowed: set<Id>, s: set<Id>) {
    && (forall root :: !Owned(edges, roots, allowed, root))
    && IsClosure(edges, roots, s)
    && (forall e | e in edges :: !Blocks(e, s))
  }

  ghost predicate RefusedFor(edges: set<Edge>, roots: set<Id>, allowed: set<Id>, why: Result) {
    match why
    case OwnedRoot(root) => Owned(edges, roots, allowed, root)
    case StillReferenced(e) => e in edges && exists s :: IsClosure(edges, roots, s) && Blocks(e, s)
    case Closure(_) => false
  }

  /** The closure is grown until a pass over the edges, in any order, adds nothing. It is refused exactly when a
      root is owned from outside or an object that would stay needs one that would go; otherwise
      it is the least set that holds the roots and is closed under owned dependents. */
  method Close(edges: set<Edge>, roots: set<Id>, allowed: set<Id>) returns (r: Result)
    ensures r.Closure? ==> Accepted(edges, roots, allowed, r.ids)
    ensures !r.Closure? ==> RefusedFor(edges, roots, allowed, r)
  {
    var owned := FindOwned(edges, roots, allowed);
    if owned != {} {
      var root :| root in owned;
      return OwnedRoot(root);
    }
    var closure := Grow(edges, roots);
    var todo := edges;
    while todo != {}
      invariant todo <= edges && forall e | e in edges - todo :: !Blocks(e, closure)
    {
      var e :| e in todo;
      if Blocks(e, closure) {
        return StillReferenced(e);
      }
      todo := todo - {e};
    }
    return Closure(closure);
  }

  method FindOwned(edges: set<Edge>, roots: set<Id>, allowed: set<Id>) returns (owned: set<Id>)
    ensures forall root :: root in owned <==> Owned(edges, roots, allowed, root)
  {
    owned := {};
    var todo := edges;
    while todo != {}
      invariant todo <= edges && forall root :: root in owned <==> Owned(edges - todo, roots, allowed, root)
    {
      var e :| e in todo;
      if e.dependent in roots && e.dependent !in allowed && e.kind == Internal && e.referenced !in roots {
        owned := owned + {e.dependent};
      }
      assert edges - (todo - {e}) == (edges - todo) + {e};
      todo := todo - {e};
    }
    assert edges - todo == edges;
  }

  method Grow(edges: set<Edge>, roots: set<Id>) returns (closure: set<Id>)
    ensures IsClosure(edges, roots, closure)
  {
    ghost var all := roots + set e | e in edges :: e.dependent;
    closure := roots;
    var changed := true;
    while changed
      invariant roots <= closure <= all && Least(edges, roots, closure)
      invariant !changed ==> Closed(edges, closure)
      decreases all - closure, changed
    {
      changed := false;
      ghost var start := closure;
      var todo := edges;
      while todo != {}
        invariant todo <= edges && start <= closure <= all && Least(edges, roots, closure)
        invariant if changed then start < closure else closure == start && Closed(edges - todo, closure)
      {
        var e :| e in todo;
        if e.referenced in closure && Follows(e) && e.dependent !in closure {
          LeastGrows(edges, roots, closure, e);
          closure := closure + {e.dependent};
          changed := true;
        }
        todo := todo - {e};
      }
      assert edges - todo == edges;
    }
  }

  lemma LeastGrows(edges: set<Edge>, roots: set<Id>, s: set<Id>, e: Edge)
    requires Least(edges, roots, s) && e in edges && Follows(e) && e.referenced in s
    ensures Least(edges, roots, s + {e.dependent})
  {
  }

  /** There is only one closure. */
  lemma ClosureIsUnique(edges: set<Edge>, roots: set<Id>, s: set<Id>, t: set<Id>)
    requires IsClosure(edges, roots, s) && IsClosure(edges, roots, t)
    ensures s == t
  {
    assert s <= t && t <= s;
  }

  /** A drop is accepted or refused, never both. */
  lemma RefusedIsNotAccepted(edges: set<Edge>, roots: set<Id>, allowed: set<Id>, why: Result, s: set<Id>)
    requires RefusedFor(edges, roots, allowed, why)
    ensures !Accepted(edges, roots, allowed, s)
  {
    if why.StillReferenced? && IsClosure(edges, roots, s) {
      var t :| IsClosure(edges, roots, t) && Blocks(why.edge, t);
      ClosureIsUnique(edges, roots, s, t);
    }
  }

  /** Whatever is in the closure is a root or is owned by something in it. */
  lemma ClosureIsJustified(edges: set<Edge>, roots: set<Id>, s: set<Id>, x: Id)
    requires IsClosure(edges, roots, s) && x in s && x !in roots
    ensures exists e :: e in edges && Follows(e) && e.dependent == x && e.referenced in s
  {
    var t := s - {x};
    assert !(s <= t);
    assert !Closed(edges, t);
  }

  /** After a drop that was not refused, no edge of a surviving object leads to a dropped one. */
  lemma NothingDangles(edges: set<Edge>, s: set<Id>, e: Edge)
    requires Closed(edges, s) && (forall b | b in edges :: !Blocks(b, s))
    requires e in edges && e.dependent !in s
    ensures e.referenced !in s
  {
    assert !Blocks(e, s);
  }
}

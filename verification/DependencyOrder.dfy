/**
  Service start order: a depth-first walk over the depends_on lists. The services are
  walked in whatever order the map yields them. A dependency that is not declared counts
  as a service without dependencies.
 */
module DependencyOrder {

  type Services = map<string, seq<string>>

  function DependsOn(services: Services, name: string): seq<string> {
    if name in services then services[name] else []
  }

  ghost predicate AllDeclared(services: Services) {
    forall name, dep :: name in services && dep in services[name] ==> dep in services
  }

  // Every name that occurs, as a service or as a dependency.
  ghost function Names(services: Services): set<string> {
    services.Keys + set name, dep | name in services && dep in services[name] :: dep
  }

  ghost predicate Walk(services: Services, p: seq<string>) {
    forall i :: 0 <= i < |p| - 1 ==> p[i + 1] in DependsOn(services, p[i])
  }

  ghost predicate IsCycle(services: Services, p: seq<string>) {
    |p| > 1 && p[0] == p[|p| - 1] && Walk(services, p)
  }

  ghost predicate Acyclic(services: Services) {
    forall p :: !IsCycle(services, p)
  }

  ghost predicate Distinct(s: seq<string>) {
    forall i, j :: 0 <= i < j < |s| ==> s[i] != s[j]
  }

  ghost function Elements(s: seq<string>): set<string> {
    set x | x in s
  }

  // Every dependency stands before whatever depends on it.
  ghost predicate DependenciesFirst(services: Services, order: seq<string>) {
    forall i, dep :: 0 <= i < |order| && dep in DependsOn(services, order[i]) ==> dep in order[..i]
  }

  // --------------------------------------------------------------- an order excludes cycles

  lemma {:induction false} WalkGoesBack(services: Services, order: seq<string>, p: seq<string>, at: nat)
    requires DependenciesFirst(services, order) && |p| > 1 && Walk(services, p)
    requires at < |order| && order[at] == p[0]
    ensures p[|p| - 1] in order[..at]
  {
    assert p[1] in order[..at];
    if |p| > 2 {
      var next :| 0 <= next < at && order[next] == p[1];
      var rest := p[1..];
      assert forall i :: 0 <= i < |rest| ==> rest[i] == p[i + 1];
      WalkGoesBack(services, order, rest, next);
    }
  }

  lemma OrderExcludesCycles(services: Services, order: seq<string>)
    requires Distinct(order) && DependenciesFirst(services, order) && services.Keys <= Elements(order)
    ensures Acyclic(services)
  {
    forall p ensures !IsCycle(services, p) {
      if IsCycle(services, p) {
        assert p[1] in DependsOn(services, p[0]);
        assert p[0] in Elements(order);
        var at :| 0 <= at < |order| && order[at] == p[0];
        WalkGoesBack(services, order, p, at);
        assert false;
      }
    }
  }

  // --------------------------------------------------------------- the walk

  class Walker {
    var visited: set<string>
    var visiting: set<string>
    var order: seq<string>

    constructor ()
      ensures visited == {} && visiting == {} && order == []
    {
      visited, visiting, order := {}, {}, [];
    }

    // `stack` is the chain of services being visited, outermost first.
    ghost predicate Valid(services: Services, stack: seq<string>)
      reads this
    {
      && visited == Elements(order) && Distinct(order) && DependenciesFirst(services, order)
      && visiting == Elements(stack) && Distinct(stack) && Walk(services, stack)
      && visited !! visiting && visited <= Names(services) && visiting <= Names(services)
    }

    method Visit(services: Services, name: string, ghost stack: seq<string>) returns (ok: bool)
      requires Valid(services, stack) && name in Names(services)
      requires |stack| > 0 ==> name in DependsOn(services, stack[|stack| - 1])
      modifies this
      ensures ok ==> Valid(services, stack) && old(visited) + {name} <= visited
      ensures !ok ==> !Acyclic(services)
      decreases Names(services) - visiting
    {
      if name in visited {
        return true;
      }
      if name in visiting {
        CycleFound(services, stack, name);
        return false;
      }
      visiting := visiting + {name};
      var deps := DependsOn(services, name);
      ghost var inner := stack + [name];
      assert Elements(inner) == Elements(stack) + {name};
      assert Walk(services, inner);
      for i := 0 to |deps|
        invariant Valid(services, inner) && old(visited) <= visited && Elements(deps[..i]) <= visited
      {
        assert name in services && deps[i] in services[name];
        assert deps[i] in Names(services);
        assert visiting == Elements(inner) == old(visiting) + {name};
        var done := Visit(services, deps[i], inner);
        if !done {
          return false;
        }
        assert Elements(deps[..i + 1]) == Elements(deps[..i]) + {deps[i]};
      }
      assert deps[..|deps|] == deps && forall d :: d in deps ==> d in Elements(deps);
      Finish(services, name, stack);
      return true;
    }

    // Takes a service off the stack once all it depends on stands in the order.
    method Finish(services: Services, name: string, ghost stack: seq<string>)
      requires Valid(services, stack + [name]) && forall d :: d in DependsOn(services, name) ==> d in visited
      modifies this
      ensures Valid(services, stack) && visited == old(visited) + {name}
    {
      OrderGrows(services, order, name);
      Popped(services, stack, name);
      visiting := visiting - {name};
      visited := visited + {name};
      assert Elements(order + [name]) == Elements(order) + {name};
      order := order + [name];
    }
  }

  lemma Popped(services: Services, stack: seq<string>, name: string)
    requires Distinct(stack + [name]) && Walk(services, stack + [name])
    ensures Distinct(stack) && Walk(services, stack) && Elements(stack) == Elements(stack + [name]) - {name}
  {
    var all := stack + [name];
    assert forall i :: 0 <= i < |stack| ==> stack[i] == all[i];
    assert all[|stack|] == name;
  }

  lemma CycleFound(services: Services, stack: seq<string>, name: string)
    requires Walk(services, stack) && name in stack && name in DependsOn(services, stack[|stack| - 1])
    ensures !Acyclic(services)
  {
    var i :| 0 <= i < |stack| && stack[i] == name;
    var cycle := stack[i..] + [name];
    assert IsCycle(services, cycle);
  }

  lemma OrderGrows(services: Services, order: seq<string>, name: string)
    requires DependenciesFirst(services, order) && forall d :: d in DependsOn(services, name) ==> d in Elements(order)
    ensures DependenciesFirst(services, order + [name])
  {
    var more := order + [name];
    forall i, d | 0 <= i < |more| && d in DependsOn(services, more[i]) ensures d in more[..i] {
      if i < |order| {
        assert more[..i] == order[..i];
      } else {
        assert more[..i] == order;
      }
    }
  }

  datatype Result = Ordered(order: seq<string>) | CircularDependency

  /**
    Succeeds exactly when no service depends on itself, directly or through others,
    whatever order the services are walked in; then every name that occurs stands once
    in the order, after all it depends on.
   */
  method Order(services: Services) returns (r: Result)
    ensures r.Ordered? <==> Acyclic(services)
    ensures r.Ordered? ==> Distinct(r.order) && Elements(r.order) == Names(services) && DependenciesFirst(services, r.order)
    ensures r.Ordered? && AllDeclared(services) ==> Elements(r.order) == services.Keys
  {
    var w := new Walker();
    var todo := services.Keys;
    while todo != {}
      invariant todo <= services.Keys && w.Valid(services, []) && services.Keys - todo <= w.visited
      decreases todo
    {
      var name :| name in todo;
      var ok := w.Visit(services, name, []);
      if !ok {
        return CircularDependency;
      }
      todo := todo - {name};
    }
    OrderExcludesCycles(services, w.order);
    assert Elements(w.order) == Names(services) by {
      EverythingOrdered(services, w.order);
    }
    return Ordered(w.order);
  }

  lemma EverythingOrdered(services: Services, order: seq<string>)
    requires DependenciesFirst(services, order) && services.Keys <= Elements(order)
    ensures Names(services) <= Elements(order)
  {
    forall name, dep | name in services && dep in services[name] ensures dep in Elements(order) {
      assert name in Elements(order);
      var i :| 0 <= i < |order| && order[i] == name;
      assert dep in DependsOn(services, order[i]);
      assert dep in order[..i];
    }
  }
}

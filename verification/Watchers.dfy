/** Which device watches which project, kept as nested maps and read as one flat map. */
module Watchers {

  type Nested = map<string, map<string, string>>

  /** The project and scope each device watches. */
  type Flat = map<string, (string, string)>

  /** Both say the same about a project and a device. */
  predicate Agree(nested: Nested, flat: Flat, p: string, d: string) {
    && (p in nested && d in nested[p] <==> d in flat && flat[d].0 == p)
    && (p in nested && d in nested[p] && d in flat ==> nested[p][d] == flat[d].1)
  }

  /** The nested maps say what the flat map says, so a device is under one project only; no inner map is empty. */
  ghost predicate Refines(nested: Nested, flat: Flat) {
    && (forall p :: p in nested ==> nested[p] != map[])
    && (forall p, d :: Agree(nested, flat, p, d))
  }

  /** The flat map is determined by the nested ones, and the nested ones by the flat map. */
  lemma RefinesIsOneToOne(a: Nested, b: Nested, flatA: Flat, flatB: Flat)
    requires Refines(a, flatA) && Refines(b, flatB)
    ensures a == b <==> flatA == flatB
  {
    if a == b {
      SubFlat(a, flatA, flatB);
      SubFlat(a, flatB, flatA);
      assert flatA == flatB;
    }
    if flatA == flatB {
      SubNested(a, b, flatA);
      SubNested(b, a, flatA);
      assert forall p :: p in a ==> a[p] == b[p];
    }
  }

  lemma SubFlat(nested: Nested, flatA: Flat, flatB: Flat)
    requires Refines(nested, flatA) && Refines(nested, flatB)
    ensures forall d :: d in flatA ==> d in flatB && flatB[d] == flatA[d]
  {
    forall d | d in flatA
      ensures d in flatB && flatB[d] == flatA[d]
    {
      assert Agree(nested, flatA, flatA[d].0, d) && Agree(nested, flatB, flatA[d].0, d);
    }
  }

  lemma SubNested(a: Nested, b: Nested, flat: Flat)
    requires Refines(a, flat) && Refines(b, flat)
    ensures forall p :: p in a ==> p in b
    ensures forall p, d :: p in a && d in a[p] ==> p in b && d in b[p] && b[p][d] == a[p][d]
  {
    forall p, d | p in a && d in a[p]
      ensures p in b && d in b[p] && b[p][d] == a[p][d]
    {
      assert Agree(a, flat, p, d) && Agree(b, flat, p, d);
    }
    forall p | p in a
      ensures p in b
    {
      var d :| d in a[p];
    }
  }

  // ---- the steps ----

  /** The device is taken out of every project but `kept`. */
  ghost predicate Forgotten(before: Nested, after: Nested, device: string, spare: bool, kept: string) {
    && after.Keys == before.Keys
    && forall p :: p in after ==> after[p] == (if spare && p == kept then before[p] else before[p] - {device})
  }

  function WithoutEmpty(nested: Nested): Nested {
    map p | p in nested && nested[p] != map[] :: nested[p]
  }

  lemma RegisterRefines(before: Nested, forgotten: Nested, flat: Flat, project: string, device: string, scope: string)
    requires Refines(before, flat) && Forgotten(before, forgotten, device, true, project)
    ensures var rest := WithoutEmpty(forgotten);
            var devices := if project in rest then rest[project] else map[];
            Refines(rest[project := devices[device := scope]], flat[device := (project, scope)])
  {
    var rest := WithoutEmpty(forgotten);
    var devices := if project in rest then rest[project] else map[];
    var after, now := rest[project := devices[device := scope]], flat[device := (project, scope)];
    assert device in after[project];
    forall p, d
      ensures Agree(after, now, p, d)
    {
      assert Agree(before, flat, p, d);
      if p in forgotten && d in forgotten[p] {
        assert p in rest && rest[p] == forgotten[p];
      }
      if p == project {
        assert after[p] == devices[device := scope];
        assert d in devices <==> p in forgotten && d in forgotten[p];
      }
    }
  }

  lemma RemovalRefines(before: Nested, forgotten: Nested, flat: Flat, device: string)
    requires Refines(before, flat) && Forgotten(before, forgotten, device, false, "")
    ensures Refines(WithoutEmpty(forgotten), flat - {device})
  {
    forall p, d
      ensures Agree(WithoutEmpty(forgotten), flat - {device}, p, d)
    {
      assert Agree(before, flat, p, d);
      assert p in forgotten ==> forgotten[p] == before[p] - {device};
      if p in forgotten && d in forgotten[p] {
        assert p in WithoutEmpty(forgotten) && WithoutEmpty(forgotten)[p] == forgotten[p];
      }
    }
  }

  /** The flat map without the devices of a project. */
  function WithoutProject(flat: Flat, project: string): Flat {
    map d | d in flat && flat[d].0 != project :: flat[d]
  }

  lemma ProjectRemovalRefines(before: Nested, flat: Flat, project: string)
    requires Refines(before, flat)
    ensures Refines(before - {project}, WithoutProject(flat, project))
  {
    forall p, d
      ensures Agree(before - {project}, WithoutProject(flat, project), p, d)
    {
      assert Agree(before, flat, p, d);
    }
  }

  class WatcherMap {
    var watchers: Nested

    constructor ()
      ensures watchers == map[]
    {
      watchers := map[];
    }

    // The loop over the inner maps; with `spare` one project is left out of it.
    method Forget(device: string, spare: bool, project: string)
      modifies this
      ensures Forgotten(old(watchers), watchers, device, spare, project)
    {
      var todo := watchers.Keys;
      while todo != {}
        invariant todo <= watchers.Keys == old(watchers).Keys
        invariant forall p :: p in watchers ==>
          watchers[p] == if p in todo || (spare && p == project) then old(watchers)[p] else old(watchers)[p] - {device}
        decreases todo
      {
        var id :| id in todo;
        if !(spare && id == project) {
          watchers := watchers[id := watchers[id] - {device}];
        }
        todo := todo - {id};
      }
    }

    /** Registering moves the device to the project: in the flat map, one assignment. */
    method Register(project: string, device: string, scope: string, ghost flat: Flat)
      requires Refines(watchers, flat)
      modifies this
      ensures Refines(watchers, flat[device := (project, scope)])
    {
      Forget(device, true, project);
      RegisterRefines(old(watchers), watchers, flat, project, device, scope);
      watchers := WithoutEmpty(watchers);
      var devices := if project in watchers then watchers[project] else map[];
      watchers := watchers[project := devices[device := scope]];
    }

    /** Removing a device removes its one entry. */
    method RemoveDevice(device: string, ghost flat: Flat)
      requires Refines(watchers, flat)
      modifies this
      ensures Refines(watchers, flat - {device})
    {
      Forget(device, false, "");
      RemovalRefines(old(watchers), watchers, flat, device);
      watchers := WithoutEmpty(watchers);
    }

    /** Removing a project removes the entries of its devices and no others. */
    method RemoveProject(project: string, ghost flat: Flat)
      requires Refines(watchers, flat)
      modifies this
      ensures Refines(watchers, WithoutProject(flat, project))
    {
      ProjectRemovalRefines(watchers, flat, project);
      watchers := watchers - {project};
    }

    /** What a push to a project's watchers reads. */
    method DevicesOf(project: string, ghost flat: Flat) returns (devices: map<string, string>)
      requires Refines(watchers, flat)
      ensures devices == map d | d in flat && flat[d].0 == project :: flat[d].1
    {
      devices := if project in watchers then watchers[project] else map[];
      forall d
        ensures d in devices <==> d in flat && flat[d].0 == project
        ensures d in devices ==> devices[d] == flat[d].1
      {
        assert Agree(watchers, flat, project, d);
      }
    }
  }

  // ---- runs ----

  datatype Op =
    | Register(project: string, device: string, scope: string)
    | RemoveDevice(device: string)
    | RemoveProject(project: string)

  /** The same operations on the flat map. */
  function FlatStep(flat: Flat, op: Op): Flat {
    match op
    case Register(project, device, scope) => flat[device := (project, scope)]
    case RemoveDevice(device) => flat - {device}
    case RemoveProject(project) => WithoutProject(flat, project)
  }

  function FlatRun(flat: Flat, ops: seq<Op>): Flat
    decreases |ops|
  {
    if ops == [] then flat else FlatRun(FlatStep(flat, ops[0]), ops[1..])
  }

  /** Over any run of operations the nested maps refine the flat map the same run gives. */
  method RunOps(ops: seq<Op>) returns (w: WatcherMap)
    ensures fresh(w) && Refines(w.watchers, FlatRun(map[], ops))
  {
    w := new WatcherMap();
    ghost var flat: Flat := map[];
    assert ops[0..] == ops;
    for i := 0 to |ops|
      invariant fresh(w) && Refines(w.watchers, flat)
      invariant FlatRun(flat, ops[i..]) == FlatRun(map[], ops)
    {
      assert ops[i..][1..] == ops[i + 1..];
      match ops[i] {
        case Register(project, device, scope) => w.Register(project, device, scope, flat);
        case RemoveDevice(device) => w.RemoveDevice(device, flat);
        case RemoveProject(project) => w.RemoveProject(project, flat);
      }
      flat := FlatStep(flat, ops[i]);
    }
  }

  /** The device's last registration, unless it or its project was removed later, is what the flat map says. */
  lemma {:induction false} LastRegistrationCounts(flat: Flat, ops: seq<Op>,
                                                  device: string, project: string, scope: string)
    requires device in flat && flat[device] == (project, scope)
    requires forall i :: 0 <= i < |ops| ==>
               match ops[i]
               case Register(_, d, _) => d != device
               case RemoveDevice(d) => d != device
               case RemoveProject(p) => p != project
    ensures device in FlatRun(flat, ops) && FlatRun(flat, ops)[device] == (project, scope)
    decreases |ops|
  {
    if ops != [] {
      assert ops[0] in ops;
      LastRegistrationCounts(FlatStep(flat, ops[0]), ops[1..], device, project, scope);
    }
  }

  /** Operation `i` registered the device, and nothing later touched the device or its project. */
  ghost predicate Stands(ops: seq<Op>, i: int, device: string, project: string, scope: string) {
    && 0 <= i < |ops| && ops[i] == Register(project, device, scope)
    && forall j :: i < j < |ops| ==>
         match ops[j]
         case Register(_, d, _) => d != device
         case RemoveDevice(d) => d != device
         case RemoveProject(p) => p != project
  }

  lemma {:induction false} FlatRunOfLast(flat: Flat, ops: seq<Op>, op: Op)
    ensures FlatRun(flat, ops + [op]) == FlatStep(FlatRun(flat, ops), op)
    decreases |ops|
  {
    hide FlatStep;
    if ops == [] {
      assert (ops + [op])[1..] == [];
    } else {
      assert (ops + [op])[1..] == ops[1..] + [op];
      FlatRunOfLast(FlatStep(flat, ops[0]), ops[1..], op);
    }
  }

  lemma StandsBefore(ops: seq<Op>, op: Op, i: int, device: string, project: string, scope: string)
    requires i < |ops|
    ensures Stands(ops + [op], i, device, project, scope) <==>
              && Stands(ops, i, device, project, scope)
              && match op
                 case Register(_, d, _) => d != device
                 case RemoveDevice(d) => d != device
                 case RemoveProject(p) => p != project
  {
    var all := ops + [op];
    assert all[|ops|] == op && forall j :: 0 <= j < |ops| ==> all[j] == ops[j];
  }

  /** From the start, a device watches a project with a scope exactly when some operation registered it there and no
      later one registered or removed the device or removed the project. */
  lemma {:induction false} WatchedIff(ops: seq<Op>, device: string, project: string, scope: string)
    ensures device in FlatRun(map[], ops) && FlatRun(map[], ops)[device] == (project, scope) <==>
              exists i :: Stands(ops, i, device, project, scope)
    decreases |ops|
  {
    if ops != [] {
      var n := |ops| - 1;
      var before, op := ops[..n], ops[n];
      assert ops == before + [op];
      WatchedIff(before, device, project, scope);
      FlatRunOfLast(map[], before, op);
      forall i | 0 <= i < n
        ensures Stands(ops, i, device, project, scope) <==>
                  && Stands(before, i, device, project, scope)
                  && match op
                     case Register(_, d, _) => d != device
                     case RemoveDevice(d) => d != device
                     case RemoveProject(p) => p != project
      {
        StandsBefore(before, op, i, device, project, scope);
      }
      assert Stands(ops, n, device, project, scope) <==> op == Register(project, device, scope);
      hide FlatRun;
    }
  }
}

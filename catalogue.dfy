/** The data catalogue: package, component and dataset lookups, the
    dependency closure of a package, the public package listing and the
    choice of packages a download installs. Reading the catalogue file,
    the versions file and the downloads themselves are not part of this
    model. */
module Catalogue {
  import opened Wrappers
  import opened SetOrder

  datatype PackageType = Meta | Http

  /** The fields of `PackageEntry` the modelled operations read; a
      package's dependencies are None or a frozenset of names, given here
      in the order Python iterates it. */
  datatype PackageEntry = PackageEntry(name: string, version: Option<string>, packageType: PackageType,
                                       dependencies: Option<seq<string>>, private: bool)

  datatype DatasetEntry = DatasetEntry(name: string, component: string, path: string)

  datatype ComponentEntry = ComponentEntry(name: string, default: string, datasets: map<string, DatasetEntry>)

  datatype Catalogue = Catalogue(version: string, packages: map<string, PackageEntry>,
                                 components: map<string, ComponentEntry>)

  /** `CatalogueError`, by the kind of name that was not found. */
  datatype CatalogueError = InvalidPackage(package: string) | InvalidComponent(component: string)
                          | InvalidDataset(dataset: string)

  // --------------------------------------------------------------- lookups

  /** `get_package` */
  function GetPackage(cat: Catalogue, package: string): (r: Result<PackageEntry, CatalogueError>)
    ensures r.Success? <==> package in cat.packages
    ensures r.Success? ==> r.value == cat.packages[package]
    ensures r.Failure? ==> r.error == InvalidPackage(package)
  {
    if package in cat.packages then Success(cat.packages[package]) else Failure(InvalidPackage(package))
  }

  /** `get_component` */
  function GetComponent(cat: Catalogue, component: string): (r: Result<ComponentEntry, CatalogueError>)
    ensures r.Success? <==> component in cat.components
    ensures r.Success? ==> r.value == cat.components[component]
    ensures r.Failure? ==> r.error == InvalidComponent(component)
  {
    if component in cat.components then Success(cat.components[component]) else Failure(InvalidComponent(component))
  }

  /** `get_dataset`: no dataset name means the component's default; the
      component is checked first. */
  function GetDataset(cat: Catalogue, component: string, dataset: Option<string>): (r: Result<DatasetEntry, CatalogueError>)
    ensures component !in cat.components ==> r == Failure(InvalidComponent(component))
    ensures component in cat.components ==>
      var cmp := cat.components[component];
      var name := if dataset.Some? then dataset.value else cmp.default;
      (r.Success? <==> name in cmp.datasets)
      && (r.Success? ==> r.value == cmp.datasets[name])
      && (r.Failure? ==> r.error == InvalidDataset(name))
  {
    if component in cat.components then
      var cmp := cat.components[component];
      var name := if dataset.None? then cmp.default else dataset.value;
      if name in cmp.datasets then Success(cmp.datasets[name]) else Failure(InvalidDataset(name))
    else Failure(InvalidComponent(component))
  }

  // ---------------------------------------------------------- dependencies

  /** The dependencies of a known package in iteration order; None
      counts as none. */
  function DepList(cat: Catalogue, p: string): seq<string>
    requires p in cat.packages
  {
    if cat.packages[p].dependencies.Some? then cat.packages[p].dependencies.value else []
  }

  function Deps(cat: Catalogue, p: string): set<string>
    requires p in cat.packages
  {
    set x | x in DepList(cat, p)
  }

  /** A chain of dependencies through known packages. */
  ghost predicate Path(cat: Catalogue, xs: seq<string>)
  {
    |xs| >= 1 && forall i :: 0 <= i < |xs| - 1 ==> xs[i] in cat.packages && xs[i + 1] in Deps(cat, xs[i])
  }

  ghost predicate Reaches(cat: Catalogue, a: string, b: string)
  {
    exists xs :: Path(cat, xs) && xs[0] == a && xs[|xs| - 1] == b
  }

  lemma ReachesSelf(cat: Catalogue, a: string)
    ensures Reaches(cat, a, a)
  {
    assert Path(cat, [a]);
  }

  lemma ReachesStep(cat: Catalogue, a: string, b: string, c: string)
    requires Reaches(cat, a, b) && b in cat.packages && c in Deps(cat, b)
    ensures Reaches(cat, a, c)
  {
    var xs :| Path(cat, xs) && xs[0] == a && xs[|xs| - 1] == b;
    var ys := xs + [c];
    assert forall i | 0 <= i < |xs| :: ys[i] == xs[i];
    assert Path(cat, ys);
  }

  /** A set of known packages that holds the dependencies of each of its
      members holds everything its members reach. */
  lemma {:induction false} ClosedHoldsReach(cat: Catalogue, vs: set<string>, xs: seq<string>)
    requires forall p | p in vs :: p in cat.packages && Deps(cat, p) <= vs
    requires Path(cat, xs) && xs[0] in vs
    ensures xs[|xs| - 1] in vs
    decreases |xs|
  {
    if |xs| > 1 {
      var init := xs[..|xs| - 1];
      assert Path(cat, init);
      ClosedHoldsReach(cat, vs, init);
    }
  }

  ghost predicate StackReached(cat: Catalogue, package: string, stack: seq<string>)
  {
    forall i :: 0 <= i < |stack| ==> Reaches(cat, package, stack[i])
  }

  ghost predicate VisitedReached(cat: Catalogue, package: string, visited: set<string>)
  {
    forall x | x in visited :: x in cat.packages && Reaches(cat, package, x)
  }

  ghost predicate Collected(cat: Catalogue, visited: set<string>, deps: set<string>)
    requires forall x | x in visited :: x in cat.packages
  {
    forall x :: x in deps <==> x in visited && cat.packages[x].packageType != Meta
  }

  ghost predicate Closed(cat: Catalogue, stack: seq<string>, visited: set<string>, deps: set<string>)
    requires forall x | x in visited :: x in cat.packages
  {
    forall p, q | p in visited && q in Deps(cat, p) :: q in deps || q in stack || q in visited
  }

  /** The worklist state: `stack` and `visited` hold reachable names only,
      `deps` the non-meta visited ones, and every dependency of a visited
      package is collected, pending or visited. */
  ghost predicate Worklist(cat: Catalogue, package: string, stack: seq<string>, visited: set<string>, deps: set<string>)
  {
    && StackReached(cat, package, stack)
    && VisitedReached(cat, package, visited)
    && Collected(cat, visited, deps)
    && (package in visited || package in stack)
    && Closed(cat, stack, visited, deps)
  }

  /** The dependencies pushed for one package: those not collected yet,
      in iteration order. */
  function Unseen(deps: seq<string>, seen: set<string>): seq<string>
  {
    if deps == [] then []
    else
      var d := deps[|deps| - 1];
      Unseen(deps[..|deps| - 1], seen) + if d !in seen then [d] else []
  }

  lemma {:induction false} UnseenMembers(deps: seq<string>, seen: set<string>)
    ensures forall x :: x in Unseen(deps, seen) <==> x in deps && x !in seen
    decreases |deps|
  {
    if deps != [] {
      var init := deps[..|deps| - 1];
      UnseenMembers(init, seen);
      assert forall x :: x in deps <==> x in init || x == deps[|deps| - 1];
    }
  }

  /** The pushing loop. */
  method PushUnseen(stack: seq<string>, deps: seq<string>, seen: set<string>) returns (r: seq<string>)
    ensures r == stack + Unseen(deps, seen)
  {
    r := stack;
    for j := 0 to |deps|
      invariant r == stack + Unseen(deps[..j], seen)
    {
      assert deps[..j + 1][..j] == deps[..j];
      if deps[j] !in seen {
        r := r + [deps[j]];
      }
    }
    assert deps[..|deps|] == deps;
  }

  /** What a popped name leaves on the stack. */
  lemma PopMembers(stack: seq<string>)
    requires stack != []
    ensures forall x | x in stack :: x == stack[|stack| - 1] || x in stack[..|stack| - 1]
  {
    var rest := stack[..|stack| - 1];
    forall x | x in stack ensures x == stack[|stack| - 1] || x in rest {
      var i :| 0 <= i < |stack| && stack[i] == x;
      if i < |rest| {
        assert rest[i] == x;
      }
    }
  }

  lemma StackStep(cat: Catalogue, package: string, stack: seq<string>, pushed: seq<string>)
    requires StackReached(cat, package, stack) && stack != [] && stack[|stack| - 1] in cat.packages
    requires forall x | x in pushed :: x in Deps(cat, stack[|stack| - 1])
    ensures StackReached(cat, package, stack[..|stack| - 1] + pushed)
  {
    var name := stack[|stack| - 1];
    var rest := stack[..|stack| - 1];
    var stack' := rest + pushed;
    assert Reaches(cat, package, name);
    forall i | 0 <= i < |stack'| ensures Reaches(cat, package, stack'[i]) {
      if i < |rest| {
        assert stack'[i] == stack[i];
      } else {
        assert stack'[i] in pushed;
        ReachesStep(cat, package, name, stack'[i]);
      }
    }
  }

  lemma ClosedStep(cat: Catalogue, stack: seq<string>, visited: set<string>, deps: set<string>, deps': set<string>,
                   pushed: seq<string>)
    requires forall x | x in visited :: x in cat.packages
    requires Closed(cat, stack, visited, deps) && stack != [] && stack[|stack| - 1] in cat.packages
    requires deps <= deps'
    requires forall q | q in Deps(cat, stack[|stack| - 1]) :: q in deps' || q in pushed
    ensures Closed(cat, stack[..|stack| - 1] + pushed, visited + {stack[|stack| - 1]}, deps')
  {
    var name := stack[|stack| - 1];
    PopMembers(stack);
  }

  /** Popping a known package, collecting it when it is not meta and
      pushing its uncollected dependencies keeps the worklist state. */
  lemma WorklistStep(cat: Catalogue, package: string, stack: seq<string>, visited: set<string>, deps: set<string>)
    requires Worklist(cat, package, stack, visited, deps)
    requires stack != [] && stack[|stack| - 1] in cat.packages
    ensures var name := stack[|stack| - 1];
      var deps' := if cat.packages[name].packageType != Meta then deps + {name} else deps;
      Worklist(cat, package, stack[..|stack| - 1] + Unseen(DepList(cat, name), deps'), visited + {name}, deps')
  {
    var name := stack[|stack| - 1];
    var deps' := if cat.packages[name].packageType != Meta then deps + {name} else deps;
    var pushed := Unseen(DepList(cat, name), deps');
    UnseenMembers(DepList(cat, name), deps');
    StackStep(cat, package, stack, pushed);
    ClosedStep(cat, stack, visited, deps, deps', pushed);
    PopMembers(stack);
    assert Reaches(cat, package, name);
  }

  /** With nothing left to pop, the visited packages are closed under
      dependencies, so they are everything the package reaches. */
  lemma WorklistDone(cat: Catalogue, package: string, visited: set<string>, deps: set<string>)
    requires Worklist(cat, package, [], visited, deps)
    ensures forall x :: Reaches(cat, package, x) ==> x in cat.packages && (x in deps <==> cat.packages[x].packageType != Meta)
    ensures forall x | x in deps :: Reaches(cat, package, x)
  {
    assert forall p | p in visited :: Deps(cat, p) <= visited;
    forall x | Reaches(cat, package, x)
      ensures x in visited
    {
      var xs :| Path(cat, xs) && xs[0] == package && xs[|xs| - 1] == x;
      ClosedHoldsReach(cat, visited, xs);
    }
  }

  /** The loop's state between two pops: the stack and the collected set. */
  datatype Search = Search(stack: seq<string>, deps: set<string>)

  /** One pass of the loop: pop the last name, fail on an unknown one,
      collect it when it is not meta and push its uncollected
      dependencies. */
  function Pop(cat: Catalogue, st: Search): Result<Search, CatalogueError>
    requires st.stack != []
  {
    var name := st.stack[|st.stack| - 1];
    if name !in cat.packages then Failure(InvalidPackage(name))
    else
      var deps' := if cat.packages[name].packageType != Meta then st.deps + {name} else st.deps;
      Success(Search(st.stack[..|st.stack| - 1] + Unseen(DepList(cat, name), deps'), deps'))
  }

  /** The loop run for at most `fuel` pops: None when the stack is still
      not empty after them. */
  function Explore(cat: Catalogue, st: Search, fuel: nat): Option<Result<set<string>, CatalogueError>>
    decreases fuel
  {
    if st.stack == [] then Some(Success(st.deps))
    else if fuel == 0 then None
    else
      match Pop(cat, st)
      case Failure(e) => Some(Failure(e))
      case Success(st') => Explore(cat, st', fuel - 1)
  }

  /** The loop started on the package alone. */
  function Closure(cat: Catalogue, package: string, fuel: nat): Option<Result<set<string>, CatalogueError>>
  {
    Explore(cat, Search([package], {}), fuel)
  }

  /** One pass of the loop on a known name: pop it, collect it when it is
      not meta and push its dependencies not collected yet. */
  method PopStep(cat: Catalogue, stack: seq<string>, depSet: set<string>)
    returns (stack': seq<string>, depSet': set<string>)
    requires stack != [] && stack[|stack| - 1] in cat.packages
    ensures Pop(cat, Search(stack, depSet)) == Success(Search(stack', depSet'))
  {
    var name := stack[|stack| - 1];
    stack' := stack[..|stack| - 1];
    var pkg := cat.packages[name];
    depSet' := depSet;
    if pkg.packageType != Meta {
      depSet' := depSet' + {name};
    }
    if pkg.dependencies.None? || |pkg.dependencies.value| == 0 {
      assert DepList(cat, name) == [];
      assert stack' + [] == stack';
      return;
    }
    stack' := PushUnseen(stack', pkg.dependencies.value, depSet');
  }

  /** `_get_dependencies`: a depth-first worklist from the package. Meta
      packages are never recorded as visited, so a cycle of meta packages
      keeps the source's loop running; the model stops after `fuel` pops
      and then gives None (`GetDependenciesEnds` bounds the pops when no
      such cycle is reachable). Otherwise an unknown name on the way is an
      error, and the result is exactly the non-meta packages the package
      reaches, itself included. */
  method GetDependencies(cat: Catalogue, package: string, fuel: nat)
    returns (r: Option<Result<set<string>, CatalogueError>>)
    ensures r == Closure(cat, package, fuel)
    ensures r.Some? && r.value.Success? ==> forall x ::
      Reaches(cat, package, x) ==> x in cat.packages && (x in r.value.value <==> cat.packages[x].packageType != Meta)
    ensures r.Some? && r.value.Success? ==> forall x | x in r.value.value :: Reaches(cat, package, x)
    ensures r.Some? && r.value.Failure? ==>
      r.value.error.InvalidPackage? && r.value.error.package !in cat.packages && Reaches(cat, package, r.value.error.package)
  {
    var depSet: set<string> := {};
    var stack := [package];
    ghost var visited: set<string> := {};
    ReachesSelf(cat, package);
    var steps := 0;
    while stack != []
      invariant steps <= fuel
      invariant Worklist(cat, package, stack, visited, depSet)
      invariant Explore(cat, Search(stack, depSet), fuel - steps) == Explore(cat, Search([package], {}), fuel)
      decreases fuel - steps
    {
      if steps == fuel {
        return None;
      }
      var name := stack[|stack| - 1];
      ExploreStep(cat, Search(stack, depSet), fuel - steps);
      if name !in cat.packages {
        assert Reaches(cat, package, name);
        return Some(Failure(InvalidPackage(name)));
      }
      WorklistStep(cat, package, stack, visited, depSet);
      visited := visited + {name};
      stack, depSet := PopStep(cat, stack, depSet);
      steps := steps + 1;
    }
    WorklistDone(cat, package, visited, depSet);
    return Some(Success(depSet));
  }

  // ----------------------------------------------------------- termination

  predicate IsMeta(cat: Catalogue, x: string)
  {
    x in cat.packages && cat.packages[x].packageType == Meta
  }

  /** A dependency cycle made only of meta packages. */
  ghost predicate MetaCycle(cat: Catalogue, xs: seq<string>)
  {
    Path(cat, xs) && |xs| > 1 && xs[0] == xs[|xs| - 1] && forall i :: 0 <= i < |xs| ==> IsMeta(cat, xs[i])
  }

  /** No meta-only cycle is reachable from the package. */
  ghost predicate MetaCycleFree(cat: Catalogue, package: string)
  {
    forall xs | MetaCycle(cat, xs) :: !Reaches(cat, package, xs[0])
  }

  /** Step `i` of `ws` goes to a meta dependency. */
  ghost predicate MetaStep(cat: Catalogue, ws: seq<string>, i: nat)
    requires i < |ws| - 1
  {
    ws[i] in cat.packages && ws[i + 1] in Deps(cat, ws[i]) && IsMeta(cat, ws[i + 1])
  }

  ghost predicate MetaWalk(cat: Catalogue, ws: seq<string>)
  {
    forall i: nat | i < |ws| - 1 :: MetaStep(cat, ws, i)
  }

  /** Every walk from `x` along meta dependencies takes fewer than `k`
      steps. */
  ghost predicate Shallow(cat: Catalogue, x: string, k: nat)
    decreases k
  {
    k > 0 && (x in cat.packages ==> forall d | d in Deps(cat, x) && IsMeta(cat, d) :: Shallow(cat, d, k - 1))
  }

  /** A name that is not `Shallow` starts a walk of `k` steps. */
  lemma {:induction false} DeepWalk(cat: Catalogue, x: string, k: nat) returns (ws: seq<string>)
    requires !Shallow(cat, x, k)
    ensures |ws| == k + 1 && ws[0] == x && MetaWalk(cat, ws)
    decreases k
  {
    if k == 0 {
      ws := [x];
    } else {
      var d :| d in Deps(cat, x) && IsMeta(cat, d) && !Shallow(cat, d, k - 1);
      var tail := DeepWalk(cat, d, k - 1);
      ws := [x] + tail;
      forall i: nat | i < |ws| - 1
        ensures MetaStep(cat, ws, i)
      {
        if i > 0 {
          assert MetaStep(cat, tail, i - 1);
        }
      }
    }
  }

  /** Pigeonhole: more names than the set holds means a repeat. */
  lemma {:induction false} Repeats(s: seq<string>, names: set<string>) returns (i: nat, j: nat)
    requires forall k | 0 <= k < |s| :: s[k] in names
    requires |s| > |names|
    ensures i < j < |s| && s[i] == s[j]
    decreases |s|
  {
    var last := s[|s| - 1];
    var init := s[..|s| - 1];
    if last in init {
      i :| 0 <= i < |init| && init[i] == last;
      j := |s| - 1;
    } else {
      assert forall k | 0 <= k < |init| :: init[k] == s[k] && init[k] in names - {last};
      i, j := Repeats(init, names - {last});
    }
  }

  lemma {:induction false} ReachesAlong(cat: Catalogue, package: string, ws: seq<string>, n: nat)
    requires |ws| > 0 && Reaches(cat, package, ws[0]) && MetaWalk(cat, ws) && n < |ws|
    ensures Reaches(cat, package, ws[n])
    decreases n
  {
    if n > 0 {
      ReachesAlong(cat, package, ws, n - 1);
      assert MetaStep(cat, ws, n - 1);
      ReachesStep(cat, package, ws[n - 1], ws[n]);
    }
  }

  /** A walk that returns to a name holds a meta-only cycle. */
  lemma CycleOf(cat: Catalogue, ws: seq<string>, i: nat, j: nat) returns (cycle: seq<string>)
    requires MetaWalk(cat, ws) && 0 < i < j < |ws| && ws[i] == ws[j]
    ensures MetaCycle(cat, cycle) && cycle[0] == ws[i]
  {
    cycle := ws[i..j + 1];
    forall k | 0 <= k < |cycle|
      ensures cycle[k] == ws[i + k] && IsMeta(cat, cycle[k])
    {
      assert MetaStep(cat, ws, i + k - 1);
    }
    forall k | 0 <= k < |cycle| - 1
      ensures cycle[k] in cat.packages && cycle[k + 1] in Deps(cat, cycle[k])
    {
      assert MetaStep(cat, ws, i + k);
    }
  }

  /** With no meta-only cycle reachable, every meta walk from a reached
      name is shorter than the number of packages plus one. */
  lemma ShallowReached(cat: Catalogue, package: string, x: string)
    requires MetaCycleFree(cat, package) && Reaches(cat, package, x)
    ensures Shallow(cat, x, |cat.packages.Keys| + 1)
  {
    var n := |cat.packages.Keys|;
    if !Shallow(cat, x, n + 1) {
      var ws := DeepWalk(cat, x, n + 1);
      var tail := ws[1..];
      forall k | 0 <= k < |tail|
        ensures tail[k] in cat.packages.Keys
      {
        assert MetaStep(cat, ws, k);
      }
      var i, j := Repeats(tail, cat.packages.Keys);
      var cycle := CycleOf(cat, ws, i + 1, j + 1);
      ReachesAlong(cat, package, ws, i + 1);
      assert false;
    }
  }

  /** The pops a name on the stack still costs, counting walks along meta
      dependencies up to `k` steps deep. */
  ghost function Cost(cat: Catalogue, x: string, k: nat): nat
    decreases k, 0
  {
    if k == 0 || x !in cat.packages then 1 else 1 + MetaCost(cat, DepList(cat, x), k - 1)
  }

  ghost function MetaCost(cat: Catalogue, es: seq<string>, k: nat): nat
    decreases k, 1, |es|
  {
    if es == [] then 0
    else MetaCost(cat, es[..|es| - 1], k) + if IsMeta(cat, es[|es| - 1]) then Cost(cat, es[|es| - 1], k) else 0
  }

  /** Once every walk is shorter than `k`, a deeper count changes nothing. */
  lemma {:induction false} CostSettles(cat: Catalogue, x: string, k: nat)
    requires Shallow(cat, x, k)
    ensures Cost(cat, x, k) == Cost(cat, x, k + 1)
    decreases k, 0
  {
    if x in cat.packages {
      MetaCostSettles(cat, DepList(cat, x), k - 1);
    }
  }

  lemma {:induction false} MetaCostSettles(cat: Catalogue, es: seq<string>, k: nat)
    requires forall i | 0 <= i < |es| && IsMeta(cat, es[i]) :: Shallow(cat, es[i], k)
    ensures MetaCost(cat, es, k) == MetaCost(cat, es, k + 1)
    decreases k, 1, |es|
  {
    if es != [] {
      MetaCostSettles(cat, es[..|es| - 1], k);
      if IsMeta(cat, es[|es| - 1]) {
        CostSettles(cat, es[|es| - 1], k);
      }
    }
  }

  /** A stack entry is charged its cost when popping it cannot collect a
      new package: it is meta or collected already. */
  ghost function Charge(cat: Catalogue, x: string, deps: set<string>, k: nat): nat
  {
    if IsMeta(cat, x) || x in deps then Cost(cat, x, k) else 0
  }

  ghost function Weight(cat: Catalogue, stack: seq<string>, deps: set<string>, k: nat): nat
  {
    if stack == [] then 0
    else Weight(cat, stack[..|stack| - 1], deps, k) + Charge(cat, stack[|stack| - 1], deps, k)
  }

  lemma {:induction false} WeightAppend(cat: Catalogue, a: seq<string>, b: seq<string>, deps: set<string>, k: nat)
    ensures Weight(cat, a + b, deps, k) == Weight(cat, a, deps, k) + Weight(cat, b, deps, k)
    decreases |b|
  {
    if b != [] {
      assert (a + b)[..|a + b| - 1] == a + b[..|b| - 1];
      WeightAppend(cat, a, b[..|b| - 1], deps, k);
    } else {
      assert a + b == a;
    }
  }

  /** The pushed dependencies weigh what their meta members cost. */
  lemma {:induction false} WeightPushed(cat: Catalogue, es: seq<string>, deps: set<string>, k: nat)
    requires forall x | x in deps :: !IsMeta(cat, x)
    ensures Weight(cat, Unseen(es, deps), deps, k) == MetaCost(cat, es, k)
    decreases |es|
  {
    if es != [] {
      var d := es[|es| - 1];
      WeightPushed(cat, es[..|es| - 1], deps, k);
      var tail := if d !in deps then [d] else [];
      WeightAppend(cat, Unseen(es[..|es| - 1], deps), tail, deps, k);
      if d !in deps {
        assert tail[..0] == [];
      }
    }
  }

  /** The reachable non-meta packages not collected yet. */
  ghost function Pending(cat: Catalogue, package: string, deps: set<string>): set<string>
  {
    set x | x in cat.packages && cat.packages[x].packageType != Meta && Reaches(cat, package, x) && x !in deps
  }

  /** What the termination argument keeps: the stack holds reached
      names and the collected set only non-meta packages. */
  ghost predicate Bounded(cat: Catalogue, package: string, st: Search)
  {
    StackReached(cat, package, st.stack) && forall x | x in st.deps :: x in cat.packages && !IsMeta(cat, x)
  }

  /** A pop of a known name keeps `Bounded`. */
  lemma PopBounded(cat: Catalogue, package: string, st: Search)
    requires Bounded(cat, package, st)
    requires st.stack != [] && st.stack[|st.stack| - 1] in cat.packages
    ensures Pop(cat, st).Success? && Bounded(cat, package, Pop(cat, st).value)
  {
    var name := st.stack[|st.stack| - 1];
    var st' := Pop(cat, st).value;
    var pushed := Unseen(DepList(cat, name), st'.deps);
    UnseenMembers(DepList(cat, name), st'.deps);
    StackStep(cat, package, st.stack, pushed);
  }

  /** Popping a pending package collects it. */
  lemma PopCollects(cat: Catalogue, package: string, st: Search)
    requires Bounded(cat, package, st)
    requires st.stack != [] && st.stack[|st.stack| - 1] in cat.packages
    requires cat.packages[st.stack[|st.stack| - 1]].packageType != Meta && st.stack[|st.stack| - 1] !in st.deps
    ensures |Pending(cat, package, Pop(cat, st).value.deps)| < |Pending(cat, package, st.deps)|
  {
    var name := st.stack[|st.stack| - 1];
    assert Reaches(cat, package, name);
    assert Pending(cat, package, st.deps) == Pending(cat, package, Pop(cat, st).value.deps) + {name};
  }

  /** A reached known name costs one more than its meta dependencies. */
  lemma CostReached(cat: Catalogue, package: string, name: string)
    requires MetaCycleFree(cat, package) && Reaches(cat, package, name) && name in cat.packages
    ensures var k := |cat.packages.Keys| + 2;
      Cost(cat, name, k) == 1 + MetaCost(cat, DepList(cat, name), k)
  {
    var k := |cat.packages.Keys| + 2;
    var es := DepList(cat, name);
    forall i | 0 <= i < |es| && IsMeta(cat, es[i])
      ensures Shallow(cat, es[i], k - 1)
    {
      ReachesStep(cat, package, name, es[i]);
      ShallowReached(cat, package, es[i]);
    }
    MetaCostSettles(cat, es, k - 1);
  }

  /** Popping a meta or collected name lowers the weight by one. */
  lemma PopWeighs(cat: Catalogue, package: string, st: Search)
    requires MetaCycleFree(cat, package) && Bounded(cat, package, st)
    requires st.stack != [] && st.stack[|st.stack| - 1] in cat.packages
    requires IsMeta(cat, st.stack[|st.stack| - 1]) || st.stack[|st.stack| - 1] in st.deps
    ensures Pop(cat, st).value.deps == st.deps
    ensures var k := |cat.packages.Keys| + 2;
      Weight(cat, Pop(cat, st).value.stack, st.deps, k) < Weight(cat, st.stack, st.deps, k)
  {
    var name := st.stack[|st.stack| - 1];
    var k := |cat.packages.Keys| + 2;
    var rest := st.stack[..|st.stack| - 1];
    var es := DepList(cat, name);
    if !IsMeta(cat, name) {
      assert st.deps + {name} == st.deps;
    }
    assert Pop(cat, st).value == Search(rest + Unseen(es, st.deps), st.deps);
    assert Reaches(cat, package, name);
    WeightAppend(cat, rest, Unseen(es, st.deps), st.deps, k);
    WeightPushed(cat, es, st.deps, k);
    CostReached(cat, package, name);
  }

  /** With no meta-only cycle reachable, some fuel lets the loop end. */
  lemma {:induction false} ExploreEnds(cat: Catalogue, package: string, st: Search)
    requires MetaCycleFree(cat, package) && Bounded(cat, package, st)
    ensures exists fuel: nat :: Explore(cat, st, fuel).Some?
    decreases |Pending(cat, package, st.deps)|, Weight(cat, st.stack, st.deps, |cat.packages.Keys| + 2)
  {
    if st.stack == [] {
      assert Explore(cat, st, 0).Some?;
    } else if st.stack[|st.stack| - 1] !in cat.packages {
      ExploreStep(cat, st, 1);
    } else {
      PopBounded(cat, package, st);
      var name := st.stack[|st.stack| - 1];
      if IsMeta(cat, name) || name in st.deps {
        PopWeighs(cat, package, st);
      } else {
        PopCollects(cat, package, st);
      }
      var st' := Pop(cat, st).value;
      ExploreEnds(cat, package, st');
      var fuel: nat :| Explore(cat, st', fuel).Some?;
      ExploreStep(cat, st, fuel + 1);
    }
  }

  /** One pop of `Explore`. */
  lemma ExploreStep(cat: Catalogue, st: Search, fuel: nat)
    requires st.stack != [] && fuel > 0
    ensures Pop(cat, st).Failure? ==> Explore(cat, st, fuel) == Some(Failure(Pop(cat, st).error))
    ensures Pop(cat, st).Success? ==> Explore(cat, st, fuel) == Explore(cat, Pop(cat, st).value, fuel - 1)
  {
  }

  /** Once the loop has ended, more fuel gives the same result. */
  lemma {:induction false} ExploreSettles(cat: Catalogue, st: Search, fuel: nat, more: nat)
    requires Explore(cat, st, fuel).Some? && fuel <= more
    ensures Explore(cat, st, more) == Explore(cat, st, fuel)
    decreases fuel
  {
    if st.stack != [] {
      assert fuel > 0;
      ExploreStep(cat, st, fuel);
      ExploreStep(cat, st, more);
      if Pop(cat, st).Success? {
        ExploreSettles(cat, Pop(cat, st).value, fuel - 1, more - 1);
      }
    }
  }

  /** When no meta-only cycle is reachable the source's loop ends: from
      some bound on, every fuel gives a result, and the same one. */
  lemma GetDependenciesEnds(cat: Catalogue, package: string) returns (bound: nat)
    requires MetaCycleFree(cat, package)
    ensures Closure(cat, package, bound).Some?
    ensures forall fuel: nat | fuel >= bound :: Closure(cat, package, fuel) == Closure(cat, package, bound)
  {
    ReachesSelf(cat, package);
    assert Bounded(cat, package, Search([package], {}));
    ExploreEnds(cat, package, Search([package], {}));
    bound :| Explore(cat, Search([package], {}), bound).Some?;
    forall fuel: nat | fuel >= bound
      ensures Closure(cat, package, fuel) == Closure(cat, package, bound)
    {
      ExploreSettles(cat, Search([package], {}), bound, fuel);
    }
  }

  /** The other side: a meta package that depends on itself keeps the
      loop running whatever the fuel. */
  lemma {:induction false} MetaSelfLoop(cat: Catalogue, n: string, fuel: nat)
    requires IsMeta(cat, n) && cat.packages[n].dependencies == Some([n])
    ensures Closure(cat, n, fuel).None?
    decreases fuel
  {
    if fuel > 0 {
      PopSelfLoop(cat, n);
      ExploreStep(cat, Search([n], {}), fuel);
      MetaSelfLoop(cat, n, fuel - 1);
    }
  }

  lemma PopSelfLoop(cat: Catalogue, n: string)
    requires IsMeta(cat, n) && cat.packages[n].dependencies == Some([n])
    ensures Pop(cat, Search([n], {})) == Success(Search([n], {}))
  {
    assert Unseen([n], {}) == [n] by {
      assert [n][..0] == [];
    }
    assert [n][..0] + [n] == [n];
  }

  // -------------------------------------------------------------- listing

  /** Every package is stored under its own name. */
  predicate WellNamed(cat: Catalogue)
  {
    forall n | n in cat.packages :: cat.packages[n].name == n
  }

  function PublicNames(cat: Catalogue): set<string>
  {
    set n | n in cat.packages && !cat.packages[n].private
  }

  /** `get_public_packages`: the public entries, sorted by name. */
  function PublicPackages(cat: Catalogue): (r: seq<PackageEntry>)
    ensures forall i :: 0 <= i < |r| ==> !r[i].private && r[i] in cat.packages.Values
    ensures forall n | n in cat.packages && !cat.packages[n].private :: cat.packages[n] in r
  {
    var names := Elems(PublicNames(cat));
    assert forall i | 0 <= i < |names| :: names[i] in PublicNames(cat);
    var r := seq(|names|, i requires 0 <= i < |names| => cat.packages[names[i]]);
    assert forall n | n in cat.packages && !cat.packages[n].private :: n in names;
    assert forall i | 0 <= i < |r| :: r[i] == cat.packages[names[i]] && names[i] in PublicNames(cat);
    forall n | n in cat.packages && !cat.packages[n].private
      ensures cat.packages[n] in r
    {
      var i :| 0 <= i < |names| && names[i] == n;
      assert r[i] == cat.packages[n];
    }
    r
  }

  /** With every package under its own name, the listing is strictly
      increasing by name. */
  lemma PublicPackagesSorted(cat: Catalogue)
    requires WellNamed(cat)
    ensures forall i, j :: 0 <= i < j < |PublicPackages(cat)| ==>
      PublicPackages(cat)[i].name != PublicPackages(cat)[j].name
      && LexLeq(PublicPackages(cat)[i].name, PublicPackages(cat)[j].name)
  {
    var names := Elems(PublicNames(cat));
    ElemsSorted(PublicNames(cat));
    forall i | 0 <= i < |names|
      ensures PublicPackages(cat)[i].name == names[i]
    {
      assert names[i] in PublicNames(cat);
    }
  }

  // ------------------------------------------------------------- download

  /** Every name in the list is a known package. */
  predicate Known(cat: Catalogue, deps: seq<string>)
  {
    forall i :: 0 <= i < |deps| ==> deps[i] in cat.packages
  }

  lemma KnownPrefix(cat: Catalogue, deps: seq<string>, n: nat)
    requires Known(cat, deps) && n <= |deps|
    ensures Known(cat, deps[..n])
  {
    assert forall i :: 0 <= i < n ==> deps[..n][i] == deps[i];
  }

  /** Not installed, or installed at another version than the catalogue's. */
  predicate Outdated(cat: Catalogue, versions: map<string, string>, x: string)
    requires x in cat.packages
  {
    x !in versions || cat.packages[x].version != Some(versions[x])
  }

  /** The packages `download_package` would still install once the
      installed versions are known: with `force` all of them, otherwise
      the outdated ones. */
  function NewDeps(cat: Catalogue, deps: seq<string>, force: bool, versions: map<string, string>): (r: seq<string>)
    requires Known(cat, deps)
    ensures force ==> r == deps
  {
    if force || deps == [] then deps
    else
      KnownPrefix(cat, deps, |deps| - 1);
      var d := deps[|deps| - 1];
      NewDeps(cat, deps[..|deps| - 1], force, versions) + if Outdated(cat, versions, d) then [d] else []
  }

  /** The filter keeps exactly the outdated packages (all of them under
      `force`), in their order. */
  lemma {:induction false} NewDepsMembers(cat: Catalogue, deps: seq<string>, force: bool, versions: map<string, string>)
    requires Known(cat, deps)
    ensures Known(cat, NewDeps(cat, deps, force, versions))
    ensures forall x :: x in NewDeps(cat, deps, force, versions) <==>
      (x in deps && (force || Outdated(cat, versions, x)))
    decreases |deps|
  {
    if !force && deps != [] {
      var init := deps[..|deps| - 1];
      KnownPrefix(cat, deps, |deps| - 1);
      NewDepsMembers(cat, init, force, versions);
      assert forall x :: x in deps <==> x in init || x == deps[|deps| - 1];
    }
  }

  /** The packages fetched, in order: meta packages have nothing to fetch. */
  function Fetched(cat: Catalogue, deps: seq<string>): (r: seq<string>)
    requires Known(cat, deps)
  {
    if deps == [] then []
    else
      KnownPrefix(cat, deps, |deps| - 1);
      var d := deps[|deps| - 1];
      Fetched(cat, deps[..|deps| - 1]) + if cat.packages[d].packageType != Meta then [d] else []
  }

  /** Exactly the non-meta packages are fetched. */
  lemma {:induction false} FetchedMembers(cat: Catalogue, deps: seq<string>)
    requires Known(cat, deps)
    ensures forall x :: x in Fetched(cat, deps) <==> x in deps && cat.packages[x].packageType != Meta
    decreases |deps|
  {
    if deps != [] {
      var init := deps[..|deps| - 1];
      KnownPrefix(cat, deps, |deps| - 1);
      FetchedMembers(cat, init);
      assert forall x :: x in deps <==> x in init || x == deps[|deps| - 1];
    }
  }

  /** Without `recursive`, the package alone is considered: it is kept
      when outdated or forced, and fetched when it is not meta. */
  lemma SingleDownload(cat: Catalogue, package: string, force: bool, versions: map<string, string>)
    requires package in cat.packages
    ensures Known(cat, [package])
    ensures NewDeps(cat, [package], force, versions)
      == if force || Outdated(cat, versions, package) then [package] else []
    ensures Fetched(cat, [package]) == if cat.packages[package].packageType != Meta then [package] else []
  {
    var one := [package];
    assert one[..0] == [];
  }

  /** The version filter loop. */
  method FilterNew(cat: Catalogue, deps: seq<string>, force: bool, versions: map<string, string>)
    returns (r: seq<string>)
    requires Known(cat, deps)
    ensures r == NewDeps(cat, deps, force, versions)
  {
    if force {
      return deps;
    }
    r := [];
    for i := 0 to |deps|
      invariant Known(cat, deps[..i])
      invariant r == NewDeps(cat, deps[..i], force, versions)
    {
      KnownPrefix(cat, deps, i + 1);
      assert deps[..i + 1][..i] == deps[..i];
      var dep := deps[i];
      if dep !in versions || cat.packages[dep].version != Some(versions[dep]) {
        r := r + [dep];
      }
    }
    assert deps[..|deps|] == deps;
  }

  /** The install loop, which skips meta packages. */
  method FetchList(cat: Catalogue, deps: seq<string>) returns (r: seq<string>)
    requires Known(cat, deps)
    ensures r == Fetched(cat, deps)
  {
    r := [];
    for i := 0 to |deps|
      invariant Known(cat, deps[..i])
      invariant r == Fetched(cat, deps[..i])
    {
      KnownPrefix(cat, deps, i + 1);
      assert deps[..i + 1][..i] == deps[..i];
      if cat.packages[deps[i]].packageType != Meta {
        r := r + [deps[i]];
      }
    }
    assert deps[..|deps|] == deps;
  }

  /** The version filter followed by the install loop: exactly the
      listed non-meta packages that are forced or outdated, in order. */
  method Install(cat: Catalogue, deps: seq<string>, force: bool, versions: map<string, string>)
    returns (fetched: seq<string>)
    requires Known(cat, deps)
    ensures Known(cat, NewDeps(cat, deps, force, versions))
    ensures fetched == Fetched(cat, NewDeps(cat, deps, force, versions))
    ensures forall x :: x in fetched <==>
      x in deps && cat.packages[x].packageType != Meta && (force || Outdated(cat, versions, x))
  {
    var pending := FilterNew(cat, deps, force, versions);
    NewDepsMembers(cat, deps, force, versions);
    fetched := FetchList(cat, pending);
    FetchedMembers(cat, pending);
  }

  /** `download_package` without the I/O: the packages whose archives it
      fetches, in order, given the installed versions. An unknown package
      is an error; with `recursive` its whole dependency closure is
      considered (None exactly when the closure search runs out of fuel,
      which `GetDependenciesEnds` rules out for enough fuel when no
      meta-only cycle is reachable). */
  method DownloadPackage(cat: Catalogue, package: string, recursive: bool, force: bool,
                         versions: map<string, string>, fuel: nat)
    returns (r: Option<Result<seq<string>, CatalogueError>>)
    ensures package !in cat.packages ==> r == Some(Failure(InvalidPackage(package)))
    ensures r.None? <==> recursive && package in cat.packages && Closure(cat, package, fuel).None?
    ensures !recursive && package in cat.packages ==>
      var p := cat.packages[package];
      r == Some(Success(if p.packageType != Meta && (force || Outdated(cat, versions, package)) then [package] else []))
    ensures r.Some? && r.value.Success? ==> forall x | x in r.value.value ::
      x in cat.packages && cat.packages[x].packageType != Meta && Reaches(cat, package, x)
      && (force || Outdated(cat, versions, x))
    ensures recursive && r.Some? && r.value.Success? ==> forall x | Reaches(cat, package, x) ::
      x in cat.packages
      && (cat.packages[x].packageType != Meta && (force || Outdated(cat, versions, x)) ==> x in r.value.value)
  {
    if package !in cat.packages {
      return Some(Failure(InvalidPackage(package)));
    }
    ReachesSelf(cat, package);
    if !recursive {
      SingleDownload(cat, package, force, versions);
      var fetched := Install(cat, [package], force, versions);
      return Some(Success(fetched));
    }
    var closure := GetDependencies(cat, package, fuel);
    if closure.None? {
      return None;
    }
    if closure.value.Failure? {
      return Some(Failure(closure.value.error));
    }
    var fetched := Install(cat, Elems(closure.value.value), force, versions);
    return Some(Success(fetched));
  }
}

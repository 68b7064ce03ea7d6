/** The transitive dependencies of build targets, computed once per target (perfetto/tools/gn_utils.py). */
module GnTargets {

  type Name = string

  /** The type of a target after it was processed; `Linker` stands for executables, shared and static
      libraries, `thirdParty` for names below //gn, whose dependencies are not followed. */
  datatype Kind = Linker | SourceSet | Proto | Action | Group | GeneratedFile
  datatype Desc = Desc(kind: Kind, thirdParty: bool, deps: seq<Name>)

  /** A build description; every dependency is described. */
  type Build = map<Name, Desc>

  ghost predicate Closed(b: Build) {
    forall n, i :: n in b && 0 <= i < |b[n].deps| ==> b[n].deps[i] in b
  }

  /** Dependencies rank below their dependents. */
  ghost predicate Acyclic(b: Build, rank: Name -> nat) {
    forall n, d :: n in b && d in b[n].deps ==> rank(d) < rank(n)
  }

  function FollowedDeps(b: Build, n: Name): seq<Name>
    requires n in b
  {
    if b[n].thirdParty then [] else b[n].deps
  }

  /** Dependencies on generated files, and of a proto library on an action, do not count. */
  predicate Allowed(b: Build, n: Name, d: Name)
    requires n in b && d in b
  {
    b[d].kind != GeneratedFile && !(b[d].kind == Action && b[n].kind == Proto)
  }

  /** Groups that are not third-party only pass on what they depend on. */
  predicate Counted(b: Build, d: Name)
    requires d in b
  {
    b[d].kind != Linker && b[d].kind != GeneratedFile && (b[d].kind == Group ==> b[d].thirdParty)
  }

  /** Which dependency of which target passes on what. */
  lemma PassedOn(b: Build, n: Name, d: Name)
    requires n in b && d in b
    ensures b[d].kind == GeneratedFile ==> !Allowed(b, n, d)
    ensures b[d].kind == Action ==> Counted(b, d) && (Allowed(b, n, d) <==> b[n].kind != Proto)
    ensures b[d].kind in {SourceSet, Proto} ==> Counted(b, d) && Allowed(b, n, d)
    ensures b[d].kind == Linker ==> !Counted(b, d) && Allowed(b, n, d)
    ensures b[d].kind == Group ==> (Counted(b, d) <==> b[d].thirdParty) && Allowed(b, n, d)
    ensures |FollowedDeps(b, n)| == if b[n].thirdParty then 0 else |b[n].deps|
  {
  }

  // ----- Reachability

  ghost predicate Edge(b: Build, n: Name, d: Name) {
    n in b && d in b && d in FollowedDeps(b, n) && Allowed(b, n, d)
  }

  /** `x` is `k` allowed edges below `n`, with no linker unit in between. */
  ghost predicate Below(b: Build, n: Name, x: Name, k: nat)
    decreases k
  {
    if k == 0 then false
    else if k == 1 then Edge(b, n, x)
    else exists d :: Edge(b, n, d) && b[d].kind != Linker && Below(b, d, x, k - 1)
  }

  ghost predicate Reaches(b: Build, n: Name, x: Name) {
    x in b && Counted(b, x) && exists k: nat :: Below(b, n, x, k)
  }

  lemma ReachesEdge(b: Build, n: Name, d: Name)
    requires Edge(b, n, d) && Counted(b, d)
    ensures Reaches(b, n, d)
  {
    assert Below(b, n, d, 1);
  }

  lemma ReachesThrough(b: Build, n: Name, d: Name, x: Name)
    requires Edge(b, n, d) && b[d].kind != Linker && Reaches(b, d, x)
    ensures Reaches(b, n, x)
  {
    var k: nat :| Below(b, d, x, k);
    assert Below(b, n, x, k + 1);
  }

  /** What a dependency contributes: itself, and what it reaches. */
  ghost predicate Contributes(b: Build, n: Name, d: Name, x: Name) {
    Edge(b, n, d) && ((x == d && Counted(b, d)) || (b[d].kind != Linker && Reaches(b, d, x)))
  }

  lemma ReachesIff(b: Build, n: Name, x: Name)
    ensures Reaches(b, n, x) <==> exists d :: Contributes(b, n, d, x)
  {
    if Reaches(b, n, x) {
      var k: nat :| Below(b, n, x, k);
      if k == 1 {
        assert Contributes(b, n, x, x);
      } else {
        var d :| Edge(b, n, d) && b[d].kind != Linker && Below(b, d, x, k - 1);
        assert Contributes(b, n, d, x);
      }
    }
    if d :| Contributes(b, n, d, x) {
      if x == d && Counted(b, d) { ReachesEdge(b, n, d); } else { ReachesThrough(b, n, d, x); }
    }
  }

  // ----- The parser

  ghost predicate Exact(b: Build, n: Name, s: set<Name>) {
    forall x :: x in s <==> Reaches(b, n, x)
  }

  /** The contributions of the first `i` dependencies. */
  ghost predicate Partly(b: Build, n: Name, i: nat, s: set<Name>)
    requires n in b && i <= |FollowedDeps(b, n)|
  {
    forall x :: x in s <==> exists j :: 0 <= j < i && Contributes(b, n, FollowedDeps(b, n)[j], x)
  }

  lemma PartlyStep(b: Build, n: Name, i: nat, s: set<Name>, t: set<Name>)
    requires n in b && i < |FollowedDeps(b, n)| && Partly(b, n, i, s)
    requires forall x :: x in t <==> Contributes(b, n, FollowedDeps(b, n)[i], x)
    ensures Partly(b, n, i + 1, s + t)
  {
    hide Contributes;
  }

  lemma PartlyAll(b: Build, n: Name, s: set<Name>)
    requires n in b && Partly(b, n, |FollowedDeps(b, n)|, s)
    ensures Exact(b, n, s)
  {
    forall x ensures x in s <==> Reaches(b, n, x) {
      ReachesIff(b, n, x);
      if d :| Contributes(b, n, d, x) {
        var j :| 0 <= j < |FollowedDeps(b, n)| && FollowedDeps(b, n)[j] == d;
        assert Contributes(b, n, FollowedDeps(b, n)[j], x);
      }
    }
  }

  class GnParser {
    const gnDesc: Build
    var allTargets: map<Name, set<Name>>

    /** Every target that is not being processed has its exact transitive dependencies. */
    ghost predicate Memo(open: set<Name>)
      reads this
    {
      open <= allTargets.Keys <= gnDesc.Keys
      && forall n :: n in allTargets && n !in open ==> Exact(gnDesc, n, allTargets[n])
    }

    constructor (desc: Build)
      ensures gnDesc == desc && Memo({}) && allTargets == map[]
    {
      gnDesc := desc;
      allTargets := map[];
    }

    /** Whatever was asked before, the answer holds exactly the counted targets reachable along allowed edges. */
    method GetTarget(name: Name, ghost open: set<Name>, ghost rank: Name -> nat) returns (transitiveDeps: set<Name>)
      requires Closed(gnDesc) && Acyclic(gnDesc, rank) && name in gnDesc
      requires Memo(open) && forall p :: p in open ==> rank(name) < rank(p)
      modifies this
      ensures Memo(open) && Exact(gnDesc, name, transitiveDeps)
      ensures name in allTargets && allTargets[name] == transitiveDeps
      ensures forall p :: p in open ==> allTargets[p] == old(allTargets[p])
      decreases rank(name)
    {
      if name in allTargets { return allTargets[name]; }
      var desc := gnDesc[name];
      allTargets := allTargets[name := {}];
      if desc.thirdParty {
        PartlyAll(gnDesc, name, {});
        return {};
      }
      for i := 0 to |desc.deps|
        invariant Memo(open + {name})
        invariant Partly(gnDesc, name, i, allTargets[name])
        invariant forall p :: p in open ==> allTargets[p] == old(allTargets[p])
      {
        var depName := desc.deps[i];
        ghost var before := allTargets[name];
        var dep := GetTarget(depName, open + {name}, rank);
        var kind := gnDesc[depName].kind;
        var more: set<Name>;
        if kind == GeneratedFile {
          more := {};
        } else if kind == Action && desc.kind == Proto {
          more := {};
        } else if kind == Group && !gnDesc[depName].thirdParty {
          more := dep;
        } else if kind == Linker {
          more := {};
        } else {
          more := {depName} + dep;
        }
        PartlyStep(gnDesc, name, i, before, more);
        allTargets := allTargets[name := allTargets[name] + more];
      }
      PartlyAll(gnDesc, name, allTargets[name]);
      return allTargets[name];
    }
  }
}

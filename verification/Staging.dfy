/** How `main` stages the Swift package: the package is mirrored, and then the
    generated glue is mirrored into a directory the first mirror skips. */
module Staging {
  import opened Wrappers
  import opened Files
  import opened Mirroring
  import opened BuildScript

  const NOT_INPUTS: set<string> := {".build", "generated"}

  const GENERATED: Path := ["Sources", "ContainerizationBridge", "generated"]

  /** The staged package, from what was staged before. */
  function Staged(package: Node, glue: Node, before: Option<Node>): Node {
    var mirrored := Some(Mirrored(package, before, NOT_INPUTS));
    Put(mirrored, GENERATED, Mirrored(glue, Get(mirrored, GENERATED), {}))
  }

  /** Both mirrors succeed. */
  predicate CanStage(package: Node, glue: Node, before: Option<Node>) {
    var mirrored := Some(Mirrored(package, before, NOT_INPUTS));
    && package.Dir? && Compatible(package, before, NOT_INPUTS)
    && glue.Dir? && CanBeDir(mirrored, GENERATED) && Compatible(glue, Get(mirrored, GENERATED), {})
  }

  /** The package has the directories that hold the glue. */
  predicate HoldsGlue(package: Node) {
    var parent := Get(Some(package), GENERATED[..2]);
    parent.Some? && parent.value.Dir?
  }

  /** The smallest package without them, which can be staged all the same. The
      crate's own package has them. */
  lemma EmptyPackage()
    ensures CanStage(EMPTY, EMPTY, None) && !HoldsGlue(EMPTY)
  {
    assert Mirrored(EMPTY, None, NOT_INPUTS) == EMPTY;
    assert Get(Some(EMPTY), GENERATED[..2]) == None by {
      GetNone(GENERATED[..2][1..]);
    }
    assert GENERATED[1..] == [GENERATED[1], GENERATED[2]] && GENERATED[1..][1..] == [GENERATED[2]];
    assert CanBeDir(None, GENERATED[1..]);
    assert CanBeDir(Some(EMPTY), GENERATED);
    GetNone(GENERATED[1..]);
    assert Get(Some(EMPTY), GENERATED) == None;
  }

  lemma HoldsGlueProtects(package: Node)
    ensures HoldsGlue(package) <==> Protected(Some(package), NOT_INPUTS, GENERATED)
  {
    var sources := Lookup(Entries(Some(package)), GENERATED[0]);
    var bridge := Lookup(Entries(sources), GENERATED[1]);
    assert GENERATED[..2] == [GENERATED[0]] + [GENERATED[1]];
    assert GENERATED[1..] == [GENERATED[1], GENERATED[2]];
    assert Get(Some(package), GENERATED[..2]) == bridge by {
      GetConcat(Some(package), [GENERATED[0]], [GENERATED[1]]);
    }
    assert Protected(Some(package), NOT_INPUTS, GENERATED) <==>
           package.Dir? && Protected(sources, NOT_INPUTS, GENERATED[1..]);
    assert Protected(sources, NOT_INPUTS, GENERATED[1..]) <==>
           sources.Some? && sources.value.Dir? && Protected(bridge, NOT_INPUTS, [GENERATED[2]]);
  }

  lemma {:induction false} MirroredProtects(from: Node, to: Option<Node>, skip: set<string>, p: Path)
    requires Protected(Some(from), skip, p)
    ensures Protected(Some(Mirrored(from, to, skip)), skip, p)
    decreases p
  {
    if p[0] !in skip {
      MirroredProtects(from.entries[p[0]], Lookup(Entries(to), p[0]), skip, p[1..]);
    }
  }

  /** Nothing put where it is protected shows once `skip` is erased. */
  lemma {:induction false} ErasedPut(n: Node, p: Path, leaf: Node, skip: set<string>)
    requires Protected(Some(n), skip, p)
    ensures Erased(Put(Some(n), p, leaf), skip) == Erased(n, skip)
    decreases p
  {
    if p[0] !in skip {
      ErasedPut(n.entries[p[0]], p[1..], leaf, skip);
    }
  }

  /******* What is staged *******/

  /** What is under the first `.build` on a path, in the package's own kept
      directories, is what was there. SwiftPM keeps its checkouts there. */
  lemma BuildDirUntouched(package: Node, glue: Node, before: Option<Node>, p: Path, k: nat)
    requires k < |p| && p[k] == ".build" && forall j | 0 <= j < k :: p[j] != ".build" && p[j] != "generated"
    requires forall j | 0 <= j <= k :: Get(Some(package), p[..j]).Some? && Get(Some(package), p[..j]).value.Dir?
    ensures Get(Some(Staged(package, glue, before)), p) == Get(before, p)
  {
    var mirrored := Mirrored(package, before, NOT_INPUTS);
    assert SkippedAt(Some(package), NOT_INPUTS, p, k);
    ProtectedExactly(Some(package), NOT_INPUTS, p);
    ProtectedUntouched(package, before, NOT_INPUTS, p);
    hide Get, Put, Mirrored, Protected;
    PrefixParts(GENERATED, p);
    PrefixParts(p, GENERATED);
    assert GENERATED[2] == "generated";
    GetPutDisjoint(Some(mirrored), GENERATED, p, Mirrored(glue, Get(Some(mirrored), GENERATED), {}));
  }

  lemma PrefixParts(p: Path, q: Path)
    ensures p <= q ==> q[..|p|] == p && forall k | 0 <= k < |p| :: q[k] == p[k]
  {
  }

  /** Every file of the package that isn't under a `.build` or a `generated` is
      staged as it is. */
  lemma PackageStaged(package: Node, glue: Node, before: Option<Node>, p: Path)
    requires CanStage(package, glue, before)
    requires Get(Some(package), p).Some? && Get(Some(package), p).value.File?
    requires forall k | 0 <= k < |p| :: p[k] != ".build" && p[k] != "generated"
    ensures Get(Some(Staged(package, glue, before)), p) == Get(Some(package), p)
  {
    var mirrored := Mirrored(package, before, NOT_INPUTS);
    MirroredHasFiles(package, before, NOT_INPUTS, p);
    CanBeDirExactly(Some(mirrored), GENERATED);
    hide Get, Put, Mirrored, Compatible, CanBeDir;
    PrefixParts(GENERATED, p);
    PrefixParts(p, GENERATED);
    assert GENERATED[2] == "generated";
    GetPutDisjoint(Some(mirrored), GENERATED, p, Mirrored(glue, Get(Some(mirrored), GENERATED), {}));
  }

  /** The glue is where the package's bridge target looks for it, whole and with
      nothing else. */
  lemma GlueStaged(package: Node, glue: Node, before: Option<Node>)
    ensures Get(Some(Staged(package, glue, before)), ["Sources", "ContainerizationBridge", "generated"]) == Some(glue)
  {
    var mirrored := Some(Mirrored(package, before, NOT_INPUTS));
    GetPut(mirrored, GENERATED, Mirrored(glue, Get(mirrored, GENERATED), {}));
    MirroredWhole(glue, Get(mirrored, GENERATED));
  }

  /** Staging the same package and glue again leaves everything staged as it
      is, and neither mirror has anything to do. */
  lemma StagingAgain(package: Node, glue: Node, before: Option<Node>)
    requires CanStage(package, glue, before) && HoldsGlue(package)
    ensures var staged := Some(Staged(package, glue, before));
            && CanStage(package, glue, staged)
            && Mirrored(package, staged, NOT_INPUTS) == staged.value
            && Get(staged, GENERATED).Some?
            && Mirrored(glue, Get(staged, GENERATED), {}) == Get(staged, GENERATED).value
            && Staged(package, glue, staged) == staged.value
  {
    var mirrored := Mirrored(package, before, NOT_INPUTS);
    var there := Get(Some(mirrored), GENERATED);
    var generated := Mirrored(glue, there, {});
    var staged := Staged(package, glue, before);
    HoldsGlueProtects(package);
    MirroredProtects(package, before, NOT_INPUTS, GENERATED);
    ErasedPut(mirrored, GENERATED, generated, NOT_INPUTS);
    MirroredErased(package, before, NOT_INPUTS);
    MirroredFixed(package, staged, NOT_INPUTS);
    MirroredCompatible(package, Some(staged), NOT_INPUTS);

    GetPut(Some(mirrored), GENERATED, generated);
    MirroredErased(glue, there, {});
    MirroredFixed(glue, generated, {});
    MirroredCompatible(glue, there, {});
    CanBeDirBelow(Some(staged), GENERATED, []);
    assert GENERATED + [] == GENERATED;
    PutSame(Some(staged), GENERATED);
  }

  /** Without those directories, the first mirror of a second run has the glue's
      directories to remove. */
  lemma {:induction false} GlueIsStale(from: Node, to: Option<Node>, skip: set<string>, p: Path, leaf: Node)
    returns (e: Event)
    requires from.Dir? && p != [] && p[|p| - 1] in skip
    requires !Protected(Some(from), skip, p) && CanBeDir(Some(Mirrored(from, to, skip)), p)
    ensures e.Removed? && Due(Some(from), Some(Put(Some(Mirrored(from, to, skip)), p, leaf)), skip, e)
    decreases p
  {
    var name := p[0];
    var after := Put(Some(Mirrored(from, to, skip)), p, leaf);
    e := Removed([name]);
    if name !in from.entries {
      DueElsewhere(from, Some(after), skip, e);
    } else {
      var child := from.entries[name];
      assert Lookup(Mirrored(from, to, skip).entries, name) == Some(Mirrored(child, Lookup(Entries(to), name), skip));
      var below := GlueIsStale(child, Lookup(Entries(to), name), skip, p[1..], leaf);
      e := Removed([name] + below.path);
      assert Rebased(e, e.path[1..]) == below;
      DueBelow(from, Some(after), skip, e);
    }
  }

  /** Once staged, a second run leaves the staged tree untouched exactly when the
      package has the directories that hold the glue. */
  lemma UntouchedExactly(package: Node, glue: Node, before: Option<Node>)
    requires CanStage(package, glue, before)
    ensures HoldsGlue(package) <==>
            forall e :: !Due(Some(package), Some(Staged(package, glue, before)), NOT_INPUTS, e)
  {
    var staged := Staged(package, glue, before);
    if HoldsGlue(package) {
      StagingAgain(package, glue, before);
      forall e ensures !Due(Some(package), Some(staged), NOT_INPUTS, e) {
        NothingDue(package, Some(staged), NOT_INPUTS, e);
      }
    } else {
      HoldsGlueProtects(package);
      var mirrored := Some(Mirrored(package, before, NOT_INPUTS));
      var e := GlueIsStale(package, before, NOT_INPUTS, GENERATED, Mirrored(glue, Get(mirrored, GENERATED), {}));
    }
  }

  lemma DisjointLonger(p: Path, q: Path, more: Path)
    requires Disjoint(p, q)
    ensures Disjoint(p, q + more)
  {
    if |p| <= |q| {
      var i :| 0 <= i < |p| && p[i] != q[i];
      assert (q + more)[i] != p[i];
    } else {
      var i :| 0 <= i < |q| && p[i] != q[i];
      assert (q + more)[i] != p[i];
    }
  }

  /** How often staging has `e` done below `staged`. */
  function StageDue(package: Node, glue: Node, before: Option<Node>, staged: Path, e: Event): nat {
    var mirrored := Some(Mirrored(package, before, NOT_INPUTS));
    One(CopyDue(package, before, NOT_INPUTS, {}, staged, e))
    + One(CopyDue(glue, Get(mirrored, GENERATED), {}, {}, staged + GENERATED, e))
  }

  /** What staging leaves of the volume, for a package at `package`. */
  ghost predicate StagedOnto(root0: Node, log0: multiset<Event>, package: Path, staged: Path, glue: Node,
                             root: Node, log: multiset<Event>) {
    var p, before := Get(Some(root0), package), Get(Some(root0), staged);
    && p.Some?
    && Get(Some(root), package) == p
    && Get(Some(root), staged) == Some(Staged(p.value, glue, before))
    && CanBeDir(Some(root), staged)
    && forall e: Event | staged <= e.path :: log[e] == log0[e] + StageDue(p.value, glue, before, staged, e)
  }

  ghost predicate CanStageOnto(root0: Node, package: Path, staged: Path, glue: Node) {
    var p := Get(Some(root0), package);
    p.Some? && CanBeDir(Some(root0), staged) && CanStage(p.value, glue, Get(Some(root0), staged))
  }

  /** The two mirrors, with the glue generated anew between them. */
  method Stage(v: Volume, package: Path, staged: Path, glueDir: Path, glue: Node) returns (ok: bool)
    requires Disjoint(package, staged) && Disjoint(glueDir, staged) && Disjoint(package, glueDir)
    modifies v
    ensures ok <==> CanStageOnto(old(v.root), package, staged, glue)
    ensures ok ==> StagedOnto(old(v.root), old(v.log), package, staged, glue, v.root, v.log)
  {
    hide Get, Mirrored, Compatible, CopyDue, Keeps;
    ghost var root0, log0, before := v.root, v.log, v.At(staged);
    ok := Mirror(v, package, staged, NOT_INPUTS);
    if !ok {
      return;
    }
    ghost var p := v.At(package).value;
    ghost var mirrored := Mirrored(p, before, NOT_INPUTS);
    ghost var root1 := v.root;
    PutFacts(root0, staged, package, mirrored, "");
    v.Replace(glueDir, glue);
    ghost var root2, log2 := v.root, v.log;
    PutFacts(root1, glueDir, staged, glue, "");
    PutFacts(root1, glueDir, package, glue, "");
    DisjointLonger(glueDir, staged, GENERATED);
    GetConcat(Some(root2), staged, GENERATED);
    CanBeDirBelow(Some(root2), staged, GENERATED);
    DisjointLonger(package, staged, GENERATED);
    ok := Mirror(v, glueDir, staged + GENERATED, {});
    if ok {
      ghost var leaf := Mirrored(glue, Get(Some(mirrored), GENERATED), {});
      GetPutBelow(Some(root2), staged, GENERATED, leaf);
      GetPutDisjoint(Some(root2), staged + GENERATED, package, leaf);
      CanBeDirBelow(Some(v.root), staged, []);
      assert staged + [] == staged;
      assert forall e: Event | staged <= e.path :: v.log[e] == log0[e] + StageDue(p, glue, before, staged, e);
    }
  }

  lemma NothingStaged(package: Node, glue: Node, before: Option<Node>, at: Path, e: Event)
    requires CanStage(package, glue, before) && HoldsGlue(package)
    ensures StageDue(package, glue, Some(Staged(package, glue, before)), at, e) == 0
  {
    var staged := Some(Staged(package, glue, before));
    StagingAgain(package, glue, before);
    if at <= e.path {
      NothingDue(package, staged, NOT_INPUTS, Rebased(e, e.path[|at|..]));
    }
    if at + GENERATED <= e.path {
      NothingDue(glue, Get(staged, GENERATED), {}, Rebased(e, e.path[|at + GENERATED|..]));
    }
  }

  /** Staging twice is staging once: the second run succeeds, and writes, makes
      and removes nothing below `staged`. */
  method StageTwice(v: Volume, package: Path, staged: Path, glueDir: Path, glue: Node) returns (ok: bool)
    requires Disjoint(package, staged) && Disjoint(glueDir, staged) && Disjoint(package, glueDir)
    requires v.At(package).Some? ==> HoldsGlue(v.At(package).value)
    modifies v
    ensures ok <==> CanStageOnto(old(v.root), package, staged, glue)
    ensures ok ==> StagedOnto(old(v.root), old(v.log), package, staged, glue, v.root, v.log)
  {
    hide Get, Put, Mirrored, Compatible, CopyDue, CanBeDir, CanStage, Staged, StageDue, HoldsGlue;
    ghost var before := v.At(staged);
    ok := Stage(v, package, staged, glueDir, glue);
    if ok {
      ghost var p := v.At(package).value;
      StagingAgain(p, glue, before);
      ok := Stage(v, package, staged, glueDir, glue);
      forall e: Event {
        NothingStaged(p, glue, before, staged, e);
      }
    }
  }
}

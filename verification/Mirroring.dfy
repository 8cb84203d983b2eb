/** What `mirror` is to leave behind, as a function of the two trees. */
module Mirroring {
  import opened Wrappers
  import opened Files

  /** `to` once `from` is mirrored onto it: `from`'s entries, and those of `to`
      that are named in `skip`. */
  function Mirrored(from: Node, to: Option<Node>, skip: set<string>): Node
    decreases from
  {
    match from
    case File(_) => from
    case Dir(source) =>
      var current := Entries(to);
      Dir(map name | name in source.Keys + current.Keys && (if name in skip then name in current else name in source) ::
            if name in skip then current[name] else Mirrored(source[name], Lookup(current, name), skip))
  }

  /** No entry that is copied meets one of the other kind. */
  predicate Compatible(from: Node, to: Option<Node>, skip: set<string>)
    decreases from
  {
    match from
    case File(_) => to.None? || to.value.File?
    case Dir(source) =>
      && (to.None? || to.value.Dir?)
      && forall name | name in source && name !in skip :: Compatible(source[name], Lookup(Entries(to), name), skip)
  }

  /** A tree without what `skip` names, at every depth. */
  function Erased(n: Node, skip: set<string>): Node {
    match n
    case File(_) => n
    case Dir(entries) => Dir(map name | name in entries && name !in skip :: Erased(entries[name], skip))
  }

  /** No part of `p` is named in `skip`. */
  predicate Kept(p: Path, skip: set<string>) {
    forall i | 0 <= i < |p| :: p[i] !in skip
  }

  /** What `mirror` is to do to `to`, told by looking one path up in each tree. */
  predicate Due(from: Option<Node>, to: Option<Node>, skip: set<string>, e: Event) {
    Kept(e.path, skip) &&
    match e
    case Wrote(p) => Get(from, p).Some? && Get(from, p).value.File? && Get(to, p) != Get(from, p)
    case MadeDir(p) => Get(from, p).Some? && Get(from, p).value.Dir? && Get(to, p).None?
    case Removed(p) =>
      && p != [] && Get(from, p).None? && Get(to, p).Some?
      && Get(from, p[..|p| - 1]).Some? && Get(from, p[..|p| - 1]).value.Dir?
  }

  /** An entry of `to` that `skip` names, in directories that are all kept
      directories of `from`, or anything below one. */
  predicate Protected(from: Option<Node>, skip: set<string>, p: Path)
    decreases p
  {
    && p != [] && from.Some? && from.value.Dir?
    && (p[0] in skip || Protected(Lookup(from.value.entries, p[0]), skip, p[1..]))
  }

  /******* What it converges to *******/

  /** Apart from what `skip` names, `to` becomes `from`. */
  lemma {:induction false} MirroredErased(from: Node, to: Option<Node>, skip: set<string>)
    ensures Erased(Mirrored(from, to, skip), skip) == Erased(from, skip)
    decreases from
  {
    if from.Dir? {
      forall name | name in from.entries && name !in skip {
        MirroredErased(from.entries[name], Lookup(Entries(to), name), skip);
      }
    }
  }

  /** `mirror` leaves a tree as it is exactly when it and `from` differ only in
      what `skip` names. */
  lemma {:induction false} MirroredFixed(from: Node, to: Node, skip: set<string>)
    ensures Mirrored(from, Some(to), skip) == to <==> Erased(to, skip) == Erased(from, skip)
    decreases from
  {
    if from.Dir? && to.Dir? {
      forall name | name in from.entries && name in to.entries && name !in skip {
        MirroredFixed(from.entries[name], to.entries[name], skip);
      }
      var after, erasedFrom, erasedTo := Mirrored(from, Some(to), skip), Erased(from, skip), Erased(to, skip);
      if after == to {
        assert erasedTo.entries.Keys == erasedFrom.entries.Keys;
        assert erasedTo.entries == erasedFrom.entries;
      }
      if erasedTo == erasedFrom {
        forall name | name !in skip
          ensures name in to.entries <==> name in from.entries
          ensures name in to.entries ==> Erased(to.entries[name], skip) == Erased(from.entries[name], skip)
        {
          assert name in erasedTo.entries <==> name in to.entries;
          assert name in erasedFrom.entries <==> name in from.entries;
          assert name in to.entries ==> erasedTo.entries[name] == erasedFrom.entries[name];
        }
        assert after.entries.Keys == to.entries.Keys;
        assert after.entries == to.entries;
      }
    }
  }

  lemma {:induction false} MirroredCompatible(from: Node, to: Option<Node>, skip: set<string>)
    ensures Compatible(from, Some(Mirrored(from, to, skip)), skip)
    decreases from
  {
    if from.Dir? {
      forall name | name in from.entries && name !in skip {
        MirroredCompatible(from.entries[name], Lookup(Entries(to), name), skip);
      }
    }
  }

  /** One is a file and the other a directory. */
  predicate Clash(a: Option<Node>, b: Option<Node>) {
    a.Some? && b.Some? && a.value.File? != b.value.File?
  }

  /** `mirror` meets no conflict exactly when no kept path is a file on one side
      and a directory on the other. */
  lemma CompatibleExactly(from: Node, to: Option<Node>, skip: set<string>)
    ensures Compatible(from, to, skip) <==> forall p | Kept(p, skip) :: !Clash(Get(Some(from), p), Get(to, p))
  {
    if Compatible(from, to, skip) {
      forall p | Kept(p, skip) ensures !Clash(Get(Some(from), p), Get(to, p)) {
        CompatibleNoClash(from, to, skip, p);
      }
    } else {
      var p := ClashAt(from, to, skip);
    }
  }

  lemma {:induction false} CompatibleNoClash(from: Node, to: Option<Node>, skip: set<string>, p: Path)
    requires Compatible(from, to, skip) && Kept(p, skip)
    ensures !Clash(Get(Some(from), p), Get(to, p))
    decreases p
  {
    if p != [] {
      if from.Dir? && p[0] in from.entries {
        assert Kept(p[1..], skip);
        CompatibleNoClash(from.entries[p[0]], Lookup(Entries(to), p[0]), skip, p[1..]);
      } else {
        GetNone(p[1..]);
      }
    }
  }

  lemma {:induction false} ClashAt(from: Node, to: Option<Node>, skip: set<string>) returns (p: Path)
    requires !Compatible(from, to, skip)
    ensures Kept(p, skip) && Clash(Get(Some(from), p), Get(to, p))
    decreases from
  {
    if Clash(Some(from), to) {
      p := [];
    } else {
      var name :| name in from.entries && name !in skip
                  && !Compatible(from.entries[name], Lookup(Entries(to), name), skip);
      p := ClashAt(from.entries[name], Lookup(Entries(to), name), skip);
      p := [name] + p;
    }
  }

  /** A path is protected exactly where some part of it is named in `skip`, and
      what it has before that are kept directories of `from`. */
  lemma {:induction false} ProtectedExactly(from: Option<Node>, skip: set<string>, p: Path)
    ensures Protected(from, skip, p) <==> exists k | 0 <= k < |p| :: SkippedAt(from, skip, p, k)
    decreases p
  {
    if p != [] {
      var below := Lookup(Entries(from), p[0]);
      ProtectedExactly(below, skip, p[1..]);
      SkippedAtFirst(from, skip, p);
      forall k | 1 <= k < |p| ensures SkippedAt(from, skip, p, k) <==>
                                      p[0] !in skip && from.Some? && from.value.Dir? && SkippedAt(below, skip, p[1..], k - 1)
      {
        SkippedAtBelow(from, skip, p, k);
      }
      if k :| 0 <= k < |p[1..]| && SkippedAt(below, skip, p[1..], k) {
        assert SkippedAt(from, skip, p, k + 1) <==> p[0] !in skip && from.Some? && from.value.Dir?;
      }
    }
  }

  predicate SkippedAt(from: Option<Node>, skip: set<string>, p: Path, k: nat) {
    && k < |p| && p[k] in skip && Kept(p[..k], skip)
    && forall j | 0 <= j <= k :: Get(from, p[..j]).Some? && Get(from, p[..j]).value.Dir?
  }

  lemma SkippedAtFirst(from: Option<Node>, skip: set<string>, p: Path)
    requires p != []
    ensures SkippedAt(from, skip, p, 0) <==> p[0] in skip && from.Some? && from.value.Dir?
  {
    assert p[..0] == [];
  }

  lemma SkippedAtBelow(from: Option<Node>, skip: set<string>, p: Path, k: nat)
    requires 1 <= k < |p|
    ensures SkippedAt(from, skip, p, k) <==>
            && p[0] !in skip && from.Some? && from.value.Dir?
            && SkippedAt(Lookup(Entries(from), p[0]), skip, p[1..], k - 1)
  {
    assert p[..0] == [] && Get(from, p[..0]) == from && p[1..][k - 1] == p[k];
    assert Kept(p[..k], skip) <==> p[0] !in skip && Kept(p[1..][..k - 1], skip) by {
      assert p[..k] == [p[0]] + p[1..][..k - 1];
    }
    forall j | 1 <= j <= k ensures Get(from, p[..j]) == Get(Lookup(Entries(from), p[0]), p[1..][..j - 1]) {
      assert p[..j][1..] == p[1..][..j - 1];
    }
    forall j | 0 <= j <= k - 1 ensures Get(Lookup(Entries(from), p[0]), p[1..][..j]) == Get(from, p[..j + 1]) {
      assert p[..j + 1][1..] == p[1..][..j];
    }
  }

  /** Every kept file of `from` is there. */
  lemma {:induction false} MirroredHasFiles(from: Node, to: Option<Node>, skip: set<string>, p: Path)
    requires Kept(p, skip) && Get(Some(from), p).Some? && Get(Some(from), p).value.File?
    ensures Get(Some(Mirrored(from, to, skip)), p) == Get(Some(from), p)
    decreases p
  {
    if p != [] {
      GetNone(p[1..]);
      assert forall i | 0 <= i < |p[1..]| :: p[1..][i] == p[i + 1];
      MirroredHasFiles(from.entries[p[0]], Lookup(Entries(to), p[0]), skip, p[1..]);
    }
  }

  /** Where nothing is skipped, it is `from`. */
  lemma {:induction false} MirroredWhole(from: Node, to: Option<Node>)
    ensures Mirrored(from, to, {}) == from
    decreases from
  {
    if from.Dir? {
      forall name | name in from.entries {
        MirroredWhole(from.entries[name], Lookup(Entries(to), name));
      }
      assert Mirrored(from, to, {}).entries == from.entries;
    }
  }

  lemma {:induction false} ProtectedUntouched(from: Node, to: Option<Node>, skip: set<string>, p: Path)
    requires Protected(Some(from), skip, p)
    ensures Get(Some(Mirrored(from, to, skip)), p) == Get(to, p)
    decreases p
  {
    if p[0] !in skip {
      ProtectedUntouched(from.entries[p[0]], Lookup(Entries(to), p[0]), skip, p[1..]);
    }
  }

  /******* What it does to get there *******/

  function Rebased(e: Event, p: Path): Event {
    match e
    case Wrote(_) => Wrote(p)
    case Removed(_) => Removed(p)
    case MadeDir(_) => MadeDir(p)
  }

  /** What is due below a kept entry of `from` is what is due to that entry. */
  lemma DueBelow(from: Node, to: Option<Node>, skip: set<string>, e: Event)
    requires from.Dir? && e.path != [] && e.path[0] in from.entries && e.path[0] !in skip
    ensures Due(Some(from), to, skip, e) <==>
            Due(Some(from.entries[e.path[0]]), Lookup(Entries(to), e.path[0]), skip, Rebased(e, e.path[1..]))
  {
    var p := e.path;
    assert Kept(p, skip) <==> Kept(p[1..], skip) by {
      assert forall i | 1 <= i < |p| :: p[i] == p[1..][i - 1];
    }
    if |p| > 1 {
      var parent := p[..|p| - 1];
      assert parent[1..] == p[1..][..|p| - 2];
      assert Get(Some(from), parent) == Get(Some(from.entries[p[0]]), parent[1..]);
    }
    assert Get(Some(from), p) == Get(Some(from.entries[p[0]]), p[1..]);
  }

  /** Where `from` has no such entry, only the entry itself can be due, and
      only to be removed. */
  lemma DueElsewhere(from: Node, to: Option<Node>, skip: set<string>, e: Event)
    requires from.Dir? && e.path != [] && !(e.path[0] in from.entries && e.path[0] !in skip)
    ensures Due(Some(from), to, skip, e) <==>
            && e.Removed? && |e.path| == 1 && e.path[0] !in skip
            && e.path[0] !in from.entries && e.path[0] in Entries(to)
  {
    var p := e.path;
    if p[0] !in skip {
      GetNone(p[1..]);
      var parent := p[..|p| - 1];
      if |p| > 1 {
        GetNone(parent[1..]);
        assert parent[0] == p[0] && Get(Some(from), parent) == None;
      } else {
        assert p[1..] == [] && Get(Some(from), p) == None;
        assert Get(to, p) == Lookup(Entries(to), p[0]);
        assert parent == [] && Kept(p, skip);
        assert Get(Some(from), parent) == Some(from);
      }
    }
  }

  /** Once mirrored, nothing is due. */
  lemma {:induction false} NothingDue(from: Node, to: Option<Node>, skip: set<string>, e: Event)
    ensures !Due(Some(from), Some(Mirrored(from, to, skip)), skip, e)
    decreases |e.path|
  {
    var after := Mirrored(from, to, skip);
    if from.Dir? && e.path != [] {
      var name := e.path[0];
      if name in from.entries && name !in skip {
        DueBelow(from, Some(after), skip, e);
        NothingDue(from.entries[name], Lookup(Entries(to), name), skip, Rebased(e, e.path[1..]));
      } else {
        DueElsewhere(from, Some(after), skip, e);
      }
    } else if from.File? && e.path != [] {
      GetNone(e.path[1..]);
      if |e.path| > 1 {
        GetNone(e.path[1..|e.path| - 1]);
        assert e.path[..|e.path| - 1][1..] == e.path[1..|e.path| - 1];
      }
    }
  }
}

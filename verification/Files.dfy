/** A filesystem as a mutable tree of files and directories, and the calls of
    Rust's `std::fs` that `build.rs` makes on it. */
module Files {
  import opened Wrappers

  type Bytes = seq<bv8>
  type Path = seq<string>

  datatype Node = File(bytes: Bytes) | Dir(entries: map<string, Node>)

  const EMPTY := Dir(map[])

  /** A directory's entries; anything else has none. */
  function Entries(n: Option<Node>): map<string, Node> {
    if n.Some? && n.value.Dir? then n.value.entries else map[]
  }

  function Lookup(entries: map<string, Node>, name: string): Option<Node> {
    if name in entries then Some(entries[name]) else None
  }

  function Get(n: Option<Node>, p: Path): Option<Node>
    decreases p
  {
    if p == [] then n else Get(Lookup(Entries(n), p[0]), p[1..])
  }

  /** `n` with `leaf` at `p`, and every directory on the way made. */
  function Put(n: Option<Node>, p: Path, leaf: Node): Node
    decreases p
  {
    if p == [] then leaf
    else Dir(Entries(n)[p[0] := Put(Lookup(Entries(n), p[0]), p[1..], leaf)])
  }

  /** No file is at `p` or on the way to it, so `p` is or can become a directory. */
  predicate CanBeDir(n: Option<Node>, p: Path)
    decreases p
  {
    (n.Some? ==> n.value.Dir?) && (p == [] || CanBeDir(Lookup(Entries(n), p[0]), p[1..]))
  }

  predicate Disjoint(p: Path, q: Path) {
    !(p <= q) && !(q <= p)
  }

  lemma DisjointBelow(p: Path, q: Path, name: string)
    requires !(p <= q)
    ensures !(p + [name] <= q + [name])
  {
    if |p| <= |q| {
      var i :| 0 <= i < |p| && p[i] != q[i];
      assert (p + [name])[i] != (q + [name])[i];
    }
  }

  lemma {:induction false} GetNone(p: Path)
    ensures Get(None, p) == None
    decreases p
  {
    if p != [] {
      GetNone(p[1..]);
    }
  }

  lemma {:induction false} GetConcat(n: Option<Node>, p: Path, q: Path)
    ensures Get(n, p + q) == Get(Get(n, p), q)
    decreases p
  {
    if p == [] {
      assert p + q == q;
    } else {
      assert (p + q)[1..] == p[1..] + q;
      GetConcat(Lookup(Entries(n), p[0]), p[1..], q);
    }
  }

  lemma {:induction false} GetPut(n: Option<Node>, p: Path, leaf: Node)
    ensures Get(Some(Put(n, p, leaf)), p) == Some(leaf)
    decreases p
  {
    if p != [] {
      GetPut(Lookup(Entries(n), p[0]), p[1..], leaf);
    }
  }

  lemma {:induction false} PutPut(n: Option<Node>, p: Path, q: Path, outer: Node, leaf: Node)
    ensures Put(Some(Put(n, p, outer)), p + q, leaf) == Put(n, p, Put(Some(outer), q, leaf))
    decreases p
  {
    if p == [] {
      assert p + q == q;
    } else {
      assert (p + q)[1..] == p[1..] + q;
      PutPut(Lookup(Entries(n), p[0]), p[1..], q, outer, leaf);
    }
  }

  lemma {:induction false} PutSame(n: Option<Node>, p: Path)
    requires Get(n, p).Some?
    ensures n.Some? && Put(n, p, Get(n, p).value) == n.value
    decreases p
  {
    if p != [] {
      GetNone(p[1..]);
      PutSame(Lookup(Entries(n), p[0]), p[1..]);
    }
  }

  lemma {:induction false} GetPutDisjoint(n: Option<Node>, p: Path, q: Path, leaf: Node)
    requires Disjoint(p, q)
    ensures Get(Some(Put(n, p, leaf)), q) == Get(n, q)
    decreases p
  {
    if p[0] == q[0] {
      GetPutDisjoint(Lookup(Entries(n), p[0]), p[1..], q[1..], leaf);
    }
  }

  lemma {:induction false} CanBeDirAt(n: Option<Node>, p: Path)
    requires CanBeDir(n, p)
    ensures Get(n, p).Some? ==> Get(n, p).value.Dir?
    decreases p
  {
    if p != [] {
      CanBeDirAt(Lookup(Entries(n), p[0]), p[1..]);
    }
  }

  /** It is so exactly where no file is at `p` or on the way to it. */
  lemma {:induction false} CanBeDirExactly(n: Option<Node>, p: Path)
    ensures CanBeDir(n, p) <==> forall k | 0 <= k <= |p| :: Get(n, p[..k]).Some? ==> Get(n, p[..k]).value.Dir?
    decreases p
  {
    assert p[..0] == [] && Get(n, p[..0]) == n;
    if p != [] {
      CanBeDirExactly(Lookup(Entries(n), p[0]), p[1..]);
      forall k | 1 <= k <= |p| ensures Get(n, p[..k]) == Get(Lookup(Entries(n), p[0]), p[1..][..k - 1]) {
        assert p[..k][1..] == p[1..][..k - 1];
      }
      forall k | 0 <= k <= |p[1..]| ensures Get(Lookup(Entries(n), p[0]), p[1..][..k]) == Get(n, p[..k + 1]) {
        assert p[..k + 1][1..] == p[1..][..k];
      }
    }
  }

  lemma {:induction false} CanBeDirBelow(n: Option<Node>, p: Path, q: Path)
    requires Get(n, p).Some?
    ensures CanBeDir(n, p + q) <==> CanBeDir(Get(n, p), q)
    decreases p
  {
    if p == [] {
      assert p + q == q;
    } else {
      assert (p + q)[1..] == p[1..] + q;
      GetNone(p[1..]);
      CanBeDirBelow(Lookup(Entries(n), p[0]), p[1..], q);
    }
  }

  lemma {:induction false} GetPutBelow(n: Option<Node>, p: Path, q: Path, leaf: Node)
    ensures Get(Some(Put(n, p + q, leaf)), p) == Some(Put(Get(n, p), q, leaf))
    decreases p
  {
    if p == [] {
      assert p + q == q;
    } else {
      assert (p + q)[1..] == p[1..] + q;
      GetPutBelow(Lookup(Entries(n), p[0]), p[1..], q, leaf);
    }
  }

  /** Something that changed what the tree holds. */
  datatype Event = Wrote(path: Path) | Removed(path: Path) | MadeDir(path: Path)

  class Volume {
    var root: Node
    var log: multiset<Event>

    constructor (root: Node)
      ensures this.root == root && log == multiset{}
    {
      this.root := root;
      log := multiset{};
    }

    function At(p: Path): Option<Node>
      reads this
    {
      Get(Some(root), p)
    }

    /** `create_dir_all`. */
    method CreateDirAll(p: Path) returns (ok: bool)
      modifies this
      ensures ok <==> CanBeDir(Some(old(root)), p)
      ensures !ok || old(At(p)).Some? ==> root == old(root) && log == old(log)
      ensures ok && old(At(p)).None? ==>
                root == Put(Some(old(root)), p, EMPTY) && log == old(log) + multiset{MadeDir(p)}
    {
      ok := CanBeDir(Some(root), p);
      if ok && At(p).None? {
        root := Put(Some(root), p, EMPTY);
        log := log + multiset{MadeDir(p)};
      }
    }

    /** `read_dir`, whose entries come in no particular order. */
    method ReadDir(p: Path) returns (names: Option<set<string>>)
      ensures names.Some? <==> At(p).Some? && At(p).value.Dir?
      ensures names.Some? ==> names.value == At(p).value.entries.Keys
    {
      var n := At(p);
      names := if n.Some? && n.value.Dir? then Some(n.value.entries.Keys) else None;
    }

    /** `remove_dir_all` of a directory, or `remove_file` of a file. */
    method Remove(parent: Path, name: string)
      requires At(parent).Some? && At(parent).value.Dir? && name in At(parent).value.entries
      modifies this
      ensures root == Put(Some(old(root)), parent, Dir(old(At(parent)).value.entries - {name}))
      ensures log == old(log) + multiset{Removed(parent + [name])}
    {
      root := Put(Some(root), parent, Dir(At(parent).value.entries - {name}));
      log := log + multiset{Removed(parent + [name])};
    }

    /** `read`, which fails on what isn't a file. */
    method Read(p: Path) returns (bytes: Option<Bytes>)
      ensures bytes.Some? <==> At(p).Some? && At(p).value.File?
      ensures bytes.Some? ==> At(p) == Some(File(bytes.value))
    {
      var n := At(p);
      bytes := if n.Some? && n.value.File? then Some(n.value.bytes) else None;
    }

    /** `write` to a name in a directory, which fails on a directory. */
    method Write(parent: Path, name: string, bytes: Bytes) returns (ok: bool)
      requires At(parent).Some? && At(parent).value.Dir?
      modifies this
      ensures ok <==> !(name in old(At(parent)).value.entries && old(At(parent)).value.entries[name].Dir?)
      ensures !ok ==> root == old(root) && log == old(log)
      ensures ok ==> root == Put(Some(old(root)), parent + [name], File(bytes))
      ensures ok ==> log == old(log) + multiset{Wrote(parent + [name])}
    {
      var entries := At(parent).value.entries;
      ok := !(name in entries && entries[name].Dir?);
      if ok {
        root := Put(Some(root), parent + [name], File(bytes));
        log := log + multiset{Wrote(parent + [name])};
      }
    }

    /** Whatever is at `p` is cleared, and `n` written in its place. */
    method Replace(p: Path, n: Node)
      modifies this
      ensures root == Put(Some(old(root)), p, n)
      ensures log == old(log) + multiset{Wrote(p)}
    {
      root := Put(Some(root), p, n);
      log := log + multiset{Wrote(p)};
    }
  }
}

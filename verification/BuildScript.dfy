/** `mirror`, and how `main` stages the Swift package with it (build.rs). */
module BuildScript {
  import opened Wrappers
  import opened Files
  import opened Mirroring

  /******* The first loop: `to` without its stale entries *******/

  /** `current` once each stale entry outside `rest` is removed. */
  function Pruned(source: map<string, Node>, current: map<string, Node>, skip: set<string>, rest: set<string>)
    : map<string, Node>
  {
    map name | name in current && (name in skip || name in source || name in rest) :: current[name]
  }

  predicate PruneDue(
    source: map<string, Node>, current: map<string, Node>, skip: set<string>, rest: set<string>,
    to: Path, e: Event)
  {
    && (e.Removed? && |e.path| == |to| + 1 && to <= e.path
        && var name := e.path[|to|]; name in current && name !in skip && name !in source && name !in rest)
  }

  /******* The second loop: then each of `from`'s entries *******/

  /** `current` pruned, and each kept entry of `source` outside `rest` mirrored. */
  function Copied(source: map<string, Node>, current: map<string, Node>, skip: set<string>, rest: set<string>)
    : map<string, Node>
  {
    map name | name in source.Keys + current.Keys
               && (if name in skip then name in current else name in source && (name in current || name !in rest)) ::
      if name in skip || name in rest then current[name] else Mirrored(source[name], Lookup(current, name), skip)
  }

  /** Whether `e` is due to `to`, apart from what is below an entry in `rest`. */
  predicate CopyDue(from: Node, before: Option<Node>, skip: set<string>, rest: set<string>, to: Path, e: Event) {
    && to <= e.path
    && (|e.path| > |to| ==> e.path[|to|] in skip || e.path[|to|] !in rest)
    && Due(Some(from), before, skip, Rebased(e, e.path[|to|..]))
  }

  function One(b: bool): nat {
    if b then 1 else 0
  }

  ghost predicate Logged(from: Node, before: Option<Node>, skip: set<string>, rest: set<string>, to: Path,
                         log0: multiset<Event>, log: multiset<Event>) {
    forall e :: log[e] == log0[e] + One(CopyDue(from, before, skip, rest, to, e))
  }

  /** Some of what is due was done, once each, and nothing else. */
  ghost predicate LoggedAtMost(from: Node, before: Option<Node>, skip: set<string>, to: Path,
                               log0: multiset<Event>, log: multiset<Event>) {
    forall e :: log0[e] <= log[e] <= log0[e] + One(CopyDue(from, before, skip, {}, to, e))
  }

  /** What was done when only `rest` was still to look at. */
  lemma PartLogged(from: Node, before: Option<Node>, skip: set<string>, rest: set<string>, to: Path,
                   log0: multiset<Event>, log: multiset<Event>)
    requires Logged(from, before, skip, rest, to, log0, log)
    ensures LoggedAtMost(from, before, skip, to, log0, log)
  {
    hide Due;
  }

  /** And when the child `name` stopped part of the way. */
  lemma ChildPartLogged(from: Node, before: Option<Node>, skip: set<string>, rest: set<string>, to: Path, name: string,
                        log0: multiset<Event>, log1: multiset<Event>, log2: multiset<Event>)
    requires from.Dir? && name in from.entries && name in rest && name !in skip
    requires Logged(from, before, skip, rest, to, log0, log1)
    requires LoggedAtMost(from.entries[name], Lookup(Entries(before), name), skip, to + [name], log1, log2)
    ensures LoggedAtMost(from, before, skip, to, log0, log2)
  {
    forall e ensures log0[e] <= log2[e] <= log0[e] + One(CopyDue(from, before, skip, {}, to, e)) {
      CopyDueStep(from, before, skip, rest, to, name, e);
      assert CopyDue(from, before, skip, rest - {name}, to, e) ==> CopyDue(from, before, skip, {}, to, e);
    }
  }

  lemma PruneThenCopyDue(from: Node, before: Option<Node>, skip: set<string>, to: Path, e: Event)
    requires from.Dir? && (before.Some? ==> before.value.Dir?)
    ensures PruneDue(from.entries, Entries(before), skip, {}, to, e) || (before.None? && e == MadeDir(to))
       <==> CopyDue(from, before, skip, from.entries.Keys, to, e)
  {
    if to <= e.path {
      var below := Rebased(e, e.path[|to|..]);
      if |e.path| == |to| {
        assert e.path == to && below.path == [];
      } else if e.path[|to|] in skip || e.path[|to|] !in from.entries {
        assert below.path[0] == e.path[|to|];
        DueElsewhere(from, before, skip, below);
      }
    }
  }

  /** The child's events are those below its name. */
  lemma CopyDueStep(from: Node, before: Option<Node>, skip: set<string>, rest: set<string>, to: Path, name: string,
                    e: Event)
    requires from.Dir? && name in from.entries && name in rest && name !in skip
    ensures One(CopyDue(from, before, skip, rest - {name}, to, e))
         == One(CopyDue(from, before, skip, rest, to, e))
            + One(CopyDue(from.entries[name], Lookup(Entries(before), name), skip, {}, to + [name], e))
  {
    if to + [name] <= e.path {
      assert to <= e.path && e.path[|to|] == name;
      var below := Rebased(e, e.path[|to|..]);
      assert below.path[0] == name && below.path[1..] == e.path[|to| + 1..];
      DueBelow(from, before, skip, below);
    } else if to <= e.path && |e.path| > |to| && e.path[|to|] == name {
      assert to + [name] == e.path[..|to| + 1];
    }
  }

  lemma LoggedStep(from: Node, before: Option<Node>, skip: set<string>, rest: set<string>, to: Path, name: string,
                   log0: multiset<Event>, log1: multiset<Event>, log2: multiset<Event>)
    requires from.Dir? && name in from.entries && name in rest && name !in skip
    requires Logged(from, before, skip, rest, to, log0, log1)
    requires Logged(from.entries[name], Lookup(Entries(before), name), skip, {}, to + [name], log1, log2)
    ensures Logged(from, before, skip, rest - {name}, to, log0, log2)
  {
    forall e ensures log2[e] == log0[e] + One(CopyDue(from, before, skip, rest - {name}, to, e)) {
      CopyDueStep(from, before, skip, rest, to, name, e);
    }
  }

  lemma FileDue(from: Node, before: Option<Node>, skip: set<string>, to: Path, e: Event)
    requires from.File?
    ensures CopyDue(from, before, skip, {}, to, e) <==> e == Wrote(to) && before != Some(from)
  {
    if to <= e.path {
      var p := e.path[|to|..];
      if p != [] {
        GetNone(p[1..]);
        if |p| > 1 {
          GetNone(p[..|p| - 1][1..]);
        }
      } else {
        assert e.path == to;
      }
    }
  }

  /** The tree below `to` may have changed, and nothing else. */
  ghost predicate OnlyBelow(to: Path, before: Node, after: Node) {
    after == before || exists leaf :: after == Put(Some(before), to, leaf)
  }

  /** What `from` protects in `to` is as it was. */
  ghost predicate KeepsProtected(from: Option<Node>, skip: set<string>, before: Option<Node>, after: Option<Node>) {
    forall p | Protected(from, skip, p) :: Get(after, p) == Get(before, p)
  }

  function NodeAt(v: Volume, p: Path): Node
    reads v
  {
    if v.At(p).Some? then v.At(p).value else EMPTY
  }

  /** The tree with `leaf` at `to`, as each call in `mirror` finds it. */
  lemma PutFacts(root: Node, to: Path, from: Path, leaf: Node, name: string)
    requires Disjoint(from, to)
    ensures var now := Some(Put(Some(root), to, leaf));
            && Get(now, to) == Some(leaf)
            && Get(now, from) == Get(Some(root), from)
            && Get(now, to + [name]) == Lookup(Entries(Some(leaf)), name)
            && Get(now, from + [name]) == Lookup(Entries(Get(Some(root), from)), name)
  {
    GetPut(Some(root), to, leaf);
    GetPutDisjoint(Some(root), to, from, leaf);
    GetConcat(Some(Put(Some(root), to, leaf)), to, [name]);
    GetConcat(Some(Put(Some(root), to, leaf)), from, [name]);
  }

  lemma PutAgain(root: Node, to: Path, leaf: Node, after: Node)
    ensures Put(Some(Put(Some(root), to, leaf)), to, after) == Put(Some(root), to, after)
  {
    PutPut(Some(root), to, [], leaf, after);
    assert to + [] == to;
  }

  lemma PutEntry(root: Node, to: Path, entries: map<string, Node>, name: string, leaf: Node)
    ensures Put(Some(Put(Some(root), to, Dir(entries))), to + [name], leaf)
         == Put(Some(root), to, Dir(entries[name := leaf]))
  {
    PutPut(Some(root), to, [name], Dir(entries), leaf);
  }

  /** What any tree between the loops' steps keeps. */
  lemma PartialKeeps(root: Node, to: Path, from: Path, skip: set<string>, entries: map<string, Node>)
    requires Disjoint(from, to)
    requires var f, t := Get(Some(root), from), Get(Some(root), to);
             KeepsProtected(f, skip, t, Some(Dir(entries)))
    ensures Keeps(root, from, to, skip, Put(Some(root), to, Dir(entries)))
  {
    PutFacts(root, to, from, Dir(entries), "");
  }

  /** Pruning and copying leave what is protected. */
  lemma CopiedKeepsProtected(f: Option<Node>, t: Option<Node>, skip: set<string>, rest: set<string>)
    ensures KeepsProtected(f, skip, t, Some(Dir(Copied(Entries(f), Entries(t), skip, rest))))
  {
    var after := Some(Dir(Copied(Entries(f), Entries(t), skip, rest)));
    forall p | Protected(f, skip, p) ensures Get(after, p) == Get(t, p) {
      var name := p[0];
      assert Get(after, p) == Get(Lookup(Entries(after), name), p[1..]);
      assert Get(t, p) == Get(Lookup(Entries(t), name), p[1..]);
      if name !in skip {
        assert Protected(Lookup(Entries(f), name), skip, p[1..]) && name in Entries(f);
        if name !in rest {
          ProtectedUntouched(Entries(f)[name], Lookup(Entries(t), name), skip, p[1..]);
        }
      }
    }
  }

  /** Where the first loop is, when it has still to look at `rest`. */
  ghost predicate Pruning(root0: Node, log0: multiset<Event>, from: Path, to: Path, skip: set<string>,
                          rest: set<string>, root: Node, log: multiset<Event>) {
    var source, current := Entries(Get(Some(root0), from)), Entries(Get(Some(root0), to));
    && rest <= current.Keys
    && root == Put(Some(root0), to, Dir(Pruned(source, current, skip, rest)))
    && forall e :: log[e] == log0[e] + One(PruneDue(source, current, skip, rest, to, e))
  }

  lemma PruneDueStep(source: map<string, Node>, current: map<string, Node>, skip: set<string>, rest: set<string>,
                     to: Path, name: string, e: Event)
    requires name in current && name !in skip && name !in source && name in rest
    ensures One(PruneDue(source, current, skip, rest - {name}, to, e))
         == One(PruneDue(source, current, skip, rest, to, e)) + One(e == Removed(to + [name]))
  {
    if e.Removed? && |e.path| == |to| + 1 && to <= e.path {
      assert e.path == to + [e.path[|to|]];
    }
  }

  lemma PruningStep(root0: Node, log0: multiset<Event>, from: Path, to: Path, skip: set<string>,
                    rest: set<string>, root: Node, log: multiset<Event>, name: string)
    requires Disjoint(from, to) && Pruning(root0, log0, from, to, skip, rest, root, log) && name in rest
    ensures Get(Some(root), to).Some? && Get(Some(root), to).value.Dir? && name in Entries(Get(Some(root), to))
    ensures var removed := Put(Some(root), to, Dir(Entries(Get(Some(root), to)) - {name}));
            if name in skip || Get(Some(root), from + [name]).Some? then
              Pruning(root0, log0, from, to, skip, rest - {name}, root, log)
            else
              Pruning(root0, log0, from, to, skip, rest - {name}, removed, log + multiset{Removed(to + [name])})
  {
    var source, current := Entries(Get(Some(root0), from)), Entries(Get(Some(root0), to));
    var now := Pruned(source, current, skip, rest);
    PutFacts(root0, to, from, Dir(now), name);
    hide Get, Put;
    if name in skip || name in source {
      assert Pruned(source, current, skip, rest - {name}) == now;
    } else {
      assert Pruned(source, current, skip, rest - {name}) == now - {name};
      PutAgain(root0, to, Dir(now), Dir(now - {name}));
      forall e {
        PruneDueStep(source, current, skip, rest, to, name, e);
      }
      hide PruneDue;
    }
  }

  method Prune(v: Volume, from: Path, to: Path, skip: set<string>)
    requires Disjoint(from, to) && v.At(to).Some? && v.At(to).value.Dir?
    modifies v
    ensures Pruning(old(v.root), old(v.log), from, to, skip, {}, v.root, v.log)
  {
    ghost var root0, log0 := v.root, v.log;
    var names := v.ReadDir(to);
    var rest := names.value;
    PutSame(Some(root0), to);
    assert Pruned(Entries(v.At(from)), Entries(v.At(to)), skip, rest) == Entries(v.At(to));
    hide Pruning;
    while rest != {}
      invariant Pruning(root0, log0, from, to, skip, rest, v.root, v.log)
    {
      var name :| name in rest;
      PruningStep(root0, log0, from, to, skip, rest, v.root, v.log, name);
      rest := rest - {name};
      if name in skip || v.At(from + [name]).Some? {
        continue;
      }
      v.Remove(to, name);
    }
  }

  /** Where the second loop is, when it has still to look at `rest`. */
  ghost predicate Copying(root0: Node, log0: multiset<Event>, from: Path, to: Path, skip: set<string>,
                          rest: set<string>, root: Node, log: multiset<Event>) {
    var f, t := Get(Some(root0), from), Get(Some(root0), to);
    && f.Some? && f.value.Dir? && CanBeDir(Some(root0), to)
    && rest <= f.value.entries.Keys
    && root == Put(Some(root0), to, Dir(Copied(f.value.entries, Entries(t), skip, rest)))
    && Logged(f.value, t, skip, rest, to, log0, log)
    && forall name | name in f.value.entries && name !in skip && name !in rest ::
         Compatible(f.value.entries[name], Lookup(Entries(t), name), skip)
  }

  lemma CopyingStarts(root0: Node, log0: multiset<Event>, from: Path, to: Path, skip: set<string>,
                      root1: Node, log1: multiset<Event>, root: Node, log: multiset<Event>)
    requires Disjoint(from, to) && CanBeDir(Some(root0), to)
    requires var t := Get(Some(root0), to);
             if t.Some? then root1 == root0 && log1 == log0
             else root1 == Put(Some(root0), to, EMPTY) && log1 == log0 + multiset{MadeDir(to)}
    requires Pruning(root1, log1, from, to, skip, {}, root, log)
    ensures var f, t := Get(Some(root0), from), Get(Some(root0), to);
            && root == Put(Some(root0), to, Dir(Copied(Entries(f), Entries(t), skip, Entries(f).Keys)))
            && (f.Some? && f.value.Dir? ==> Copying(root0, log0, from, to, skip, Entries(f).Keys, root, log))
  {
    var f, t := Get(Some(root0), from), Get(Some(root0), to);
    var source, current := Entries(f), Entries(t);
    CanBeDirAt(Some(root0), to);
    PutFacts(root0, to, from, EMPTY, "");
    PutAgain(root0, to, EMPTY, Dir(Pruned(source, current, skip, {})));
    assert Pruned(source, current, skip, {}) == Copied(source, current, skip, source.Keys);
    hide Get, Put, CanBeDir, Mirrored, Compatible;
    if f.Some? && f.value.Dir? {
      forall e ensures log[e] == log0[e] + One(CopyDue(f.value, t, skip, source.Keys, to, e)) {
        PruneThenCopyDue(f.value, t, skip, to, e);
      }
    }
  }

  /** What the second loop finds at the next name. */
  lemma CopyingAt(root0: Node, log0: multiset<Event>, from: Path, to: Path, skip: set<string>,
                  rest: set<string>, root: Node, log: multiset<Event>, name: string)
    requires Disjoint(from, to) && Copying(root0, log0, from, to, skip, rest, root, log)
    requires name in rest && name !in skip
    ensures var f, t := Get(Some(root0), from), Get(Some(root0), to);
            && Get(Some(root), from + [name]) == Some(f.value.entries[name])
            && Get(Some(root), to + [name]) == Lookup(Entries(t), name)
            && Get(Some(root), to).Some? && Get(Some(root), to).value.Dir?
            && Lookup(Get(Some(root), to).value.entries, name) == Lookup(Entries(t), name)
            && (CanBeDir(Some(root), to + [name]) <==>
                (name in Entries(t) ==> Entries(t)[name].Dir?))
  {
    var f, t := Get(Some(root0), from), Get(Some(root0), to);
    var now := Copied(f.value.entries, Entries(t), skip, rest);
    PutFacts(root0, to, from, Dir(now), name);
    CanBeDirBelow(Some(root), to, [name]);
    assert Lookup(now, name) == Lookup(Entries(t), name);
    assert CanBeDir(Some(Dir(now)), [name]) <==> CanBeDir(Lookup(now, name), []);
  }

  lemma CopyingSkips(root0: Node, log0: multiset<Event>, from: Path, to: Path, skip: set<string>,
                     rest: set<string>, root: Node, log: multiset<Event>, name: string)
    requires Copying(root0, log0, from, to, skip, rest, root, log) && name in skip
    ensures Copying(root0, log0, from, to, skip, rest - {name}, root, log)
  {
    hide Get, Put, CanBeDir, Mirrored, Compatible, Due;
    var f, t := Get(Some(root0), from), Get(Some(root0), to);
    assert Copied(f.value.entries, Entries(t), skip, rest - {name}) == Copied(f.value.entries, Entries(t), skip, rest);
    assert forall e :: CopyDue(f.value, t, skip, rest - {name}, to, e) <==> CopyDue(f.value, t, skip, rest, to, e);
  }

  lemma CopiedStep(source: map<string, Node>, current: map<string, Node>, skip: set<string>, rest: set<string>,
                   name: string)
    requires name in source && name in rest && name !in skip
    ensures Copied(source, current, skip, rest - {name})
         == Copied(source, current, skip, rest)[name := Mirrored(source[name], Lookup(current, name), skip)]
  {
    hide Mirrored;
  }

  lemma CopyingStep(root0: Node, log0: multiset<Event>, from: Path, to: Path, skip: set<string>,
                    rest: set<string>, root: Node, log: multiset<Event>, name: string,
                    root': Node, log': multiset<Event>)
    requires Copying(root0, log0, from, to, skip, rest, root, log) && name in rest && name !in skip
    requires var child, there := Entries(Get(Some(root0), from))[name], Lookup(Entries(Get(Some(root0), to)), name);
             && Compatible(child, there, skip)
             && root' == Put(Some(root), to + [name], Mirrored(child, there, skip))
             && Logged(child, there, skip, {}, to + [name], log, log')
    ensures Copying(root0, log0, from, to, skip, rest - {name}, root', log')
  {
    hide Get, Put, Mirrored, Compatible, Logged, Copied, CanBeDir;
    var f, t := Get(Some(root0), from), Get(Some(root0), to);
    var source, current := f.value.entries, Entries(t);
    var now, child := Copied(source, current, skip, rest), Mirrored(source[name], Lookup(current, name), skip);
    PutEntry(root0, to, now, name, child);
    CopiedStep(source, current, skip, rest, name);
    LoggedStep(f.value, t, skip, rest, to, name, log0, log, log');
  }

  lemma FileLogged(from: Node, before: Option<Node>, skip: set<string>, to: Path,
                   log: multiset<Event>, log': multiset<Event>)
    requires from.File?
    requires log' == if before == Some(from) then log else log + multiset{Wrote(to)}
    ensures Logged(from, before, skip, {}, to, log, log')
  {
    forall e ensures log'[e] == log[e] + One(CopyDue(from, before, skip, {}, to, e)) {
      FileDue(from, before, skip, to, e);
    }
  }

  /** What the source, a protected entry and anything outside `to` are left as,
      whether a child's mirror succeeded or not. */
  lemma ChildKeeps(root0: Node, log0: multiset<Event>, from: Path, to: Path, skip: set<string>,
                   rest: set<string>, root: Node, log: multiset<Event>, name: string, root': Node)
    requires Disjoint(from, to) && Copying(root0, log0, from, to, skip, rest, root, log)
    requires name in rest && name !in skip && OnlyBelow(to + [name], root, root')
    requires KeepsProtected(Get(Some(root), from + [name]), skip, Get(Some(root), to + [name]),
                            Get(Some(root'), to + [name]))
    ensures Keeps(root0, from, to, skip, root')
  {
    var f, t := Get(Some(root0), from), Get(Some(root0), to);
    var source, current := f.value.entries, Entries(t);
    var now := Copied(source, current, skip, rest);
    CopiedKeepsProtected(f, t, skip, rest);
    if root' == root {
      PartialKeeps(root0, to, from, skip, now);
    } else {
      var leaf :| root' == Put(Some(root), to + [name], leaf);
      var after := now[name := leaf];
      PutEntry(root0, to, now, name, leaf);
      CopyingAt(root0, log0, from, to, skip, rest, root, log, name);
      PutFacts(root0, to, from, Dir(after), name);
      forall p | Protected(f, skip, p) ensures Get(Some(Dir(after)), p) == Get(t, p) {
        assert Get(Some(Dir(after)), p) == Get(Lookup(after, p[0]), p[1..]);
        assert Get(t, p) == Get(Lookup(current, p[0]), p[1..]);
        if p[0] == name {
          assert Protected(Some(source[name]), skip, p[1..]);
        } else {
          assert Get(Some(Dir(now)), p) == Get(Lookup(now, p[0]), p[1..]);
        }
      }
      PartialKeeps(root0, to, from, skip, after);
    }
  }

  /** Everything outside `to`, and so `from`, is as it was, and so is what
      `from` protects in `to`. */
  ghost predicate Keeps(root0: Node, from: Path, to: Path, skip: set<string>, root: Node) {
    && OnlyBelow(to, root0, root)
    && Get(Some(root), from) == Get(Some(root0), from)
    && KeepsProtected(Get(Some(root0), from), skip, Get(Some(root0), to), Get(Some(root), to))
  }

  lemma StartKeeps(root0: Node, from: Path, to: Path, skip: set<string>, rest: set<string>)
    requires Disjoint(from, to)
    ensures var f, t := Get(Some(root0), from), Get(Some(root0), to);
            Keeps(root0, from, to, skip, Put(Some(root0), to, Dir(Copied(Entries(f), Entries(t), skip, rest))))
  {
    var f, t := Get(Some(root0), from), Get(Some(root0), to);
    CopiedKeepsProtected(f, t, skip, rest);
    PartialKeeps(root0, to, from, skip, Copied(Entries(f), Entries(t), skip, rest));
  }

  lemma CopyingEnds(root0: Node, log0: multiset<Event>, from: Path, to: Path, skip: set<string>,
                    root: Node, log: multiset<Event>)
    requires Disjoint(from, to) && Copying(root0, log0, from, to, skip, {}, root, log)
    ensures Keeps(root0, from, to, skip, root)
    ensures Mirrors(root0, log0, from, to, skip, root, log)
  {
    var f, t := Get(Some(root0), from), Get(Some(root0), to);
    CanBeDirAt(Some(root0), to);
    StartKeeps(root0, from, to, skip, {});
    assert Dir(Copied(f.value.entries, Entries(t), skip, {})) == Mirrored(f.value, t, skip);
  }

  /** When `mirror` succeeds. */
  ghost predicate CanMirror(root0: Node, from: Path, to: Path, skip: set<string>) {
    var f, t := Get(Some(root0), from), Get(Some(root0), to);
    f.Some? && f.value.Dir? && CanBeDir(Some(root0), to) && Compatible(f.value, t, skip)
  }

  /** What a successful `mirror` has done. */
  ghost predicate Mirrors(root0: Node, log0: multiset<Event>, from: Path, to: Path, skip: set<string>,
                          root: Node, log: multiset<Event>) {
    var f, t := Get(Some(root0), from), Get(Some(root0), to);
    && CanMirror(root0, from, to, skip)
    && root == Put(Some(root0), to, Mirrored(f.value, t, skip))
    && Logged(f.value, t, skip, {}, to, log0, log)
  }

  /** Mirrors the directory at `from` onto `to`. It fails where the source's
      calls do: `from` isn't a directory, a file is on the way to `to`, or a kept
      entry is a file on one side and a directory on the other. */
  method Mirror(v: Volume, from: Path, to: Path, skip: set<string>) returns (ok: bool)
    requires Disjoint(from, to)
    modifies v
    ensures ok <==> CanMirror(old(v.root), from, to, skip)
    ensures ok ==> Mirrors(old(v.root), old(v.log), from, to, skip, v.root, v.log)
    ensures Keeps(old(v.root), from, to, skip, v.root)
    ensures old(v.At(from)).Some? && old(v.At(from)).value.Dir? ==>
              LoggedAtMost(old(v.At(from)).value, old(v.At(to)), skip, to, old(v.log), v.log)
    decreases NodeAt(v, from), 1
  {
    ghost var root0, log0 := v.root, v.log;
    ok := v.CreateDirAll(to);
    if !ok {
      return;
    }
    CanBeDirAt(Some(root0), to);
    PutFacts(root0, to, from, EMPTY, "");
    ghost var root1, log1 := v.root, v.log;
    Prune(v, from, to, skip);
    CopyingStarts(root0, log0, from, to, skip, root1, log1, v.root, v.log);
    StartKeeps(root0, from, to, skip, Entries(Get(Some(root0), from)).Keys);
    var names := v.ReadDir(from);
    if names == None {
      ok := false;
      return;
    }
    ok := Copy(v, from, to, skip, names.value, root0, log0);
  }

  /** The second loop. A panic in it leaves the entries it got to as they are, and
      logs no more than was due. */
  method Copy(v: Volume, from: Path, to: Path, skip: set<string>, names: set<string>,
              ghost root0: Node, ghost log0: multiset<Event>) returns (ok: bool)
    requires Disjoint(from, to)
    requires Copying(root0, log0, from, to, skip, names, v.root, v.log)
    requires names == Entries(Get(Some(root0), from)).Keys && v.At(from) == Get(Some(root0), from)
    modifies v
    ensures ok <==> CanMirror(root0, from, to, skip)
    ensures ok ==> Mirrors(root0, log0, from, to, skip, v.root, v.log)
    ensures Keeps(root0, from, to, skip, v.root)
    ensures LoggedAtMost(Get(Some(root0), from).value, Get(Some(root0), to), skip, to, log0, v.log)
    decreases NodeAt(v, from), 0
  {
    var rest := names;
    while rest != {}
      invariant Copying(root0, log0, from, to, skip, rest, v.root, v.log)
    {
      var name :| name in rest;
      if name in skip {
        CopyingSkips(root0, log0, from, to, skip, rest, v.root, v.log, name);
        rest := rest - {name};
        continue;
      }
      CopyingAt(root0, log0, from, to, skip, rest, v.root, v.log, name);
      ghost var root1, log1 := v.root, v.log;
      var copied := CopyEntry(v, from, to, skip, name);
      ChildKeeps(root0, log0, from, to, skip, rest, root1, log1, name, v.root);
      if !copied {
        ghost var f, t := Get(Some(root0), from).value, Get(Some(root0), to);
        ChildPartLogged(f, t, skip, rest, to, name, log0, log1, v.log);
        return false;
      }
      CopyingStep(root0, log0, from, to, skip, rest, root1, log1, name, v.root, v.log);
      rest := rest - {name};
    }
    CopyingEnds(root0, log0, from, to, skip, v.root, v.log);
    PartLogged(Get(Some(root0), from).value, Get(Some(root0), to), skip, {}, to, log0, v.log);
    ok := true;
  }

  /** One entry of `from`: a directory is mirrored, and a file is written unless
      the same bytes are there. */
  method CopyEntry(v: Volume, from: Path, to: Path, skip: set<string>, name: string) returns (ok: bool)
    requires Disjoint(from, to) && v.At(from + [name]).Some? && v.At(to).Some? && v.At(to).value.Dir?
    requires Lookup(v.At(to).value.entries, name) == v.At(to + [name])
    requires CanBeDir(Some(v.root), to + [name]) <==> (v.At(to + [name]).Some? ==> v.At(to + [name]).value.Dir?)
    modifies v
    ensures var child, there := old(v.At(from + [name])).value, old(v.At(to + [name]));
            && (ok <==> Compatible(child, there, skip))
            && (ok ==> v.root == Put(Some(old(v.root)), to + [name], Mirrored(child, there, skip))
                       && Logged(child, there, skip, {}, to + [name], old(v.log), v.log))
            && LoggedAtMost(child, there, skip, to + [name], old(v.log), v.log)
    ensures Keeps(old(v.root), from + [name], to + [name], skip, v.root)
    decreases NodeAt(v, from + [name]), 2
  {
    DisjointBelow(from, to, name);
    DisjointBelow(to, from, name);
    ghost var root0 := v.root;
    if v.At(from + [name]).value.Dir? {
      ok := Mirror(v, from + [name], to + [name], skip);
      return;
    }
    var wanted := v.Read(from + [name]);
    var current := v.Read(to + [name]);
    if current == wanted {
      PutSame(Some(root0), to + [name]);
      ok := true;
    } else {
      ok := v.Write(to, name, wanted.value);
    }
    FileKeeps(root0, from + [name], to + [name], skip, v.root, wanted.value);
    if ok {
      FileLogged(File(wanted.value), Get(Some(root0), to + [name]), skip, to + [name], old(v.log), v.log);
      PartLogged(File(wanted.value), Get(Some(root0), to + [name]), skip, {}, to + [name], old(v.log), v.log);
    }
  }

  lemma FileKeeps(root0: Node, from: Path, to: Path, skip: set<string>, root: Node, bytes: Bytes)
    requires Disjoint(from, to) && Get(Some(root0), from) == Some(File(bytes))
    requires root == root0 || root == Put(Some(root0), to, File(bytes))
    ensures Keeps(root0, from, to, skip, root)
  {
    GetPutDisjoint(Some(root0), to, from, File(bytes));
  }

  /** Mirroring again succeeds, and writes, makes and removes nothing. */
  method MirrorTwice(v: Volume, from: Path, to: Path, skip: set<string>) returns (ok: bool)
    requires Disjoint(from, to)
    modifies v
    ensures ok <==> CanMirror(old(v.root), from, to, skip)
    ensures ok ==> Mirrors(old(v.root), old(v.log), from, to, skip, v.root, v.log)
  {
    ok := Mirror(v, from, to, skip);
    if ok {
      ghost var root, log, t := v.root, v.log, v.At(to);
      MirroredOnce(old(v.root), from, to, skip, v.root);
      ok := Mirror(v, from, to, skip);
      assert v.root == root;
      NothingLogged(v.At(from).value, t, skip, to, log, v.log);
    }
  }

  lemma MirroredOnce(root0: Node, from: Path, to: Path, skip: set<string>, root: Node)
    requires Disjoint(from, to) && CanMirror(root0, from, to, skip)
    requires root == Put(Some(root0), to, Mirrored(Get(Some(root0), from).value, Get(Some(root0), to), skip))
    ensures CanMirror(root, from, to, skip) && Get(Some(root), to).Some?
    ensures Get(Some(root), from) == Get(Some(root0), from)
    ensures Mirrored(Get(Some(root), from).value, Get(Some(root), to), skip) == Get(Some(root), to).value
    ensures Put(Some(root), to, Get(Some(root), to).value) == root
  {
    var f, t := Get(Some(root0), from).value, Get(Some(root0), to);
    var after := Mirrored(f, t, skip);
    PutFacts(root0, to, from, after, "");
    CanBeDirBelow(Some(root), to, []);
    assert to + [] == to;
    MirroredErased(f, t, skip);
    MirroredFixed(f, after, skip);
    MirroredCompatible(f, t, skip);
    PutSame(Some(root), to);
  }

  lemma NothingLogged(from: Node, to: Option<Node>, skip: set<string>, at: Path,
                      log0: multiset<Event>, log: multiset<Event>)
    requires to.Some? && Mirrored(from, to, skip) == to.value
    requires Logged(from, to, skip, {}, at, log0, log)
    ensures log == log0
  {
    forall e ensures log[e] == log0[e] {
      if at <= e.path {
        NothingDue(from, to, skip, Rebased(e, e.path[|at|..]));
      }
    }
  }

  /** A successful `mirror` leaves `from` alone, and `to` is then `from` but for
      what `skip` names. */
  lemma MirrorConverges(root0: Node, log0: multiset<Event>, from: Path, to: Path, skip: set<string>,
                        root: Node, log: multiset<Event>)
    requires Disjoint(from, to) && Mirrors(root0, log0, from, to, skip, root, log)
    ensures Get(Some(root), from) == Get(Some(root0), from)
    ensures Get(Some(root), to).Some?
    ensures Erased(Get(Some(root), to).value, skip) == Erased(Get(Some(root0), from).value, skip)
  {
    var f, t := Get(Some(root0), from).value, Get(Some(root0), to);
    PutFacts(root0, to, from, Mirrored(f, t, skip), "");
    MirroredErased(f, t, skip);
  }
}

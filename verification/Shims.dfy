/** `publish_bridge_shims` (build.rs): the text replacement that makes the
    generated shims public. */
module Shims {
  import opened Wrappers

  const FUNC := "func __swift_bridge__"
  const PUBLIC := "public "
  const INTERNAL_SHIM := "\n" + FUNC
  const PUBLIC_SHIM := "\n" + PUBLIC + FUNC

  /** `str::replace`: each match from the left, none overlapping. */
  function Replace(s: string, pattern: string, with: string): string
    requires pattern != []
    decreases |s|
  {
    if s == [] then []
    else if pattern <= s then with + Replace(s[|pattern|..], pattern, with)
    else [s[0]] + Replace(s[1..], pattern, with)
  }

  /** How many places `pattern` is at. */
  function Count(s: string, pattern: string): nat
    requires pattern != []
  {
    if s == [] then 0 else (if pattern <= s then 1 else 0) + Count(s[1..], pattern)
  }

  /** The published glue, or `None` where the source panics. */
  function Publish(source: string): Option<string> {
    var published := Replace(source, INTERNAL_SHIM, PUBLIC_SHIM);
    if published == source then None else Some(published)
  }

  /******* Patterns that start a line *******/

  predicate OneLine(s: string) {
    '\n' !in s
  }

  /** What replaces a line's start `a` by `b`, where neither starts the other. */
  predicate LineStarts(a: string, b: string) {
    a != [] && b != [] && OneLine(a) && OneLine(b) && !(a <= b) && !(b <= a)
  }

  lemma PrefixOfCons(p: string, s: string)
    requires p != [] && s != []
    ensures p <= s <==> p[0] == s[0] && p[1..] <= s[1..]
  {
    if p[0] == s[0] && p[1..] <= s[1..] {
      assert p == [p[0]] + p[1..] && s == [s[0]] + s[1..];
      assert forall i | 0 <= i < |p| :: i > 0 ==> p[i] == p[1..][i - 1] && s[i] == s[1..][i - 1];
    }
  }

  lemma StartsLine(a: string, s: string)
    ensures "\n" + a <= s <==> s != [] && s[0] == '\n' && a <= s[1..]
  {
    if s != [] {
      PrefixOfCons("\n" + a, s);
      assert ("\n" + a)[1..] == a;
    }
  }

  /** A line's text is what it was. */
  lemma {:induction false} LineKept(q: string, s: string, a: string, b: string)
    requires OneLine(q)
    ensures q <= Replace(s, "\n" + a, "\n" + b) <==> q <= s
    decreases |s|
  {
    var replaced := Replace(s, "\n" + a, "\n" + b);
    if q != [] && s != [] {
      StartsLine(a, s);
      PrefixOfCons(q, s);
      PrefixOfCons(q, replaced);
      if !("\n" + a <= s) {
        assert replaced[1..] == Replace(s[1..], "\n" + a, "\n" + b);
        LineKept(q[1..], s[1..], a, b);
      } else {
        assert replaced[0] == '\n' && q[0] != '\n';
      }
    }
  }

  /** No match starts inside a line. */
  lemma {:induction false} CountAfterLine(line: string, rest: string, a: string)
    requires OneLine(line)
    ensures Count(line + rest, "\n" + a) == Count(rest, "\n" + a)
    decreases |line|
  {
    if line == [] {
      assert line + rest == rest;
    } else {
      var s := line + rest;
      StartsLine(a, s);
      assert s[0] == line[0] && s[1..] == line[1..] + rest;
      CountAfterLine(line[1..], rest, a);
    }
  }

  lemma CountAfterMatch(text: string, rest: string, a: string)
    requires OneLine(text)
    ensures Count("\n" + text + rest, "\n" + a) == (if a <= text + rest then 1 else 0) + Count(rest, "\n" + a)
  {
    var s := "\n" + text + rest;
    StartsLine(a, s);
    assert s[1..] == text + rest;
    CountAfterLine(text, rest, a);
  }

  /** Each match is replaced, none is made, and each adds one of the other. */
  lemma {:induction false} ReplaceCounts(s: string, a: string, b: string)
    requires LineStarts(a, b)
    ensures var replaced := Replace(s, "\n" + a, "\n" + b);
            && Count(replaced, "\n" + a) == 0
            && Count(replaced, "\n" + b) == Count(s, "\n" + b) + Count(s, "\n" + a)
    decreases |s|
  {
    var pa, pb := "\n" + a, "\n" + b;
    if s != [] {
      if pa <= s {
        var rest := s[|pa|..];
        ReplaceCounts(rest, a, b);
        MatchCounts(s, rest, a, b);
      } else {
        ReplaceCounts(s[1..], a, b);
        NoMatchCounts(s, a, b);
      }
    }
  }

  /** A match counts once for its own pattern, and not for the other. */
  lemma MatchCounts(s: string, rest: string, a: string, b: string)
    requires LineStarts(a, b) && "\n" + a <= s && rest == s[|"\n" + a|..]
    ensures Replace(s, "\n" + a, "\n" + b) == "\n" + b + Replace(rest, "\n" + a, "\n" + b)
    ensures Count(s, "\n" + a) == 1 + Count(rest, "\n" + a) && Count(s, "\n" + b) == Count(rest, "\n" + b)
    ensures var after, replaced := Replace(rest, "\n" + a, "\n" + b), Replace(s, "\n" + a, "\n" + b);
            && Count(replaced, "\n" + a) == Count(after, "\n" + a)
            && Count(replaced, "\n" + b) == 1 + Count(after, "\n" + b)
  {
    var after := Replace(rest, "\n" + a, "\n" + b);
    assert s == "\n" + a + rest;
    NotBoth(a, b, rest);
    NotBoth(b, a, after);
    CountAfterMatch(a, rest, a);
    CountAfterMatch(a, rest, b);
    CountAfterMatch(b, after, a);
    CountAfterMatch(b, after, b);
    assert Replace(s, "\n" + a, "\n" + b) == "\n" + b + after;
    hide Count;
  }

  /** A character that starts no match is counted as it was. */
  lemma NoMatchCounts(s: string, a: string, b: string)
    requires LineStarts(a, b) && s != [] && !("\n" + a <= s)
    ensures var after, replaced := Replace(s[1..], "\n" + a, "\n" + b), Replace(s, "\n" + a, "\n" + b);
            && Count(replaced, "\n" + a) == Count(after, "\n" + a)
            && Count(replaced, "\n" + b) - Count(after, "\n" + b) == Count(s, "\n" + b) - Count(s[1..], "\n" + b)
            && Count(s, "\n" + a) == Count(s[1..], "\n" + a)
  {
    var replaced := Replace(s, "\n" + a, "\n" + b);
    assert replaced == [s[0]] + Replace(s[1..], "\n" + a, "\n" + b);
    assert replaced[1..] == Replace(s[1..], "\n" + a, "\n" + b);
    StartsLine(a, s);
    StartsLine(b, s);
    StartsLine(a, replaced);
    StartsLine(b, replaced);
    LineKept(a, s[1..], a, b);
    LineKept(b, s[1..], a, b);
  }

  lemma NotBoth(a: string, b: string, rest: string)
    requires !(a <= b) && !(b <= a)
    ensures !(b <= a + rest)
  {
    if |b| <= |a| {
      var i :| 0 <= i < |b| && b[i] != a[i];
      assert (a + rest)[i] == a[i];
    } else {
      var i :| 0 <= i < |a| && b[i] != a[i];
      assert (a + rest)[i] == a[i];
    }
  }

  lemma {:induction false} UndoesAll(s: string, a: string, b: string)
    requires LineStarts(a, b) && Count(s, "\n" + b) == 0
    ensures Replace(Replace(s, "\n" + a, "\n" + b), "\n" + b, "\n" + a) == s
    decreases |s|
  {
    var pa, pb := "\n" + a, "\n" + b;
    var replaced := Replace(s, pa, pb);
    if s != [] {
      if pa <= s {
        var rest := s[|pa|..];
        assert s == "\n" + a + rest && replaced == pb + Replace(rest, pa, pb);
        CountAfterMatch(a, rest, b);
        UndoesAll(rest, a, b);
        assert replaced[|pb|..] == Replace(rest, pa, pb);
      } else {
        assert replaced[1..] == Replace(s[1..], pa, pb);
        StartsLine(b, s);
        StartsLine(b, replaced);
        LineKept(b, s[1..], a, b);
        UndoesAll(s[1..], a, b);
      }
    }
  }

  /** The reverse replacement undoes one exactly where there was nothing of the
      other kind before. */
  lemma ReplaceUndone(s: string, a: string, b: string)
    requires LineStarts(a, b)
    ensures Replace(Replace(s, "\n" + a, "\n" + b), "\n" + b, "\n" + a) == s <==> Count(s, "\n" + b) == 0
  {
    if Count(s, "\n" + b) == 0 {
      UndoesAll(s, a, b);
    }
    ReplaceCounts(Replace(s, "\n" + a, "\n" + b), b, a);
  }

  /** `Count` counts the places a pattern is at. */
  lemma {:induction false} CountNone(s: string, pattern: string)
    requires pattern != []
    ensures Count(s, pattern) == 0 <==> forall i | 0 <= i < |s| :: !(pattern <= s[i..])
  {
    if s != [] {
      var rest := s[1..];
      CountNone(rest, pattern);
      assert s[0..] == s;
      forall i | 0 <= i < |rest| ensures rest[i..] == s[i + 1..] {
      }
      if Count(rest, pattern) != 0 {
        var i :| 0 <= i < |rest| && pattern <= rest[i..];
        assert pattern <= s[i + 1..];
      } else if Count(s, pattern) == 0 {
        forall i | 0 <= i < |s| ensures !(pattern <= s[i..]) {
          if i > 0 {
            assert rest[i - 1..] == s[i..];
          }
        }
      }
    }
  }

  /******* Line by line *******/

  function Lines(s: string): (lines: seq<string>)
    ensures lines != []
  {
    if s == [] then [""] else
    var rest := Lines(s[1..]);
    if s[0] == '\n' then [""] + rest else [[s[0]] + rest[0]] + rest[1..]
  }

  function Unlines(lines: seq<string>): string {
    if lines == [] then [] else lines[0] + if |lines| == 1 then [] else "\n" + Unlines(lines[1..])
  }

  lemma {:induction false} UnlinesLines(s: string)
    ensures Unlines(Lines(s)) == s
  {
    if s != [] {
      UnlinesLines(s[1..]);
      var rest := Lines(s[1..]);
      if s[0] == '\n' {
        assert Lines(s)[1..] == rest;
      } else {
        assert Lines(s)[1..] == rest[1..];
      }
    }
  }

  lemma {:induction false} LinesAfter(line: string, rest: string)
    requires OneLine(line)
    ensures Lines(line + rest) == [line + Lines(rest)[0]] + Lines(rest)[1..]
  {
    if line == [] {
      assert line + rest == rest && line + Lines(rest)[0] == Lines(rest)[0];
      hide Lines;
      assert Lines(rest) == [Lines(rest)[0]] + Lines(rest)[1..];
    } else {
      assert (line + rest)[0] == line[0] && (line + rest)[1..] == line[1..] + rest;
      LinesAfter(line[1..], rest);
      assert [line[0]] + (line[1..] + Lines(rest)[0]) == line + Lines(rest)[0];
    }
  }

  lemma {:induction false} FirstLine(a: string, s: string)
    requires OneLine(a)
    ensures a <= s <==> a <= Lines(s)[0]
  {
    if a != [] && s != [] && s[0] != '\n' {
      var first := Lines(s)[0];
      FirstLine(a[1..], s[1..]);
      assert first == [s[0]] + Lines(s[1..])[0] && first[1..] == Lines(s[1..])[0];
      PrefixOfCons(a, s);
      PrefixOfCons(a, first);
      assert a <= s <==> a <= first;
    } else if a != [] && s != [] {
      assert Lines(s)[0] == "" && a[0] in a;
      PrefixOfCons(a, s);
      assert !(a <= s);
      assert !(a <= Lines(s)[0]);
    } else if a != [] {
      assert Lines(s) == [""];
    }
  }

  /** Each line but the first that starts with `a` starts with `b` instead. */
  function Restarted(lines: seq<string>, a: string, b: string): seq<string> {
    seq(|lines|, k requires 0 <= k < |lines| => if k > 0 && a <= lines[k] then b + lines[k][|a|..] else lines[k])
  }

  lemma {:induction false} ReplaceLines(s: string, a: string, b: string)
    requires OneLine(a) && OneLine(b)
    ensures Lines(Replace(s, "\n" + a, "\n" + b)) == Restarted(Lines(s), a, b)
    decreases |s|
  {
    if s != [] {
      if "\n" + a <= s {
        ReplaceLines(s[|a| + 1..], a, b);
        MatchLines(s, a, b);
      } else {
        ReplaceLines(s[1..], a, b);
        NoMatchLines(s, a, b);
      }
      hide *;
    }
  }

  lemma NoMatchLines(s: string, a: string, b: string)
    requires OneLine(a) && s != [] && !("\n" + a <= s)
    requires Lines(Replace(s[1..], "\n" + a, "\n" + b)) == Restarted(Lines(s[1..]), a, b)
    ensures Lines(Replace(s, "\n" + a, "\n" + b)) == Restarted(Lines(s), a, b)
  {
    hide Lines, OneLine;
    var replaced, lines := Replace(s, "\n" + a, "\n" + b), Lines(s[1..]);
    var after := Restarted(lines, a, b);
    assert replaced[0] == s[0] && replaced[1..] == Replace(s[1..], "\n" + a, "\n" + b);
    hide Replace;
    StartsLine(a, s);
    FirstLine(a, s[1..]);
    LinesIs(s);
    LinesIs(replaced);
    RestartedSame(s[0], lines, a, b);
    hide *;
  }

  lemma RestartedSame(c: char, lines: seq<string>, a: string, b: string)
    requires lines != []
    ensures !(a <= lines[0]) ==> Restarted([""] + lines, a, b) == [""] + Restarted(lines, a, b)
    ensures Restarted([[c] + lines[0]] + lines[1..], a, b) == [[c] + lines[0]] + Restarted(lines, a, b)[1..]
  {
  }

  /** One unfolding of `Lines`. */
  lemma LinesIs(s: string)
    requires s != []
    ensures var rest := Lines(s[1..]);
            Lines(s) == if s[0] == '\n' then [""] + rest else [[s[0]] + rest[0]] + rest[1..]
  {
  }

  lemma MatchLines(s: string, a: string, b: string)
    requires OneLine(a) && OneLine(b) && "\n" + a <= s
    requires var rest := s[|a| + 1..]; Lines(Replace(rest, "\n" + a, "\n" + b)) == Restarted(Lines(rest), a, b)
    ensures Lines(Replace(s, "\n" + a, "\n" + b)) == Restarted(Lines(s), a, b)
  {
    var rest := s[|a| + 1..];
    var after, replaced := Replace(rest, "\n" + a, "\n" + b), Replace(s, "\n" + a, "\n" + b);
    assert s == "\n" + a + rest;
    assert replaced == "\n" + b + after;
    NextLine(a, rest);
    NextLine(b, after);
    hide Lines, Replace;
    RestartedNext(Lines(rest), a, b);
  }

  lemma NextLine(line: string, rest: string)
    requires OneLine(line)
    ensures Lines("\n" + line + rest) == ["", line + Lines(rest)[0]] + Lines(rest)[1..]
  {
    hide Lines;
    var s := "\n" + line + rest;
    assert s[0] == '\n' && s[1..] == line + rest;
    LinesAfter(line, rest);
    LinesIs(s);
  }

  lemma RestartedNext(lines: seq<string>, a: string, b: string)
    requires lines != []
    ensures Restarted(["", a + lines[0]] + lines[1..], a, b)
         == ["", b + Restarted(lines, a, b)[0]] + Restarted(lines, a, b)[1..]
  {
    assert (a + lines[0])[|a|..] == lines[0];
  }

  /******* What is published *******/

  lemma Shims()
    ensures LineStarts(FUNC, PUBLIC + FUNC)
    ensures PUBLIC_SHIM == "\n" + (PUBLIC + FUNC) && |PUBLIC_SHIM| == |INTERNAL_SHIM| + |PUBLIC|
  {
    assert FUNC[0] == 'f' && (PUBLIC + FUNC)[0] == 'p';
  }

  lemma ShimTexts()
    ensures INTERNAL_SHIM == "\nfunc __swift_bridge__" && PUBLIC_SHIM == "\npublic func __swift_bridge__"
  {
  }

  /** The published lines: each as it was, but with `public ` before it exactly
      where it is an internal shim. Nothing comes before the first line, so that
      one isn't taken for a shim. */
  function Published(lines: seq<string>): seq<string> {
    Prefixed(lines, FUNC, PUBLIC)
  }

  function Prefixed(lines: seq<string>, a: string, prefix: string): seq<string> {
    seq(|lines|, k requires 0 <= k < |lines| => if k > 0 && a <= lines[k] then prefix + lines[k] else lines[k])
  }

  lemma RestartedPrefixed(lines: seq<string>, a: string, prefix: string)
    ensures Restarted(lines, a, prefix + a) == Prefixed(lines, a, prefix)
  {
    forall k | 0 <= k < |lines| ensures Restarted(lines, a, prefix + a)[k] == Prefixed(lines, a, prefix)[k] {
      if a <= lines[k] {
        assert a + lines[k][|a|..] == lines[k];
      }
    }
  }

  lemma PublishedIs(source: string)
    ensures Replace(source, INTERNAL_SHIM, PUBLIC_SHIM) == Unlines(Published(Lines(source)))
  {
    Shims();
    ReplaceLines(source, FUNC, PUBLIC + FUNC);
    UnlinesLines(Replace(source, INTERNAL_SHIM, PUBLIC_SHIM));
    RestartedPrefixed(Lines(source), FUNC, PUBLIC);
    hide *;
  }

  /** It panics exactly where there is no shim to publish. Otherwise no internal
      shim is left, each became a public one, and every line is otherwise as it
      was. */
  lemma PublishesExactly(source: string)
    ensures Publish(source).None? <==> forall i | 0 <= i < |source| :: !("\nfunc __swift_bridge__" <= source[i..])
    ensures Publish(source).Some? ==>
              var published := Publish(source).value;
              && (forall i | 0 <= i < |published| :: !("\nfunc __swift_bridge__" <= published[i..]))
              && Count(published, "\npublic func __swift_bridge__")
                 == Count(source, "\npublic func __swift_bridge__") + Count(source, "\nfunc __swift_bridge__")
              && published == Unlines(Prefixed(Lines(source), "func __swift_bridge__", "public "))
  {
    Shims();
    ShimTexts();
    var published := Replace(source, INTERNAL_SHIM, PUBLIC_SHIM);
    ReplaceCounts(source, FUNC, PUBLIC + FUNC);
    PublishedIs(source);
    CountNone(source, INTERNAL_SHIM);
    CountNone(published, INTERNAL_SHIM);
    if Count(source, INTERNAL_SHIM) == 0 {
      NothingReplaced(source, INTERNAL_SHIM, PUBLIC_SHIM);
    }
  }

  lemma {:induction false} NothingReplaced(s: string, pattern: string, with: string)
    requires pattern != [] && Count(s, pattern) == 0
    ensures Replace(s, pattern, with) == s
  {
    if s != [] {
      NothingReplaced(s[1..], pattern, with);
    }
  }

  /** Making the shims internal again gives the source back exactly where none
      was public before. */
  lemma UnpublishedExactly(source: string)
    requires Publish(source).Some?
    ensures Replace(Publish(source).value, "\npublic func __swift_bridge__", "\nfunc __swift_bridge__") == source <==>
            forall i | 0 <= i < |source| :: !("\npublic func __swift_bridge__" <= source[i..])
  {
    Shims();
    ShimTexts();
    ReplaceUndone(source, FUNC, PUBLIC + FUNC);
    CountNone(source, PUBLIC_SHIM);
  }

  /** The generated glue. */
  class Glue {
    var source: string

    constructor (source: string)
      ensures this.source == source
    {
      this.source := source;
    }

    /** Reads, replaces, and writes back, or panics before it writes. */
    method PublishBridgeShims() returns (ok: bool)
      modifies this
      ensures ok <==> exists i | 0 <= i < |old(source)| :: "\nfunc __swift_bridge__" <= old(source)[i..]
      ensures ok ==> source == Replace(old(source), "\nfunc __swift_bridge__", "\npublic func __swift_bridge__")
      ensures ok ==> source == Unlines(Prefixed(Lines(old(source)), "func __swift_bridge__", "public "))
      ensures !ok ==> source == old(source)
    {
      PublishesExactly(source);
      ShimTexts();
      var published := Publish(source);
      ok := published.Some?;
      if ok {
        source := published.value;
      }
    }
  }
}

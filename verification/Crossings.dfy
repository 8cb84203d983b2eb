/**
 How collections cross the bridge: bytes joined with their lengths, maps as keys
 and values in the same order, and lists by length and index.

 A Rust map is the sequence of its entries in key order. A dictionary has one
 entry, a key as it is spelled and its value, for each class of equal keys.
 */
module Crossings {
  import opened Wrappers

  type Bytes = seq<bv8>

  /** How a language's strings are keys: `canon` names the class of those equal to
      one, and `keeps` is which of two equal keys' spellings a dictionary keeps. */
  datatype Keys = Keys(canon: string -> string, keeps: (string, string) -> string)

  /** Rust's strings are equal only to themselves. */
  const RUST := Keys(s => s, (was, _) => was)

  type Entries<V> = map<string, (string, V)>

  /** `m[key] = value`. */
  function Assigned<V>(strings: Keys, m: Entries<V>, key: string, value: V): Entries<V> {
    var c := strings.canon(key);
    m[c := (if c in m then strings.keeps(m[c].0, key) else key, value)]
  }

  /** `Dictionary(_:uniquingKeysWith: { _, last in last })`, and what assigning
      each pair in turn comes to. */
  function Dictionary<V>(strings: Keys, pairs: seq<(string, V)>): Entries<V> {
    if pairs == [] then map[] else
    var last := pairs[|pairs| - 1];
    Assigned(strings, Dictionary(strings, pairs[..|pairs| - 1]), last.0, last.1)
  }

  ghost predicate Distinct<V>(strings: Keys, pairs: seq<(string, V)>) {
    forall i, j | 0 <= i < j < |pairs| :: strings.canon(pairs[i].0) != strings.canon(pairs[j].0)
  }

  lemma {:induction false} DictionaryKeys<V>(strings: Keys, pairs: seq<(string, V)>)
    ensures forall c :: c in Dictionary(strings, pairs) <==> exists k | 0 <= k < |pairs| :: strings.canon(pairs[k].0) == c
    decreases |pairs|
  {
    if pairs != [] {
      var before := pairs[..|pairs| - 1];
      DictionaryKeys(strings, before);
      forall c ensures c in Dictionary(strings, pairs) <==> exists k | 0 <= k < |pairs| :: strings.canon(pairs[k].0) == c {
        if c in Dictionary(strings, before) {
          var k :| 0 <= k < |before| && strings.canon(before[k].0) == c;
          assert strings.canon(pairs[k].0) == c;
        }
        assert forall k | 0 <= k < |before| :: before[k] == pairs[k];
      }
    }
  }

  /** Of the keys that are equal, the last one's value is kept. */
  lemma {:induction false} LastWins<V>(strings: Keys, pairs: seq<(string, V)>, k: nat)
    requires k < |pairs| && forall j | k < j < |pairs| :: strings.canon(pairs[j].0) != strings.canon(pairs[k].0)
    ensures strings.canon(pairs[k].0) in Dictionary(strings, pairs)
    ensures Dictionary(strings, pairs)[strings.canon(pairs[k].0)].1 == pairs[k].1
    decreases |pairs|
  {
    var last := |pairs| - 1;
    if k < last {
      LastWins(strings, pairs[..last], k);
    }
  }

  lemma AddKey<V>(strings: Keys, pairs: seq<(string, V)>)
    requires pairs != []
    ensures var before, c := Dictionary(strings, pairs[..|pairs| - 1]), strings.canon(pairs[|pairs| - 1].0);
            |Dictionary(strings, pairs)| == |before| + if c in before then 0 else 1
  {
    var before, c := Dictionary(strings, pairs[..|pairs| - 1]), strings.canon(pairs[|pairs| - 1].0);
    assert Dictionary(strings, pairs).Keys == before.Keys + {c};
    assert c in before ==> before.Keys + {c} == before.Keys;
  }

  lemma {:induction false} DistinctEach<V>(strings: Keys, pairs: seq<(string, V)>)
    requires Distinct(strings, pairs)
    ensures |Dictionary(strings, pairs)| == |pairs|
    ensures forall k | 0 <= k < |pairs| :: Whole(strings, pairs, pairs[k])
    decreases |pairs|
  {
    if pairs != [] {
      var before, last := pairs[..|pairs| - 1], pairs[|pairs| - 1];
      DistinctEach(strings, before);
      DictionaryKeys(strings, before);
      AddKey(strings, pairs);
      forall k | 0 <= k < |before| ensures Whole(strings, pairs, pairs[k]) {
        assert Whole(strings, before, before[k]);
      }
    }
  }

  /** `pair` is in the dictionary as it was sent. */
  ghost predicate Whole<V>(strings: Keys, pairs: seq<(string, V)>, pair: (string, V)) {
    var m, c := Dictionary(strings, pairs), strings.canon(pair.0);
    c in m && m[c] == pair
  }

  /** Pairs whose keys are told apart are the dictionary's entries: every key as
      it was spelled, with its own value, and nothing else. */
  lemma DistinctCrossWhole<V>(strings: Keys, pairs: seq<(string, V)>)
    requires Distinct(strings, pairs)
    ensures |Dictionary(strings, pairs)| == |pairs|
    ensures forall k | 0 <= k < |pairs| :: Whole(strings, pairs, pairs[k])
    ensures Dictionary(strings, pairs).Values == set p | p in pairs
  {
    hide Dictionary, Distinct;
    DistinctEach(strings, pairs);
    DictionaryKeys(strings, pairs);
    var m := Dictionary(strings, pairs);
    forall p ensures p in m.Values <==> p in pairs {
      if p in m.Values {
        var c :| c in m && m[c] == p;
        var k :| 0 <= k < |pairs| && strings.canon(pairs[k].0) == c;
        assert Whole(strings, pairs, pairs[k]);
      }
      if p in pairs {
        assert Whole(strings, pairs, p);
      }
    }
  }

  /******* Joined bytes *******/

  /** Where the `k`th value starts. */
  function Offset(lengths: seq<nat>, k: nat): nat
    requires k <= |lengths|
  {
    if k == 0 then 0 else Offset(lengths, k - 1) + lengths[k - 1]
  }

  /** The first `k` values, joined. */
  function Joined(entries: seq<(string, Bytes)>, k: nat): Bytes
    requires k <= |entries|
  {
    if k == 0 then [] else Joined(entries, k - 1) + entries[k - 1].1
  }

  function Names<V>(entries: seq<(string, V)>): seq<string> {
    seq(|entries|, i requires 0 <= i < |entries| => entries[i].0)
  }

  function Values<V>(entries: seq<(string, V)>): seq<V> {
    seq(|entries|, i requires 0 <= i < |entries| => entries[i].1)
  }

  function Lengths(entries: seq<(string, Bytes)>): seq<nat> {
    seq(|entries|, i requires 0 <= i < |entries| => |entries[i].1|)
  }

  /** `platform::xattrs`. */
  function Xattrs(entries: seq<(string, Bytes)>): (seq<string>, seq<nat>, Bytes) {
    (Names(entries), Lengths(entries), Joined(entries, |entries|))
  }

  /** How far `zip` goes. */
  function Shorter<A, B>(a: seq<A>, b: seq<B>): (n: nat)
    ensures n <= |a| && n <= |b| && (n == |a| || n == |b|)
  {
    if |a| < |b| then |a| else |b|
  }

  lemma {:induction false} OffsetGrows(lengths: seq<nat>, k: nat, n: nat)
    requires k <= n <= |lengths|
    ensures Offset(lengths, k) <= Offset(lengths, n)
    decreases n
  {
    if k < n {
      OffsetGrows(lengths, k, n - 1);
    }
  }

  /** The first names, each with its slice of `values`. */
  ghost predicate Pieces(names: seq<string>, lengths: seq<nat>, values: Bytes, pieces: seq<(string, Bytes)>) {
    && |pieces| <= Shorter(names, lengths)
    && Offset(lengths, |pieces|) <= |values|
    && forall k | 0 <= k < |pieces| :: IsPiece(names, lengths, values, k, pieces[k])
  }

  predicate IsPiece(names: seq<string>, lengths: seq<nat>, values: Bytes, k: nat, piece: (string, Bytes))
    requires k < |names| && k < |lengths|
  {
    && Offset(lengths, k + 1) <= |values|
    && piece == (names[k], values[Offset(lengths, k)..Offset(lengths, k + 1)])
  }

  /** `dataMap`, or `None` where a slice out of bounds traps. It gives the final
      offset too, and the pieces it assigned. */
  method DataMap(strings: Keys, names: seq<string>, lengths: seq<nat>, values: Bytes)
    returns (m: Option<Entries<Bytes>>, offset: nat, ghost pieces: seq<(string, Bytes)>)
    requires |values| <= 0x7fff_ffff_ffff_ffff // a `Data`'s count is an `Int`
    ensures m.Some? <==> Offset(lengths, Shorter(names, lengths)) <= |values|
    ensures Pieces(names, lengths, values, pieces)
    ensures m.Some? ==>
              && |pieces| == Shorter(names, lengths)
              && offset == Offset(lengths, Shorter(names, lengths))
              && m.value == Dictionary(strings, pieces)
  {
    var count := Shorter(names, lengths);
    var built: Entries<Bytes> := map[];
    offset, pieces := 0, [];
    for i := 0 to count
      invariant |pieces| == i && Pieces(names, lengths, values, pieces)
      invariant offset == Offset(lengths, i)
      invariant built == Dictionary(strings, pieces)
    {
      if lengths[i] > 0x7fff_ffff_ffff_ffff || offset + lengths[i] > |values| {
        OffsetGrows(lengths, i + 1, count);
        return None, offset, pieces;
      }
      var end := offset + lengths[i];
      var piece := (names[i], values[offset..end]);
      built := Assigned(strings, built, names[i], piece.1);
      DictionaryNext(strings, pieces, piece);
      pieces := pieces + [piece];
      offset := end;
    }
    m := Some(built);
  }

  lemma DictionaryNext<V>(strings: Keys, pairs: seq<(string, V)>, next: (string, V))
    ensures Dictionary(strings, pairs + [next]) == Assigned(strings, Dictionary(strings, pairs), next.0, next.1)
  {
    assert (pairs + [next])[..|pairs|] == pairs;
  }

  lemma {:induction false} JoinedLength(entries: seq<(string, Bytes)>, k: nat)
    requires k <= |entries|
    ensures Offset(Lengths(entries), k) == |Joined(entries, k)|
    decreases k
  {
    if k > 0 {
      JoinedLength(entries, k - 1);
    }
  }

  lemma {:induction false} JoinedPrefix(entries: seq<(string, Bytes)>, k: nat, n: nat)
    requires k <= n <= |entries|
    ensures Joined(entries, k) <= Joined(entries, n)
    decreases n
  {
    if k < n {
      JoinedPrefix(entries, k, n - 1);
    }
  }

  /** The slices that the lengths cut from joined values are the values. */
  lemma JoinedPiece(entries: seq<(string, Bytes)>, k: nat)
    requires k < |entries|
    ensures IsPiece(Names(entries), Lengths(entries), Joined(entries, |entries|), k, entries[k])
  {
    JoinedLength(entries, k);
    JoinedLength(entries, k + 1);
    JoinedPrefix(entries, k + 1, |entries|);
    var values, low, high := Joined(entries, |entries|), |Joined(entries, k)|, |Joined(entries, k + 1)|;
    assert values[..high] == Joined(entries, k + 1) == Joined(entries, k) + entries[k].1;
    assert values[low..high] == values[..high][low..] == entries[k].1;
  }

  /** Extended attributes cross to Swift and are split again: every slice is in
      bounds, every byte is used, and where Swift tells the names apart, its
      entries are the attributes, each name as it is spelled. */
  method CrossXattrs(strings: Keys, entries: seq<(string, Bytes)>)
    returns (m: Option<Entries<Bytes>>, offset: nat)
    requires |Joined(entries, |entries|)| <= 0x7fff_ffff_ffff_ffff // a `Vec` holds no more than `isize::MAX` bytes
    ensures m == Some(Dictionary(strings, entries)) && offset == |Joined(entries, |entries|)|
    ensures Distinct(strings, entries) ==> |m.value| == |entries| && m.value.Values == set e | e in entries
  {
    var (names, lengths, values) := Xattrs(entries);
    JoinedLength(entries, |entries|);
    ghost var pieces;
    m, offset, pieces := DataMap(strings, names, lengths, values);
    forall k | 0 <= k < |entries| ensures pieces[k] == entries[k] {
      JoinedPiece(entries, k);
      assert IsPiece(names, lengths, values, k, pieces[k]);
    }
    assert pieces == entries;
    if Distinct(strings, entries) {
      DistinctCrossWhole(strings, entries);
    }
  }

  /******* Lists and maps lent by index *******/

  /** A `list` field, or an `optional_list` one that may be absent: its length,
      and its element at an index, or `None` where the getter panics. */
  function Len<T>(field: Option<seq<T>>): nat {
    match field
    case None => 0
    case Some(list) => |list|
  }

  function At<T>(field: Option<seq<T>>, index: nat): Option<T> {
    match field
    case None => None // `present` is unreachable
    case Some(list) => if index < |list| then Some(list[index]) else None
  }

  /** `entry_at` of a `map` field, or of an `optional_map` one, by its key and by
      its value, or `None` where that is unreachable. */
  function KeyAt<V>(field: Option<seq<(string, V)>>, index: nat): Option<string> {
    match At(field, index)
    case None => None
    case Some(entry) => Some(entry.0)
  }

  function ValueAt<V>(field: Option<seq<(string, V)>>, index: nat): Option<V> {
    match At(field, index)
    case None => None
    case Some(entry) => Some(entry.1)
  }

  /** What is lent is there exactly below the length, which is zero for a field
      that is absent. */
  lemma LentExactly<V>(field: Option<seq<(string, V)>>, index: nat)
    ensures At(field, index).Some? <==> index < Len(field)
    ensures KeyAt(field, index).Some? <==> index < Len(field)
    ensures ValueAt(field, index).Some? <==> index < Len(field)
    ensures field.None? ==> Len(field) == 0
  {
  }

  /** `list(count, element)`, on either side. It stops, with `None`, at an element
      that isn't there. */
  method ListOf<T>(count: nat, at: nat -> Option<T>) returns (list: Option<seq<T>>)
    ensures list.Some? <==> forall i: nat | i < count :: at(i).Some?
    ensures list.Some? ==> |list.value| == count && forall i: nat | i < count :: at(i) == Some(list.value[i])
  {
    var elements: seq<T> := [];
    for index := 0 to count
      invariant |elements| == index && forall i: nat | i < index :: at(i) == Some(elements[i])
    {
      var element := at(index);
      if element == None {
        return None;
      }
      elements := elements + [element.value];
    }
    list := Some(elements);
  }

  /** `dictionary(count, key, value)`, which asks for each key and then its value. */
  method DictionaryOf<V>(strings: Keys, count: nat, keyAt: nat -> Option<string>, valueAt: nat -> Option<V>)
    returns (m: Option<Entries<V>>, ghost pairs: seq<(string, V)>)
    ensures m.Some? <==> forall i: nat | i < count :: keyAt(i).Some? && valueAt(i).Some?
    ensures m.Some? ==>
              && |pairs| == count && m.value == Dictionary(strings, pairs)
              && forall i: nat | i < count :: keyAt(i) == Some(pairs[i].0) && valueAt(i) == Some(pairs[i].1)
  {
    var elements: seq<(string, V)> := [];
    pairs := [];
    for index := 0 to count
      invariant |elements| == index
      invariant forall i: nat | i < index :: keyAt(i) == Some(elements[i].0) && valueAt(i) == Some(elements[i].1)
    {
      var key := keyAt(index);
      if key == None {
        return None, pairs;
      }
      var value := valueAt(index);
      if value == None {
        return None, pairs;
      }
      elements := elements + [(key.value, value.value)];
    }
    m, pairs := Some(Dictionary(strings, elements)), elements;
  }

  /** A list that Rust lends is rebuilt as it is, or is absent where it was, and no
      getter panics. */
  method LendList<T>(field: Option<seq<T>>) returns (lent: Option<Option<seq<T>>>)
    ensures lent == Some(field)
  {
    if field == None {
      return Some(None);
    }
    var list := ListOf(Len(field), (index: nat) => At(field, index));
    assert forall i: nat | i < Len(field) :: At(field, i) == Some(field.value[i]);
    assert list.value == field.value;
    lent := Some(list);
  }

  /** A map that Rust lends is the dictionary of its entries, or is absent where
      it was, and no getter panics. Where the keys are told apart, its entries are
      the map's. */
  method LendMap<V(==)>(strings: Keys, field: Option<seq<(string, V)>>) returns (lent: Option<Option<Entries<V>>>)
    ensures lent == Some(if field.Some? then Some(Dictionary(strings, field.value)) else None)
    ensures field.Some? && Distinct(strings, field.value) ==>
              |lent.value.value| == |field.value| && lent.value.value.Values == set e | e in field.value
  {
    if field == None {
      return Some(None);
    }
    var m, pairs := DictionaryOf(strings, Len(field), (index: nat) => KeyAt(field, index), (index: nat) => ValueAt(field, index));
    assert forall i: nat | i < Len(field) ::
        KeyAt(field, i) == Some(field.value[i].0) && ValueAt(field, i) == Some(field.value[i].1);
    assert pairs == field.value;
    if Distinct(strings, field.value) {
      DistinctCrossWhole(strings, field.value);
    }
    lent := Some(m);
  }

  /** Keys and values sent apart come together as they were, and no entry is lost
      exactly where the keys are told apart. */
  lemma SentCrosses<V>(strings: Keys, entries: seq<(string, V)>)
    ensures Dictionary(strings, Zip(Names(entries), Values(entries))) == Dictionary(strings, entries)
    ensures |Dictionary(strings, entries)| == |entries| <==> Distinct(strings, entries)
  {
    assert Zip(Names(entries), Values(entries)) == entries;
    if Distinct(strings, entries) {
      DistinctCrossWhole(strings, entries);
    } else {
      FewerThanSent(strings, entries);
    }
  }

  lemma {:induction false} AtMostSent<V>(strings: Keys, pairs: seq<(string, V)>)
    ensures |Dictionary(strings, pairs)| <= |pairs|
    decreases |pairs|
  {
    if pairs != [] {
      AddKey(strings, pairs);
      AtMostSent(strings, pairs[..|pairs| - 1]);
    }
  }

  /** Keys that Swift takes as equal lose an entry. */
  lemma {:induction false} FewerThanSent<V>(strings: Keys, pairs: seq<(string, V)>)
    requires !Distinct(strings, pairs)
    ensures |Dictionary(strings, pairs)| < |pairs|
    decreases |pairs|
  {
    hide Dictionary;
    var before := pairs[..|pairs| - 1];
    AddKey(strings, pairs);
    AtMostSent(strings, before);
    if Distinct(strings, before) {
      var i, j :| 0 <= i < j < |pairs| && strings.canon(pairs[i].0) == strings.canon(pairs[j].0);
      assert forall k | 0 <= k < |before| :: before[k] == pairs[k];
      assert j == |before|;
      DictionaryKeys(strings, before);
    } else {
      FewerThanSent(strings, before);
    }
  }

  /******* Dictionaries sent as sorted keys and values *******/

  ghost predicate Ascending(keys: seq<string>, less: (string, string) -> bool) {
    forall i, j | 0 <= i < j < |keys| :: less(keys[i], keys[j])
  }

  /** `keys` is how some sort of `all` by `less` comes out. */
  ghost predicate Sorts(keys: seq<string>, all: set<string>, less: (string, string) -> bool) {
    Ascending(keys, less) && forall k :: k in keys <==> k in all
  }

  function ValuesOf<V>(m: map<string, V>, keys: seq<string>): seq<V>
    requires forall k | k in keys :: k in m
  {
    seq(|keys|, i requires 0 <= i < |keys| => m[keys[i]])
  }

  function Zip<A, B>(a: seq<A>, b: seq<B>): seq<(A, B)> {
    seq(Shorter(a, b), i requires 0 <= i < Shorter(a, b) => (a[i], b[i]))
  }

  /** `entryKeys` and `entryValues` each sort the dictionary anew. As no two keys
      compare equal, both sorts come out the same. */
  lemma {:induction false} SortsAlike(a: seq<string>, b: seq<string>, all: set<string>, less: (string, string) -> bool)
    requires Sorts(a, all, less) && Sorts(b, all, less)
    requires forall x, y :: less(x, y) ==> !less(y, x)
    ensures a == b
    decreases |a|
  {
    if b != [] {
      assert b[0] in b && b[0] in a;
    }
    if a != [] {
      assert a[0] in a && a[0] in b;
      var first := FirstAlike(a, b, all, less);
      SortsRest(a, all, less);
      SortsRest(b, all, less);
      SortsAlike(a[1..], b[1..], all - {first}, less);
    }
  }

  lemma FirstAlike(a: seq<string>, b: seq<string>, all: set<string>, less: (string, string) -> bool)
    returns (first: string)
    requires Sorts(a, all, less) && Sorts(b, all, less) && a != [] && b != []
    requires forall x, y :: less(x, y) ==> !less(y, x)
    ensures a[0] == b[0] == first
  {
    first := a[0];
    assert a[0] in a && b[0] in b;
    var i :| 0 <= i < |a| && a[i] == b[0];
    var j :| 0 <= j < |b| && b[j] == a[0];
    FirstIsLeast(a, less, i);
    FirstIsLeast(b, less, j);
  }

  lemma FirstIsLeast(keys: seq<string>, less: (string, string) -> bool, i: nat)
    requires Ascending(keys, less) && i < |keys|
    ensures i == 0 || less(keys[0], keys[i])
  {
  }

  lemma SortsRest(keys: seq<string>, all: set<string>, less: (string, string) -> bool)
    requires Sorts(keys, all, less) && keys != []
    requires forall x, y :: less(x, y) ==> !less(y, x)
    ensures Sorts(keys[1..], all - {keys[0]}, less)
  {
    forall k ensures k in keys[1..] <==> k in all - {keys[0]} {
      if k in keys[1..] {
        var i :| 1 <= i < |keys| && keys[i] == k;
        assert less(keys[0], keys[i]);
      }
      if k in all && k != keys[0] {
        var i :| 0 <= i < |keys| && keys[i] == k;
        assert keys[1..][i - 1] == k;
      }
    }
  }

  /** A dictionary that Rust reads through `entry_keys` and `entry_values` is
      collected whole, whichever way each sort ran. */
  lemma SortedCrosses<V>(m: map<string, V>, keys: seq<string>, keysOfValues: seq<string>,
                         less: (string, string) -> bool)
    requires Sorts(keys, m.Keys, less) && Sorts(keysOfValues, m.Keys, less)
    requires forall x, y :: less(x, y) ==> !less(y, x)
    ensures Dictionary(RUST, Zip(keys, ValuesOf(m, keysOfValues))) == map k | k in m :: (k, m[k])
  {
    SortsAlike(keys, keysOfValues, m.Keys, less);
    forall i, j | 0 <= i < j < |keys| ensures keys[i] != keys[j] {
      assert less(keys[i], keys[j]);
    }
    hide Ascending;
    Collected(m, keys);
  }

  /** A dictionary that Rust reads through `map_keys` and `map_values`, which come
      in one order, whatever that is, is collected whole. */
  lemma Collected<V>(m: map<string, V>, keys: seq<string>)
    requires (forall k :: k in keys <==> k in m) && forall i, j | 0 <= i < j < |keys| :: keys[i] != keys[j]
    ensures Dictionary(RUST, Zip(keys, ValuesOf(m, keys))) == map k | k in m :: (k, m[k])
  {
    hide Dictionary;
    var pairs := Zip(keys, ValuesOf(m, keys));
    assert Distinct(RUST, pairs);
    DictionaryKeys(RUST, pairs);
    DistinctCrossWhole(RUST, pairs);
    hide Distinct;
    var collected := Dictionary(RUST, pairs);
    forall k ensures k in collected <==> k in m
      ensures k in m ==> collected[k] == (k, m[k])
    {
      if k in m {
        var i :| 0 <= i < |keys| && keys[i] == k;
        assert Whole(RUST, pairs, pairs[i]) && pairs[i] == (k, m[k]);
      }
    }
  }
}

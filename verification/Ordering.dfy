/** A `PartialOrd` made from asking Swift `<` both ways
    (src/containerization_extras/address). */
module Ordering {
  import opened Wrappers

  datatype Order = Less | Equal | Greater

  /** What `partial_cmp` comes to: an order or none, or the panic of a platform
      where Swift can't be asked. */
  datatype Compared = Ordered(order: Option<Order>) | Panics(message: string)

  function Compare<T(==)>(lhs: T, rhs: T, less: (T, T) -> Result<bool, string>): Compared {
    match less(lhs, rhs)
    case Err(message) => Panics(message)
    case Ok(true) => Ordered(Some(Less))
    case Ok(false) =>
      match less(rhs, lhs)
      case Err(message) => Panics(message)
      case Ok(true) => Ordered(Some(Greater))
      case Ok(false) => Ordered(if lhs == rhs then Some(Equal) else None)
  }

  /** Swift's `<`, where Swift can always be asked. */
  function Asked<T>(less: (T, T) -> bool): (T, T) -> Result<bool, string> {
    (a, b) => Ok(less(a, b))
  }

  ghost predicate Asymmetric<T(!new)>(less: (T, T) -> bool) {
    forall a, b :: less(a, b) ==> !less(b, a)
  }

  ghost predicate Transitive<T(!new)>(less: (T, T) -> bool) {
    forall a, b, c :: less(a, b) && less(b, c) ==> less(a, c)
  }

  /** `a` is `order` against `b`. */
  predicate Is<T(==)>(a: T, order: Order, b: T, less: (T, T) -> bool) {
    Compare(a, b, Asked(less)) == Ordered(Some(order))
  }

  /** What Rust asks of a `PartialOrd`. */
  ghost predicate Lawful<T(!new)>(less: (T, T) -> bool) {
    && (forall a, b :: Is(a, Less, b, less) <==> Is(b, Greater, a, less))
    && (forall a, b, c :: Is(a, Less, b, less) && Is(b, Less, c, less) ==> Is(a, Less, c, less))
    && (forall a, b, c :: Is(a, Greater, b, less) && Is(b, Greater, c, less) ==> Is(a, Greater, c, less))
    && (forall a, b :: Is(a, Equal, b, less) <==> a == b)
  }

  /** The laws hold exactly when `<` is asymmetric and transitive. */
  lemma LawfulExactly<T(!new)>(less: (T, T) -> bool)
    ensures Lawful(less) <==> Asymmetric(less) && Transitive(less)
  {
    assert forall a, b :: Is(a, Less, b, less) <==> less(a, b);
    if Asymmetric(less) {
      assert forall a, b :: Is(b, Greater, a, less) <==> less(a, b);
      assert forall a, b :: Is(a, Equal, b, less) <==> a == b;
    }
    if Lawful(less) {
      forall a, b | less(a, b) ensures !less(b, a) {
        assert Is(a, Less, b, less) && Is(b, Greater, a, less);
      }
      assert Asymmetric(less);
    }
  }

  /** The other way round. */
  function Reversed(c: Compared): Compared {
    match c
    case Ordered(Some(Less)) => Ordered(Some(Greater))
    case Ordered(Some(Greater)) => Ordered(Some(Less))
    case _ => c
  }

  /** Asked in the other order, the answer is the other way round, exactly where
      Swift doesn't have each less than the other. Where it has, both are `Less`.
      A question that fails can turn an answer into a panic, but never into
      another answer. */
  lemma ReversesExactly<T>(lhs: T, rhs: T, less: (T, T) -> Result<bool, string>)
    ensures less(lhs, rhs).Ok? && less(rhs, lhs).Ok? ==>
              (Compare(rhs, lhs, less) == Reversed(Compare(lhs, rhs, less)) <==>
               !(less(lhs, rhs).value && less(rhs, lhs).value))
    ensures Compare(lhs, rhs, less).Ordered? && Compare(rhs, lhs, less).Panics? ==>
              less(lhs, rhs) == Ok(true) && less(rhs, lhs).Err?
  {
  }

  /******* IPv6 addresses *******/

  type U128 = n: nat | n < 0x1_0000_0000_0000_0000_0000_0000_0000_0000

  datatype IPv6Address = IPv6Address(value: U128, zone: Option<string>)

  /** Swift orders an absent zone as an empty one. */
  function ZoneText(a: IPv6Address): string {
    if a.zone.Some? then a.zone.value else ""
  }

  /** Swift's `<`: by value and then by zone, whose order is Swift's `String`'s. */
  function ByValueThenZone(zoneLess: (string, string) -> bool): (IPv6Address, IPv6Address) -> bool {
    (a: IPv6Address, b: IPv6Address) =>
      a.value < b.value || (a.value == b.value && zoneLess(ZoneText(a), ZoneText(b)))
  }

  /** Addresses with one value are ordered as their zones are, an absent one as an
      empty one. */
  lemma ZonesOrder(value: U128, x: Option<string>, y: Option<string>, zoneLess: (string, string) -> bool)
    ensures Is(IPv6Address(value, x), Less, IPv6Address(value, y), ByValueThenZone(zoneLess)) <==>
            zoneLess(if x.Some? then x.value else "", if y.Some? then y.value else "")
    ensures Asymmetric(zoneLess) ==> Unordered(IPv6Address(value, None), IPv6Address(value, Some("")), zoneLess)
  {
    var a, b := IPv6Address(value, x), IPv6Address(value, y);
    assert ByValueThenZone(zoneLess)(a, b) <==> zoneLess(ZoneText(a), ZoneText(b));
    assert Asymmetric(zoneLess) ==> !zoneLess("", "");
    UnorderedMeans(IPv6Address(value, None), IPv6Address(value, Some("")), zoneLess);
  }

  predicate Unordered(a: IPv6Address, b: IPv6Address, zoneLess: (string, string) -> bool) {
    Compare(a, b, Asked(ByValueThenZone(zoneLess))) == Ordered(None)
  }

  /** They differ only in that one has no zone and the other an empty one. */
  predicate DifferInEmptyZone(a: IPv6Address, b: IPv6Address) {
    a.value == b.value && a.zone != b.zone && ZoneText(a) == ZoneText(b)
  }

  /** Addresses are partially ordered wherever zones are, and a lower value comes
      before a higher one. */
  lemma IPv6Lawful(zoneLess: (string, string) -> bool)
    requires Asymmetric(zoneLess) && Transitive(zoneLess)
    ensures Lawful(ByValueThenZone(zoneLess))
    ensures forall a: IPv6Address, b: IPv6Address | a.value < b.value :: Is(a, Less, b, ByValueThenZone(zoneLess))
  {
    var less := ByValueThenZone(zoneLess);
    forall a, b | less(a, b) ensures !less(b, a) {
      assert zoneLess(ZoneText(a), ZoneText(b)) ==> !zoneLess(ZoneText(b), ZoneText(a));
    }
    forall a, b, c | less(a, b) && less(b, c) ensures less(a, c) {
      assert zoneLess(ZoneText(a), ZoneText(b)) && zoneLess(ZoneText(b), ZoneText(c)) ==>
          zoneLess(ZoneText(a), ZoneText(c));
    }
    assert Asymmetric(less) && Transitive(less);
    hide ByValueThenZone, Lawful;
    LawfulExactly(less);
  }

  lemma UnorderedMeans(a: IPv6Address, b: IPv6Address, zoneLess: (string, string) -> bool)
    ensures Unordered(a, b, zoneLess) <==>
            a != b && a.value == b.value && !zoneLess(ZoneText(a), ZoneText(b)) && !zoneLess(ZoneText(b), ZoneText(a))
  {
  }

  /** `canon` names the class of a string among those that Swift can't order. */
  ghost predicate Classes(canon: string -> string, zoneLess: (string, string) -> bool) {
    forall x, y :: canon(x) == canon(y) <==> !zoneLess(x, y) && !zoneLess(y, x)
  }

  /** Addresses are unordered exactly where they have the same value and zones
      that differ in Rust but not in Swift. */
  lemma UnorderedExactly(a: IPv6Address, b: IPv6Address, canon: string -> string, zoneLess: (string, string) -> bool)
    requires Classes(canon, zoneLess)
    ensures Unordered(a, b, zoneLess) <==>
            a.value == b.value && a.zone != b.zone && canon(ZoneText(a)) == canon(ZoneText(b))
  {
    UnorderedMeans(a, b, zoneLess);
  }

  /** What the documentation says of a pair, that it is unordered only where one
      has no zone and the other an empty one, is so exactly unless the zones are
      different text that Swift takes as equal. */
  lemma DocumentedExactly(a: IPv6Address, b: IPv6Address, canon: string -> string, zoneLess: (string, string) -> bool)
    requires Classes(canon, zoneLess)
    ensures (Unordered(a, b, zoneLess) <==> DifferInEmptyZone(a, b)) <==>
            !(a.value == b.value && ZoneText(a) != ZoneText(b) && canon(ZoneText(a)) == canon(ZoneText(b)))
  {
    UnorderedExactly(a, b, canon, zoneLess);
  }

  /** An "é" of one scalar, and one of two, which Swift takes as equal. */
  const COMPOSED := "\U{e9}"
  const DECOMPOSED := "e\U{301}"

  /** A pair that the documentation leaves out. */
  lemma AccentedZones(value: U128, canon: string -> string, zoneLess: (string, string) -> bool)
    requires Classes(canon, zoneLess) && canon(COMPOSED) == canon(DECOMPOSED)
    ensures var a, b := IPv6Address(value, Some(COMPOSED)), IPv6Address(value, Some(DECOMPOSED));
            Unordered(a, b, zoneLess) && !DifferInEmptyZone(a, b)
  {
    assert |COMPOSED| != |DECOMPOSED|;
    UnorderedExactly(IPv6Address(value, Some(COMPOSED)), IPv6Address(value, Some(DECOMPOSED)), canon, zoneLess);
  }
}

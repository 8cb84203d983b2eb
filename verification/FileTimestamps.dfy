/**
 The ext4 form of a timestamp (src/containerization_ext4/file_timestamps.rs),
 against the decoder that "Inode Timestamps" in the Linux kernel's "ext4 Data
 Structures and Algorithms" gives. A time is its exact seconds since 1970.
 */
module FileTimestamps {
  import opened Bits

  const SECONDS_FROM_1970_TO_2001: real := 978_307_200.0

  /** `Date.distantPast`, in seconds since 2001. */
  const DISTANT_PAST: real := -63_114_076_800.0

  const FIRST_SECOND: int := -0x8000_0000
  const LAST_SECOND: int := 0x3_7fff_ffff

  function Nanoseconds(fraction: real): nat
    requires 0.0 <= fraction < 1.0
  {
    var n := (fraction * 1_000_000_000.0).Floor;
    if n < 999_999_999 then n else 999_999_999
  }

  function Fs(time: real): nat {
    var since2001 := time - SECONDS_FROM_1970_TO_2001;
    if since2001 == DISTANT_PAST then 0 else
    var seconds := since2001 + SECONDS_FROM_1970_TO_2001;
    if seconds < FIRST_SECOND as real then 0x8000_0000
    else if seconds > LAST_SECOND as real then 0x3_7fff_ffff
    else
      var whole := seconds.Floor;
      var base := I32(whole);
      var epoch := U64(whole - base);
      Or(Or(U64(U32(base)), epoch), U64(Nanoseconds(seconds - whole as real) * TWO_34))
  }

  function Lo(word: nat): nat {
    U32(word)
  }

  function Hi(word: nat): nat {
    U32(word / TWO_32)
  }

  /******* What the kernel reads *******/

  datatype Timestamp = Timestamp(seconds: int, nanoseconds: nat)

  /** The low 32 bits are signed seconds. The extra field's low two bits extend
      them to 34 bits, and its other 30 are nanoseconds. */
  function Decode(lo: nat, hi: nat): Timestamp {
    Timestamp(I32(lo) + (hi % 4) * TWO_32, hi / 4)
  }

  function Decoded(word: nat): Timestamp {
    Decode(Lo(word), Hi(word))
  }

  function InNanoseconds(t: Timestamp): int {
    t.seconds * 1_000_000_000 + t.nanoseconds
  }

  function Time(t: Timestamp): real {
    t.seconds as real + t.nanoseconds as real / 1_000_000_000.0
  }

  function Clamp(x: int, low: int, high: int): int {
    if x < low then low else if x > high then high else x
  }

  /** A time rounded down to a nanosecond, and clamped to what 34 bits hold. */
  function Representable(time: real): int {
    Clamp((time * 1_000_000_000.0).Floor, -0x8000_0000 * 1_000_000_000, 0x3_7fff_ffff * 1_000_000_000)
  }

  predicate IsDistantPast(time: real) {
    time - SECONDS_FROM_1970_TO_2001 == DISTANT_PAST
  }

  predicate InRange(seconds: int) {
    FIRST_SECOND <= seconds <= LAST_SECOND
  }

  /** The seconds as a signed word, and how often they wrapped. */
  lemma Wraps(whole: int) returns (k: nat)
    requires InRange(whole)
    ensures k < 4 && whole == I32(whole) + k * TWO_32
    ensures U32(I32(whole)) == U32(whole)
  {
    k := (whole - I32(whole)) / TWO_32;
  }

  lemma WrapsUnique(base: int, k: nat)
    requires -0x8000_0000 <= base < 0x8000_0000 && k < 4
    ensures I32(base + k * TWO_32) == base && U32(base + k * TWO_32) == U32(base)
    ensures I32(U32(base)) == base
  {
    assert (base + k * TWO_32) % TWO_32 == base % TWO_32;
  }

  lemma FitsU64(x: nat)
    requires x < TWO_64
    ensures U64(x) == x
  {
  }

  /** The word `Fs` packs, whose three fields share no bit. */
  lemma Packed(base: int, k: nat, nanoseconds: nat)
    requires -0x8000_0000 <= base < 0x8000_0000 && k < 4 && nanoseconds < 1_000_000_000
    ensures var low, epoch, high := U64(U32(base)), U64(k * TWO_32), U64(nanoseconds * TWO_34);
            && And(low, epoch) == 0 && And(Or(low, epoch), high) == 0
            && Or(Or(low, epoch), high) == U32(base) + (k + 4 * nanoseconds) * TWO_32
  {
    var low := U32(base);
    FitsU64(low);
    FitsU64(k * TWO_32);
    FitsU64(nanoseconds * TWO_34);
    Powers();
    OrOfFields(low, k, 32);
    OrOfFields(low + k * TWO_32, nanoseconds, 34);
    hide U32, U64, Or, And, Pow2;
  }

  /** What the kernel reads of a packed word. */
  lemma PackedDecodes(base: int, k: nat, nanoseconds: nat)
    requires -0x8000_0000 <= base < 0x8000_0000 && k < 4 && nanoseconds < 1_000_000_000
    ensures var word := U32(base) + (k + 4 * nanoseconds) * TWO_32;
            word < TWO_64 && Decoded(word) == Timestamp(base + k * TWO_32, nanoseconds)
  {
    WrapsUnique(base, k);
    var lo, hi := U32(base), k + 4 * nanoseconds;
    SplitWord(lo, hi);
    assert hi % 4 == k && hi / 4 == nanoseconds;
    hide U32, I32, Lo, Hi;
  }

  lemma SplitWord(lo: nat, hi: nat)
    requires lo < TWO_32 && hi < TWO_32
    ensures var word := lo + hi * TWO_32; word < TWO_64 && Lo(word) == lo && Hi(word) == hi
  {
    var word := lo + hi * TWO_32;
    assert word / TWO_32 == hi && word % TWO_32 == lo;
  }

  lemma JoinWord(word: nat)
    requires word < TWO_64
    ensures word == Lo(word) + Hi(word) * TWO_32
  {
    assert word / TWO_32 < TWO_32;
  }

  lemma FloorNanoseconds(time: real)
    ensures 0.0 <= time - time.Floor as real < 1.0
    ensures Nanoseconds(time - time.Floor as real) < 1_000_000_000
    ensures (time * 1_000_000_000.0).Floor
         == time.Floor * 1_000_000_000 + Nanoseconds(time - time.Floor as real)
  {
    var whole, fraction := time.Floor, time - time.Floor as real;
    var n := (fraction * 1_000_000_000.0).Floor;
    assert time * 1_000_000_000.0 == (whole * 1_000_000_000) as real + fraction * 1_000_000_000.0;
    assert (whole * 1_000_000_000 + n) as real <= time * 1_000_000_000.0 < (whole * 1_000_000_000 + n + 1) as real;
  }

  /** The branch of `Fs` that packs. */
  lemma PacksInRange(time: real) returns (base: int, k: nat, nanoseconds: nat)
    requires !IsDistantPast(time) && FIRST_SECOND as real <= time <= LAST_SECOND as real
    ensures -0x8000_0000 <= base < 0x8000_0000 && k < 4 && nanoseconds < 1_000_000_000
    ensures time.Floor == base + k * TWO_32 && nanoseconds == Nanoseconds(time - time.Floor as real)
    ensures Fs(time) == U32(base) + (k + 4 * nanoseconds) * TWO_32
    ensures time.Floor == LAST_SECOND ==> nanoseconds == 0
  {
    hide Fs, U32, U64, I32, Or, And, Nanoseconds;
    var whole := time.Floor;
    FloorNanoseconds(time);
    if whole == LAST_SECOND {
      LastSecondWhole(time);
    }
    base, nanoseconds := I32(whole), Nanoseconds(time - whole as real);
    k := Wraps(whole);
    Packed(base, k, nanoseconds);
    FsInRange(time);
  }

  lemma FsInRange(time: real)
    requires !IsDistantPast(time) && FIRST_SECOND as real <= time <= LAST_SECOND as real
    ensures 0.0 <= time - time.Floor as real < 1.0
    ensures var whole := time.Floor;
            Fs(time) == Or(Or(U64(U32(I32(whole))), U64(whole - I32(whole))),
                           U64(Nanoseconds(time - whole as real) * TWO_34))
  {
    hide U32, U64, I32, Or, And, Nanoseconds;
    assert time - SECONDS_FROM_1970_TO_2001 + SECONDS_FROM_1970_TO_2001 == time;
  }

  /** A time in the last second is that second. */
  lemma LastSecondWhole(time: real)
    requires time <= LAST_SECOND as real && time.Floor == LAST_SECOND
    ensures Nanoseconds(time - time.Floor as real) == 0
  {
    assert time == LAST_SECOND as real;
  }

  lemma RoundTripInRange(time: real)
    requires !IsDistantPast(time) && FIRST_SECOND as real <= time <= LAST_SECOND as real
    ensures Fs(time) < TWO_64
    ensures Decoded(Fs(time)) == Timestamp(time.Floor, Nanoseconds(time - time.Floor as real))
    ensures InNanoseconds(Decoded(Fs(time))) == Representable(time)
    ensures InRange(time.Floor) && Nanoseconds(time - time.Floor as real) < 1_000_000_000
    ensures time.Floor == LAST_SECOND ==> Nanoseconds(time - time.Floor as real) == 0
  {
    var base, k, nanoseconds := PacksInRange(time);
    PackedDecodes(base, k, nanoseconds);
    FloorNanoseconds(time);
    hide Fs, Decoded, U32, Nanoseconds;
  }

  lemma RoundTripOutOfRange(time: real)
    requires IsDistantPast(time) || time < FIRST_SECOND as real || time > LAST_SECOND as real
    ensures Fs(time) < TWO_64
    ensures Decoded(Fs(time)) == Timestamp(
                                   if IsDistantPast(time) then 0 else if time < 0.0 then FIRST_SECOND else LAST_SECOND, 0)
    ensures IsDistantPast(time) ==> Representable(time) == FIRST_SECOND * 1_000_000_000
    ensures !IsDistantPast(time) ==> InNanoseconds(Decoded(Fs(time))) == Representable(time)
  {
    hide Or, And;
    assert I32(0) == 0 && I32(0x8000_0000) == FIRST_SECOND && I32(0x7fff_ffff) == 0x7fff_ffff;
    assert Lo(0x3_7fff_ffff) == 0x7fff_ffff && Hi(0x3_7fff_ffff) == 3;
    assert Lo(0x8000_0000) == 0x8000_0000 && Hi(0x8000_0000) == 0;
  }

  /** Every time but `distantPast`, and only those, decodes to itself, rounded
      down to a nanosecond and clamped. `distantPast` decodes to 1970. */
  lemma RoundTrip(time: real)
    ensures InNanoseconds(Decoded(Fs(time))) == Representable(time) <==> !IsDistantPast(time)
    ensures IsDistantPast(time) ==> Decoded(Fs(time)) == Timestamp(0, 0)
    ensures Fs(time) < TWO_64 && Decodable(Decoded(Fs(time)))
  {
    if IsDistantPast(time) || time < FIRST_SECOND as real || time > LAST_SECOND as real {
      RoundTripOutOfRange(time);
    } else {
      RoundTripInRange(time);
    }
    hide Fs, Decoded, Representable, Nanoseconds;
  }

  /** Only `distantPast`, the first instant of year 1, and the first nanosecond of
      1970 are encoded as zero. */
  lemma ZeroExactly(time: real)
    ensures Fs(time) == 0 <==> time == -62_135_769_600.0 || 0.0 <= time < 0.000_000_001
  {
    assert IsDistantPast(time) <==> time == -62_135_769_600.0;
    if IsDistantPast(time) || time < FIRST_SECOND as real || time > LAST_SECOND as real {
      hide Or, And;
    } else {
      var base, k, nanoseconds := PacksInRange(time);
      FloorNanoseconds(time);
      WrapsUnique(base, k);
      hide Fs, Nanoseconds, I32, IsDistantPast;
      assert Fs(time) == 0 <==> time.Floor == 0 && nanoseconds == 0;
      assert time.Floor * 1_000_000_000 + nanoseconds == 0 <==> time.Floor == 0 && nanoseconds == 0;
    }
  }

  /** What some time is encoded as. */
  predicate Decodable(t: Timestamp) {
    && -0x8000_0000 <= t.seconds <= 0x3_7fff_ffff && t.nanoseconds < 1_000_000_000
    && (t.seconds == 0x3_7fff_ffff ==> t.nanoseconds == 0)
  }

  lemma RepresentableOrder(earlier: real, later: real)
    requires earlier <= later
    ensures Representable(earlier) <= Representable(later)
    ensures later < 0.0 ==> Representable(later) < 0
    ensures later >= 0.0 ==> Representable(later) >= 0
    ensures IsDistantPast(earlier) ==> Representable(earlier) == FIRST_SECOND * 1_000_000_000
  {
    assert earlier * 1_000_000_000.0 <= later * 1_000_000_000.0;
  }

  /** Earlier times decode to no later ones, but for `distantPast`, which
      decodes to 1970. */
  lemma OrderExactly(earlier: real, later: real)
    requires earlier <= later
    ensures InNanoseconds(Decoded(Fs(earlier))) <= InNanoseconds(Decoded(Fs(later))) <==>
            !(IsDistantPast(earlier) && !IsDistantPast(later) && later < 0.0)
  {
    RoundTrip(earlier);
    RoundTrip(later);
    RepresentableOrder(earlier, later);
    RepresentableOrder(earlier, earlier);
    assert IsDistantPast(later) ==> later < 0.0;
    hide Fs, Decoded, Representable;
  }

  /** `Fs` reaches exactly the words whose nanoseconds are below a second, and
      zero in the last second. */
  lemma ImageExactly(word: nat)
    requires word < TWO_64
    ensures (exists time: real :: Fs(time) == word) <==> Decodable(Decoded(word))
  {
    if time: real :| Fs(time) == word {
      RoundTrip(time);
    }
    if Decodable(Decoded(word)) {
      EncodeDecoded(word);
      assert Fs(Time(Decoded(word))) == word;
    }
  }

  lemma TimeParts(t: Timestamp)
    requires Decodable(t)
    ensures Time(t).Floor == t.seconds && Nanoseconds(Time(t) - t.seconds as real) == t.nanoseconds
    ensures !IsDistantPast(Time(t)) && FIRST_SECOND as real <= Time(t) <= LAST_SECOND as real
  {
    var fraction := t.nanoseconds as real / 1_000_000_000.0;
    assert 0.0 <= fraction < 1.0 && fraction * 1_000_000_000.0 == t.nanoseconds as real;
  }

  /** Encoding what a word decodes to gives the word back. */
  lemma EncodeDecoded(word: nat)
    requires word < TWO_64 && Decodable(Decoded(word))
    ensures Fs(Time(Decoded(word))) == word
  {
    hide Fs, Nanoseconds, U32, I32, Time, Decodable, Lo, Hi;
    var t := Decoded(word);
    TimeParts(t);
    JoinWord(word);
    var base, k, nanoseconds := PacksInRange(Time(t));
    DecodedBase(word);
    WrapsUnique(base, k);
    assert Hi(word) == Hi(word) % 4 + 4 * (Hi(word) / 4);
  }

  lemma DecodedBase(word: nat)
    ensures var t, k := Decoded(word), Hi(word) % 4;
            I32(t.seconds) == I32(Lo(word)) && U32(I32(Lo(word))) == Lo(word)
  {
    WrapsUnique(I32(Lo(word)), Hi(word) % 4);
  }

  /** Encoding, decoding and encoding again is encoding once, for every time. */
  lemma EncodeTwice(time: real)
    ensures Fs(Time(Decoded(Fs(time)))) == Fs(time)
  {
    RoundTrip(time);
    EncodeDecoded(Fs(time));
  }
}

/**
  What every player knows about one hand (the Rust `Hand` of src/cards.rs), as a
  value: `known` maps a suit to how many cards of it the hand is known to hold,
  `voids` are the suits that none of the undetermined cards can be, and
  `unknowns` is how many cards are of undetermined suit.

  Each mutator of `Hand` is specified here by a function from the old value to
  its result and the new value; the class `HandState.Hand` is proved against them.
  Suits and counts are `i8` in the source and unbounded integers here.
*/
module HandSpec {
  import opened Outcomes

  datatype HandValue = HandValue(known: map<int, int>, voids: set<int>, unknowns: int)

  /** A hand at the start of a game: four cards, nothing known (cards.rs:44-50). */
  const Fresh: HandValue := HandValue(map[], {}, 4)

  /** Known cards of `suit`; a suit missing from the map counts 0. */
  function Count(h: HandValue, suit: int): int {
    if suit in h.known then h.known[suit] else 0
  }

  /** Known cards of the suits 0 .. k-1. */
  function KnownBelow(h: HandValue, k: nat): int {
    if k == 0 then 0 else KnownBelow(h, k - 1) + Count(h, k - 1)
  }

  /** Cards in the hand when the suits are 0 .. n-1: known plus undetermined. */
  function Size(h: HandValue, n: nat): int {
    KnownBelow(h, n) + h.unknowns
  }

  /** Suits among 0 .. k-1 that the undetermined cards may still be. */
  function OpenBelow(h: HandValue, k: nat): nat {
    if k == 0 then 0 else OpenBelow(h, k - 1) + (if k - 1 in h.voids then 0 else 1)
  }

  /** No zero or negative count is stored and the unknown count is not negative. */
  ghost predicate WellFormed(h: HandValue) {
    (forall s :: s in h.known ==> h.known[s] >= 1) && h.unknowns >= 0
  }

  /** Every suit the hand mentions is one of 0 .. n-1. */
  ghost predicate InRange(h: HandValue, n: nat) {
    (forall s :: s in h.known ==> 0 <= s < n) && (forall s :: s in h.voids ==> 0 <= s < n)
  }

  ghost predicate Sound(h: HandValue, n: nat) {
    WellFormed(h) && InRange(h, n)
  }

  // ---------------------------------------------------------------------------
  // Facts about the sums

  /** Changing the count of one suit changes the sum of the suits below k by the difference. */
  lemma {:induction false} KnownBelowChange(h: HandValue, h': HandValue, suit: int, k: nat)
    requires forall t :: t != suit ==> Count(h', t) == Count(h, t)
    ensures KnownBelow(h', k) == KnownBelow(h, k) + (if 0 <= suit < k then Count(h', suit) - Count(h, suit) else 0)
  {
    if k > 0 {
      KnownBelowChange(h, h', suit, k - 1);
    }
  }

  /** Declaring one more suit void closes one suit below k, if it lies below k. */
  lemma {:induction false} OpenBelowClose(h: HandValue, h': HandValue, suit: int, k: nat)
    requires suit !in h.voids && h'.voids == h.voids + {suit}
    ensures OpenBelow(h', k) == OpenBelow(h, k) - (if 0 <= suit < k then 1 else 0)
  {
    if k > 0 {
      OpenBelowClose(h, h', suit, k - 1);
    }
  }

  lemma OpenBelowAtMost(h: HandValue, k: nat)
    ensures OpenBelow(h, k) <= k
  {
  }

  lemma OpenBelowSameVoids(h: HandValue, h': HandValue, k: nat)
    requires h'.voids == h.voids
    ensures OpenBelow(h', k) == OpenBelow(h, k)
  {
  }

  lemma OpenBelowNoVoids(h: HandValue, k: nat)
    requires h.voids == {}
    ensures OpenBelow(h, k) == k
  {
  }

  lemma KnownBelowNonNegative(h: HandValue, k: nat)
    requires WellFormed(h)
    ensures KnownBelow(h, k) >= 0
  {
  }

  /** A single count never exceeds the sum it is part of. */
  lemma {:induction false} CountAtMostKnownBelow(h: HandValue, suit: int, k: nat)
    requires WellFormed(h) && 0 <= suit < k
    ensures Count(h, suit) <= KnownBelow(h, k)
  {
    if suit < k - 1 {
      CountAtMostKnownBelow(h, suit, k - 1);
    } else {
      KnownBelowNonNegative(h, k - 1);
    }
  }

  // ---------------------------------------------------------------------------
  // Mutators (cards.rs:76-137, 171-199, 242-268)

  /** Taking an undetermined card when the hand has none left: the assertion at cards.rs:90 fails. */
  predicate NoUnknownToTake(h: HandValue, suit: int) {
    suit !in h.known && suit !in h.voids && h.unknowns <= 0
  }

  /** `_remove_unknown` (cards.rs:89-95): one undetermined card leaves; with none left the voids are forgotten. */
  function RemoveUnknown(h: HandValue): HandValue
    requires h.unknowns > 0
  {
    var u := h.unknowns - 1;
    HandValue(h.known, if u == 0 then {} else h.voids, u)
  }

  /** `ensure_have` (cards.rs:76-87): the player asked for `suit`, so the hand holds one. */
  function EnsureHave(h: HandValue, suit: int): (r: (bool, HandValue))
    requires !NoUnknownToTake(h, suit)
    ensures r.0 <==> suit in h.known || suit !in h.voids
    ensures r.0 ==> suit in r.1.known
    ensures forall t :: t != suit ==> Count(r.1, t) == Count(h, t)
  {
    if suit in h.known then (true, h)
    else if suit in h.voids then (false, h)
    else
      var h1 := RemoveUnknown(h);
      (true, h1.(known := h1.known[suit := 1]))
  }

  /** `ensure_have_not` (cards.rs:101-107): the player refused `suit`. */
  function EnsureHaveNot(h: HandValue, suit: int): (r: (bool, HandValue))
    ensures r.0 <==> suit !in h.known
    ensures r.0 ==> suit in r.1.voids && r.1.known == h.known && r.1.unknowns == h.unknowns
    ensures !r.0 ==> r.1 == h
  {
    if suit in h.known then (false, h) else (true, h.(voids := h.voids + {suit}))
  }

  /** `remove` (cards.rs:113-130): one card of `suit` leaves the hand. */
  function Remove(h: HandValue, suit: int): (r: (bool, HandValue))
    requires !NoUnknownToTake(h, suit)
    ensures r.0 <==> suit in h.known || suit !in h.voids
    ensures forall t :: t != suit ==> Count(r.1, t) == Count(h, t)
  {
    if suit in h.known then
      var c := h.known[suit];
      (true, if c > 1 then h.(known := h.known[suit := c - 1]) else h.(known := h.known - {suit}))
    else if suit in h.voids then (false, h)
    else (true, RemoveUnknown(h))
  }

  /** `add` (cards.rs:135-137): one known card of `suit` joins the hand. */
  function Add(h: HandValue, suit: int): (r: HandValue)
    ensures Count(r, suit) == Count(h, suit) + 1
    ensures forall t :: t != suit ==> Count(r, t) == Count(h, t)
    ensures r.voids == h.voids && r.unknowns == h.unknowns
  {
    h.(known := h.known[suit := Count(h, suit) + 1])
  }

  /** `kill_unknown` (cards.rs:171-177): none of the undetermined cards is `suit`. */
  function KillUnknown(h: HandValue, suit: int): (r: (bool, HandValue))
    ensures r.0 <==> h.unknowns > 0 && suit !in h.voids
    ensures r.1.known == h.known && r.1.unknowns == h.unknowns
    ensures h.unknowns > 0 ==> r.1.voids == h.voids + {suit}
    ensures !r.0 ==> r.1 == h
  {
    if h.unknowns > 0 then (suit !in h.voids, h.(voids := h.voids + {suit})) else (false, h)
  }

  /** The least suit in i .. n-1 that is not void, or -1. */
  function FirstOpen(h: HandValue, i: nat, n: nat): (r: int)
    decreases n - i
    ensures r == -1 || (i <= r < n && r !in h.voids)
    ensures forall s :: i <= s < n && (r == -1 || s < r) ==> s in h.voids
  {
    if i >= n then -1 else if i !in h.voids then i else FirstOpen(h, i + 1, n)
  }

  /** `force_unknowns` (cards.rs:183-199): with every suit but one void, the undetermined cards are that suit. */
  function ForceUnknowns(h: HandValue, n: nat): (r: (bool, HandValue))
    ensures !r.0 ==> r.1 == h
  {
    if h.unknowns == 0 then (false, h)
    else if |h.voids| == n - 1 then
      var i := FirstOpen(h, 0, n);
      if i < 0 then (false, h)
      else (true, HandValue(h.known[i := Count(h, i) + h.unknowns], {}, 0))
    else (false, h)
  }

  /** `fill_some_unknowns` (cards.rs:259-268): `count` undetermined cards become known cards of `suit`.
      The two assertions there are preconditions; callers always pass a positive count. */
  function FillSomeUnknowns(h: HandValue, suit: int, count: int): (r: (bool, HandValue))
    requires 1 <= count <= 4
    requires h.unknowns >= count ==> suit !in h.voids
    ensures r.0 <==> h.unknowns >= count
    ensures r.0 ==> Count(r.1, suit) == Count(h, suit) + count && r.1.unknowns == h.unknowns - count
    ensures forall t :: t != suit ==> Count(r.1, t) == Count(h, t)
    ensures r.1.voids == h.voids
    ensures !r.0 ==> r.1 == h
  {
    if h.unknowns < count then (false, h)
    else (true, HandValue(h.known[suit := Count(h, suit) + count], h.voids, h.unknowns - count))
  }

  /** `fill_unknowns` (cards.rs:242-252) from suit `s` on: `totals[t]` is the snapshot total of suit t, and a
      suit with total 0 is one the source's map does not hold. A failed assertion (250, 264) is `Panicked`. */
  function FillUnknownsFrom(h: HandValue, totals: seq<int>, s: nat): (r: Outcome<(bool, HandValue)>)
    decreases |totals| - s
    ensures r.Done? && r.value.0 ==> r.value.1.unknowns == 0
    ensures r.Done? ==> r.value.1.voids == h.voids
  {
    if s >= |totals| then
      if h.unknowns == 0 then Done((true, h)) else Panicked
    else if 0 < totals[s] < 4 then
      var count := 4 - totals[s];
      if h.unknowns < count then Done((false, h))
      else if s in h.voids then Panicked
      else FillUnknownsFrom(FillSomeUnknowns(h, s, count).1, totals, s + 1)
    else FillUnknownsFrom(h, totals, s + 1)
  }

  // ---------------------------------------------------------------------------
  // Queries (cards.rs:55-57, 142-156, 204-235)

  predicate IsEmpty(h: HandValue) {
    h.known == map[] && h.unknowns == 0
  }

  predicate IsDetermined(h: HandValue) {
    h.unknowns == 0
  }

  predicate HasFourOfAKind(h: HandValue) {
    exists s | s in h.known :: h.known[s] == 4
  }

  /** `is_legal` (cards.rs:204-215): may this hand ask for `suit`? */
  predicate IsLegal(h: HandValue, suit: int) {
    if suit in h.known then true
    else if h.unknowns == 0 then false
    else suit !in h.voids
  }

  /** `has_card` (cards.rs:221-235): (forced, holds). */
  function HasCard(h: HandValue, suit: int): (r: (bool, bool))
    ensures r.1 == IsLegal(h, suit)
  {
    if suit in h.known then (true, true)
    else if h.unknowns == 0 then (true, false)
    else if suit in h.voids then (true, false)
    else (false, true)
  }

  // ---------------------------------------------------------------------------
  // Properties

  /** `ensure_have`: a known suit succeeds unchanged, a void suit fails unchanged, otherwise one
      undetermined card becomes the single known card of `suit` and the size is kept. */
  lemma EnsureHaveEffect(h: HandValue, suit: int, n: nat)
    requires WellFormed(h) && 0 <= suit < n && !NoUnknownToTake(h, suit)
    ensures suit in h.known ==> EnsureHave(h, suit) == (true, h)
    ensures suit !in h.known && suit in h.voids ==> EnsureHave(h, suit) == (false, h)
    ensures suit !in h.known && suit !in h.voids ==>
      var r := EnsureHave(h, suit).1;
      && r.known == h.known[suit := 1]
      && r.unknowns == h.unknowns - 1
      && r.voids == (if r.unknowns == 0 then {} else h.voids)
    ensures WellFormed(EnsureHave(h, suit).1) && Size(EnsureHave(h, suit).1, n) == Size(h, n)
  {
    var r := EnsureHave(h, suit).1;
    KnownBelowChange(h, r, suit, n);
  }

  /** `remove`: a known count drops by one and a count of 1 disappears from the map; a void suit without
      known cards fails unchanged; otherwise an undetermined card goes. Success shrinks the hand by one. */
  lemma RemoveEffect(h: HandValue, suit: int, n: nat)
    requires WellFormed(h) && 0 <= suit < n && !NoUnknownToTake(h, suit)
    ensures var (ok, r) := Remove(h, suit);
      && WellFormed(r)
      && (suit in h.known ==> ok && Count(r, suit) == Count(h, suit) - 1 && r.unknowns == h.unknowns
                              && (Count(r, suit) == 0 <==> suit !in r.known))
      && (suit !in h.known && suit in h.voids ==> !ok && r == h)
      && (suit !in h.known && suit !in h.voids ==> ok && r == RemoveUnknown(h))
      && (ok ==> Size(r, n) == Size(h, n) - 1)
  {
    var r := Remove(h, suit).1;
    KnownBelowChange(h, r, suit, n);
  }

  /** `add` grows the hand by one. */
  lemma AddGrows(h: HandValue, suit: int, n: nat)
    requires WellFormed(h) && 0 <= suit < n
    ensures WellFormed(Add(h, suit)) && Size(Add(h, suit), n) == Size(h, n) + 1
  {
    KnownBelowChange(h, Add(h, suit), suit, n);
  }

  /** `ensure_have_not` never changes the size. */
  lemma EnsureHaveNotKeepsSize(h: HandValue, suit: int, n: nat)
    ensures Size(EnsureHaveNot(h, suit).1, n) == Size(h, n)
  {
    KnownBelowChange(h, EnsureHaveNot(h, suit).1, suit, n);
  }

  /** `force_unknowns` fires exactly when there are undetermined cards and all suits but one are void;
      then every undetermined card becomes the one open suit, and the size is kept. */
  lemma ForceUnknownsEffect(h: HandValue, n: nat)
    requires Sound(h, n)
    ensures var (fired, r) := ForceUnknowns(h, n);
      && (fired <==> h.unknowns > 0 && |h.voids| == n - 1)
      && (fired ==> exists s :: 0 <= s < n && s !in h.voids
                          && r == HandValue(h.known[s := Count(h, s) + h.unknowns], {}, 0))
      && Sound(r, n) && Size(r, n) == Size(h, n)
      && forall t :: Count(r, t) >= Count(h, t)
  {
    var (fired, r) := ForceUnknowns(h, n);
    if h.unknowns > 0 && |h.voids| == n - 1 {
      var i := FirstOpen(h, 0, n);
      if i < 0 {
        AllVoidBelow(h.voids, n);
        assert false;
      }
      KnownBelowChange(h, r, i, n);
    }
  }

  /** If every suit of 0 .. n-1 is void then there are at least n voids. */
  lemma {:induction false} AllVoidBelow(voids: set<int>, n: nat)
    requires forall s :: 0 <= s < n ==> s in voids
    ensures |voids| >= n
  {
    if n > 0 {
      AllVoidBelow(voids - {n - 1}, n - 1);
    }
  }

  /** `fill_some_unknowns` keeps the size. */
  lemma FillSomeUnknownsKeepsSize(h: HandValue, suit: int, count: int, n: nat)
    requires 1 <= count <= 4 && (h.unknowns >= count ==> suit !in h.voids) && 0 <= suit < n
    ensures Size(FillSomeUnknowns(h, suit, count).1, n) == Size(h, n)
  {
    KnownBelowChange(h, FillSomeUnknowns(h, suit, count).1, suit, n);
  }
}

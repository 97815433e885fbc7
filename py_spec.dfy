/**
  The earlier Python revision of the hand model (cards.py), as functions of the
  same values the Rust model uses: a hand is a `HandSpec.HandValue` (the
  `Counter` of known cards, the set of voids and the count of undetermined
  cards) and the table is a `Table.Hands`.

  The Python code differs from the Rust code in three ways, and so does this
  module: a refusal that the Rust code reports as `false` is an `assert` here
  (`Panicked`: nothing in cards.py or its callers catches an `AssertionError`),
  `test_winner` knows only the saturation and single-suit rules, and it picks its
  winner by a different rule. Where the Python code computes what the Rust code
  computes (`add`, `kill_unknown`, `force_unknowns`, `is_legal`, `has_card`),
  the functions of `HandSpec` serve for both.
*/
module PySpec {
  import opened Outcomes
  import opened HandSpec
  import opened Table
  import Moves
  import Propagation

  // ---------------------------------------------------------------------------
  // Hand (cards.py:41-90)

  /** `_remove_unknown` (cards.py:57-61): asserts that an undetermined card is left, takes it, and
      forgets the voids once none is left. */
  function TakeUnknown(h: HandValue): (r: Outcome<HandValue>)
    ensures r.Done? <==> h.unknowns > 0
    ensures r.Done? ==> r.value.known == h.known && r.value.unknowns == h.unknowns - 1
                        && r.value.voids == (if r.value.unknowns == 0 then {} else h.voids)
  {
    if h.unknowns > 0 then
      var u := h.unknowns - 1;
      Done(HandValue(h.known, if u == 0 then {} else h.voids, u))
    else Panicked
  }

  /** `ensure_have(suit)` (cards.py:41-55): the player asked for `suit`, so the hand holds one. A known
      suit leaves the hand as it is (after asserting its count is positive); otherwise the suit must not
      be void and an undetermined card becomes the single known card of `suit`. */
  function Have(h: HandValue, suit: int): (r: Outcome<HandValue>)
    ensures suit in h.known ==> (r.Done? <==> h.known[suit] > 0) && (r.Done? ==> r.value == h)
    ensures suit !in h.known ==> (r.Done? <==> suit !in h.voids && h.unknowns > 0)
    ensures suit !in h.known && r.Done? ==>
      && r.value.known == h.known[suit := 1]
      && r.value.unknowns == h.unknowns - 1
      && r.value.voids == (if h.unknowns == 1 then {} else h.voids)
    ensures WellFormed(h) && r.Done? ==> WellFormed(r.value) && suit in r.value.known
  {
    if suit in h.known then
      if h.known[suit] > 0 then Done(h) else Panicked
    else if suit in h.voids then Panicked
    else match TakeUnknown(h)
      case Panicked => Panicked
      case Done(h1) => Done(h1.(known := h1.known[suit := 1]))
  }

  /** `ensure_have_not(suit)` (cards.py:63-69): the player refused `suit`; asserts it is not known. */
  function HaveNot(h: HandValue, suit: int): (r: Outcome<HandValue>)
    ensures r.Done? <==> suit !in h.known
    ensures r.Done? ==> r.value.known == h.known && r.value.unknowns == h.unknowns && r.value.voids == h.voids + {suit}
  {
    if suit in h.known then Panicked else Done(h.(voids := h.voids + {suit}))
  }

  /** `remove(suit)` (cards.py:71-84): one card of `suit` leaves. A known count drops by one and a count
      of one leaves the map; otherwise the suit must not be void and an undetermined card goes. */
  function Take(h: HandValue, suit: int): (r: Outcome<HandValue>)
    ensures r.Done? <==> suit in h.known || (suit !in h.voids && h.unknowns > 0)
    ensures r.Done? && suit in h.known && WellFormed(h) ==>
      && Count(r.value, suit) == Count(h, suit) - 1 && r.value.unknowns == h.unknowns && r.value.voids == h.voids
      && (suit in r.value.known <==> h.known[suit] > 1)
    ensures r.Done? && suit !in h.known ==> r.value == TakeUnknown(h).value
    ensures forall t :: t != suit && r.Done? ==> Count(r.value, t) == Count(h, t)
    ensures WellFormed(h) && r.Done? ==> WellFormed(r.value)
  {
    if suit in h.known then
      var c := h.known[suit];
      Done(if c > 1 then h.(known := h.known[suit := c - 1]) else h.(known := h.known - {suit}))
    else if suit in h.voids then Panicked
    else TakeUnknown(h)
  }

  /** A Rust mutator's (succeeded, hand) as the Python one: a refusal is a failed assertion. */
  function Strict(r: (bool, HandValue)): Outcome<HandValue> {
    if r.0 then Done(r.1) else Panicked
  }

  /** On well-formed hands the Python mutators are the Rust ones with every refusal, and the assertion
      of `_remove_unknown`, turned into a failed assertion. */
  lemma AssertsWhereRustRefuses(h: HandValue, suit: int)
    requires WellFormed(h)
    ensures NoUnknownToTake(h, suit) ==> Have(h, suit).Panicked? && Take(h, suit).Panicked?
    ensures !NoUnknownToTake(h, suit) ==>
      Have(h, suit) == Strict(HandSpec.EnsureHave(h, suit)) && Take(h, suit) == Strict(HandSpec.Remove(h, suit))
    ensures HaveNot(h, suit) == Strict(HandSpec.EnsureHaveNot(h, suit))
    ensures h.unknowns > 0 ==> TakeUnknown(h) == Done(HandSpec.RemoveUnknown(h))
  {
  }

  // ---------------------------------------------------------------------------
  // Requests (cards.py:224-237)

  /** `transfer(suit, other, this)` (cards.py:224-230): `asker` asked `other` for `suit` and got a card. */
  function Transfer(hs: Hands, suit: int, other: nat, asker: nat): (r: Outcome<Hands>)
    requires other < |hs| && asker < |hs|
    ensures r.Done? ==> |r.value| == |hs|
  {
    match Have(hs[asker], suit)
    case Panicked => Panicked
    case Done(h1) =>
      var hs1 := hs[asker := h1];
      match Take(hs1[other], suit)
      case Panicked => Panicked
      case Done(h2) =>
        var hs2 := hs1[other := h2];
        Done(hs2[asker := Add(hs2[asker], suit)])
  }

  /** `no_transfer(suit, other, this)` (cards.py:232-237): `asker` asked `other` for `suit` and was
      refused. */
  function NoTransfer(hs: Hands, suit: int, other: nat, asker: nat): (r: Outcome<Hands>)
    requires other < |hs| && asker < |hs|
    ensures r.Done? ==> |r.value| == |hs|
  {
    match Have(hs[asker], suit)
    case Panicked => Panicked
    case Done(h1) =>
      var hs1 := hs[asker := h1];
      match HaveNot(hs1[other], suit)
      case Panicked => Panicked
      case Done(h2) => Done(hs1[other := h2])
  }

  /** A Rust request with `no_throw = false` as the Python one: the hands it leaves, or its panic. */
  function Thrown(r: Outcome<(bool, Hands)>): Outcome<Hands> {
    match r
    case Panicked => Panicked
    case Done((_, hs)) => Done(hs)
  }

  /** A Python request is the Rust request with `no_throw = false`: the same hands when it completes,
      and an assertion failure exactly where the Rust code panics. */
  lemma TransferIsStrict(hs: Hands, suit: int, other: nat, asker: nat)
    requires other < |hs| && asker < |hs| && WellFormed(hs[asker]) && WellFormed(hs[other])
    ensures Transfer(hs, suit, other, asker) == Thrown(Moves.Transfer(hs, suit, other, asker, false))
    ensures NoTransfer(hs, suit, other, asker) == Thrown(Moves.NoTransfer(hs, suit, other, asker, false))
  {
    AssertsWhereRustRefuses(hs[asker], suit);
    if !NoUnknownToTake(hs[asker], suit) && HandSpec.EnsureHave(hs[asker], suit).0 {
      var hs1 := hs[asker := HandSpec.EnsureHave(hs[asker], suit).1];
      assert WellFormed(hs1[other]) by {
        if other == asker {
          assert Have(hs[asker], suit).Done?;
        }
      }
      AssertsWhereRustRefuses(hs1[other], suit);
    }
  }

  /** So a completed Python transfer between two players keeps the pack: the asker holds one card more
      and at least two of `suit`, the other player one card less, and nobody else changed. */
  lemma TransferConserves(hs: Hands, suit: int, other: nat, asker: nat)
    requires SoundAll(hs) && other < |hs| && asker < |hs| && asker != other && 0 <= suit < |hs|
    requires Transfer(hs, suit, other, asker).Done?
    ensures var hs' := Transfer(hs, suit, other, asker).value;
      && SoundAll(hs')
      && CardCount(hs') == CardCount(hs)
      && Size(hs'[asker], |hs|) == Size(hs[asker], |hs|) + 1
      && Size(hs'[other], |hs|) == Size(hs[other], |hs|) - 1
      && Count(hs'[asker], suit) >= 2
      && forall j :: 0 <= j < |hs| && j != asker && j != other ==> hs'[j] == hs[j]
  {
    TransferIsStrict(hs, suit, other, asker);
    Moves.TransferConserves(hs, suit, other, asker, false);
  }

  // ---------------------------------------------------------------------------
  // test_winner (cards.py:239-281)

  /** The loop over the totals (cards.py:255-260) from suit `s` on: every total must be at most four,
      and a suit with all four cards known is void in every hand with undetermined cards. `any` is
      whether anything changed so far. */
  function KillSuits(hs: Hands, totals: seq<int>, s: nat, any: bool): (r: Outcome<(Hands, bool)>)
    requires SoundAll(hs) && |totals| == |hs|
    decreases |hs| - s
    ensures r.Panicked? <==> exists t :: s <= t < |hs| && totals[t] > 4
    ensures r.Done? ==> Evolves(hs, r.value.0) && (any ==> r.value.1)
    ensures r.Done? && r.value.1 && !any ==> Weight(r.value.0) < Weight(hs)
    ensures r.Done? && !r.value.1 ==> r.value.0 == hs
  {
    if s >= |hs| then EvolvesReflexive(hs); Done((hs, any))
    else if totals[s] > 4 then Panicked
    else if totals[s] == 4 then
      var (h1, c) := Propagation.KillFrom(hs, s, 0, false);
      var r := KillSuits(h1, totals, s + 1, any || c);
      if r.Done? then EvolvesTransitive(hs, h1, r.value.0); r else r
    else KillSuits(hs, totals, s + 1, any)
  }

  /** One pass of the `while any_changes` loop (cards.py:246-266): the totals, then the loop over them,
      then `force_unknowns` on every hand; (the hands afterwards, whether anything changed). */
  function Pass(hs: Hands): (r: Outcome<(Hands, bool)>)
    requires SoundAll(hs)
    ensures r.Panicked? <==> exists s :: 0 <= s < |hs| && Total(hs, s) > 4
    ensures r.Done? ==> Evolves(hs, r.value.0)
    ensures r.Done? && r.value.1 ==> Weight(r.value.0) < Weight(hs)
    ensures r.Done? && !r.value.1 ==> r.value.0 == hs
  {
    var totals := Totals(hs);
    match KillSuits(hs, totals, 0, false)
    case Panicked => Panicked
    case Done((h1, c1)) =>
      var (h2, c2) := Propagation.ForceFrom(h1, 0, c1);
      EvolvesTransitive(hs, h1, h2);
      Done((h2, c2))
  }

  /** The `while any_changes` loop (cards.py:246-266): passes until one changes nothing. */
  function Shaken(hs: Hands): (r: Outcome<Hands>)
    requires SoundAll(hs)
    decreases Weight(hs)
    ensures r.Done? ==> Evolves(hs, r.value)
  {
    match Pass(hs)
    case Panicked => Panicked
    case Done((h', changed)) =>
      if changed then
        var r := Shaken(h');
        if r.Done? then EvolvesTransitive(hs, h', r.value); r else r
      else Done(h')
  }

  /** What the two rules can no longer learn: no suit has more than four known cards, a suit with four
      is void in every hand with undetermined cards, and no hand has all suits but one void. */
  ghost predicate Quiet(hs: Hands) {
    && (forall s :: 0 <= s < |hs| ==> Total(hs, s) <= 4)
    && (forall s, j :: 0 <= s < |hs| && 0 <= j < |hs| && Total(hs, s) == 4 && hs[j].unknowns > 0 ==> s in hs[j].voids)
    && (forall j :: 0 <= j < |hs| ==> !ForceUnknowns(hs[j], |hs|).0)
  }

  /** A quiet loop over the totals from `s` on leaves the hands alone and every suit it looked at is
      complete and killed, or short. */
  lemma {:induction false} KillSuitsQuiet(hs: Hands, totals: seq<int>, s: nat)
    requires SoundAll(hs) && |totals| == |hs|
    decreases |hs| - s
    ensures var r := KillSuits(hs, totals, s, false);
      r.Done? && !r.value.1 ==>
        forall t :: s <= t < |hs| ==>
          totals[t] <= 4 && (totals[t] == 4 ==> forall j :: 0 <= j < |hs| && hs[j].unknowns > 0 ==> t in hs[j].voids)
  {
    if s < |hs| && totals[s] <= 4 {
      if totals[s] == 4 {
        var (h1, c) := Propagation.KillFrom(hs, s, 0, false);
        if !c {
          Propagation.KillFromQuiet(hs, s, 0);
          KillSuitsQuiet(hs, totals, s + 1);
        }
      } else {
        KillSuitsQuiet(hs, totals, s + 1);
      }
    }
  }

  /** A quiet `force_unknowns` loop from `i` on found no hand to force. */
  lemma {:induction false} ForceFromQuiet(hs: Hands, i: nat)
    requires SoundAll(hs) && !Propagation.ForceFrom(hs, i, false).1
    decreases |hs| - i
    ensures forall j :: i <= j < |hs| ==> !ForceUnknowns(hs[j], |hs|).0
  {
    if i < |hs| {
      var (c, h') := ForceUnknowns(hs[i], |hs|);
      Propagation.ForceStep(hs[i], |hs|);
      assert !c && hs[i := h'] == hs;
      ForceFromQuiet(hs, i + 1);
    }
  }

  /** A pass that changes nothing finds the hands quiet. */
  lemma PassQuiet(hs: Hands)
    requires SoundAll(hs) && Pass(hs).Done? && !Pass(hs).value.1
    ensures Quiet(hs)
  {
    var totals := Totals(hs);
    KillSuitsQuiet(hs, totals, 0);
    var (h1, c1) := KillSuits(hs, totals, 0, false).value;
    ForceFromQuiet(h1, 0);
  }

  /** The loop ends on quiet hands. */
  lemma {:induction false} ShakenQuiet(hs: Hands)
    requires SoundAll(hs)
    decreases Weight(hs)
    ensures Shaken(hs).Done? ==> Quiet(Shaken(hs).value)
  {
    match Pass(hs)
    case Panicked =>
    case Done((h', changed)) =>
      if changed {
        ShakenQuiet(h');
      } else {
        PassQuiet(hs);
      }
  }

  /** The lowest player from `i` on holding four of a suit, or -1 (cards.py:271-273). */
  function LowestFour(hs: Hands, i: nat): (r: int)
    decreases |hs| - i
    ensures r == -1 || (i <= r < |hs| && HasFourOfAKind(hs[r]))
    ensures forall j :: i <= j < |hs| && (r == -1 || j < r) ==> !HasFourOfAKind(hs[j])
  {
    if i >= |hs| then -1 else if HasFourOfAKind(hs[i]) then i else LowestFour(hs, i + 1)
  }

  predicate AnyDetermined(hs: Hands) {
    exists i :: 0 <= i < |hs| && IsDetermined(hs[i])
  }

  /** The verdict of `test_winner` after the loop (cards.py:270-281). */
  function Verdict(hs: Hands, last: nat): int {
    var four := LowestFour(hs, 0);
    if four >= 0 then four else if AnyDetermined(hs) then last else -1
  }

  /** `test_winner(last_player)` (cards.py:239-281): (the verdict, the hands after the loop), or the
      failed assertion of a suit with more than four known cards. */
  function TestWinner(hs: Hands, last: nat): (r: Outcome<(int, Hands)>)
    requires SoundAll(hs)
    ensures (exists s :: 0 <= s < |hs| && Total(hs, s) > 4) ==> r.Panicked?
    ensures r.Done? ==> Evolves(hs, r.value.1) && Quiet(r.value.1)
  {
    ShakenQuiet(hs);
    match Shaken(hs)
    case Panicked => Panicked
    case Done(h') => Done((Verdict(h', last), h'))
  }

  /** The Python verdict: the lowest player holding four of a suit; failing that `last` as soon as any
      single hand is known, however many others are not; otherwise -1. */
  lemma VerdictMeaning(hs: Hands, last: nat)
    ensures var w := Verdict(hs, last);
      && (w >= 0 && w != last ==> w < |hs| && HasFourOfAKind(hs[w]) && forall j :: 0 <= j < w ==> !HasFourOfAKind(hs[j]))
      && (w == -1 <==> (forall j :: 0 <= j < |hs| ==> !HasFourOfAKind(hs[j]) && !IsDetermined(hs[j])))
      && ((forall j :: 0 <= j < |hs| ==> !HasFourOfAKind(hs[j])) ==> w == if AnyDetermined(hs) then last else -1)
  {
  }

  /** When one player alone holds four of a suit and some hand is still open, both revisions name that
      player. */
  lemma VerdictsAgreeOnSoleFour(hs: Hands, last: nat, w: nat)
    requires w < |hs| && HasFourOfAKind(hs[w]) && !Propagation.AllDetermined(hs)
    requires forall j :: 0 <= j < |hs| && j != w ==> !HasFourOfAKind(hs[j])
    ensures Verdict(hs, last) == w == Propagation.Verdict(hs, last)
  {
    var n := |hs|;
    SeatReaches(last, n, w);
    var k :| 0 <= k < n && Seat(last, k, n) == w;
    assert HasFourOfAKind(hs[Seat(last, k, n)]);
  }

  /** The two revisions disagree once one hand is known but another is not: with two players, player 0
      known to hold two cards of each suit and player 1 holding four undetermined cards, the Python
      `test_winner` names the last player while the Rust one finds no winner yet. */
  lemma VerdictsDifferOnOneKnownHand()
    ensures var hs := [HandValue(map[0 := 2, 1 := 2], {}, 0), HandValue(map[], {}, 4)];
      Verdict(hs, 1) == 1 && Propagation.Verdict(hs, 1) == Propagation.NoWinner
  {
    var hs := [HandValue(map[0 := 2, 1 := 2], {}, 0), HandValue(map[], {}, 4)];
    assert !HasFourOfAKind(hs[0]) && !HasFourOfAKind(hs[1]);
    assert IsDetermined(hs[0]) && !IsDetermined(hs[1]);
  }

  // ---------------------------------------------------------------------------
  // legal and has_card (cards.py:283-314)

  /** `legal(other, suit, this)` (cards.py:283-296): player numbers are Python integers and may be
      negative. */
  predicate Legal(hs: Hands, other: int, suit: int, asker: int) {
    if asker == other then false
    else if asker < 0 || other < 0 || asker >= |hs| || other >= |hs| then false
    else if suit < 0 || suit >= |hs| then false
    else IsLegal(hs[asker], suit)
  }

  /** A Python request is legal exactly when both players are non-negative and the Rust `legal` accepts
      it. */
  lemma LegalAgrees(hs: Hands, other: int, suit: int, asker: int)
    ensures Legal(hs, other, suit, asker) <==> asker >= 0 && other >= 0 && Moves.Legal(hs, other, suit, asker)
    ensures Legal(hs, other, suit, asker) ==>
      0 <= asker < |hs| && 0 <= other < |hs| && asker != other && 0 <= suit < |hs| && HasCard(hs[asker], suit).1
  {
  }
}

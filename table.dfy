/**
  Facts about all the hands at once (the `hands` vector of the Rust `Cards`), as
  a sequence of hand values. With n hands there are n suits, 0 .. n-1.
*/
module Table {
  import opened HandSpec
  import Arith

  type Hands = seq<HandValue>

  /** The player `k` seats after `first`, going round the table of n players. */
  function Seat(first: nat, k: nat, n: nat): (r: nat)
    requires n > 0
    ensures r < n
  {
    (first + k) % n
  }

  /** Every seat 0 .. n-1 is reached going round the table from any first player. */
  lemma SeatReaches(first: nat, n: nat, j: nat)
    requires n > 0 && j < n
    ensures exists k :: 0 <= k < n && Seat(first, k, n) == j
  {
    var q, r := first / n, first % n;
    assert first == q * n + r;
    if j >= r {
      Arith.ModOf(q, n, j);
      assert first + (j - r) == q * n + j;
      assert Seat(first, j - r, n) == j;
    } else {
      Arith.ModOf(q + 1, n, j);
      assert first + (j + n - r) == (q + 1) * n + j;
      assert Seat(first, j + n - r, n) == j;
    }
  }

  /** Taking the remainder first does not change the seat. */
  lemma SeatSum(a: nat, k: nat, n: nat)
    requires n > 0
    ensures (a % n + k) % n == (a + k) % n
  {
    var q, r := a / n, a % n;
    var q2, r2 := (r + k) / n, (r + k) % n;
    assert a == q * n + r;
    assert r + k == q2 * n + r2;
    assert a + k == (q + q2) * n + r2;
    Arith.ModOf(q + q2, n, r2);
  }

  /** The seat after seat k is seat k+1. */
  lemma SeatNext(first: nat, k: nat, n: nat)
    requires n > 0
    ensures (Seat(first, k, n) + 1) % n == Seat(first, k + 1, n)
  {
    SeatSum(first + k, 1, n);
  }

  /** Going round from a seat comes back to it after n seats and not before. */
  lemma SeatReturns(first: nat, k: nat, n: nat)
    requires first < n && 0 < k <= n
    ensures Seat(first, k, n) == first <==> k == n
  {
    if first + k < n {
      Arith.ModOf(0, n, first + k);
    } else {
      Arith.ModOf(1, n, first + k - n);
    }
  }

  /** Every hand is well formed and mentions only the suits 0 .. n-1. */
  ghost predicate SoundAll(hs: Hands) {
    forall i :: 0 <= i < |hs| ==> Sound(hs[i], |hs|)
  }

  /** Known cards of `suit` in the hands 0 .. k-1. */
  function TotalBelow(hs: Hands, suit: int, k: nat): int
    requires k <= |hs|
  {
    if k == 0 then 0 else TotalBelow(hs, suit, k - 1) + Count(hs[k - 1], suit)
  }

  /** How many known cards of `suit` there are in all the hands. */
  function Total(hs: Hands, suit: int): int {
    TotalBelow(hs, suit, |hs|)
  }

  /** No hand knows a card of a suit outside 0 .. n-1. */
  lemma {:induction false} TotalOutside(hs: Hands, suit: int, k: nat)
    requires SoundAll(hs) && k <= |hs| && !(0 <= suit < |hs|)
    ensures TotalBelow(hs, suit, k) == 0
  {
    if k > 0 {
      TotalOutside(hs, suit, k - 1);
      assert suit !in hs[k - 1].known;
    }
  }

  /** The totals of all suits, indexed by suit; 0 for a suit the source's totals map does not hold. */
  function Totals(hs: Hands): (t: seq<int>)
    ensures |t| == |hs| && forall s :: 0 <= s < |hs| ==> t[s] == Total(hs, s)
  {
    seq(|hs|, s requires 0 <= s < |hs| => Total(hs, s))
  }

  /** All the cards in the hands 0 .. k-1. */
  function CardsBelow(hs: Hands, k: nat): int
    requires k <= |hs|
  {
    if k == 0 then 0 else CardsBelow(hs, k - 1) + Size(hs[k - 1], |hs|)
  }

  function CardCount(hs: Hands): int {
    CardsBelow(hs, |hs|)
  }

  /** What remains to be learnt about one hand: each unknown card weighs more than all the open suits. */
  function HandWeight(h: HandValue, n: nat): nat
    requires WellFormed(h)
  {
    h.unknowns * (n + 1) + OpenBelow(h, n)
  }

  /** The termination measure of `shake_down`: the weights of the hands 0 .. k-1. */
  function WeightBelow(hs: Hands, k: nat): nat
    requires k <= |hs| && SoundAll(hs)
  {
    if k == 0 then 0 else WeightBelow(hs, k - 1) + HandWeight(hs[k - 1], |hs|)
  }

  function Weight(hs: Hands): nat
    requires SoundAll(hs)
  {
    WeightBelow(hs, |hs|)
  }

  /** `b` is what `shake_down` or one of its helpers may make of `a`: the same hands holding the same
      number of cards, no known count lowered, nothing more to learn than before. */
  ghost predicate Evolves(a: Hands, b: Hands) {
    && |b| == |a| && SoundAll(a) && SoundAll(b)
    && (forall i :: 0 <= i < |a| ==> Size(b[i], |a|) == Size(a[i], |a|))
    && (forall i, s :: 0 <= i < |a| ==> Count(b[i], s) >= Count(a[i], s))
    && Weight(b) <= Weight(a)
  }

  /** One hand's step: same size, no count lowered, weight not raised. */
  ghost predicate HandEvolves(h: HandValue, h': HandValue, n: nat) {
    && Sound(h, n) && Sound(h', n)
    && Size(h', n) == Size(h, n)
    && (forall s :: Count(h', s) >= Count(h, s))
    && HandWeight(h', n) <= HandWeight(h, n)
  }

  // ---------------------------------------------------------------------------

  lemma {:induction false} WeightBelowUpdate(hs: Hands, i: nat, h: HandValue, k: nat)
    requires i < |hs| && k <= |hs| && SoundAll(hs) && Sound(h, |hs|)
    ensures SoundAll(hs[i := h])
    ensures WeightBelow(hs[i := h], k) == WeightBelow(hs, k) + (if i < k then HandWeight(h, |hs|) - HandWeight(hs[i], |hs|) else 0)
  {
    assert SoundAll(hs[i := h]) by {
      var hs' := hs[i := h];
      forall j | 0 <= j < |hs'| ensures Sound(hs'[j], |hs'|) {
      }
    }
    if k > 0 {
      WeightBelowUpdate(hs, i, h, k - 1);
    }
  }

  lemma {:induction false} TotalBelowUpdate(hs: Hands, i: nat, h: HandValue, suit: int, k: nat)
    requires i < |hs| && k <= |hs|
    ensures TotalBelow(hs[i := h], suit, k) == TotalBelow(hs, suit, k) + (if i < k then Count(h, suit) - Count(hs[i], suit) else 0)
  {
    if k > 0 {
      TotalBelowUpdate(hs, i, h, suit, k - 1);
    }
  }

  lemma {:induction false} CardsBelowUpdate(hs: Hands, i: nat, h: HandValue, k: nat)
    requires i < |hs| && k <= |hs|
    ensures CardsBelow(hs[i := h], k) == CardsBelow(hs, k) + (if i < k then Size(h, |hs|) - Size(hs[i], |hs|) else 0)
  {
    if k > 0 {
      CardsBelowUpdate(hs, i, h, k - 1);
    }
  }

  /** Replacing one hand by a step of it is a step of the whole table. */
  lemma StepEvolves(hs: Hands, i: nat, h: HandValue)
    requires i < |hs| && SoundAll(hs) && HandEvolves(hs[i], h, |hs|)
    ensures Evolves(hs, hs[i := h])
    ensures Weight(hs[i := h]) == Weight(hs) + HandWeight(h, |hs|) - HandWeight(hs[i], |hs|)
  {
    WeightBelowUpdate(hs, i, h, |hs|);
  }

  lemma HandEvolvesTransitive(a: HandValue, b: HandValue, c: HandValue, n: nat)
    requires HandEvolves(a, b, n) && HandEvolves(b, c, n)
    ensures HandEvolves(a, c, n)
  {
    forall s ensures Count(c, s) >= Count(a, s) {
      assert Count(c, s) >= Count(b, s) && Count(b, s) >= Count(a, s);
    }
  }

  lemma EvolvesReflexive(hs: Hands)
    requires SoundAll(hs)
    ensures Evolves(hs, hs)
  {
  }

  lemma EvolvesTransitive(a: Hands, b: Hands, c: Hands)
    requires Evolves(a, b) && Evolves(b, c)
    ensures Evolves(a, c)
  {
    forall i, s | 0 <= i < |a| ensures Count(c[i], s) >= Count(a[i], s) {
      assert Count(c[i], s) >= Count(b[i], s);
    }
  }

  /** Totals never go down along a step. */
  lemma {:induction false} EvolvesTotals(a: Hands, b: Hands, suit: int, k: nat)
    requires Evolves(a, b) && k <= |a|
    ensures TotalBelow(b, suit, k) >= TotalBelow(a, suit, k)
  {
    if k > 0 {
      EvolvesTotals(a, b, suit, k - 1);
      assert Count(b[k - 1], suit) >= Count(a[k - 1], suit);
    }
  }

  /** Nor does the number of cards change. */
  lemma {:induction false} EvolvesCards(a: Hands, b: Hands, k: nat)
    requires Evolves(a, b) && k <= |a|
    ensures CardsBelow(b, k) == CardsBelow(a, k)
  {
    if k > 0 {
      EvolvesCards(a, b, k - 1);
    }
  }

  lemma TotalNonNegative(hs: Hands, suit: int, k: nat)
    requires SoundAll(hs) && k <= |hs|
    ensures TotalBelow(hs, suit, k) >= 0
  {
    if k > 0 {
      TotalNonNegative(hs, suit, k - 1);
    }
  }

  /** One hand's count is part of the total. */
  lemma {:induction false} CountAtMostTotal(hs: Hands, i: nat, suit: int, k: nat)
    requires SoundAll(hs) && i < k <= |hs|
    ensures Count(hs[i], suit) <= TotalBelow(hs, suit, k)
  {
    if i < k - 1 {
      CountAtMostTotal(hs, i, suit, k - 1);
    } else {
      TotalNonNegative(hs, suit, k - 1);
    }
  }
}

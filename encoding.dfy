/**
  The integer encodings of src/cards.rs that let the search recognise a position
  it has seen before: `Hand::position`, `Cards::position_given_permutation` and
  `Cards::position`, and the ordering of suits of `Hand::adjust_ranking` and
  `Cards::permutation`. The source computes in `i128` and `i64`; the model uses
  unbounded integers.
*/
module Encoding {
  import opened HandSpec
  import opened Table
  import Arith

  function Pow(b: nat, k: nat): (r: nat)
    requires b >= 1
    ensures r >= 1
  {
    if k == 0 then 1
    else
      Arith.MulAtLeast(b, Pow(b, k - 1));
      b * Pow(b, k - 1)
  }

  /** 1 when `suit` is one of the hand's voids. */
  function Bit(h: HandValue, suit: int): nat {
    if suit in h.voids then 1 else 0
  }

  /** The known counts of the suits of `perm`, in order, as base-4 digits. */
  function KnownDigits(h: HandValue, perm: seq<int>): int {
    if |perm| == 0 then 0 else KnownDigits(h, perm[..|perm| - 1]) * 4 + Count(h, perm[|perm| - 1])
  }

  /** Whether each suit of `perm`, in order, is void, as binary digits. */
  function VoidDigits(h: HandValue, perm: seq<int>): nat {
    if |perm| == 0 then 0 else VoidDigits(h, perm[..|perm| - 1]) * 2 + Bit(h, perm[|perm| - 1])
  }

  /** `Hand::position` (cards.rs:278-293): appends to `pos` a base-4 digit per suit of `perm`, the
      number of unknown cards in three bits, then a bit per suit of `perm`. */
  function HandPosition(h: HandValue, pos: int, perm: seq<int>): int {
    ((pos * Pow(4, |perm|) + KnownDigits(h, perm)) * 8 + h.unknowns) * Pow(2, |perm|) + VoidDigits(h, perm)
  }

  /** One more suit of `perm` appended to a partial position (the loops of cards.rs:279-284 and 287-291). */
  lemma KnownStep(h: HandValue, perm: seq<int>, i: nat, pos: int, p: int)
    requires i < |perm| && p == pos * Pow(4, i) + KnownDigits(h, perm[..i])
    ensures p * 4 + Count(h, perm[i]) == pos * Pow(4, i + 1) + KnownDigits(h, perm[..i + 1])
  {
    var front := perm[..i + 1];
    assert front[..i] == perm[..i] && front[i] == perm[i];
    assert KnownDigits(h, front) == KnownDigits(h, perm[..i]) * 4 + Count(h, perm[i]);
    Arith.MulScale(pos, Pow(4, i), 4);
  }

  lemma VoidStep(h: HandValue, perm: seq<int>, i: nat, mid: int, p: int)
    requires i < |perm| && p == mid * Pow(2, i) + VoidDigits(h, perm[..i])
    ensures p * 2 + Bit(h, perm[i]) == mid * Pow(2, i + 1) + VoidDigits(h, perm[..i + 1])
  {
    var front := perm[..i + 1];
    assert front[..i] == perm[..i] && front[i] == perm[i];
    assert VoidDigits(h, front) == VoidDigits(h, perm[..i]) * 2 + Bit(h, perm[i]);
    Arith.MulScale(mid, Pow(2, i), 2);
  }

  /** The assertion of `Hand::position` (cards.rs:281): no suit of `perm` has four known cards. */
  predicate Countable(h: HandValue, perm: seq<int>) {
    forall i :: 0 <= i < |perm| ==> Count(h, perm[i]) < 4
  }

  ghost predicate AllCountable(hs: Hands, perm: seq<int>) {
    forall i :: 0 <= i < |hs| ==> Countable(hs[i], perm)
  }

  /** What the encoding assumes of a hand: no suit of `perm` with four known cards (the assertion at
      cards.rs:281), and at most seven unknown cards so that they fit in three bits. */
  ghost predicate Encodable(h: HandValue, perm: seq<int>) {
    && WellFormed(h) && h.unknowns < 8
    && forall i :: 0 <= i < |perm| ==> Count(h, perm[i]) < 4
  }

  /** The suits `perm` picks in `h` look like the suits `perm'` picks in `h'`. */
  ghost predicate Corresponds(h: HandValue, perm: seq<int>, h': HandValue, perm': seq<int>) {
    && |perm| == |perm'| && h.unknowns == h'.unknowns
    && forall i :: 0 <= i < |perm| ==>
         Count(h, perm[i]) == Count(h', perm'[i]) && (perm[i] in h.voids <==> perm'[i] in h'.voids)
  }

  // ---------------------------------------------------------------------------
  // One hand

  lemma {:induction false} KnownDigitsBound(h: HandValue, perm: seq<int>)
    requires Encodable(h, perm)
    ensures 0 <= KnownDigits(h, perm) < Pow(4, |perm|)
  {
    if |perm| > 0 {
      var front := perm[..|perm| - 1];
      assert forall i :: 0 <= i < |front| ==> front[i] == perm[i];
      KnownDigitsBound(h, front);
    }
  }

  lemma {:induction false} VoidDigitsBound(h: HandValue, perm: seq<int>)
    ensures VoidDigits(h, perm) < Pow(2, |perm|)
  {
    if |perm| > 0 {
      VoidDigitsBound(h, perm[..|perm| - 1]);
    }
  }

  /** Two hands with equal base-4 digits have the same counts in the suits of `perm`. */
  lemma {:induction false} KnownDigitsInjective(h: HandValue, h': HandValue, perm: seq<int>)
    requires Encodable(h, perm) && Encodable(h', perm)
    requires KnownDigits(h, perm) == KnownDigits(h', perm)
    ensures forall i :: 0 <= i < |perm| ==> Count(h, perm[i]) == Count(h', perm[i])
  {
    if |perm| > 0 {
      var k := |perm| - 1;
      var front := perm[..k];
      assert forall i :: 0 <= i < |front| ==> front[i] == perm[i];
      Arith.DigitSplit(KnownDigits(h, front), Count(h, perm[k]), KnownDigits(h', front), Count(h', perm[k]), 4);
      KnownDigitsInjective(h, h', front);
    }
  }

  /** Two hands with equal binary digits agree on which suits of `perm` are void. */
  lemma {:induction false} VoidDigitsInjective(h: HandValue, h': HandValue, perm: seq<int>)
    requires VoidDigits(h, perm) == VoidDigits(h', perm)
    ensures forall i :: 0 <= i < |perm| ==> (perm[i] in h.voids <==> perm[i] in h'.voids)
  {
    if |perm| > 0 {
      var k := |perm| - 1;
      var front := perm[..k];
      assert forall i :: 0 <= i < |front| ==> front[i] == perm[i];
      Arith.DigitSplit(VoidDigits(h, front), Bit(h, perm[k]), VoidDigits(h', front), Bit(h', perm[k]), 2);
      VoidDigitsInjective(h, h', front);
    }
  }

  /** The position of a hand gives back the position it was appended to, and the hand's counts,
      unknown cards and voids as far as the suits of `perm` go. */
  lemma HandPositionInjective(h: HandValue, pos: int, h': HandValue, pos': int, perm: seq<int>)
    requires Encodable(h, perm) && Encodable(h', perm)
    requires HandPosition(h, pos, perm) == HandPosition(h', pos', perm)
    ensures pos == pos' && Corresponds(h, perm, h', perm)
  {
    var k := |perm|;
    KnownDigitsBound(h, perm);
    KnownDigitsBound(h', perm);
    VoidDigitsBound(h, perm);
    VoidDigitsBound(h', perm);
    var high := pos * Pow(4, k) + KnownDigits(h, perm);
    var high' := pos' * Pow(4, k) + KnownDigits(h', perm);
    Arith.DigitSplit(high * 8 + h.unknowns, VoidDigits(h, perm), high' * 8 + h'.unknowns, VoidDigits(h', perm), Pow(2, k));
    Arith.DigitSplit(high, h.unknowns, high', h'.unknowns, 8);
    Arith.DigitSplit(pos, KnownDigits(h, perm), pos', KnownDigits(h', perm), Pow(4, k));
    KnownDigitsInjective(h, h', perm);
    VoidDigitsInjective(h, h', perm);
  }

  lemma {:induction false} KnownDigitsCorrespond(h: HandValue, perm: seq<int>, h': HandValue, perm': seq<int>)
    requires Corresponds(h, perm, h', perm')
    ensures KnownDigits(h, perm) == KnownDigits(h', perm') && VoidDigits(h, perm) == VoidDigits(h', perm')
  {
    if |perm| > 0 {
      var k := |perm| - 1;
      assert Corresponds(h, perm[..k], h', perm'[..k]) by {
        assert forall i :: 0 <= i < k ==> perm[..k][i] == perm[i] && perm'[..k][i] == perm'[i];
      }
      KnownDigitsCorrespond(h, perm[..k], h', perm'[..k]);
    }
  }

  /** Relabelling the suits does not change a hand's position, as long as `perm` is relabelled alike. */
  lemma HandPositionRelabel(h: HandValue, perm: seq<int>, h': HandValue, perm': seq<int>, pos: int)
    requires Corresponds(h, perm, h', perm')
    ensures HandPosition(h, pos, perm) == HandPosition(h', pos, perm')
  {
    KnownDigitsCorrespond(h, perm, h', perm');
  }

  lemma HandPositionNonNegative(h: HandValue, pos: int, perm: seq<int>)
    requires Encodable(h, perm) && pos >= 0
    ensures HandPosition(h, pos, perm) >= 0
  {
    KnownDigitsBound(h, perm);
    var high := pos * Pow(4, |perm|) + KnownDigits(h, perm);
    if pos > 0 {
      Arith.MulAtLeast(pos, Pow(4, |perm|));
    }
    assert high >= 0;
    Arith.MulAtLeast(Pow(2, |perm|), high * 8 + h.unknowns);
  }

  // ---------------------------------------------------------------------------
  // All the hands

  /** The hands of the players `last`, `last`+1, ... (k of them, round the table), encoded in turn. */
  function HandsPosition(hs: Hands, perm: seq<int>, last: nat, k: nat): int
    requires |hs| > 0 && k <= |hs|
  {
    if k == 0 then 0 else HandPosition(hs[Seat(last, k - 1, |hs|)], HandsPosition(hs, perm, last, k - 1), perm)
  }

  /** `Cards::position_given_permutation` (cards.rs:726-740); the assertion at 729 is the precondition.
      Unless the position is to be the same for every player to move, `last` is its last digit. */
  function PositionGivenPermutation(hs: Hands, perm: seq<int>, last: nat, symmetric: bool): int
    requires last < |hs|
  {
    var p := HandsPosition(hs, perm, last, |hs|);
    if symmetric then p else p * |hs| + last
  }

  /** The suits 0 .. n-1 in order. */
  function Identity(n: nat): (r: seq<int>)
    ensures |r| == n && forall i :: 0 <= i < n ==> r[i] == i
  {
    seq(n, i => i)
  }

  /** `Cards::position` (cards.rs:709-713). */
  function Position(hs: Hands, last: nat): int
    requires last < |hs|
  {
    PositionGivenPermutation(hs, Identity(|hs|), last, false)
  }

  ghost predicate AllEncodable(hs: Hands, perm: seq<int>) {
    forall i :: 0 <= i < |hs| ==> Encodable(hs[i], perm)
  }

  lemma {:induction false} HandsPositionNonNegative(hs: Hands, perm: seq<int>, last: nat, k: nat)
    requires |hs| > 0 && k <= |hs| && AllEncodable(hs, perm)
    ensures HandsPosition(hs, perm, last, k) >= 0
  {
    if k > 0 {
      HandsPositionNonNegative(hs, perm, last, k - 1);
      HandPositionNonNegative(hs[Seat(last, k - 1, |hs|)], HandsPosition(hs, perm, last, k - 1), perm);
    }
  }

  /** "The position is always an integer greater or equal to zero" (cards.rs:724). */
  lemma PositionNonNegative(hs: Hands, perm: seq<int>, last: nat, symmetric: bool)
    requires last < |hs| && AllEncodable(hs, perm)
    ensures PositionGivenPermutation(hs, perm, last, symmetric) >= 0
  {
    HandsPositionNonNegative(hs, perm, last, |hs|);
    Arith.MulNonNegative(HandsPosition(hs, perm, last, |hs|), |hs|);
  }

  lemma {:induction false} HandsPositionInjective(hs: Hands, hs': Hands, perm: seq<int>, last: nat, k: nat)
    requires |hs| > 0 && |hs'| == |hs| && k <= |hs| && AllEncodable(hs, perm) && AllEncodable(hs', perm)
    requires HandsPosition(hs, perm, last, k) == HandsPosition(hs', perm, last, k)
    ensures forall j :: 0 <= j < k ==> Corresponds(hs[Seat(last, j, |hs|)], perm, hs'[Seat(last, j, |hs|)], perm)
  {
    if k > 0 {
      var s := Seat(last, k - 1, |hs|);
      HandPositionInjective(hs[s], HandsPosition(hs, perm, last, k - 1), hs'[s], HandsPosition(hs', perm, last, k - 1), perm);
      HandsPositionInjective(hs, hs', perm, last, k - 1);
    }
  }

  /** Two sound hands that agree on every suit 0 .. n-1 are equal. */
  lemma SameHand(h: HandValue, h': HandValue, n: nat)
    requires Sound(h, n) && Sound(h', n) && Corresponds(h, Identity(n), h', Identity(n))
    ensures h == h'
  {
    var id := Identity(n);
    forall s ensures (s in h.known <==> s in h'.known) && (s in h.known ==> h.known[s] == h'.known[s])
      && (s in h.voids <==> s in h'.voids)
    {
      if 0 <= s < n {
        assert id[s] == s;
        assert Count(h, s) == Count(h', s);
      }
    }
    assert h.known == h'.known;
    assert h.voids == h'.voids;
  }

  /** `Cards::position` tells positions apart: equal positions mean the same player last to move and the
      same hands (for hands the encoding accepts). */
  lemma PositionInjective(hs: Hands, last: nat, hs': Hands, last': nat)
    requires last < |hs| && |hs'| == |hs| && last' < |hs|
    requires SoundAll(hs) && SoundAll(hs') && AllEncodable(hs, Identity(|hs|)) && AllEncodable(hs', Identity(|hs|))
    requires Position(hs, last) == Position(hs', last')
    ensures last == last' && hs == hs'
  {
    var n := |hs|;
    var id := Identity(n);
    Arith.DigitSplit(HandsPosition(hs, id, last, n), last, HandsPosition(hs', id, last', n), last', n);
    HandsPositionInjective(hs, hs', id, last, n);
    forall j | 0 <= j < n ensures hs[j] == hs'[j] {
      SeatReaches(last, n, j);
      var k :| 0 <= k < n && Seat(last, k, n) == j;
      SameHand(hs[j], hs'[j], n);
    }
  }

  /** Seat k after the seat d after `first` is seat d after seat k after `first`. */
  lemma SeatShift(first: nat, d: nat, k: nat, n: nat)
    requires n > 0
    ensures Seat(Seat(first, d, n), k, n) == Seat(Seat(first, k, n), d, n)
  {
    var x, y := first + d, first + k;
    SeatSum(x, k, n);
    SeatSum(y, d, n);
    assert x + k == y + d;
  }

  lemma {:induction false} HandsPositionRotate(hs: Hands, hs': Hands, perm: seq<int>, last: nat, d: nat, k: nat)
    requires |hs| > 0 && |hs'| == |hs| && k <= |hs|
    requires forall j :: 0 <= j < |hs| ==> hs'[Seat(j, d, |hs|)] == hs[j]
    ensures HandsPosition(hs', perm, Seat(last, d, |hs|), k) == HandsPosition(hs, perm, last, k)
  {
    if k > 0 {
      var n := |hs|;
      HandsPositionRotate(hs, hs', perm, last, d, k - 1);
      SeatShift(last, d, k - 1, n);
      assert hs'[Seat(Seat(last, k - 1, n), d, n)] == hs[Seat(last, k - 1, n)];
    }
  }

  /** Rotation of players (cards.rs:718-719): moving every hand d seats on and the last player with
      them gives the same player-symmetric position. */
  lemma RotationInvariant(hs: Hands, hs': Hands, perm: seq<int>, last: nat, d: nat)
    requires last < |hs| && |hs'| == |hs|
    requires forall j :: 0 <= j < |hs| ==> hs'[Seat(j, d, |hs|)] == hs[j]
    ensures PositionGivenPermutation(hs', perm, Seat(last, d, |hs|), true) == PositionGivenPermutation(hs, perm, last, true)
  {
    HandsPositionRotate(hs, hs', perm, last, d, |hs|);
  }

  lemma {:induction false} HandsPositionRelabel(hs: Hands, hs': Hands, perm: seq<int>, perm': seq<int>, last: nat, k: nat)
    requires |hs| > 0 && |hs'| == |hs| && k <= |hs|
    requires forall j :: 0 <= j < |hs| ==> Corresponds(hs[j], perm, hs'[j], perm')
    ensures HandsPosition(hs, perm, last, k) == HandsPosition(hs', perm', last, k)
  {
    if k > 0 {
      var s := Seat(last, k - 1, |hs|);
      HandsPositionRelabel(hs, hs', perm, perm', last, k - 1);
      HandPositionRelabel(hs[s], perm, hs'[s], perm', HandsPosition(hs, perm, last, k - 1));
    }
  }

  /** Permutation of suits (cards.rs:720): hands whose suits are renamed, encoded with the suit order
      renamed alike, give the same position. */
  lemma RelabelInvariant(hs: Hands, hs': Hands, perm: seq<int>, perm': seq<int>, last: nat, symmetric: bool)
    requires last < |hs| && |hs'| == |hs|
    requires forall j :: 0 <= j < |hs| ==> Corresponds(hs[j], perm, hs'[j], perm')
    ensures PositionGivenPermutation(hs, perm, last, symmetric) == PositionGivenPermutation(hs', perm', last, symmetric)
  {
    HandsPositionRelabel(hs, hs', perm, perm', last, |hs|);
  }

  // ---------------------------------------------------------------------------
  // Ordering the suits

  /** `Hand::adjust_ranking` (cards.rs:302-321) on a ranking per suit. */
  function AdjustRanking(h: HandValue, rank: seq<int>): (r: seq<int>) {
    seq(|rank|, j requires 0 <= j < |rank| => (rank[j] * |rank| + Count(h, j)) * 2 + Bit(h, j))
  }

  /** The rankings after hands `last`, `last`+1, ... (k of them) have adjusted them in turn. */
  function Ranking(hs: Hands, last: nat, k: nat): (r: seq<int>)
    requires |hs| > 0 && k <= |hs|
    ensures |r| == |hs|
  {
    if k == 0 then seq(|hs|, j => 0) else AdjustRanking(hs[Seat(last, k - 1, |hs|)], Ranking(hs, last, k - 1))
  }

  /** A suit ranked higher before a hand is seen stays higher, provided the hand holds fewer known cards
      of the lower suit than there are suits: only then are earlier hands more significant. */
  lemma AdjustRankingKeepsOrder(h: HandValue, rank: seq<int>, a: nat, b: nat)
    requires a < |rank| && b < |rank| && WellFormed(h) && Count(h, b) < |rank|
    requires rank[a] > rank[b]
    ensures AdjustRanking(h, rank)[a] > AdjustRanking(h, rank)[b]
  {
    var n := |rank|;
    Arith.MulAtLeast(rank[a] - rank[b], n);
    assert rank[a] * n - rank[b] * n == (rank[a] - rank[b]) * n;
  }

  /** With three suits, a hand holding three known cards of a suit ranked lower ties it with a suit
      ranked higher, and the lower suit number then sorts first: the later hand overrides the earlier. */
  lemma AdjustRankingReordersThree()
    ensures var h := HandValue(map[0 := 3], {}, 1);
      Before([0, 1, 0], 1, 0) && !Before([0, 1, 0], 0, 1) &&
      AdjustRanking(h, [0, 1, 0]) == [6, 6, 0] &&
      Before(AdjustRanking(h, [0, 1, 0]), 0, 1) && !Before(AdjustRanking(h, [0, 1, 0]), 1, 0)
  {
    var h := HandValue(map[0 := 3], {}, 1);
    assert Count(h, 0) == 3 && Count(h, 1) == 0 && Count(h, 2) == 0;
  }

  /** The adjustment with a factor above any count of a suit (a suit has four cards): the earlier
      rankings always dominate, and the hand only orders suits ranked alike so far. */
  function AdjustRankingWide(h: HandValue, rank: seq<int>): (r: seq<int>) {
    seq(|rank|, j requires 0 <= j < |rank| => (rank[j] * 5 + Count(h, j)) * 2 + Bit(h, j))
  }

  /** With the wide factor, suit `a` is adjusted above suit `b` exactly when it was ranked higher, or
      ranked alike and the hand holds more of it, or as many and is void in it but not in `b`. */
  lemma AdjustRankingWideOrders(h: HandValue, rank: seq<int>, a: nat, b: nat)
    requires a < |rank| && b < |rank| && WellFormed(h) && Count(h, a) <= 4 && Count(h, b) <= 4
    ensures AdjustRankingWide(h, rank)[a] > AdjustRankingWide(h, rank)[b] <==>
      rank[a] > rank[b] ||
      (rank[a] == rank[b] &&
       (Count(h, a) > Count(h, b) || (Count(h, a) == Count(h, b) && a in h.voids && b !in h.voids)))
  {
    if rank[a] > rank[b] {
      Arith.MulAtLeast(rank[a] - rank[b], 5);
      assert rank[a] * 5 - rank[b] * 5 == (rank[a] - rank[b]) * 5;
    } else if rank[a] < rank[b] {
      Arith.MulAtLeast(rank[b] - rank[a], 5);
      assert rank[b] * 5 - rank[a] * 5 == (rank[b] - rank[a]) * 5;
    }
  }

  /** Between suits ranked alike so far, the hand decides: more known cards first, then a void. */
  lemma AdjustRankingTie(h: HandValue, rank: seq<int>, a: nat, b: nat)
    requires a < |rank| && b < |rank| && rank[a] == rank[b]
    ensures AdjustRanking(h, rank)[a] > AdjustRanking(h, rank)[b] <==>
      Count(h, a) > Count(h, b) || (Count(h, a) == Count(h, b) && a in h.voids && b !in h.voids)
  {
  }

  /** Suit `a` comes before suit `b`: it ranks higher, or as high with the lower number. */
  predicate Before(rank: seq<int>, a: int, b: int) {
    0 <= a < |rank| && 0 <= b < |rank| && (rank[a] > rank[b] || (rank[a] == rank[b] && a < b))
  }

  ghost predicate SortedBy(rank: seq<int>, xs: seq<int>) {
    forall i, j :: 0 <= i < j < |xs| ==> Before(rank, xs[i], xs[j])
  }

  ghost predicate Suits(rank: seq<int>, xs: seq<int>) {
    forall x :: x in xs ==> 0 <= x < |rank|
  }

  lemma SameMembers(a: seq<int>, b: seq<int>)
    requires multiset(a) == multiset(b)
    ensures forall x :: x in a <==> x in b
  {
    forall x ensures x in a <==> x in b {
      assert x in a <==> x in multiset(a);
      assert x in b <==> x in multiset(b);
    }
  }

  /** Puts `x` in front of the first suit it comes before. */
  function Insert(rank: seq<int>, x: int, xs: seq<int>): (r: seq<int>)
    ensures multiset(r) == multiset(xs) + multiset{x}
    ensures forall y :: y in r <==> y == x || y in xs
    ensures 0 <= x < |rank| && Suits(rank, xs) && x !in xs && SortedBy(rank, xs) ==> SortedBy(rank, r)
  {
    if |xs| == 0 then [x]
    else if Before(rank, x, xs[0]) then [x] + xs
    else
      var rest := Insert(rank, x, xs[1..]);
      assert xs == [xs[0]] + xs[1..];
      InsertBehind(rank, x, xs, rest);
      [xs[0]] + rest
  }

  lemma InsertBehind(rank: seq<int>, x: int, xs: seq<int>, rest: seq<int>)
    requires |xs| > 0 && !Before(rank, x, xs[0])
    requires forall y :: y in rest <==> y == x || y in xs[1..]
    requires 0 <= x < |rank| && Suits(rank, xs[1..]) && x !in xs[1..] && SortedBy(rank, xs[1..]) ==> SortedBy(rank, rest)
    ensures 0 <= x < |rank| && Suits(rank, xs) && x !in xs && SortedBy(rank, xs) ==> SortedBy(rank, [xs[0]] + rest)
  {
    if 0 <= x < |rank| && Suits(rank, xs) && x !in xs && SortedBy(rank, xs) {
      var tail := xs[1..];
      assert forall m :: 0 <= m < |tail| ==> tail[m] == xs[m + 1];
      assert Suits(rank, tail) && x !in tail;
      assert SortedBy(rank, tail);
      assert xs[0] in xs;
      var r := [xs[0]] + rest;
      forall i, j | 0 <= i < j < |r| ensures Before(rank, r[i], r[j]) {
        if i > 0 {
          assert r[i] == rest[i - 1] && r[j] == rest[j - 1];
        } else {
          assert r[j] == rest[j - 1] && r[j] in rest;
          if r[j] != x {
            var m :| 0 <= m < |tail| && tail[m] == r[j];
            assert xs[m + 1] == r[j];
          }
        }
      }
    }
  }

  /** In a sorted sequence everything behind the head is sorted too. */
  lemma SortedHead(rank: seq<int>, xs: seq<int>)
    requires |xs| > 0 && SortedBy(rank, xs)
    ensures SortedBy(rank, xs[1..])
  {
    forall i, j | 0 <= i < j < |xs| - 1 ensures Before(rank, xs[1..][i], xs[1..][j]) {
      assert xs[1..][i] == xs[i + 1] && xs[1..][j] == xs[j + 1];
    }
  }

  ghost predicate Distinct(xs: seq<int>) {
    forall i, j :: 0 <= i < j < |xs| ==> xs[i] != xs[j]
  }

  /** Sorts the suits of `xs` by `Before`, one insertion at a time. */
  function SortByRank(rank: seq<int>, xs: seq<int>): (r: seq<int>)
    ensures multiset(r) == multiset(xs)
    ensures forall y :: y in r <==> y in xs
    ensures Suits(rank, xs) && Distinct(xs) ==> SortedBy(rank, r)
  {
    if |xs| == 0 then []
    else
      var rest := SortByRank(rank, xs[1..]);
      assert xs == [xs[0]] + xs[1..];
      SortStep(rank, xs, rest);
      Insert(rank, xs[0], rest)
  }

  lemma SortStep(rank: seq<int>, xs: seq<int>, rest: seq<int>)
    requires |xs| > 0
    requires forall y :: y in rest <==> y in xs[1..]
    requires Suits(rank, xs[1..]) && Distinct(xs[1..]) ==> SortedBy(rank, rest)
    ensures Suits(rank, xs) && Distinct(xs) ==>
      0 <= xs[0] < |rank| && Suits(rank, rest) && xs[0] !in rest && SortedBy(rank, rest)
  {
    if Suits(rank, xs) && Distinct(xs) {
      var tail := xs[1..];
      assert forall m :: 0 <= m < |tail| ==> tail[m] == xs[m + 1];
      assert xs[0] in xs;
      assert Distinct(tail);
      assert xs[0] !in tail;
      forall y | y in rest ensures 0 <= y < |rank| {
        var m :| 0 <= m < |tail| && tail[m] == y;
        assert y in xs;
      }
    }
  }

  lemma BeforeAsymmetric(rank: seq<int>, a: int, b: int)
    ensures !(Before(rank, a, b) && Before(rank, b, a))
  {
  }

  /** Two sorted orders of the same suits start with the same suit. */
  lemma SortedSameHead(rank: seq<int>, xs: seq<int>, ys: seq<int>)
    requires |xs| > 0 && multiset(xs) == multiset(ys) && SortedBy(rank, xs) && SortedBy(rank, ys)
    ensures |ys| > 0 && xs[0] == ys[0]
  {
    assert xs[0] in multiset(ys);
    assert ys[0] in multiset(xs);
    var j :| 0 <= j < |ys| && ys[j] == xs[0];
    var i :| 0 <= i < |xs| && xs[i] == ys[0];
    if i > 0 && j > 0 {
      BeforeAsymmetric(rank, xs[0], ys[0]);
    }
  }

  /** Removing equal heads from equal multisets leaves equal multisets. */
  lemma TailsSame(xs: seq<int>, ys: seq<int>)
    requires |xs| > 0 && |ys| > 0 && xs[0] == ys[0] && multiset(xs) == multiset(ys)
    ensures multiset(xs[1..]) == multiset(ys[1..])
  {
    assert xs == [xs[0]] + xs[1..];
    assert ys == [ys[0]] + ys[1..];
    assert multiset(xs) == multiset{xs[0]} + multiset(xs[1..]);
    assert multiset(ys) == multiset{ys[0]} + multiset(ys[1..]);
    assert multiset(xs[1..]) == multiset(xs) - multiset{xs[0]};
    assert multiset(ys[1..]) == multiset(ys) - multiset{ys[0]};
  }

  /** There is one order of given suits sorted by `Before`: the order a stable sort by descending
      ranking gives (cards.rs:763-765). */
  lemma {:induction false} SortedUnique(rank: seq<int>, xs: seq<int>, ys: seq<int>)
    requires multiset(xs) == multiset(ys) && SortedBy(rank, xs) && SortedBy(rank, ys)
    ensures xs == ys
  {
    if |xs| > 0 {
      SortedSameHead(rank, xs, ys);
      TailsSame(xs, ys);
      SortedHead(rank, xs);
      SortedHead(rank, ys);
      SortedUnique(rank, xs[1..], ys[1..]);
      assert xs == [xs[0]] + xs[1..] && ys == [ys[0]] + ys[1..];
    } else {
      assert |ys| == |multiset(ys)| == 0;
    }
  }

  /** `Cards::permutation` (cards.rs:748-766): the suits, most highly ranked first. */
  function Permutation(hs: Hands, last: nat): (r: seq<int>)
    requires last < |hs|
    ensures |r| == |hs|
  {
    var r := SortByRank(Ranking(hs, last, |hs|), Identity(|hs|));
    assert |multiset(r)| == |multiset(Identity(|hs|))|;
    r
  }

  /** The permutation holds the suits 0 .. |hs|-1 and nothing else. */
  lemma PermutationMembers(hs: Hands, last: nat)
    requires last < |hs|
    ensures forall s :: s in Permutation(hs, last) <==> 0 <= s < |hs|
  {
    var r := Permutation(hs, last);
    IdentityMembers(|hs|);
    assert multiset(r) == multiset(Identity(|hs|));
    forall s ensures s in r <==> s in Identity(|hs|) {
      assert s in r <==> s in multiset(r);
    }
  }

  lemma IdentityMembers(n: nat)
    ensures forall s :: s in Identity(n) <==> 0 <= s < n
  {
    forall s ensures s in Identity(n) <==> 0 <= s < n {
      if 0 <= s < n {
        assert Identity(n)[s] == s;
      }
    }
  }

  /** The permutation holds every suit once, in the order of `Before` under the rankings, and is the only
      such sequence. */
  lemma PermutationOrders(hs: Hands, last: nat, ys: seq<int>)
    requires last < |hs|
    ensures multiset(Permutation(hs, last)) == multiset(Identity(|hs|))
    ensures SortedBy(Ranking(hs, last, |hs|), Permutation(hs, last))
    ensures multiset(ys) == multiset(Identity(|hs|)) && SortedBy(Ranking(hs, last, |hs|), ys) ==> ys == Permutation(hs, last)
  {
    var rank := Ranking(hs, last, |hs|);
    assert Suits(rank, Identity(|hs|)) && Distinct(Identity(|hs|));
    if multiset(ys) == multiset(Identity(|hs|)) && SortedBy(rank, ys) {
      SortedUnique(rank, ys, Permutation(hs, last));
    }
  }
}

/**
  The operations of the Rust `Cards` (src/cards.rs:385-428, 642-797) other
  than `shake_down`, `test_winner` and the encoders, as functions of the hands.
  The class `Deck.Cards` is proved against them.
*/
module Moves {
  import opened Outcomes
  import opened HandSpec
  import opened Table
  import opened Propagation
  import Arith

  // ---------------------------------------------------------------------------
  // Requests (cards.rs:385-422)

  /** `transfer(suit, other, this, no_throw)` (cards.rs:385-400): `asker` asked `other` for `suit` and got a
      card. A refusal by `ensure_have` or `remove` is `Done((false, _))` with `no_throw` and `Panicked`
      without; taking an undetermined card from a hand with none left fails the assertion at 90. */
  function Transfer(hs: Hands, suit: int, other: nat, asker: nat, noThrow: bool): (r: Outcome<(bool, Hands)>)
    requires other < |hs| && asker < |hs|
    ensures r.Done? && !r.value.0 ==> noThrow
    ensures r.Done? ==> |r.value.1| == |hs|
  {
    if NoUnknownToTake(hs[asker], suit) then Panicked
    else
      var (had, h1) := EnsureHave(hs[asker], suit);
      var hs1 := hs[asker := h1];
      if !had then (if noThrow then Done((false, hs1)) else Panicked)
      else if NoUnknownToTake(hs1[other], suit) then Panicked
      else
        var (removed, h2) := Remove(hs1[other], suit);
        var hs2 := hs1[other := h2];
        if !removed then (if noThrow then Done((false, hs2)) else Panicked)
        else Done((true, hs2[asker := Add(hs2[asker], suit)]))
  }

  /** `no_transfer(suit, other, this, no_throw)` (cards.rs:408-422): `asker` asked `other` for `suit` and
      was refused. */
  function NoTransfer(hs: Hands, suit: int, other: nat, asker: nat, noThrow: bool): (r: Outcome<(bool, Hands)>)
    requires other < |hs| && asker < |hs|
    ensures r.Done? && !r.value.0 ==> noThrow
    ensures r.Done? ==> |r.value.1| == |hs|
  {
    if NoUnknownToTake(hs[asker], suit) then Panicked
    else
      var (had, h1) := EnsureHave(hs[asker], suit);
      var hs1 := hs[asker := h1];
      if !had then (if noThrow then Done((false, hs1)) else Panicked)
      else
        var (refused, h2) := EnsureHaveNot(hs1[other], suit);
        var hs2 := hs1[other := h2];
        if !refused then (if noThrow then Done((false, hs2)) else Panicked) else Done((true, hs2))
  }

  /** After a successful `transfer` between two players, the asker holds one card more, at least two of
      `suit`, the other player one card less, nobody else changed, and the pack still has as many cards. */
  lemma TransferConserves(hs: Hands, suit: int, other: nat, asker: nat, noThrow: bool)
    requires other < |hs| && asker < |hs| && asker != other && 0 <= suit < |hs| && SoundAll(hs)
    requires Transfer(hs, suit, other, asker, noThrow).Done? && Transfer(hs, suit, other, asker, noThrow).value.0
    ensures var hs' := Transfer(hs, suit, other, asker, noThrow).value.1;
      && SoundAll(hs')
      && CardCount(hs') == CardCount(hs)
      && Size(hs'[asker], |hs|) == Size(hs[asker], |hs|) + 1
      && Size(hs'[other], |hs|) == Size(hs[other], |hs|) - 1
      && Count(hs'[asker], suit) >= 2
      && forall j :: 0 <= j < |hs| && j != asker && j != other ==> hs'[j] == hs[j]
  {
    var n := |hs|;
    EnsureHaveEffect(hs[asker], suit, n);
    var h1 := EnsureHave(hs[asker], suit).1;
    var hs1 := hs[asker := h1];
    RemoveEffect(hs1[other], suit, n);
    var h2 := Remove(hs1[other], suit).1;
    var hs2 := hs1[other := h2];
    AddGrows(hs2[asker], suit, n);
    var h3 := Add(hs2[asker], suit);
    var hs3 := hs2[asker := h3];
    CardsBelowUpdate(hs, asker, h1, n);
    CardsBelowUpdate(hs1, other, h2, n);
    CardsBelowUpdate(hs2, asker, h3, n);
    assert SoundAll(hs3) by {
      forall j | 0 <= j < n ensures Sound(hs3[j], n) {
        if j == asker {
          assert hs3[j] == h3;
        } else if j == other {
          assert hs3[j] == h2;
        }
      }
    }
  }

  /** If `remove` fails after `ensure_have` took an undetermined card, the taken card stays recorded:
      `transfer` does not roll the asker's hand back (cards.rs:386-397). */
  lemma TransferNoRollback(hs: Hands, suit: int, other: nat, asker: nat)
    requires other < |hs| && asker < |hs| && asker != other
    requires suit !in hs[asker].known && suit !in hs[asker].voids && hs[asker].unknowns > 0
    requires suit !in hs[other].known && suit in hs[other].voids
    ensures var hs' := hs[asker := EnsureHave(hs[asker], suit).1];
      && Transfer(hs, suit, other, asker, true) == Done((false, hs'))
      && hs' != hs
  {
    var hs' := hs[asker := EnsureHave(hs[asker], suit).1];
    assert suit in hs'[asker].known;
    assert hs'[other] == hs[other] && Remove(hs[other], suit) == (false, hs[other]);
    assert hs'[other := hs[other]] == hs';
  }

  /** A `no_transfer` that completes keeps every hand's size; when it succeeds between two players the
      asker is known to hold `suit` and the other player to be void in it. */
  lemma NoTransferKeepsSizes(hs: Hands, suit: int, other: nat, asker: nat, noThrow: bool)
    requires other < |hs| && asker < |hs| && 0 <= suit < |hs| && SoundAll(hs)
    ensures NoTransfer(hs, suit, other, asker, noThrow).Done? ==>
      var (ok, hs') := NoTransfer(hs, suit, other, asker, noThrow).value;
      && SoundAll(hs')
      && (forall j :: 0 <= j < |hs| ==> Size(hs'[j], |hs|) == Size(hs[j], |hs|))
      && (ok && asker != other ==> suit in hs'[asker].known && suit in hs'[other].voids)
  {
    if !NoUnknownToTake(hs[asker], suit) {
      var n := |hs|;
      EnsureHaveEffect(hs[asker], suit, n);
      var h1 := EnsureHave(hs[asker], suit).1;
      var hs1 := hs[asker := h1];
      EnsureHaveNotKeepsSize(hs1[other], suit, n);
      var h2 := EnsureHaveNot(hs1[other], suit).1;
      var hs2 := hs1[other := h2];
      assert SoundAll(hs1) by {
        forall j | 0 <= j < n ensures Sound(hs1[j], n) {
          if j == asker {
            assert hs1[j] == h1;
          }
        }
      }
      assert SoundAll(hs2) by {
        forall j | 0 <= j < n ensures Sound(hs2[j], n) {
          if j == other {
            assert hs2[j] == h2;
          }
        }
      }
    }
  }

  /** The same for a `transfer` that completes. */
  lemma TransferSound(hs: Hands, suit: int, other: nat, asker: nat, noThrow: bool)
    requires other < |hs| && asker < |hs| && 0 <= suit < |hs| && SoundAll(hs)
    ensures Transfer(hs, suit, other, asker, noThrow).Done? ==> SoundAll(Transfer(hs, suit, other, asker, noThrow).value.1)
  {
    var n := |hs|;
    if !NoUnknownToTake(hs[asker], suit) {
      EnsureHaveEffect(hs[asker], suit, n);
      var h1 := EnsureHave(hs[asker], suit).1;
      var hs1 := hs[asker := h1];
      assert SoundAll(hs1) by {
        forall j | 0 <= j < n ensures Sound(hs1[j], n) {
          if j == asker {
            assert hs1[j] == h1;
          }
        }
      }
      if EnsureHave(hs[asker], suit).0 && !NoUnknownToTake(hs1[other], suit) {
        RemoveEffect(hs1[other], suit, n);
        var h2 := Remove(hs1[other], suit).1;
        var hs2 := hs1[other := h2];
        assert SoundAll(hs2) by {
          forall j | 0 <= j < n ensures Sound(hs2[j], n) {
            if j == other {
              assert hs2[j] == h2;
            }
          }
        }
        if Remove(hs1[other], suit).0 {
          AddGrows(hs2[asker], suit, n);
          var hs3 := hs2[asker := Add(hs2[asker], suit)];
          assert SoundAll(hs3) by {
            forall j | 0 <= j < n ensures Sound(hs3[j], n) {
              if j == asker {
                assert hs3[j] == Add(hs2[asker], suit);
              }
            }
          }
        }
      }
    }
  }

  // ---------------------------------------------------------------------------
  // Legality (cards.rs:642-707)

  /** `legal(other, suit, this)` (cards.rs:642-657), without the printing of the reasons. */
  predicate Legal(hs: Hands, other: nat, suit: int, asker: nat) {
    if asker == other then false
    else if asker >= |hs| || other >= |hs| then false
    else if suit < 0 || suit >= |hs| then false
    else IsLegal(hs[asker], suit)
  }

  /** A request is refused exactly when it is addressed to oneself, names a player or a suit out of
      range, or asks for a suit the asker cannot hold. */
  lemma LegalExactly(hs: Hands, other: nat, suit: int, asker: nat)
    ensures !Legal(hs, other, suit, asker) <==>
      asker == other || asker >= |hs| || other >= |hs| || suit < 0 || suit >= |hs| || !IsLegal(hs[asker], suit)
  {
  }

  /** The suits of `perm`, in order, that the hand may ask for (cards.rs:671-675). */
  function LegalSuits(h: HandValue, perm: seq<int>): (r: seq<int>)
    ensures forall s :: s in r <==> s in perm && IsLegal(h, s)
  {
    if |perm| == 0 then []
    else
      var front := perm[..|perm| - 1];
      assert perm == front + [perm[|perm| - 1]];
      LegalSuits(h, front) + (if IsLegal(h, perm[|perm| - 1]) then [perm[|perm| - 1]] else [])
  }

  /** Whether asking `other` for `suit` is offered as a move (cards.rs:684-698): not when `other` surely
      lacks it, nor, when `other`'s answer is open, when the known cards of `suit` with the asker's own
      (counted once more if not yet known) already reach four. */
  predicate Offered(hs: Hands, asker: nat, other: nat, suit: int)
    requires asker < |hs| && other < |hs|
  {
    var (forced, has) := HasCard(hs[other], suit);
    if forced then has
    else Total(hs, suit) + (if suit in hs[asker].known then 0 else 1) < 4
  }

  /** The moves asking `other` for the suits of `suits`, in order (the inner loop, cards.rs:684-699). */
  function MovesTo(hs: Hands, asker: nat, other: nat, suits: seq<int>): (r: seq<(nat, int)>)
    requires asker < |hs| && other < |hs|
    ensures forall m :: m in r <==> m.0 == other && m.1 in suits && Offered(hs, asker, other, m.1)
  {
    if |suits| == 0 then []
    else
      var front := suits[..|suits| - 1];
      var s := suits[|suits| - 1];
      assert suits == front + [s];
      MovesTo(hs, asker, other, front) + (if Offered(hs, asker, other, s) then [(other, s)] else [])
  }

  /** The moves towards the players 1 .. i-1 seats after `asker` (the outer loop, cards.rs:682-700). */
  function MovesBelow(hs: Hands, asker: nat, suits: seq<int>, i: nat): (r: seq<(nat, int)>)
    requires asker < |hs| && 1 <= i <= |hs|
    ensures forall m :: m in r <==>
      (exists k :: 1 <= k < i && m.0 == Seat(asker, k, |hs|)) && m.1 in suits && Offered(hs, asker, m.0, m.1)
  {
    if i == 1 then []
    else MovesBelow(hs, asker, suits, i - 1) + MovesTo(hs, asker, Seat(asker, i - 1, |hs|), suits)
  }

  /** `legal_moves_given_permutation(this, perm)` (cards.rs:668-703). */
  function LegalMovesGivenPermutation(hs: Hands, asker: nat, perm: seq<int>): seq<(nat, int)>
    requires asker < |hs|
  {
    MovesBelow(hs, asker, LegalSuits(hs[asker], perm), |hs|)
  }

  /** A move is listed exactly when it asks another player for a suit of `perm` that `asker` may ask for
      and that the other player may hold; so every listed move is legal. */
  lemma LegalMovesExactly(hs: Hands, asker: nat, perm: seq<int>, m: (nat, int))
    requires asker < |hs|
    ensures m in LegalMovesGivenPermutation(hs, asker, perm) <==>
      m.0 < |hs| && m.0 != asker && m.1 in perm && IsLegal(hs[asker], m.1) && Offered(hs, asker, m.0, m.1)
    ensures m in LegalMovesGivenPermutation(hs, asker, perm) && (forall s :: s in perm ==> 0 <= s < |hs|) ==>
      Legal(hs, m.0, m.1, asker)
  {
    var n := |hs|;
    if m in LegalMovesGivenPermutation(hs, asker, perm) {
      var k :| 1 <= k < n && m.0 == Seat(asker, k, n);
      SeatReturns(asker, k, n);
    }
    if m.0 < n && m.0 != asker && m.1 in perm && IsLegal(hs[asker], m.1) && Offered(hs, asker, m.0, m.1) {
      SeatReaches(asker, n, m.0);
      var k :| 0 <= k < n && Seat(asker, k, n) == m.0;
      Arith.ModOf(0, n, asker);
      assert k != 0;
    }
  }

  // ---------------------------------------------------------------------------
  // has_card and next_player (cards.rs:768-797)

  /** Whether a hypothesis recorded on copies of the hands stands: `Done(false)` when recording it is
      refused or `shake_down` then finds the hands inconsistent. */
  function Stands(o: Outcome<(bool, Hands)>): (r: Outcome<bool>)
    requires o.Done? ==> SoundAll(o.value.1)
    ensures r.Panicked? ==> o.Panicked? || ShakeDown(o.value.1).Panicked?
  {
    match o
    case Panicked => Panicked
    case Done((ok, hs')) =>
      if !ok then Done(false)
      else
        match ShakeDown(hs')
        case Panicked => Panicked
        case Done((consistent, _)) => Done(consistent)
  }

  /** `Cards::has_card(suit, holder, asker)` (cards.rs:768-785): (forced, holds). An answer the hand
      itself forces is returned as it is; otherwise, on copies of the hands, a refusal that does not stand
      forces "holds", and then a transfer that does not stand forces "lacks". */
  function HasCardAt(hs: Hands, suit: int, holder: nat, asker: nat): (r: Outcome<(bool, bool)>)
    requires holder < |hs| && asker < |hs| && 0 <= suit < |hs| && SoundAll(hs)
    ensures r.Done? ==> r.value != (false, true)
    ensures HasCard(hs[holder], suit).0 ==> r == Done(HasCard(hs[holder], suit))
  {
    var (forced, has) := HasCard(hs[holder], suit);
    if forced then Done((forced, has))
    else
      NoTransferKeepsSizes(hs, suit, holder, asker, true);
      TransferSound(hs, suit, holder, asker, true);
      var refusal := Stands(NoTransfer(hs, suit, holder, asker, true));
      var gift := Stands(Transfer(hs, suit, holder, asker, true));
      Answer(refusal, gift)
  }

  /** The answer of `has_card` from whether the refusal and the transfer stand (cards.rs:776-784): a failed
      assertion in either is passed on, and the refusal is tried first. */
  function Answer(refusal: Outcome<bool>, gift: Outcome<bool>): (r: Outcome<(bool, bool)>)
    ensures r.Done? ==> r.value != (false, true)
    ensures r.Panicked? <==> refusal.Panicked? || (refusal == Done(true) && gift.Panicked?)
    ensures r == Done((true, true)) <==> refusal == Done(false)
    ensures r == Done((true, false)) <==> refusal == Done(true) && gift == Done(false)
    ensures r == Done((false, false)) <==> refusal == Done(true) && gift == Done(true)
  {
    if refusal.Panicked? then Panicked
    else if !refusal.value then Done((true, true))
    else if gift.Panicked? then Panicked
    else if !gift.value then Done((true, false))
    else Done((false, false))
  }

  /** An answer the hand does not force comes from whether the two hypotheses stand. */
  lemma HasCardUnforced(hs: Hands, suit: int, holder: nat, asker: nat)
    requires holder < |hs| && asker < |hs| && 0 <= suit < |hs| && SoundAll(hs)
    requires !HasCard(hs[holder], suit).0
    ensures NoTransfer(hs, suit, holder, asker, true).Done? ==> SoundAll(NoTransfer(hs, suit, holder, asker, true).value.1)
    ensures Transfer(hs, suit, holder, asker, true).Done? ==> SoundAll(Transfer(hs, suit, holder, asker, true).value.1)
    ensures HasCardAt(hs, suit, holder, asker)
         == Answer(Stands(NoTransfer(hs, suit, holder, asker, true)), Stands(Transfer(hs, suit, holder, asker, true)))
  {
    NoTransferKeepsSizes(hs, suit, holder, asker, true);
    TransferSound(hs, suit, holder, asker, true);
  }

  /** When the hand does not force the answer, `has_card` says "holds" exactly when the refusal does not
      stand, "lacks" exactly when the refusal stands and the transfer does not, and leaves the answer open
      exactly when both hypotheses stand. */
  lemma HasCardMeaning(hs: Hands, suit: int, holder: nat, asker: nat)
    requires holder < |hs| && asker < |hs| && 0 <= suit < |hs| && SoundAll(hs)
    requires !HasCard(hs[holder], suit).0
    ensures NoTransfer(hs, suit, holder, asker, true).Done? ==> SoundAll(NoTransfer(hs, suit, holder, asker, true).value.1)
    ensures Transfer(hs, suit, holder, asker, true).Done? ==> SoundAll(Transfer(hs, suit, holder, asker, true).value.1)
    ensures var r := HasCardAt(hs, suit, holder, asker);
      var refusal := Stands(NoTransfer(hs, suit, holder, asker, true));
      var gift := Stands(Transfer(hs, suit, holder, asker, true));
      && (r == Done((true, true)) <==> refusal == Done(false))
      && (r == Done((true, false)) <==> refusal == Done(true) && gift == Done(false))
      && (r == Done((false, false)) <==> refusal == Done(true) && gift == Done(true))
  {
    NoTransferKeepsSizes(hs, suit, holder, asker, true);
    TransferSound(hs, suit, holder, asker, true);
    var refusal := Stands(NoTransfer(hs, suit, holder, asker, true));
    var gift := Stands(Transfer(hs, suit, holder, asker, true));
    assert HasCardAt(hs, suit, holder, asker) == Answer(refusal, gift);
  }

  /** The search of `next_player` from the player k seats after `current` (cards.rs:787-796); the assertion
      at 793 fails when the search is back at `current`. */
  function NextFrom(hs: Hands, current: nat, k: nat): (r: Outcome<nat>)
    requires current < |hs| && 1 <= k && (k < |hs| || k == 1)
    decreases |hs| - k
    ensures r.Done? ==> exists j :: k <= j < |hs| + 1 && r.value == Seat(current, j, |hs|) && !IsEmpty(hs[r.value])
                          && forall i :: k <= i < j ==> IsEmpty(hs[Seat(current, i, |hs|)])
    ensures r.Panicked? <==> forall i :: k <= i < |hs| || i == k ==> IsEmpty(hs[Seat(current, i, |hs|)])
  {
    var p := Seat(current, k, |hs|);
    if !IsEmpty(hs[p]) then Done(p)
    else if k + 1 >= |hs| then Panicked
    else NextFrom(hs, current, k + 1)
  }

  /** `next_player(this_player)` (cards.rs:787-796). */
  function NextPlayer(hs: Hands, current: nat): Outcome<nat>
    requires current < |hs|
  {
    NextFrom(hs, current, 1)
  }

  /** `next_player` gives the first player after `current`, going round, who holds a card, and fails its
      assertion exactly when every other player is out of cards (with a single player: when that player
      is). It never gives `current` back unless `current` plays alone. */
  lemma NextPlayerVerdict(hs: Hands, current: nat)
    requires current < |hs|
    ensures var r := NextPlayer(hs, current);
      && (r.Done? ==> r.value < |hs| && !IsEmpty(hs[r.value]) && (r.value == current ==> |hs| == 1))
      && (|hs| > 1 ==> (r.Panicked? <==> forall j :: 0 <= j < |hs| && j != current ==> IsEmpty(hs[j])))
      && (|hs| == 1 ==> (r.Panicked? <==> IsEmpty(hs[0])))
  {
    var n := |hs|;
    var r := NextPlayer(hs, current);
    if r.Done? && r.value == current && n > 1 {
      var j :| 1 <= j < n + 1 && r.value == Seat(current, j, n) && !IsEmpty(hs[r.value])
               && forall i :: 1 <= i < j ==> IsEmpty(hs[Seat(current, i, n)]);
      SeatReturns(current, j, n);
    }
    if n > 1 {
      if r.Panicked? {
        forall j | 0 <= j < n && j != current ensures IsEmpty(hs[j]) {
          SeatReaches(current, n, j);
          var k :| 0 <= k < n && Seat(current, k, n) == j;
          Arith.ModOf(0, n, current);
          assert k != 0;
        }
      }
      if forall j :: 0 <= j < n && j != current ==> IsEmpty(hs[j]) {
        forall i | 1 <= i < n ensures IsEmpty(hs[Seat(current, i, n)]) {
          SeatReturns(current, i, n);
        }
      }
    } else {
      assert Seat(current, 1, n) == 0;
    }
  }
}

/**
  The Python `Hand` and `Cards` of cards.py as objects whose fields the methods
  update in place. A method whose Python code can fail an `assert` returns
  `ok`, false for the failure; since every such method asserts before it
  changes anything, a failure leaves the hand as it was. Each method is proved
  against the function of `PySpec` (or `HandSpec`, where the two revisions
  compute the same thing) applied to the value the fields held before.
*/
module PyCards {
  import opened Outcomes
  import opened HandSpec
  import opened Table
  import PySpec
  import Propagation

  /** A non-empty set of suits has a member. */
  lemma SomeSuit(suits: set<int>)
    requires suits != {}
    ensures exists s :: s in suits
  {
    assert (forall s :: s !in suits) ==> suits == {};
  }

  /** What a method that may fail an assertion did: `ok` exactly when `spec` completes, the new value
      is the one `spec` gives, and a failed assertion changed nothing. */
  ghost predicate Ran(ok: bool, before: HandValue, after: HandValue, spec: Outcome<HandValue>) {
    (ok <==> spec.Done?) && (ok ==> after == spec.value) && (!ok ==> after == before)
  }

  class Hand {
    var knownCards: map<int, int>
    var knownVoids: set<int>
    var unknowns: int

    function Value(): HandValue
      reads this
    {
      HandValue(knownCards, knownVoids, unknowns)
    }

    ghost predicate Valid()
      reads this
    {
      WellFormed(Value())
    }

    /** `Hand.__init__` (cards.py:12-18): four cards, nothing known. */
    constructor ()
      ensures Valid() && Value() == Fresh
    {
      knownCards := map[];
      knownVoids := {};
      unknowns := 4;
    }

    /** `_remove_unknown` (cards.py:57-61). */
    method RemoveUnknown() returns (ok: bool)
      requires Valid()
      modifies this
      ensures Valid() && Ran(ok, old(Value()), Value(), PySpec.TakeUnknown(old(Value())))
    {
      if unknowns <= 0 {
        return false;
      }
      unknowns := unknowns - 1;
      if unknowns == 0 {
        knownVoids := {};
      }
      return true;
    }

    /** `ensure_have` (cards.py:41-55). */
    method EnsureHave(suit: int) returns (ok: bool)
      requires Valid()
      modifies this
      ensures Valid() && Ran(ok, old(Value()), Value(), PySpec.Have(old(Value()), suit))
    {
      if suit in knownCards {
        return knownCards[suit] > 0;
      }
      if suit in knownVoids {
        return false;
      }
      ok := RemoveUnknown();
      if ok {
        knownCards := knownCards[suit := 1];
      }
    }

    /** `ensure_have_not` (cards.py:63-69). */
    method EnsureHaveNot(suit: int) returns (ok: bool)
      requires Valid()
      modifies this
      ensures Valid() && Ran(ok, old(Value()), Value(), PySpec.HaveNot(old(Value()), suit))
    {
      if suit in knownCards {
        return false;
      }
      knownVoids := knownVoids + {suit};
      return true;
    }

    /** `remove` (cards.py:71-84). */
    method Remove(suit: int) returns (ok: bool)
      requires Valid()
      modifies this
      ensures Valid() && Ran(ok, old(Value()), Value(), PySpec.Take(old(Value()), suit))
    {
      if suit in knownCards {
        var count := knownCards[suit];
        if count > 1 {
          knownCards := knownCards[suit := count - 1];
        } else {
          knownCards := knownCards - {suit};
        }
        return true;
      }
      if suit in knownVoids {
        return false;
      }
      ok := RemoveUnknown();
    }

    /** `add` (cards.py:86-90): the `Counter` counts a missing suit as 0. */
    method Add(suit: int)
      requires Valid()
      modifies this
      ensures Valid() && Value() == HandSpec.Add(old(Value()), suit)
    {
      knownCards := knownCards[suit := Count(Value(), suit) + 1];
    }

    /** `has_four_of_a_kind` (cards.py:92-99). */
    method HasFourOfAKind() returns (r: bool)
      ensures r == HandSpec.HasFourOfAKind(Value())
    {
      var rest := knownCards.Keys;
      while rest != {}
        invariant rest <= knownCards.Keys
        invariant forall s :: s in knownCards && s !in rest ==> knownCards[s] != 4
        decreases |rest|
      {
        SomeSuit(rest);
        var s :| s in rest;
        if knownCards[s] == 4 {
          return true;
        }
        rest := rest - {s};
      }
      return false;
    }

    /** `is_determined` (cards.py:101-105). */
    function IsDetermined(): (r: bool)
      reads this
      ensures r <==> HandSpec.IsDetermined(Value())
    {
      unknowns == 0
    }

    /** `running_totals` (cards.py:107-111): the known counts added into `totals`, indexed by suit. */
    method RunningTotals(totals: array<int>)
      requires forall s :: s in knownCards ==> 0 <= s < totals.Length
      modifies totals
      ensures forall t :: 0 <= t < totals.Length ==> totals[t] == old(totals[t]) + Count(Value(), t)
    {
      var rest := knownCards.Keys;
      while rest != {}
        invariant rest <= knownCards.Keys
        invariant forall t :: 0 <= t < totals.Length ==>
          totals[t] == old(totals[t]) + (if t in knownCards && t !in rest then knownCards[t] else 0)
        decreases |rest|
      {
        SomeSuit(rest);
        var s :| s in rest;
        totals[s] := totals[s] + knownCards[s];
        rest := rest - {s};
      }
    }

    /** `kill_unknown` (cards.py:113-122): true exactly when there are undetermined cards and `suit` was
        not yet void, and then `suit` is void. */
    method KillUnknown(suit: int) returns (changed: bool)
      requires Valid()
      modifies this
      ensures Valid() && (changed, Value()) == HandSpec.KillUnknown(old(Value()), suit)
    {
      if unknowns > 0 && suit !in knownVoids {
        knownVoids := knownVoids + {suit};
        return true;
      }
      return false;
    }

    /** `force_unknowns` (cards.py:124-145): with all suits but one void, the undetermined cards are the
        suits of 0 .. n-1 that are not void; the first of them is taken, and with the voids among
        0 .. n-1 it is the only one. No change returns `None`, which is false here. */
    method ForceUnknowns(n: nat) returns (changed: bool)
      requires Valid()
      modifies this
      ensures Valid() && (changed, Value()) == HandSpec.ForceUnknowns(old(Value()), n)
    {
      if unknowns == 0 {
        return false;
      }
      if |knownVoids| == n - 1 {
        for i := 0 to n
          invariant Value() == old(Value())
          invariant FirstOpen(Value(), i, n) == FirstOpen(Value(), 0, n)
        {
          if i !in knownVoids {
            knownCards := knownCards[i := Count(Value(), i) + unknowns];
            unknowns := 0;
            knownVoids := {};
            return true;
          }
        }
      }
      return false;
    }

    /** `is_legal` (cards.py:147-157): the same test as the Rust hand's. */
    function IsLegal(suit: int): (r: bool)
      reads this
      ensures r == HandSpec.IsLegal(Value(), suit)
      ensures r <==> suit in knownCards || (unknowns != 0 && suit !in knownVoids)
    {
      if suit in knownCards then true
      else if unknowns == 0 then false
      else if suit in knownVoids then false
      else true
    }

    /** `has_card` (cards.py:159-171): (forced, holds); whether the hand holds one is `is_legal`. */
    function HasCard(suit: int): (r: (bool, bool))
      reads this
      ensures r.1 == IsLegal(suit)
      ensures r == HandSpec.HasCard(Value(), suit)
    {
      if suit in knownCards then (true, true)
      else if unknowns == 0 then (true, false)
      else if suit in knownVoids then (true, false)
      else (false, true)
    }
  }

  class Cards {
    const hands: seq<Hand>

    function Value(): (r: Hands)
      reads this, hands
      ensures |r| == |hands|
      ensures forall i :: 0 <= i < |hands| ==> r[i] == hands[i].Value()
    {
      seq(|hands|, i requires 0 <= i < |hands| reads hands => hands[i].Value())
    }

    /** Every player has a hand object of their own, and every hand is well formed. */
    ghost predicate Valid()
      reads this, hands
    {
      && (forall i, j :: 0 <= i < j < |hands| ==> hands[i] != hands[j])
      && forall i :: 0 <= i < |hands| ==> hands[i].Valid()
    }

    /** `Cards.__init__` (cards.py:208-209): a fresh hand per player. */
    constructor (n: nat)
      ensures Valid() && Value() == seq(n, _ => Fresh)
      ensures forall i :: 0 <= i < n ==> fresh(hands[i])
    {
      var made: seq<Hand> := [];
      while |made| < n
        invariant |made| <= n
        invariant forall i :: 0 <= i < |made| ==> fresh(made[i]) && made[i].Valid() && made[i].Value() == Fresh
        invariant forall i, j :: 0 <= i < j < |made| ==> made[i] != made[j]
      {
        var h := new Hand();
        made := made + [h];
      }
      hands := made;
    }

    /** `number_of_players` (cards.py:211-212). */
    function NumberOfPlayers(): (r: nat)
      reads this
      ensures r == |hands|
    {
      |hands|
    }

    /** `transfer(suit, other, this)` (cards.py:224-230): a failed assertion ends it where it fails. */
    method Transfer(suit: int, other: nat, asker: nat) returns (ok: bool)
      requires Valid() && other < |hands| && asker < |hands|
      modifies hands
      ensures var spec := PySpec.Transfer(old(Value()), suit, other, asker);
        (ok <==> spec.Done?) && (ok ==> Valid() && Value() == spec.value)
    {
      ghost var hs := Value();
      ok := hands[asker].EnsureHave(suit);
      if !ok {
        return;
      }
      ghost var hs1 := Value();
      assert hs1 == hs[asker := hands[asker].Value()];
      ok := hands[other].Remove(suit);
      if !ok {
        return;
      }
      ghost var hs2 := Value();
      assert hs2 == hs1[other := hands[other].Value()];
      hands[asker].Add(suit);
      assert Value() == hs2[asker := hands[asker].Value()];
    }

    /** `no_transfer(suit, other, this)` (cards.py:232-237). */
    method NoTransfer(suit: int, other: nat, asker: nat) returns (ok: bool)
      requires Valid() && other < |hands| && asker < |hands|
      modifies hands
      ensures var spec := PySpec.NoTransfer(old(Value()), suit, other, asker);
        (ok <==> spec.Done?) && (ok ==> Valid() && Value() == spec.value)
    {
      ghost var hs := Value();
      ok := hands[asker].EnsureHave(suit);
      if !ok {
        return;
      }
      ghost var hs1 := Value();
      assert hs1 == hs[asker := hands[asker].Value()];
      ok := hands[other].EnsureHaveNot(suit);
      if !ok {
        return;
      }
      assert Value() == hs1[other := hands[other].Value()];
    }

    // -------------------------------------------------------------------------
    // test_winner (cards.py:239-281)

    /** The totals of the known cards of every suit (cards.py:252-254). */
    method RunningTotals() returns (totals: seq<int>)
      requires Valid() && SoundAll(Value())
      ensures totals == Totals(Value())
    {
      var n := |hands|;
      var a := new int[n](_ => 0);
      for i := 0 to n
        invariant forall s :: 0 <= s < n ==> a[s] == TotalBelow(Value(), s, i)
      {
        assert Sound(Value()[i], n);
        hands[i].RunningTotals(a);
      }
      totals := a[..];
    }

    /** `kill_unknown(suit)` on the hand of player i (cards.py:113-122). */
    method KillUnknownAt(i: nat, suit: int) returns (changed: bool)
      requires Valid() && i < |hands|
      modifies hands[i]
      ensures Valid() && Value() == old(Value())[i := Value()[i]]
      ensures (changed, Value()[i]) == KillUnknown(old(Value())[i], suit)
    {
      changed := hands[i].KillUnknown(suit);
    }

    /** `force_unknowns(n)` on the hand of player i (cards.py:124-145). */
    method ForceUnknownsAt(i: nat) returns (changed: bool)
      requires Valid() && i < |hands|
      modifies hands[i]
      ensures Valid() && Value() == old(Value())[i := Value()[i]]
      ensures (changed, Value()[i]) == ForceUnknowns(old(Value())[i], |hands|)
    {
      changed := hands[i].ForceUnknowns(|hands|);
    }

    /** `kill_unknown(suit)` on every hand (cards.py:258-260). */
    method KillAll(suit: int) returns (any: bool)
      requires Valid() && SoundAll(Value()) && 0 <= suit < |hands|
      modifies hands
      ensures Valid() && (Value(), any) == Propagation.KillFrom(old(Value()), suit, 0, false)
    {
      any := false;
      for i := 0 to |hands|
        invariant Valid() && SoundAll(Value())
        invariant Propagation.KillFrom(Value(), suit, i, any) == Propagation.KillFrom(old(Value()), suit, 0, false)
      {
        ghost var hs := Value();
        var changed := KillUnknownAt(i, suit);
        assert SoundAll(Value()) && Propagation.KillFrom(hs, suit, i, any) == Propagation.KillFrom(Value(), suit, i + 1, any || changed) by {
          Propagation.KillStep(hs[i], suit, |hs|);
          StepEvolves(hs, i, Value()[i]);
        }
        any := any || changed;
      }
    }

    /** `force_unknowns(n)` on every hand (cards.py:264-266). */
    method ForceAll(any0: bool) returns (any: bool)
      requires Valid() && SoundAll(Value())
      modifies hands
      ensures Valid() && (Value(), any) == Propagation.ForceFrom(old(Value()), 0, any0)
    {
      any := any0;
      for i := 0 to |hands|
        invariant Valid() && SoundAll(Value())
        invariant Propagation.ForceFrom(Value(), i, any) == Propagation.ForceFrom(old(Value()), 0, any0)
      {
        ghost var hs := Value();
        var changed := ForceUnknownsAt(i);
        assert SoundAll(Value()) && Propagation.ForceFrom(hs, i, any) == Propagation.ForceFrom(Value(), i + 1, any || changed) by {
          Propagation.ForceStep(hs[i], |hs|);
          StepEvolves(hs, i, Value()[i]);
        }
        any := any || changed;
      }
    }

    /** The loop over the totals (cards.py:255-260): the failed assertion of a suit with more than four
        known cards, or whether anything changed. */
    method KillSuits(totals: seq<int>) returns (r: Outcome<bool>)
      requires Valid() && SoundAll(Value()) && |totals| == |hands|
      modifies hands
      ensures var spec := PySpec.KillSuits(old(Value()), totals, 0, false);
        && (r.Panicked? <==> spec.Panicked?)
        && (r.Done? ==> Valid() && SoundAll(Value()) && r.value == spec.value.1 && Value() == spec.value.0)
    {
      var any := false;
      for s := 0 to |hands|
        invariant Valid() && SoundAll(Value())
        invariant PySpec.KillSuits(Value(), totals, s, any) == PySpec.KillSuits(old(Value()), totals, 0, false)
      {
        ghost var hs := Value();
        if totals[s] > 4 {
          assert PySpec.KillSuits(hs, totals, s, any).Panicked?;
          return Panicked;
        }
        if totals[s] == 4 {
          var changed := KillAll(s);
          assert PySpec.KillSuits(hs, totals, s, any) == PySpec.KillSuits(Value(), totals, s + 1, any || changed);
          any := any || changed;
        } else {
          assert PySpec.KillSuits(hs, totals, s, any) == PySpec.KillSuits(hs, totals, s + 1, any);
        }
      }
      assert PySpec.KillSuits(Value(), totals, |hands|, any) == Done((Value(), any));
      return Done(any);
    }

    /** One pass of the `while any_changes` loop (cards.py:248-266): whether anything changed, or the
        failed assertion of a suit with more than four known cards. */
    method Round() returns (r: Outcome<bool>)
      requires Valid() && SoundAll(Value())
      modifies hands
      ensures var spec := PySpec.Pass(old(Value()));
        && (r.Panicked? <==> spec.Panicked?)
        && (r.Done? ==> Valid() && SoundAll(Value()) && r.value == spec.value.1 && Value() == spec.value.0)
    {
      var totals := RunningTotals();
      var killed := KillSuits(totals);
      if killed.Panicked? {
        return Panicked;
      }
      var any := ForceAll(killed.value);
      return Done(any);
    }

    /** `test_winner(last_player)` (cards.py:239-281): the loop of passes until one changes nothing,
        then the lowest player holding four of a suit, else `last` if any hand is known, else -1. */
    method TestWinner(last: nat) returns (r: Outcome<int>)
      requires Valid() && SoundAll(Value())
      modifies hands
      ensures var spec := PySpec.TestWinner(old(Value()), last);
        && (r.Panicked? <==> spec.Panicked?)
        && (r.Done? ==> Valid() && r.value == spec.value.0 && Value() == spec.value.1)
    {
      var anyChanges := true;
      while anyChanges
        invariant Valid() && SoundAll(Value())
        invariant anyChanges ==> PySpec.Shaken(Value()) == PySpec.Shaken(old(Value()))
        invariant !anyChanges ==> PySpec.Shaken(old(Value())) == Done(Value())
        decreases if anyChanges then Weight(Value()) + 1 else 0
      {
        var pass := Round();
        if pass.Panicked? {
          return Panicked;
        }
        anyChanges := pass.value;
      }
      var w := Winner(last);
      return Done(w);
    }

    /** The end of `test_winner` (cards.py:270-281). */
    method Winner(last: nat) returns (w: int)
      ensures w == PySpec.Verdict(Value(), last)
    {
      for i := 0 to |hands|
        invariant PySpec.LowestFour(Value(), 0) == PySpec.LowestFour(Value(), i)
      {
        var four := hands[i].HasFourOfAKind();
        if four {
          return i;
        }
      }
      for i := 0 to |hands|
        invariant forall j :: 0 <= j < i ==> !HandSpec.IsDetermined(Value()[j])
      {
        if hands[i].IsDetermined() {
          return last;
        }
      }
      return -1;
    }

    /** `legal(other, suit, this, verbose)` (cards.py:283-296); the message printed when `verbose` is
        left out. Player numbers are Python integers and may be negative. */
    function Legal(other: int, suit: int, asker: int): (r: bool)
      reads this, hands
      ensures r == PySpec.Legal(Value(), other, suit, asker)
      ensures r ==> 0 <= asker < |hands| && 0 <= other < |hands| && asker != other && 0 <= suit < |hands|
                    && hands[asker].HasCard(suit).1
    {
      PySpec.LegalAgrees(Value(), other, suit, asker);
      if asker == other then false
      else if asker < 0 || other < 0 || asker >= |hands| || other >= |hands| then false
      else if suit < 0 || suit >= |hands| then false
      else hands[asker].IsLegal(suit)
    }

    /** `has_card(suit, this)` (cards.py:309-314): the hand's own answer, (forced, holds); an unforced
        answer is always "holds". */
    function HasCard(suit: int, holder: nat): (r: (bool, bool))
      requires holder < |hands|
      reads this, hands
      ensures r == HandSpec.HasCard(Value()[holder], suit)
      ensures r.1 <==> HandSpec.IsLegal(Value()[holder], suit)
      ensures !r.0 ==> r.1
    {
      hands[holder].HasCard(suit)
    }
  }
}

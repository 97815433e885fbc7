/**
  The Rust `Hand` of src/cards.rs as an object whose fields the mutators update
  in place. Every method is proved against the function of the same name in
  `HandSpec` (or `Encoding`), applied to the value the fields held before.
*/
module HandState {
  import opened Outcomes
  import opened HandSpec
  import Encoding

  /** A non-empty set of suits has a member. */
  lemma SomeSuit(suits: set<int>)
    requires suits != {}
    ensures exists s :: s in suits
  {
    assert (forall s :: s !in suits) ==> suits == {};
  }

  class Hand {
    var knownCards: map<int, int>
    var knownVoids: set<int>
    var unknowns: int

    /** The fields as a value. */
    function Value(): HandValue
      reads this
    {
      HandValue(knownCards, knownVoids, unknowns)
    }

    ghost predicate Valid()
      reads this
    {
      WellFormed(Value())
    }

    /** `Hand::new` (cards.rs:44-50). */
    constructor ()
      ensures Valid() && Value() == Fresh
    {
      knownCards := map[];
      knownVoids := {};
      unknowns := 4;
    }

    /** A hand set up with given contents, as the tests do and as `clone` does. */
    constructor Of(v: HandValue)
      ensures Value() == v
    {
      knownCards := v.known;
      knownVoids := v.voids;
      unknowns := v.unknowns;
    }

    /** `_remove_unknown` (cards.rs:89-95); the assertion at 90 is the precondition. */
    method RemoveUnknown()
      requires Valid() && unknowns > 0
      modifies this
      ensures Valid() && Value() == HandSpec.RemoveUnknown(old(Value()))
    {
      unknowns := unknowns - 1;
      if unknowns == 0 {
        knownVoids := {};
      }
    }

    /** `ensure_have` (cards.rs:76-87). */
    method EnsureHave(suit: int) returns (ok: bool)
      requires Valid() && !NoUnknownToTake(Value(), suit)
      modifies this
      ensures Valid() && (ok, Value()) == HandSpec.EnsureHave(old(Value()), suit)
    {
      if suit in knownCards {
        return true;
      }
      if suit in knownVoids {
        return false;
      }
      RemoveUnknown();
      knownCards := knownCards[suit := 1];
      return true;
    }

    /** `ensure_have_not` (cards.rs:101-107). */
    method EnsureHaveNot(suit: int) returns (ok: bool)
      requires Valid()
      modifies this
      ensures Valid() && (ok, Value()) == HandSpec.EnsureHaveNot(old(Value()), suit)
    {
      if suit in knownCards {
        return false;
      }
      knownVoids := knownVoids + {suit};
      return true;
    }

    /** `remove` (cards.rs:113-130). */
    method Remove(suit: int) returns (ok: bool)
      requires Valid() && !NoUnknownToTake(Value(), suit)
      modifies this
      ensures Valid() && (ok, Value()) == HandSpec.Remove(old(Value()), suit)
    {
      if suit in knownCards {
        var count := knownCards[suit];
        if count > 1 {
          knownCards := knownCards[suit := count - 1];
        } else {
          knownCards := knownCards - {suit};
        }
        return true;
      } else if suit in knownVoids {
        return false;
      } else {
        RemoveUnknown();
        return true;
      }
    }

    /** `add` (cards.rs:135-137). */
    method Add(suit: int)
      requires Valid()
      modifies this
      ensures Valid() && Value() == HandSpec.Add(old(Value()), suit)
    {
      knownCards := knownCards[suit := Count(Value(), suit) + 1];
    }

    /** `has_four_of_a_kind` (cards.rs:142-149): a search over the known counts. */
    method HasFourOfAKind() returns (r: bool)
      ensures r == HandSpec.HasFourOfAKind(Value())
    {
      var rest := knownCards.Keys;
      while rest != {}
        invariant rest <= knownCards.Keys
        invariant forall s :: s in knownCards && s !in rest ==> knownCards[s] != 4
        decreases |rest|
      {
        SomeSuit(rest);
        var s :| s in rest;
        if knownCards[s] == 4 {
          return true;
        }
        rest := rest - {s};
      }
      return false;
    }

    /** `running_totals` (cards.rs:161-165): adds the known counts into `totals`, indexed by suit. */
    method RunningTotals(totals: array<int>)
      requires forall s :: s in knownCards ==> 0 <= s < totals.Length
      modifies totals
      ensures forall t :: 0 <= t < totals.Length ==> totals[t] == old(totals[t]) + Count(Value(), t)
    {
      var rest := knownCards.Keys;
      while rest != {}
        invariant rest <= knownCards.Keys
        invariant forall t :: 0 <= t < totals.Length ==>
          totals[t] == old(totals[t]) + (if t in knownCards && t !in rest then knownCards[t] else 0)
        decreases |rest|
      {
        SomeSuit(rest);
        var s :| s in rest;
        totals[s] := totals[s] + knownCards[s];
        rest := rest - {s};
      }
    }

    /** `kill_unknown` (cards.rs:171-177). */
    method KillUnknown(suit: int) returns (changed: bool)
      requires Valid()
      modifies this
      ensures Valid() && (changed, Value()) == HandSpec.KillUnknown(old(Value()), suit)
    {
      if unknowns > 0 {
        changed := suit !in knownVoids;
        knownVoids := knownVoids + {suit};
      } else {
        changed := false;
      }
    }

    /** `force_unknowns` (cards.rs:183-199): searches the suits in turn for the one that is not void. */
    method ForceUnknowns(n: nat) returns (changed: bool)
      requires Valid()
      modifies this
      ensures Valid() && (changed, Value()) == HandSpec.ForceUnknowns(old(Value()), n)
    {
      if unknowns == 0 {
        return false;
      }
      if |knownVoids| == n - 1 {
        for i := 0 to n
          invariant Value() == old(Value())
          invariant FirstOpen(Value(), i, n) == FirstOpen(Value(), 0, n)
        {
          if i !in knownVoids {
            knownCards := knownCards[i := Count(Value(), i) + unknowns];
            unknowns := 0;
            knownVoids := {};
            return true;
          }
        }
      }
      return false;
    }

    /** `fill_some_unknowns` (cards.rs:259-268); the assertions at 260 and 264 are preconditions. */
    method FillSomeUnknowns(suit: int, count: int) returns (ok: bool)
      requires Valid() && 1 <= count <= 4 && (unknowns >= count ==> suit !in knownVoids)
      modifies this
      ensures Valid() && (ok, Value()) == HandSpec.FillSomeUnknowns(old(Value()), suit, count)
    {
      if unknowns < count {
        return false;
      }
      unknowns := unknowns - count;
      knownCards := knownCards[suit := Count(Value(), suit) + count];
      return true;
    }

    /** `fill_unknowns` (cards.rs:242-252), with `totals[s]` the total of suit s (0 when absent from the
        source's map). The assertions at 250 and 264 that can fail give `Panicked`. */
    method FillUnknowns(totals: seq<int>) returns (r: Outcome<bool>)
      requires Valid()
      modifies this
      ensures var spec := FillUnknownsFrom(old(Value()), totals, 0);
        && (r.Panicked? <==> spec.Panicked?)
        && (r.Done? ==> Valid() && r.value == spec.value.0 && Value() == spec.value.1)
    {
      for s := 0 to |totals|
        invariant Valid()
        invariant FillUnknownsFrom(Value(), totals, s) == FillUnknownsFrom(old(Value()), totals, 0)
      {
        if 0 < totals[s] < 4 {
          var count := 4 - totals[s];
          if unknowns >= count && s in knownVoids {
            return Panicked;
          }
          var ok := FillSomeUnknowns(s, count);
          if !ok {
            return Done(false);
          }
        }
      }
      if unknowns != 0 {
        return Panicked;
      }
      return Done(true);
    }

    /** `position` (cards.rs:278-293): the encoding of the hand appended to `pos`, or `Panicked` when the
        assertion at 281 finds four known cards of a suit of `permutation`. */
    method Position(pos: int, permutation: seq<int>) returns (r: Outcome<int>)
      requires Valid()
      ensures r == if Encoding.Countable(Value(), permutation) then Done(Encoding.HandPosition(Value(), pos, permutation)) else Panicked
    {
      var k := |permutation|;
      var p := pos;
      for i := 0 to k
        invariant p == pos * Encoding.Pow(4, i) + Encoding.KnownDigits(Value(), permutation[..i])
        invariant forall j :: 0 <= j < i ==> Count(Value(), permutation[j]) < 4
      {
        var count := Count(Value(), permutation[i]);
        if !(count >= 0 && count < 4) {
          return Panicked;
        }
        Encoding.KnownStep(Value(), permutation, i, pos, p);
        p := p * 4 + count;
      }
      assert permutation[..k] == permutation;
      p := p * 8 + unknowns;
      ghost var mid := p;
      for i := 0 to k
        invariant p == mid * Encoding.Pow(2, i) + Encoding.VoidDigits(Value(), permutation[..i])
      {
        Encoding.VoidStep(Value(), permutation, i, mid, p);
        p := p * 2 + Encoding.Bit(Value(), permutation[i]);
      }
      assert permutation[..k] == permutation;
      return Done(p);
    }

    /** `adjust_ranking` (cards.rs:302-321): scales every ranking by the number of suits, adds the
        known count of the suit, doubles it and adds one for a void. */
    method AdjustRanking(rankings: array<int>)
      modifies rankings
      ensures rankings[..] == Encoding.AdjustRanking(Value(), old(rankings[..]))
    {
      var n := rankings.Length;
      for i := 0 to n
        invariant forall j :: 0 <= j < n ==> rankings[j] == if j < i then old(rankings[j]) * n else old(rankings[j])
      {
        rankings[i] := rankings[i] * n;
      }
      for i := 0 to n
        invariant forall j :: 0 <= j < n ==> rankings[j] == old(rankings[j]) * n + (if j < i then Count(Value(), j) else 0)
      {
        rankings[i] := rankings[i] + Count(Value(), i);
      }
      for i := 0 to n
        invariant forall j :: 0 <= j < n ==>
          rankings[j] == if j < i then (old(rankings[j]) * n + Count(Value(), j)) * 2 else old(rankings[j]) * n + Count(Value(), j)
      {
        rankings[i] := rankings[i] * 2;
      }
      for i := 0 to n
        invariant forall j :: 0 <= j < n ==>
          rankings[j] == (old(rankings[j]) * n + Count(Value(), j)) * 2 + (if j < i then Encoding.Bit(Value(), j) else 0)
      {
        if i in knownVoids {
          rankings[i] := rankings[i] + 1;
        }
      }
    }
  }
}

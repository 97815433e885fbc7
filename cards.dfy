/**
  The Rust `Cards` of src/cards.rs (the hands of all players) as an object
  holding one `Hand` object per player. Every method is proved against the
  function of the same name in `Moves`, `Propagation` or `Encoding`, applied to
  the values the hands held before.
*/
module Deck {
  import opened Outcomes
  import opened HandSpec
  import opened Table
  import opened HandState
  import Moves
  import Propagation

  /** How one pass of `shake_down` ends, leaving the hands aside: `return false`, a failed assertion, or
      the end of the pass with the flag `any_changes`. */
  datatype Ending = ReturnFalse | Crashed | Finished(changed: bool)

  function EndingOf(p: Propagation.Pass): (r: Ending)
    ensures r == Crashed <==> p.Crash?
    ensures r == ReturnFalse <==> p.Fail?
    ensures r.Finished? ==> p.Go? && r.changed == p.changed
  {
    match p
    case Fail(_) => ReturnFalse
    case Crash => Crashed
    case Go(_, changed) => Finished(changed)
  }

  // ---------------------------------------------------------------------------
  // The loops of `shake_down` that only read the hands, on the values of the hands

  /** The hands with unknown cards that may be `suit`, and how many unknown cards they have
      (cards.rs:483-490). */
  method HoldersIn(hs: Hands, suit: int) returns (holders: seq<nat>, unknownCards: int)
    ensures holders == Propagation.Holders(hs, suit, |hs|)
    ensures unknownCards == Propagation.HolderUnknowns(hs, suit, |hs|)
  {
    holders, unknownCards := [], 0;
    for i := 0 to |hs|
      invariant holders == Propagation.Holders(hs, suit, i)
      invariant unknownCards == Propagation.HolderUnknowns(hs, suit, i)
    {
      if hs[i].unknowns > 0 && suit !in hs[i].voids {
        holders := holders + [i];
        unknownCards := unknownCards + hs[i].unknowns;
      }
    }
  }

  /** The players whose hands still have unknown cards (cards.rs:523-528). */
  method UnresolvedIn(hs: Hands) returns (r: seq<nat>)
    ensures r == Propagation.Unresolved(hs, |hs|)
  {
    r := [];
    for i := 0 to |hs|
      invariant r == Propagation.Unresolved(hs, i)
    {
      if hs[i].unknowns > 0 {
        r := r + [i];
      }
    }
  }

  /** The room a hand has in the suits that are not complete and that it may hold (cards.rs:549-554). */
  method RoomIn(h: HandValue, totals: seq<int>) returns (possible: int)
    ensures possible == Propagation.Possible(h, totals, |totals|)
  {
    possible := 0;
    for s := 0 to |totals|
      invariant possible == Propagation.Possible(h, totals, s)
    {
      if totals[s] < 4 && s !in h.voids {
        possible := possible + (4 - totals[s]);
      }
    }
  }

  /** The unknown cards that may be `suit` (cards.rs:579-584). */
  method SlotsIn(hs: Hands, suit: int) returns (slots: int)
    ensures slots == Propagation.Slots(hs, suit, |hs|)
  {
    slots := 0;
    for i := 0 to |hs|
      invariant slots == Propagation.Slots(hs, suit, i)
    {
      if suit !in hs[i].voids {
        slots := slots + hs[i].unknowns;
      }
    }
  }

  /** The groups of the players whose hands have unknown cards and more than one void, keyed by the
      suits they may still hold, in the order of their first member (cards.rs:599-606). */
  method GroupsIn(hs: Hands) returns (table: Propagation.GroupTable)
    ensures table == Propagation.GroupsBelow(hs, |hs|)
  {
    table := [];
    for player := 0 to |hs|
      invariant table == Propagation.GroupsBelow(hs, player)
    {
      if hs[player].unknowns > 0 && |hs[player].voids| > 1 {
        table := Propagation.AddMember(table, Propagation.Group(hs[player], |hs|), player);
      }
    }
  }

  /** The cards of the group's suits that are not yet known to anyone (cards.rs:609-614). */
  method MissingIn(totals: seq<int>, group: seq<int>) returns (missing: int)
    ensures missing == 4 * |group| - Propagation.TotalOver(totals, group, |totals|)
  {
    missing := |group| * 4;
    for suit := 0 to |totals|
      invariant missing == 4 * |group| - Propagation.TotalOver(totals, group, suit)
    {
      if suit in group {
        missing := missing - totals[suit];
      }
    }
  }

  /** The unknown cards of the group's members (cards.rs:615-618). */
  method HolesIn(hs: Hands, members: seq<nat>) returns (holes: int)
    requires forall k :: 0 <= k < |members| ==> members[k] < |hs|
    ensures holes == Propagation.UnknownsOf(hs, members)
  {
    holes := 0;
    for k := 0 to |members|
      invariant holes == Propagation.UnknownsOf(hs, members[..k])
    {
      assert members[..k + 1][..k] == members[..k];
      holes := holes + hs[members[k]].unknowns;
    }
    assert members[..|members|] == members;
  }

  /** Whether every hand is entirely known (cards.rs:434-440). */
  method AllDeterminedIn(hs: Hands) returns (all: bool)
    ensures all == Propagation.AllDetermined(hs)
  {
    for i := 0 to |hs|
      invariant forall k :: 0 <= k < i ==> IsDetermined(hs[k])
    {
      if !IsDetermined(hs[i]) {
        return false;
      }
    }
    return true;
  }

  /** The suits of `perm`, in order, that the hand may ask for (cards.rs:671-675). */
  method LegalSuitsIn(h: HandValue, perm: seq<int>) returns (suits: seq<int>)
    ensures suits == Moves.LegalSuits(h, perm)
  {
    suits := [];
    for k := 0 to |perm|
      invariant suits == Moves.LegalSuits(h, perm[..k])
    {
      assert perm[..k + 1][..k] == perm[..k];
      if IsLegal(h, perm[k]) {
        suits := suits + [perm[k]];
      }
    }
    assert perm[..|perm|] == perm;
  }

  /** The moves asking `other` for the suits of `suits` (the inner loop of cards.rs:684-699), given the
      totals of the known cards. */
  method MovesToIn(hs: Hands, asker: nat, other: nat, suits: seq<int>, totals: seq<int>) returns (found: seq<(nat, int)>)
    requires SoundAll(hs) && asker < |hs| && other < |hs| && totals == Totals(hs)
    ensures found == Moves.MovesTo(hs, asker, other, suits)
  {
    found := [];
    for j := 0 to |suits|
      invariant found == Moves.MovesTo(hs, asker, other, suits[..j])
    {
      assert suits[..j + 1][..j] == suits[..j];
      var suit := suits[j];
      var (forced, has) := HasCard(hs[other], suit);
      if forced && !has {
        continue;
      }
      if !forced {
        // a suit the totals map does not hold counts 0
        var count := if 0 <= suit < |totals| then totals[suit] else 0;
        if !(0 <= suit < |totals|) {
          TotalOutside(hs, suit, |hs|);
        }
        if suit !in hs[asker].known {
          count := count + 1;
        }
        if count >= 4 {
          continue;
        }
      }
      found := found + [(other, suit)];
    }
    assert suits[..|suits|] == suits;
  }

  /** On a copy of the hands, whether `holder` refusing `suit` to `asker` stands (cards.rs:777). */
  method TryRefusal(hs: Hands, suit: int, holder: nat, asker: nat) returns (r: Outcome<bool>)
    requires SoundAll(hs) && holder < |hs| && asker < |hs| && 0 <= suit < |hs|
    ensures Moves.NoTransfer(hs, suit, holder, asker, true).Done? ==> SoundAll(Moves.NoTransfer(hs, suit, holder, asker, true).value.1)
    ensures r == Moves.Stands(Moves.NoTransfer(hs, suit, holder, asker, true))
  {
    Moves.NoTransferKeepsSizes(hs, suit, holder, asker, true);
    var copied := new Cards.Of(hs);
    var recorded := copied.NoTransfer(suit, holder, asker, true);
    if recorded.Panicked? {
      return Panicked;
    }
    if !recorded.value {
      return Done(false);
    }
    r := copied.ShakeDown();
  }

  /** On a copy of the hands, whether `holder` giving `suit` to `asker` stands (cards.rs:781). */
  method TryGift(hs: Hands, suit: int, holder: nat, asker: nat) returns (r: Outcome<bool>)
    requires SoundAll(hs) && holder < |hs| && asker < |hs| && 0 <= suit < |hs|
    ensures Moves.Transfer(hs, suit, holder, asker, true).Done? ==> SoundAll(Moves.Transfer(hs, suit, holder, asker, true).value.1)
    ensures r == Moves.Stands(Moves.Transfer(hs, suit, holder, asker, true))
  {
    Moves.TransferSound(hs, suit, holder, asker, true);
    var copied := new Cards.Of(hs);
    var recorded := copied.Transfer(suit, holder, asker, true);
    if recorded.Panicked? {
      return Panicked;
    }
    if !recorded.value {
      return Done(false);
    }
    r := copied.ShakeDown();
  }

  /** `has_card` (cards.rs:768-785) on hands with the values `hs`. */
  method HasCardIn(hs: Hands, suit: int, holder: nat, asker: nat) returns (r: Outcome<(bool, bool)>)
    requires SoundAll(hs) && holder < |hs| && asker < |hs| && 0 <= suit < |hs|
    ensures r == Moves.HasCardAt(hs, suit, holder, asker)
  {
    var (forced, has) := HasCard(hs[holder], suit);
    if forced {
      return Done((forced, has));
    }
    Moves.HasCardUnforced(hs, suit, holder, asker);
    var refusal := TryRefusal(hs, suit, holder, asker);
    if refusal.Panicked? {
      return Panicked;
    }
    if !refusal.value {
      return Done((true, true));
    }
    var gift := TryGift(hs, suit, holder, asker);
    r := Moves.Answer(refusal, gift);
  }

  /** The verdict of `test_winner` on consistent hands with the values `hs` (cards.rs:434-451). */
  method WinnerIn(hs: Hands, last: nat) returns (w: int)
    ensures w == Propagation.Verdict(hs, last)
  {
    var all := AllDeterminedIn(hs);
    if all {
      return last;
    }
    var n := |hs|;
    for i := 0 to n
      invariant Propagation.FirstFour(hs, last, i) == Propagation.FirstFour(hs, last, 0)
    {
      var player := (i + last) % n;
      if HasFourOfAKind(hs[player]) {
        return player;
      }
    }
    return Propagation.NoWinner;
  }

  /** The search of `next_player` (cards.rs:787-796) on hands with the values `hs`. */
  method NextPlayerIn(hs: Hands, current: nat) returns (r: Outcome<nat>)
    requires current < |hs|
    ensures r == Moves.NextPlayer(hs, current)
  {
    var n := |hs|;
    var p := (current + 1) % n;
    var k := 1;
    while IsEmpty(hs[p])
      invariant 1 <= k && (k < n || k == 1) && p == Seat(current, k, n)
      invariant Moves.NextFrom(hs, current, k) == Moves.NextFrom(hs, current, 1)
      decreases n - k
    {
      SeatNext(current, k, n);
      p := (p + 1) % n;
      if k + 1 <= n {
        SeatReturns(current, k + 1, n);
      }
      if p == current {
        return Panicked;
      }
      k := k + 1;
    }
    return Done(p);
  }

  /** `legal_moves_given_permutation` (cards.rs:668-703) on hands with the values `hs`, given the totals
      of their known cards. */
  method LegalMovesIn(hs: Hands, asker: nat, perm: seq<int>, totals: seq<int>) returns (moves: seq<(nat, int)>)
    requires SoundAll(hs) && asker < |hs| && totals == Totals(hs)
    ensures moves == Moves.LegalMovesGivenPermutation(hs, asker, perm)
  {
    var suits := LegalSuitsIn(hs[asker], perm);
    var n := |hs|;
    moves := [];
    for i := 1 to n
      invariant moves == Moves.MovesBelow(hs, asker, suits, i)
    {
      var other := (i + asker) % n;
      var found := MovesToIn(hs, asker, other, suits, totals);
      moves := moves + found;
    }
  }

  class Cards {
    const hands: seq<Hand>

    /** The hands as values. */
    function Value(): (r: Hands)
      reads this, hands
      ensures |r| == |hands|
      ensures forall i :: 0 <= i < |hands| ==> r[i] == hands[i].Value()
    {
      seq(|hands|, i requires 0 <= i < |hands| reads hands => hands[i].Value())
    }

    /** Every player has a hand object of their own, and every hand is well formed. */
    ghost predicate Valid()
      reads this, hands
    {
      && (forall i, j :: 0 <= i < j < |hands| ==> hands[i] != hands[j])
      && forall i :: 0 <= i < |hands| ==> hands[i].Valid()
    }

    /** `Cards::new(number_of_players)` (cards.rs:353-358): every player starts with a fresh hand. */
    constructor (n: nat)
      ensures Valid() && Value() == seq(n, _ => Fresh)
      ensures forall i :: 0 <= i < n ==> fresh(hands[i])
    {
      var made: seq<Hand> := [];
      while |made| < n
        invariant |made| <= n
        invariant forall i :: 0 <= i < |made| ==> fresh(made[i]) && made[i].Valid() && made[i].Value() == Fresh
        invariant forall i, j :: 0 <= i < j < |made| ==> made[i] != made[j]
      {
        var h := new Hand();
        made := made + [h];
      }
      hands := made;
    }

    /** New hand objects holding the given values: what `clone` makes of hands with these values. */
    constructor Of(hs: Hands)
      requires SoundAll(hs)
      ensures Valid() && Value() == hs
      ensures forall i :: 0 <= i < |hands| ==> fresh(hands[i])
    {
      var made: seq<Hand> := [];
      while |made| < |hs|
        invariant |made| <= |hs|
        invariant forall i :: 0 <= i < |made| ==> fresh(made[i]) && made[i].Valid() && made[i].Value() == hs[i]
        invariant forall i, j :: 0 <= i < j < |made| ==> made[i] != made[j]
      {
        var h := new Hand.Of(hs[|made|]);
        made := made + [h];
      }
      hands := made;
    }

    /** `number_of_players` (cards.rs:364-366). */
    function NumberOfPlayers(): (r: nat)
      reads this
      ensures r == |hands|
    {
      |hands|
    }

    /** `transfer(suit, other, this, no_throw)` (cards.rs:385-400). */
    method Transfer(suit: int, other: nat, asker: nat, noThrow: bool) returns (r: Outcome<bool>)
      requires Valid() && other < |hands| && asker < |hands|
      modifies hands
      ensures var spec := Moves.Transfer(old(Value()), suit, other, asker, noThrow);
        && (r.Panicked? <==> spec.Panicked?)
        && (r.Done? ==> Valid() && r.value == spec.value.0 && Value() == spec.value.1)
    {
      ghost var hs := Value();
      // `_remove_unknown` asserts there is an undetermined card to take (cards.rs:90)
      if NoUnknownToTake(hands[asker].Value(), suit) {
        return Panicked;
      }
      var had := hands[asker].EnsureHave(suit);
      ghost var hs1 := Value();
      assert hs1 == hs[asker := hands[asker].Value()];
      if !had {
        if noThrow {
          return Done(false);
        }
        return Panicked;
      }
      if NoUnknownToTake(hands[other].Value(), suit) {
        return Panicked;
      }
      var removed := hands[other].Remove(suit);
      ghost var hs2 := Value();
      assert hs2 == hs1[other := hands[other].Value()];
      if !removed {
        if noThrow {
          return Done(false);
        }
        return Panicked;
      }
      hands[asker].Add(suit);
      assert Value() == hs2[asker := hands[asker].Value()];
      return Done(true);
    }

    /** `no_transfer(suit, other, this, no_throw)` (cards.rs:408-422). */
    method NoTransfer(suit: int, other: nat, asker: nat, noThrow: bool) returns (r: Outcome<bool>)
      requires Valid() && other < |hands| && asker < |hands|
      modifies hands
      ensures var spec := Moves.NoTransfer(old(Value()), suit, other, asker, noThrow);
        && (r.Panicked? <==> spec.Panicked?)
        && (r.Done? ==> Valid() && r.value == spec.value.0 && Value() == spec.value.1)
    {
      ghost var hs := Value();
      // `_remove_unknown` asserts there is an undetermined card to take (cards.rs:90)
      if NoUnknownToTake(hands[asker].Value(), suit) {
        return Panicked;
      }
      var had := hands[asker].EnsureHave(suit);
      ghost var hs1 := Value();
      assert hs1 == hs[asker := hands[asker].Value()];
      if !had {
        if noThrow {
          return Done(false);
        }
        return Panicked;
      }
      var refused := hands[other].EnsureHaveNot(suit);
      assert Value() == hs1[other := hands[other].Value()];
      if !refused {
        if noThrow {
          return Done(false);
        }
        return Panicked;
      }
      return Done(true);
    }

    // -------------------------------------------------------------------------
    // shake_down (cards.rs:458-637), one rule at a time

    /** The totals of the known cards of every suit (cards.rs:466-467). */
    method RunningTotals() returns (totals: seq<int>)
      requires Valid() && SoundAll(Value())
      ensures totals == Totals(Value())
    {
      var n := |hands|;
      var a := new int[n](_ => 0);
      for i := 0 to n
        invariant forall s :: 0 <= s < n ==> a[s] == TotalBelow(Value(), s, i)
      {
        assert Sound(Value()[i], n);
        hands[i].RunningTotals(a);
      }
      totals := a[..];
    }

    /** `kill_unknown(suit)` on the hand of player i (cards.rs:171-177). */
    method KillUnknownAt(i: nat, suit: int) returns (changed: bool)
      requires Valid() && i < |hands|
      modifies hands[i]
      ensures Valid() && Value() == old(Value())[i := Value()[i]]
      ensures (changed, Value()[i]) == KillUnknown(old(Value())[i], suit)
    {
      changed := hands[i].KillUnknown(suit);
    }

    /** `force_unknowns(n)` on the hand of player i (cards.rs:183-199). */
    method ForceUnknownsAt(i: nat) returns (changed: bool)
      requires Valid() && i < |hands|
      modifies hands[i]
      ensures Valid() && Value() == old(Value())[i := Value()[i]]
      ensures (changed, Value()[i]) == ForceUnknowns(old(Value())[i], |hands|)
    {
      changed := hands[i].ForceUnknowns(|hands|);
    }

    /** `fill_some_unknowns(suit, count)` on the hand of player i (cards.rs:259-268). */
    method FillSomeUnknownsAt(i: nat, suit: int, count: int) returns (ok: bool)
      requires Valid() && i < |hands| && 1 <= count <= 4
      requires Value()[i].unknowns >= count ==> suit !in Value()[i].voids
      modifies hands[i]
      ensures Valid() && Value() == old(Value())[i := Value()[i]]
      ensures (ok, Value()[i]) == FillSomeUnknowns(old(Value())[i], suit, count)
    {
      ok := hands[i].FillSomeUnknowns(suit, count);
    }

    /** `kill_unknown(suit)` on every hand (cards.rs:476-480). */
    method KillAll(suit: int) returns (any: bool)
      requires Valid() && SoundAll(Value()) && 0 <= suit < |hands|
      modifies hands
      ensures Valid() && (Value(), any) == Propagation.KillFrom(old(Value()), suit, 0, false)
    {
      any := false;
      for i := 0 to |hands|
        invariant Valid() && SoundAll(Value())
        invariant Propagation.KillFrom(Value(), suit, i, any) == Propagation.KillFrom(old(Value()), suit, 0, false)
      {
        ghost var hs := Value();
        var changed := KillUnknownAt(i, suit);
        assert SoundAll(Value()) && Propagation.KillFrom(hs, suit, i, any) == Propagation.KillFrom(Value(), suit, i + 1, any || changed) by {
          Propagation.KillStep(hs[i], suit, |hs|);
          StepEvolves(hs, i, Value()[i]);
        }
        any := any || changed;
      }
    }

    /** Every listed hand gets all its unknown cards as `suit` (cards.rs:502-508), or false when one of
        these fills fails. */
    method FillEach(suit: int, who: seq<nat>) returns (ok: bool)
      requires Valid() && SoundAll(Value()) && 0 <= suit < |hands|
      requires forall k :: 0 <= k < |who| ==> who[k] < |hands|
      requires forall k, k' :: 0 <= k < k' < |who| ==> who[k] < who[k']
      requires forall k :: 0 <= k < |who| ==> 1 <= Value()[who[k]].unknowns <= 4 && suit !in Value()[who[k]].voids
      modifies hands
      ensures Valid() && (ok, Value()) == Propagation.FillEach(old(Value()), suit, who, 0)
    {
      for j := 0 to |who|
        invariant Valid() && SoundAll(Value())
        invariant forall k :: j <= k < |who| ==> 1 <= Value()[who[k]].unknowns <= 4 && suit !in Value()[who[k]].voids
        invariant Propagation.FillEach(Value(), suit, who, j) == Propagation.FillEach(old(Value()), suit, who, 0)
      {
        ghost var hs := Value();
        var i := who[j];
        var unknowns := hands[i].unknowns;
        var filled := FillSomeUnknownsAt(i, suit, unknowns);
        Propagation.FillEachStep(hs, suit, who, j, filled, Value()[i]);
        if !filled {
          return false;
        }
      }
      return true;
    }

    /** The only hand that may hold `suit` gets all its missing cards (cards.rs:492-496). */
    method SoleHolder(s: nat, i: nat, remainder: int) returns (r: Ending)
      requires Valid() && SoundAll(Value()) && s < |hands| && i < |hands| && 1 <= remainder <= 4
      requires Value()[i].unknowns > 0 && s !in Value()[i].voids
      modifies hands[i]
      ensures var spec := Propagation.SoleHolder(old(Value()), s, i, remainder);
        r == EndingOf(spec) && Valid() && Value() == spec.hs
    {
      ghost var hs := Value();
      var ok := FillSomeUnknownsAt(i, s, remainder);
      if !ok {
        assert Value() == hs;
        return ReturnFalse;
      }
      return Finished(true);
    }

    /** Holders with exactly the room needed get all their unknown cards as `suit` (cards.rs:497-511). */
    method ExactFit(s: nat, remainder: int, holders: seq<nat>, unknownCards: int) returns (r: Ending)
      requires Valid() && SoundAll(Value()) && s < |hands| && 1 <= remainder <= 4
      requires holders == Propagation.Holders(Value(), s, |hands|)
      requires unknownCards == Propagation.HolderUnknowns(Value(), s, |hands|)
      modifies hands
      ensures var spec := Propagation.ExactFit(old(Value()), s, remainder);
        r == EndingOf(spec) && Valid() && Value() == spec.hs
    {
      Propagation.HoldersQualify(Value(), s, |hands|);
      if unknownCards < remainder {
        return ReturnFalse;
      }
      if unknownCards == remainder {
        Propagation.HoldersFit(Value(), s, remainder);
        var ok := FillEach(s, holders);
        if !ok {
          return ReturnFalse;
        }
        return Finished(true);
      }
      return Finished(false);
    }

    /** The first loop over the totals for a suit with total between 1 and 3, once its holders are
        known (cards.rs:491-511). */
    method ShortSuitOf(totals: seq<int>, s: nat, holders: seq<nat>, unknownCards: int) returns (r: Ending)
      requires Valid() && SoundAll(Value()) && |totals| == |hands| && s < |hands| && 0 < totals[s] < 4
      requires holders == Propagation.Holders(Value(), s, |hands|)
      requires unknownCards == Propagation.HolderUnknowns(Value(), s, |hands|)
      modifies hands
      ensures var spec := Propagation.ShortSuit(old(Value()), totals, s);
        r == EndingOf(spec) && Valid() && Value() == spec.hs
    {
      Propagation.ShortSuitCases(Value(), totals, s);
      if |holders| == 1 {
        r := SoleHolder(s, holders[0], 4 - totals[s]);
      } else {
        r := ExactFit(s, 4 - totals[s], holders, unknownCards);
      }
    }

    /** The first loop over the totals for a suit with total between 1 and 3 (cards.rs:481-512). */
    method ShortSuit(totals: seq<int>, s: nat) returns (r: Ending)
      requires Valid() && SoundAll(Value()) && |totals| == |hands| && s < |hands| && 0 < totals[s] < 4
      modifies hands
      ensures var spec := Propagation.ShortSuit(old(Value()), totals, s);
        r == EndingOf(spec) && Valid() && Value() == spec.hs
    {
      var hs := Value();
      var holders, unknownCards := HoldersIn(hs, s);
      assert Value() == hs;
      r := ShortSuitOf(totals, s, holders, unknownCards);
    }

    /** The first loop over the totals for one suit (cards.rs:472-512). */
    method SuitStep(totals: seq<int>, s: nat) returns (r: Ending)
      requires Valid() && SoundAll(Value()) && |totals| == |hands| && Propagation.NonNegative(totals) && s < |hands|
      modifies hands
      ensures var spec := Propagation.SuitStep(old(Value()), totals, s);
        r == EndingOf(spec) && Valid() && Value() == spec.hs
    {
      if totals[s] == 0 {
        // a suit nobody is known to hold is not in the source's totals map
        return Finished(false);
      }
      if totals[s] > 4 {
        return ReturnFalse;
      }
      if totals[s] == 4 {
        var changed := KillAll(s);
        return Finished(changed);
      }
      r := ShortSuit(totals, s);
    }

    /** The first loop over the totals (cards.rs:468-513); it stops after the first suit that changes
        something. */
    method Saturate(totals: seq<int>) returns (r: Ending)
      requires Valid() && SoundAll(Value()) && |totals| == |hands| && Propagation.NonNegative(totals)
      modifies hands
      ensures var spec := Propagation.SaturateFrom(old(Value()), totals, 0, false);
        r == EndingOf(spec) && Valid() && Value() == spec.hs
    {
      var any := false;
      var s := 0;
      while s < |hands| && !any
        invariant s <= |hands|
        invariant Valid() && SoundAll(Value())
        invariant Propagation.SaturateFrom(Value(), totals, s, any) == Propagation.SaturateFrom(old(Value()), totals, 0, false)
      {
        var step := SuitStep(totals, s);
        if step == ReturnFalse {
          return ReturnFalse;
        }
        any := step.changed;
        s := s + 1;
      }
      return Finished(any);
    }

    /** `force_unknowns` on every hand (cards.rs:515-519), or-ing into the flag `any`. */
    method ForceAll(any0: bool) returns (any: bool)
      requires Valid() && SoundAll(Value())
      modifies hands
      ensures Valid() && (Value(), any) == Propagation.ForceFrom(old(Value()), 0, any0)
    {
      any := any0;
      for i := 0 to |hands|
        invariant Valid() && SoundAll(Value())
        invariant Propagation.ForceFrom(Value(), i, any) == Propagation.ForceFrom(old(Value()), 0, any0)
      {
        ghost var hs := Value();
        var changed := ForceUnknownsAt(i);
        assert SoundAll(Value()) && Propagation.ForceFrom(hs, i, any) == Propagation.ForceFrom(Value(), i + 1, any || changed) by {
          Propagation.ForceStep(hs[i], |hs|);
          StepEvolves(hs, i, Value()[i]);
        }
        any := any || changed;
      }
    }

    // -------------------------------------------------------------------------
    // The sole unresolved hand (cards.rs:523-534)

    /** `fill_unknowns(totals)` on the hand of player i (cards.rs:242-252). */
    method FillUnknownsAt(i: nat, totals: seq<int>) returns (r: Outcome<bool>)
      requires Valid() && i < |hands|
      modifies hands[i]
      ensures var spec := FillUnknownsFrom(old(Value())[i], totals, 0);
        && (r.Panicked? <==> spec.Panicked?)
        && (r.Done? ==> Valid() && r.value == spec.value.0 && Value() == old(Value())[i := spec.value.1])
    {
      r := hands[i].FillUnknowns(totals);
    }

    // -------------------------------------------------------------------------
    // Capacity pressure (cards.rs:546-571)

    /** One suit of the inner loop of capacity pressure on the hand of player i (cards.rs:559-568). */
    method PressureSuitAt(i: nat, totals: seq<int>, possible: int, unknowns: int, s: nat, any0: bool)
      returns (ok: bool, any: bool)
      requires Valid() && i < |hands| && |totals| == |hands| && Propagation.NonNegative(totals) && s < |totals|
      requires Sound(Value()[i], |hands|) && unknowns <= possible
      modifies hands[i]
      ensures Valid() && Value() == old(Value())[i := Value()[i]] && Sound(Value()[i], |hands|)
      ensures Propagation.PressureFill(old(Value())[i], totals, possible, unknowns, s, any0)
           == if ok then Propagation.PressureFill(Value()[i], totals, possible, unknowns, s + 1, any)
              else (false, Value()[i], any)
    {
      ghost var h0 := Value()[i];
      var h := hands[i].Value();
      assert h == h0;
      if totals[s] < 4 && s !in h.voids && possible - (4 - totals[s]) < unknowns {
        ok := FillSomeUnknownsAt(i, s, unknowns - (possible - (4 - totals[s])));
        Propagation.PressureFillFills(h0, totals, possible, unknowns, s, any0, ok, Value()[i]);
        any := if ok then true else any0;
      } else {
        ok, any := true, any0;
      }
    }

    /** The inner loop of capacity pressure on the hand of player i (cards.rs:558-569). */
    method PressureFillAt(i: nat, totals: seq<int>, possible: int, unknowns: int, any0: bool) returns (ok: bool, any: bool)
      requires Valid() && i < |hands| && |totals| == |hands| && Propagation.NonNegative(totals)
      requires Sound(Value()[i], |hands|) && unknowns <= possible
      modifies hands[i]
      ensures var spec := Propagation.PressureFill(old(Value())[i], totals, possible, unknowns, 0, any0);
        Valid() && Value() == old(Value())[i := spec.1] && ok == spec.0 && any == spec.2
    {
      any := any0;
      for s := 0 to |totals|
        invariant Valid() && Value() == old(Value())[i := Value()[i]] && Sound(Value()[i], |hands|)
        invariant Propagation.PressureFill(Value()[i], totals, possible, unknowns, s, any)
               == Propagation.PressureFill(old(Value())[i], totals, possible, unknowns, 0, any0)
      {
        ok, any := PressureSuitAt(i, totals, possible, unknowns, s, any);
        if !ok {
          return;
        }
      }
      ok := true;
    }

    /** Capacity pressure on the hand of player i (cards.rs:547-570). */
    method PressureAt(i: nat, totals: seq<int>, any0: bool) returns (ok: bool, any: bool)
      requires Valid() && SoundAll(Value()) && |totals| == |hands| && Propagation.NonNegative(totals) && i < |hands|
      modifies hands[i]
      ensures Valid() && SoundAll(Value())
      ensures Propagation.PressureFrom(old(Value()), totals, i, any0)
           == if ok then Propagation.PressureFrom(Value(), totals, i + 1, any) else Propagation.Fail(Value())
    {
      var hs := Value();
      var h := hs[i];
      if h.unknowns > 1 {
        var possible := RoomIn(h, totals);
        assert Value() == hs;
        if possible < h.unknowns {
          return false, any0;
        }
        ok, any := PressureFillAt(i, totals, possible, h.unknowns, any0);
        Propagation.PressureStep(hs, totals, i, any0, ok, Value()[i], any);
      } else {
        ok, any := true, any0;
      }
    }

    /** Capacity pressure (cards.rs:546-571): a hand with several unknown cards must put into each suit
        what its other suits cannot take. */
    method Pressure(totals: seq<int>) returns (r: Ending)
      requires Valid() && SoundAll(Value()) && |totals| == |hands| && Propagation.NonNegative(totals)
      modifies hands
      ensures var spec := Propagation.PressureFrom(old(Value()), totals, 0, false);
        r == EndingOf(spec) && Valid() && Value() == spec.hs
    {
      var any := false;
      for i := 0 to |hands|
        invariant Valid() && SoundAll(Value())
        invariant Propagation.PressureFrom(Value(), totals, i, any) == Propagation.PressureFrom(old(Value()), totals, 0, false)
      {
        var ok;
        ok, any := PressureAt(i, totals, any);
        if !ok {
          return ReturnFalse;
        }
      }
      return Finished(any);
    }

    // -------------------------------------------------------------------------
    // Minimum holding (cards.rs:575-595)

    /** One step of the inner loop of minimum holding, on the hand of player i (cards.rs:586-593). */
    method MinFillAt(i: nat, total: int, suit: int, slots: int) returns (ok: bool)
      requires Valid() && SoundAll(Value()) && 0 <= suit < |hands| && total <= 2 && i < |hands|
      requires Propagation.SlotsCover(Value(), suit, slots, i)
      modifies hands[i]
      ensures Valid() && SoundAll(Value()) && Propagation.SlotsCover(Value(), suit, slots, i + 1)
      ensures Propagation.MinFill(old(Value()), total, suit, slots, i)
           == if ok then Propagation.MinFill(Value(), total, suit, slots, i + 1) else (false, Value())
    {
      ghost var hs := Value();
      var h := hands[i].Value();
      assert h == hs[i];
      if suit !in h.voids && slots - h.unknowns < total {
        ok := FillSomeUnknownsAt(i, suit, total - (slots - h.unknowns));
        Propagation.MinFillFills(hs, total, suit, slots, i, ok, Value()[i]);
      } else {
        Propagation.SlotsCoverStep(hs, suit, slots, i, hs[i]);
        assert hs[i := hs[i]] == hs;
        ok := true;
      }
    }

    /** The inner loop of minimum holding (cards.rs:585-594): each hand takes the cards of `suit` the
        other hands have no room for. */
    method MinFillAll(total: int, suit: int, slots: int) returns (ok: bool)
      requires Valid() && SoundAll(Value()) && 0 <= suit < |hands| && total <= 2
      requires Propagation.SlotsCover(Value(), suit, slots, 0)
      modifies hands
      ensures Valid() && (ok, Value()) == Propagation.MinFill(old(Value()), total, suit, slots, 0)
    {
      for i := 0 to |hands|
        invariant Valid() && SoundAll(Value()) && Propagation.SlotsCover(Value(), suit, slots, i)
        invariant Propagation.MinFill(Value(), total, suit, slots, i) == Propagation.MinFill(old(Value()), total, suit, slots, 0)
      {
        ok := MinFillAt(i, total, suit, slots);
        if !ok {
          return;
        }
      }
      return true;
    }

    /** Minimum holding for one suit (cards.rs:576-594). */
    method MinSuit(totals: seq<int>, s: nat) returns (ok: bool)
      requires Valid() && SoundAll(Value()) && |totals| == |hands| && s < |hands|
      modifies hands
      ensures Valid() && SoundAll(Value())
      ensures Propagation.MinFrom(old(Value()), totals, s)
           == if ok then Propagation.MinFrom(Value(), totals, s + 1) else Propagation.Fail(Value())
    {
      if totals[s] > 2 {
        return true;
      }
      var hs := Value();
      var slots := SlotsIn(hs, s);
      assert Value() == hs;
      Propagation.SlotsCoverAll(hs, s);
      ok := MinFillAll(totals[s], s, slots);
    }

    /** Minimum holding (cards.rs:575-595). */
    method MinHolding(totals: seq<int>) returns (r: Ending)
      requires Valid() && SoundAll(Value()) && |totals| == |hands|
      modifies hands
      ensures var spec := Propagation.MinFrom(old(Value()), totals, 0);
        r == EndingOf(spec) && Valid() && Value() == spec.hs
    {
      for s := 0 to |hands|
        invariant Valid() && SoundAll(Value())
        invariant Propagation.MinFrom(Value(), totals, s) == Propagation.MinFrom(old(Value()), totals, 0)
      {
        var ok := MinSuit(totals, s);
        if !ok {
          return ReturnFalse;
        }
      }
      return Finished(false);
    }

    // -------------------------------------------------------------------------
    // Groups (cards.rs:599-634)

    /** `kill_unknown` of every suit of the group on the hand of player i (cards.rs:625-629). */
    method KillSuitsAt(i: nat, group: seq<int>) returns (any: bool)
      requires Valid() && i < |hands| && Sound(Value()[i], |hands|)
      requires forall k :: 0 <= k < |group| ==> 0 <= group[k] < |hands|
      modifies hands[i]
      ensures Valid() && Value() == old(Value())[i := Value()[i]]
      ensures (Value()[i], any) == Propagation.KillSuits(old(Value())[i], group, 0, false, |hands|)
    {
      any := false;
      for j := 0 to |group|
        invariant Valid() && Value() == old(Value())[i := Value()[i]] && Sound(Value()[i], |hands|)
        invariant Propagation.KillSuits(Value()[i], group, j, any, |hands|)
               == Propagation.KillSuits(old(Value())[i], group, 0, false, |hands|)
      {
        ghost var h := Value()[i];
        var c := KillUnknownAt(i, group[j]);
        Propagation.KillSuitsStep(h, group, j, any, |hands|, c, Value()[i]);
        any := any || c;
      }
    }

    /** The hand of player i loses the group's suits unless it is a member (cards.rs:624-630). */
    method KillOutsideAt(i: nat, group: seq<int>, members: seq<nat>, any0: bool) returns (any: bool)
      requires Valid() && SoundAll(Value()) && i < |hands| && forall k :: 0 <= k < |group| ==> 0 <= group[k] < |hands|
      modifies hands[i]
      ensures Valid() && SoundAll(Value())
      ensures Propagation.KillOutside(old(Value()), group, members, i, any0)
           == Propagation.KillOutside(Value(), group, members, i + 1, any)
    {
      if i in members {
        return any0;
      }
      ghost var hs := Value();
      var c := KillSuitsAt(i, group);
      Propagation.KillOutsideStep(hs, group, members, i, any0, Value()[i], c);
      any := any0 || c;
    }

    /** Every hand that is not a member of the group loses the group's suits (cards.rs:623-631). */
    method KillOutsideAll(group: seq<int>, members: seq<nat>, any0: bool) returns (any: bool)
      requires Valid() && SoundAll(Value()) && forall k :: 0 <= k < |group| ==> 0 <= group[k] < |hands|
      modifies hands
      ensures Valid() && (Value(), any) == Propagation.KillOutside(old(Value()), group, members, 0, any0)
    {
      any := any0;
      for i := 0 to |hands|
        invariant Valid() && SoundAll(Value())
        invariant Propagation.KillOutside(Value(), group, members, i, any)
               == Propagation.KillOutside(old(Value()), group, members, 0, any0)
      {
        any := KillOutsideAt(i, group, members, any);
      }
    }

    /** One group of the loop over the groups (cards.rs:608-633). */
    method GroupStep(totals: seq<int>, table: Propagation.GroupTable, j: nat, any0: bool) returns (ok: bool, any: bool)
      requires Valid() && SoundAll(Value()) && |totals| == |hands| && Propagation.TableFits(table, |hands|) && j < |table|
      modifies hands
      ensures Valid() && SoundAll(Value())
      ensures Propagation.GroupsFrom(old(Value()), totals, table, j, any0)
           == if ok then Propagation.GroupsFrom(Value(), totals, table, j + 1, any) else Propagation.Fail(Value())
    {
      var (group, members) := table[j];
      if |members| <= 1 {
        return true, any0;
      }
      var missing := MissingIn(totals, group);
      var hs := Value();
      var holes := HolesIn(hs, members);
      assert Value() == hs;
      if missing < holes {
        return false, any0;
      }
      if missing == holes {
        any := KillOutsideAll(group, members, any0);
      } else {
        any := any0;
      }
      ok := true;
    }

    /** The groups rule (cards.rs:599-634): when the members of a group of hands have exactly as many
        unknown cards as the group's suits still miss, no other hand holds those suits. */
    method Groups(totals: seq<int>) returns (r: Ending)
      requires Valid() && SoundAll(Value()) && |totals| == |hands|
      modifies hands
      ensures var spec := Propagation.GroupRule(old(Value()), totals);
        r == EndingOf(spec) && Valid() && Value() == spec.hs
    {
      var hs := Value();
      var table := GroupsIn(hs);
      assert Value() == hs;
      Propagation.GroupsBelowFit(hs, |hs|);
      var any := false;
      for j := 0 to |table|
        invariant Valid() && SoundAll(Value())
        invariant Propagation.GroupsFrom(Value(), totals, table, j, any) == Propagation.GroupsFrom(hs, totals, table, 0, false)
      {
        var ok;
        ok, any := GroupStep(totals, table, j, any);
        if !ok {
          return ReturnFalse;
        }
      }
      return Finished(any);
    }

    // -------------------------------------------------------------------------
    // The whole loop (cards.rs:458-637)

    /** The sole unresolved hand gets the missing cards of every incomplete suit (cards.rs:529-533). */
    method SoleUnresolved(i: nat, totals: seq<int>) returns (r: Ending)
      requires Valid() && SoundAll(Value()) && |totals| == |hands| && i < |hands| && Value()[i].unknowns > 0
      modifies hands[i]
      ensures var spec := Propagation.SoleUnresolved(old(Value()), totals, i);
        r == EndingOf(spec) && (r != Crashed ==> Valid() && Value() == spec.hs)
    {
      var filled := FillUnknownsAt(i, totals);
      match filled
      case Panicked =>
        return Crashed;
      case Done(ok) =>
        if !ok {
          return ReturnFalse;
        }
        return Finished(true);
    }

    /** Capacity pressure, then minimum holding, then the groups (cards.rs:540-634). */
    method LaterRules(totals: seq<int>) returns (r: Ending)
      requires Valid() && SoundAll(Value()) && |totals| == |hands| && Propagation.NonNegative(totals)
      modifies hands
      ensures var spec := Propagation.LaterRules(old(Value()), totals);
        r == EndingOf(spec) && Valid() && Value() == spec.hs
    {
      r := Pressure(totals);
      if r != Finished(false) {
        return;
      }
      r := MinHolding(totals);
      if r == ReturnFalse {
        return;
      }
      r := Groups(totals);
    }

    /** The rules after `force_unknowns` when it changed nothing (cards.rs:523-634). */
    method AfterForce(totals: seq<int>) returns (r: Ending)
      requires Valid() && SoundAll(Value()) && |totals| == |hands| && Propagation.NonNegative(totals)
      modifies hands
      ensures var spec := Propagation.AfterForce(old(Value()), totals);
        r == EndingOf(spec) && (r != Crashed ==> Valid() && Value() == spec.hs)
    {
      var hs := Value();
      var unresolved := UnresolvedIn(hs);
      assert Value() == hs;
      Propagation.UnresolvedQualify(hs, |hs|);
      if |unresolved| == 1 {
        r := SoleUnresolved(unresolved[0], totals);
      } else {
        r := LaterRules(totals);
      }
    }

    /** One pass of the `while any_changes` loop (cards.rs:464-635). */
    method Round() returns (r: Ending)
      requires Valid() && SoundAll(Value())
      modifies hands
      ensures var spec := Propagation.Round(old(Value()));
        r == EndingOf(spec) && (r != Crashed ==> Valid() && Value() == spec.hs)
    {
      ghost var hs := Value();
      var totals := RunningTotals();
      forall s | 0 <= s < |hands| ensures totals[s] >= 0 {
        TotalNonNegative(hs, s, |hands|);
      }
      Propagation.SaturateEvolves(hs, totals, 0);
      var first := Saturate(totals);
      if first == ReturnFalse {
        return ReturnFalse;
      }
      ghost var h1 := Value();
      assert Propagation.SaturateFrom(hs, totals, 0, false) == Propagation.Go(h1, first.changed);
      var any := ForceAll(first.changed);
      if any {
        return Finished(true);
      }
      assert Propagation.ForceFrom(h1, 0, first.changed) == (Value(), false);
      r := AfterForce(totals);
    }

    /** `shake_down` (cards.rs:458-637): propagates what is known until nothing changes. `Done(false)`
        when the hands turn out inconsistent, `Panicked` on the failed assertion of `fill_unknowns`. */
    method ShakeDown() returns (r: Outcome<bool>)
      requires Valid() && SoundAll(Value())
      modifies hands
      ensures var spec := Propagation.ShakeDown(old(Value()));
        && (r.Panicked? <==> spec.Panicked?)
        && (r.Done? ==> Valid() && r.value == spec.value.0 && Value() == spec.value.1)
    {
      while true
        invariant Valid() && SoundAll(Value())
        invariant Propagation.ShakeDown(Value()) == Propagation.ShakeDown(old(Value()))
        decreases Weight(Value())
      {
        var pass := Round();
        match pass
        case Crashed =>
          return Panicked;
        case ReturnFalse =>
          return Done(false);
        case Finished(changed) =>
          if !changed {
            return Done(true);
          }
      }
    }

    // -------------------------------------------------------------------------
    // test_winner (cards.rs:430-452)

    /** `test_winner(last)` (cards.rs:430-452): -2 when `shake_down` finds the hands inconsistent, `last`
        when every hand is known, otherwise the first player from `last` on holding four of a suit, or -1. */
    method TestWinner(last: nat) returns (r: Outcome<int>)
      requires Valid() && SoundAll(Value())
      modifies hands
      ensures var spec := Propagation.TestWinner(old(Value()), last);
        && (r.Panicked? <==> spec.Panicked?)
        && (r.Done? ==> Valid() && r.value == spec.value.0 && Value() == spec.value.1)
    {
      Propagation.TestWinnerCases(Value(), last);
      var consistent := ShakeDown();
      if consistent.Panicked? {
        return Panicked;
      }
      var w := Conclude(consistent.value, last);
      return Done(w);
    }

    /** The rest of `test_winner` once `shake_down` has answered: `ILLEGAL_CARDS` for inconsistent
        hands, otherwise the verdict on the hands as they now are. */
    method Conclude(consistent: bool, last: nat) returns (w: int)
      requires Valid()
      ensures Valid() && Value() == old(Value())
      ensures w == if consistent then Propagation.Verdict(Value(), last) else Propagation.IllegalCards
    {
      w := Propagation.IllegalCards;
      if consistent {
        var hs := Value();
        w := WinnerIn(hs, last);
      }
    }

    // -------------------------------------------------------------------------
    // has_card and next_player (cards.rs:768-797)

    /** `has_card(suit, holder, asker)` (cards.rs:768-785): (forced, holds), trying the hypotheses on
        copies so that the hands themselves are left as they are. */
    method HasCard(suit: int, holder: nat, asker: nat) returns (r: Outcome<(bool, bool)>)
      requires Valid() && SoundAll(Value()) && holder < |hands| && asker < |hands| && 0 <= suit < |hands|
      ensures r == Moves.HasCardAt(Value(), suit, holder, asker)
    {
      var hs := Value();
      r := HasCardIn(hs, suit, holder, asker);
    }

    /** `next_player(this)` (cards.rs:787-796): the next player round the table who has cards; the
        assertion at 793 fails when the search comes back to `current`. */
    method NextPlayer(current: nat) returns (r: Outcome<nat>)
      requires Valid() && current < |hands|
      ensures r == Moves.NextPlayer(Value(), current)
    {
      var hs := Value();
      r := NextPlayerIn(hs, current);
    }

    // -------------------------------------------------------------------------
    // Legal moves and the encodings (cards.rs:668-766)

    /** `legal_moves_given_permutation(this, perm)` (cards.rs:668-703). */
    method LegalMovesGivenPermutation(asker: nat, perm: seq<int>) returns (moves: seq<(nat, int)>)
      requires Valid() && SoundAll(Value()) && asker < |hands|
      ensures moves == Moves.LegalMovesGivenPermutation(Value(), asker, perm)
    {
      var totals := RunningTotals();
      var hs := Value();
      moves := LegalMovesIn(hs, asker, perm, totals);
    }

    /** `position_given_permutation(perm, last, symmetric)` (cards.rs:726-740); the assertion at 729 is
        the precondition, and the one in `Hand::position` gives `Panicked`. */
    method PositionGivenPermutation(perm: seq<int>, last: nat, symmetric: bool) returns (r: Outcome<int>)
      requires Valid() && last < |hands|
      ensures r == if Encoding.AllCountable(Value(), perm) then Done(Encoding.PositionGivenPermutation(Value(), perm, last, symmetric))
                   else Panicked
    {
      var n := |hands|;
      var pos := 0;
      for i := 0 to n
        invariant pos == Encoding.HandsPosition(Value(), perm, last, i)
        invariant forall k :: 0 <= k < i ==> Encoding.Countable(Value()[Seat(last, k, n)], perm)
      {
        var hand := hands[(i + last) % n];
        var step := hand.Position(pos, perm);
        if step.Panicked? {
          return Panicked;
        }
        pos := step.value;
      }
      forall j | 0 <= j < n ensures Encoding.Countable(Value()[j], perm) {
        SeatReaches(last, n, j);
      }
      if !symmetric {
        pos := pos * n;
        pos := pos + last;
      }
      return Done(pos);
    }

    /** `position(last)` (cards.rs:709-713): the suits in their own order, `last` as the last digit. */
    method Position(last: nat) returns (r: Outcome<int>)
      requires Valid() && last < |hands|
      ensures r == if Encoding.AllCountable(Value(), Encoding.Identity(|hands|)) then Done(Encoding.Position(Value(), last))
                   else Panicked
    {
      var permutation := Encoding.Identity(|hands|);
      r := PositionGivenPermutation(permutation, last, false);
    }

    /** `permutation(last)` (cards.rs:748-766): every hand from `last` on adjusts the rankings, then the
        suits are sorted by descending ranking, ties kept in suit order. */
    method Permutation(last: nat) returns (result: seq<int>)
      requires Valid() && last < |hands|
      ensures result == Encoding.Permutation(Value(), last)
    {
      var n := |hands|;
      ghost var hs := Value();
      var ranking := new int[n](_ => 0);
      assert ranking[..] == Encoding.Ranking(hs, last, 0);
      for i := 0 to n
        invariant Value() == hs
        invariant ranking[..] == Encoding.Ranking(hs, last, i)
      {
        AdjustAt((i + last) % n, ranking);
      }
      // `sort_by` is a stable sort
      result := Encoding.SortByRank(ranking[..], Encoding.Identity(n));
    }

    /** Hand `k` adjusts the rankings; the hands are left as they are. */
    method AdjustAt(k: nat, ranking: array<int>)
      requires Valid() && k < |hands|
      modifies ranking
      ensures Valid() && Value() == old(Value())
      ensures ranking[..] == Encoding.AdjustRanking(Value()[k], old(ranking[..]))
    {
      hands[k].AdjustRanking(ranking);
    }
  }
}

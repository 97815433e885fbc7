/**
  What `shake_down` and `test_winner` (src/cards.rs:430-637) guarantee, proved
  about the functions of `Propagation`.
*/
module PropagationFacts {
  import opened Outcomes
  import opened HandSpec
  import opened Table
  import opened Propagation

  /** A suit with more than four known cards makes `shake_down` return false: it never reports the
      hands consistent and never reaches a failed assertion (cards.rs:473-475). */
  lemma {:induction false} ShakeDownRejectsOverfull(hs: Hands, suit: int)
    requires SoundAll(hs) && 0 <= suit < |hs| && Total(hs, suit) > 4
    decreases Weight(hs)
    ensures ShakeDown(hs).Done? && !ShakeDown(hs).value.0
  {
    var r := Round(hs);
    if r.Crash? || (r.Go? && !r.changed) {
      QuietRoundBounded(hs, suit);
      assert false;
    } else if r.Go? {
      EvolvesTotals(hs, r.hs, suit, |hs|);
      ShakeDownRejectsOverfull(r.hs, suit);
      assert ShakeDown(hs) == ShakeDown(r.hs);
    }
  }

  /** A pass that changes nothing, or that reaches the failed assertion, leaves every total at most 4. */
  lemma QuietRoundBounded(hs: Hands, suit: int)
    requires SoundAll(hs) && 0 <= suit < |hs|
    requires Round(hs).Crash? || (Round(hs).Go? && !Round(hs).changed)
    ensures Total(hs, suit) <= 4
  {
    assert Settled(hs, Totals(hs), suit);
  }

  /** The conditions under which a pass reaches the sole-unresolved-hand rule (cards.rs:523-534): the
      first loop over the totals and `force_unknowns` changed nothing and exactly one hand has unknown
      cards. */
  ghost predicate ReachesSoleUnresolved(hs: Hands)
    requires SoundAll(hs)
  {
    var totals := Totals(hs);
    && NonNegative(totals)
    && SaturateFrom(hs, totals, 0, false) == Go(hs, false)
    && ForceFrom(hs, 0, false) == (hs, false)
    && |Unresolved(hs, |hs|)| == 1
  }

  /** The sole-unresolved-hand rule never completes: a pass ends on the failed assertion of
      `fill_unknowns` (cards.rs:250) exactly when it reaches that rule. By then every suit the totals
      map holds is complete, so `fill_unknowns` fills nothing and unknown cards remain. */
  lemma SoleUnresolvedPanics(hs: Hands)
    requires SoundAll(hs)
    ensures Round(hs) == Crash <==> ReachesSoleUnresolved(hs)
  {
    if Round(hs) == Crash {
      CrashOnlyThere(hs);
    }
    if ReachesSoleUnresolved(hs) {
      ReachedRulePanics(hs);
    }
  }

  lemma CrashOnlyThere(hs: Hands)
    requires SoundAll(hs) && Round(hs) == Crash
    ensures ReachesSoleUnresolved(hs)
  {
    var n := |hs|;
    var totals := Totals(hs);
    forall s | 0 <= s < n ensures totals[s] >= 0 {
      TotalNonNegative(hs, s, n);
    }
    SaturateQuiet(hs, totals, 0);
  }

  lemma ReachedRulePanics(hs: Hands)
    requires SoundAll(hs) && ReachesSoleUnresolved(hs)
    ensures Round(hs) == Crash
  {
    var n := |hs|;
    var totals := Totals(hs);
    UnresolvedQualify(hs, n);
    var i := Unresolved(hs, n)[0];
    SaturateQuiet(hs, totals, 0);
    forall t | 0 <= t < n ensures !(0 < totals[t] < 4) {
      assert Settled(hs, totals, t);
      HoldersAtMostUnresolved(hs, t, n);
    }
    FillNothingPanics(hs[i], totals, 0);
  }

  /** Only hands with unknown cards can hold the missing cards of a suit. */
  lemma {:induction false} HoldersAtMostUnresolved(hs: Hands, suit: int, k: nat)
    requires k <= |hs|
    ensures |Holders(hs, suit, k)| <= |Unresolved(hs, k)|
  {
    if k > 0 {
      HoldersAtMostUnresolved(hs, suit, k - 1);
    }
  }

  /** With no suit total strictly between 0 and 4, `fill_unknowns` fills nothing and then fails its
      final assertion on a hand with unknown cards. */
  lemma {:induction false} FillNothingPanics(h: HandValue, totals: seq<int>, s: nat)
    requires h.unknowns > 0
    requires forall t :: s <= t < |totals| ==> !(0 < totals[t] < 4)
    decreases |totals| - s
    ensures FillUnknownsFrom(h, totals, s) == Panicked
  {
    if s < |totals| {
      FillNothingPanics(h, totals, s + 1);
    }
  }

  /** `FirstFour` answers `NoWinner` exactly when no hand holds four of a suit, and otherwise the first
      such player in rotation from `last`. */
  lemma FirstFourVerdict(hs: Hands, last: nat)
    requires |hs| > 0
    ensures var w := FirstFour(hs, last, 0);
      && (w == NoWinner <==> forall j :: 0 <= j < |hs| ==> !HasFourOfAKind(hs[j]))
      && (w != NoWinner ==> exists k :: 0 <= k < |hs| && w == Seat(last, k, |hs|) && HasFourOfAKind(hs[w])
                              && forall k' :: 0 <= k' < k ==> !HasFourOfAKind(hs[Seat(last, k', |hs|)]))
  {
    if FirstFour(hs, last, 0) == NoWinner {
      forall j | 0 <= j < |hs| ensures !HasFourOfAKind(hs[j]) {
        SeatReaches(last, |hs|, j);
      }
    }
  }

  /** `test_winner` answers `ILLEGAL_CARDS`, `NO_WINNER` or a player number. */
  lemma TestWinnerRange(hs: Hands, last: nat)
    requires SoundAll(hs) && last < |hs|
    ensures var r := TestWinner(hs, last);
      r.Done? ==> r.value.0 == IllegalCards || r.value.0 == NoWinner || 0 <= r.value.0 < |hs|
  {
    TestWinnerCases(hs, last);
    var s := ShakeDown(hs);
    if s.Done? && s.value.0 {
      FirstFourVerdict(s.value.1, last);
    }
  }
}

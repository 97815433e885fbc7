/**
  Worked examples from the tests of src/cards.rs, stated over the value model:
  what `shake_down` makes of particular hands, step by step.
*/
module Scenarios {
  import opened HandSpec
  import opened Table
  import opened Outcomes
  import opened Propagation
  import Encoding

  // ---------------------------------------------------------------------------
  // test_shake_down (cards.rs:898-922): 001 / 0?x1 / 22211??x0

  const Start: Hands := [
    HandValue(map[0 := 2, 1 := 1], {}, 0),
    HandValue(map[0 := 1], {1}, 1),
    HandValue(map[2 := 3, 1 := 2], {0}, 2)
  ]

  /** Hand 1 is the only one that may hold the missing 0. */
  const AfterPass1: Hands := [
    HandValue(map[0 := 2, 1 := 1], {}, 0),
    HandValue(map[0 := 2], {1}, 0),
    HandValue(map[2 := 3, 1 := 2], {0}, 2)
  ]

  /** Hand 2 is the only one that may hold the missing 1. */
  const AfterPass2: Hands := [
    HandValue(map[0 := 2, 1 := 1], {}, 0),
    HandValue(map[0 := 2], {1}, 0),
    HandValue(map[2 := 3, 1 := 3], {0}, 1)
  ]

  /** All four 1s are known, so hand 2's last card is not a 1, and being neither 0 nor 1 it is a 2. */
  const Settled3: Hands := [
    HandValue(map[0 := 2, 1 := 1], {}, 0),
    HandValue(map[0 := 2], {1}, 0),
    HandValue(map[2 := 4, 1 := 3], {}, 0)
  ]

  /** `kill_unknown(suit)` changes nothing on hands that have no unknown cards or have `suit` void. */
  lemma {:induction false} KillFromStable(hs: Hands, suit: int, i: nat, any: bool)
    requires SoundAll(hs) && 0 <= suit < |hs|
    requires forall j :: i <= j < |hs| ==> hs[j].unknowns == 0 || suit in hs[j].voids
    decreases |hs| - i
    ensures KillFrom(hs, suit, i, any) == (hs, any)
  {
    if i < |hs| {
      assert hs[i := hs[i]] == hs;
      KillFromStable(hs, suit, i + 1, any);
    }
  }

  /** `force_unknowns` changes nothing on hands that have no unknown cards or whose voids are not all
      suits but one. */
  lemma {:induction false} ForceFromStable(hs: Hands, i: nat, any: bool)
    requires SoundAll(hs)
    requires forall j :: i <= j < |hs| ==> hs[j].unknowns == 0 || |hs[j].voids| != |hs| - 1
    decreases |hs| - i
    ensures ForceFrom(hs, i, any) == (hs, any)
  {
    if i < |hs| {
      assert hs[i := hs[i]] == hs;
      ForceFromStable(hs, i + 1, any);
    }
  }

  /** Three hands are sound when each of them is. */
  lemma SoundThree(hs: Hands)
    requires |hs| == 3 && Sound(hs[0], 3) && Sound(hs[1], 3) && Sound(hs[2], 3)
    ensures SoundAll(hs)
  {
  }

  lemma SoundStart()
    ensures SoundAll(Start)
  {
    assert Sound(HandValue(map[0 := 2, 1 := 1], {}, 0), 3);
    assert Sound(HandValue(map[0 := 1], {1}, 1), 3);
    assert Sound(HandValue(map[2 := 3, 1 := 2], {0}, 2), 3);
    SoundThree(Start);
  }

  lemma SoundAfterPass1()
    ensures SoundAll(AfterPass1)
  {
    assert Sound(HandValue(map[0 := 2, 1 := 1], {}, 0), 3);
    assert Sound(HandValue(map[0 := 2], {1}, 0), 3);
    assert Sound(HandValue(map[2 := 3, 1 := 2], {0}, 2), 3);
    SoundThree(AfterPass1);
  }

  lemma SoundAfterPass2()
    ensures SoundAll(AfterPass2)
  {
    assert Sound(HandValue(map[0 := 2, 1 := 1], {}, 0), 3);
    assert Sound(HandValue(map[0 := 2], {1}, 0), 3);
    assert Sound(HandValue(map[2 := 3, 1 := 3], {0}, 1), 3);
    SoundThree(AfterPass2);
  }

  lemma SoundKilled()
    ensures SoundAll(Killed)
  {
    assert Sound(HandValue(map[0 := 2, 1 := 1], {}, 0), 3);
    assert Sound(HandValue(map[0 := 2], {1}, 0), 3);
    assert Sound(HandValue(map[2 := 3, 1 := 3], {0, 1}, 1), 3);
    SoundThree(Killed);
  }

  lemma SoundSettled3()
    ensures SoundAll(Settled3)
  {
    assert Sound(HandValue(map[0 := 2, 1 := 1], {}, 0), 3);
    assert Sound(HandValue(map[0 := 2], {1}, 0), 3);
    assert Sound(HandValue(map[2 := 4, 1 := 3], {}, 0), 3);
    SoundThree(Settled3);
  }

  /** The known cards of a suit in three hands. */
  lemma TotalThree(hs: Hands, suit: int)
    requires |hs| == 3
    ensures Total(hs, suit) == Count(hs[0], suit) + Count(hs[1], suit) + Count(hs[2], suit)
  {
    assert TotalBelow(hs, suit, 1) == Count(hs[0], suit);
    assert TotalBelow(hs, suit, 2) == TotalBelow(hs, suit, 1) + Count(hs[1], suit);
    assert TotalBelow(hs, suit, 3) == TotalBelow(hs, suit, 2) + Count(hs[2], suit);
  }

  lemma TotalsThree(hs: Hands)
    requires |hs| == 3
    ensures Totals(hs) == [Total(hs, 0), Total(hs, 1), Total(hs, 2)]
  {
    TotalThree(hs, 0);
    TotalThree(hs, 1);
    TotalThree(hs, 2);
  }

  lemma LiteralTotalsThree()
    ensures NonNegative([3, 3, 3]) && NonNegative([4, 3, 3]) && NonNegative([4, 4, 3]) && NonNegative([4, 4, 4])
  {
  }

  // Pass 1

  lemma Pass1Totals()
    ensures Totals(Start) == [3, 3, 3] && NonNegative(Totals(Start))
  {
    TotalsThree(Start);
    TotalThree(Start, 0);
    TotalThree(Start, 1);
    TotalThree(Start, 2);
  }

  lemma Pass1Fill()
    ensures Holders(Start, 0, 3) == [1]
    ensures FillSomeUnknowns(Start[1], 0, 1) == (true, AfterPass1[1]) && Start[1 := AfterPass1[1]] == AfterPass1
  {
    var h := HandValue(map[0 := 1], {1}, 1);
    assert Start[1] == h;
    assert Count(h, 0) == 1;
    assert FillSomeUnknowns(h, 0, 1).1 == HandValue(map[0 := 2], {1}, 0);
    assert Holders(Start, 0, 1) == [] && Holders(Start, 0, 2) == [1];
  }

  lemma Pass1Step()
    ensures SoundAll(Start) && SuitStep(Start, [3, 3, 3], 0) == Go(AfterPass1, true)
  {
    SoundStart();
    LiteralTotalsThree();
    Pass1Fill();
    ShortSuitCases(Start, [3, 3, 3], 0);
    assert SoleHolder(Start, 0, 1, 1) == Go(AfterPass1, true);
  }

  lemma Pass1Saturate()
    ensures SoundAll(Start) && SaturateFrom(Start, [3, 3, 3], 0, false) == Go(AfterPass1, true)
  {
    SoundStart();
    LiteralTotalsThree();
    Pass1Step();
  }

  lemma Pass1Force()
    ensures SoundAll(AfterPass1) && ForceFrom(AfterPass1, 0, true) == (AfterPass1, true)
  {
    SoundAfterPass1();
    ForceFromStable(AfterPass1, 0, true);
  }

  lemma Pass1()
    ensures SoundAll(Start) && Round(Start) == Go(AfterPass1, true)
  {
    SoundStart();
    SoundAfterPass1();
    Pass1Totals();
    Pass1Saturate();
    Pass1Force();
    RoundSteps(Start, AfterPass1, true, AfterPass1, Go(AfterPass1, true));
  }

  // Pass 2

  lemma Pass2Totals()
    ensures Totals(AfterPass1) == [4, 3, 3] && NonNegative(Totals(AfterPass1))
  {
    TotalsThree(AfterPass1);
    TotalThree(AfterPass1, 0);
    TotalThree(AfterPass1, 1);
    TotalThree(AfterPass1, 2);
  }

  lemma Pass2Fill()
    ensures Holders(AfterPass1, 1, 3) == [2]
    ensures FillSomeUnknowns(AfterPass1[2], 1, 1) == (true, AfterPass2[2]) && AfterPass1[2 := AfterPass2[2]] == AfterPass2
  {
    var h := HandValue(map[2 := 3, 1 := 2], {0}, 2);
    assert AfterPass1[2] == h;
    assert Count(h, 1) == 2;
    assert FillSomeUnknowns(h, 1, 1).1 == HandValue(map[2 := 3, 1 := 3], {0}, 1);
    assert Holders(AfterPass1, 1, 1) == [] && Holders(AfterPass1, 1, 2) == [];
  }

  lemma Pass2Step()
    ensures SoundAll(AfterPass1) && SuitStep(AfterPass1, [4, 3, 3], 1) == Go(AfterPass2, true)
  {
    SoundAfterPass1();
    LiteralTotalsThree();
    Pass2Fill();
    ShortSuitCases(AfterPass1, [4, 3, 3], 1);
    assert SoleHolder(AfterPass1, 1, 2, 1) == Go(AfterPass2, true);
  }

  lemma Pass2First()
    ensures SoundAll(AfterPass1) && SuitStep(AfterPass1, [4, 3, 3], 0) == Go(AfterPass1, false)
  {
    SoundAfterPass1();
    LiteralTotalsThree();
    KillFromStable(AfterPass1, 0, 0, false);
  }

  lemma Pass2Saturate()
    ensures SoundAll(AfterPass1) && SaturateFrom(AfterPass1, [4, 3, 3], 0, false) == Go(AfterPass2, true)
  {
    SoundAfterPass1();
    LiteralTotalsThree();
    Pass2First();
    Pass2Step();
    assert SaturateFrom(AfterPass1, [4, 3, 3], 1, false) == Go(AfterPass2, true);
  }

  lemma Pass2Force()
    ensures SoundAll(AfterPass2) && ForceFrom(AfterPass2, 0, true) == (AfterPass2, true)
  {
    SoundAfterPass2();
    assert |AfterPass2[2].voids| == 1;
    ForceFromStable(AfterPass2, 0, true);
  }

  lemma Pass2()
    ensures SoundAll(AfterPass1) && Round(AfterPass1) == Go(AfterPass2, true)
  {
    SoundAfterPass1();
    Pass2Totals();
    Pass2Saturate();
    Pass2Force();
    RoundSteps(AfterPass1, AfterPass2, true, AfterPass2, Go(AfterPass2, true));
  }

  // Pass 3

  lemma Pass3Totals()
    ensures Totals(AfterPass2) == [4, 4, 3] && NonNegative(Totals(AfterPass2))
  {
    TotalsThree(AfterPass2);
    TotalThree(AfterPass2, 0);
    TotalThree(AfterPass2, 1);
    TotalThree(AfterPass2, 2);
  }

  /** The hands of the third pass once suit 1 is known complete. */
  const Killed: Hands := [
    HandValue(map[0 := 2, 1 := 1], {}, 0),
    HandValue(map[0 := 2], {1}, 0),
    HandValue(map[2 := 3, 1 := 3], {0, 1}, 1)
  ]

  lemma Pass3Killed()
    ensures KillUnknown(AfterPass2[2], 1) == (true, Killed[2]) && AfterPass2[2 := Killed[2]] == Killed
  {
    var h := HandValue(map[2 := 3, 1 := 3], {0}, 1);
    assert AfterPass2[2] == h;
    assert h.voids + {1} == {0, 1};
  }

  lemma Pass3Kill()
    ensures SoundAll(AfterPass2) && KillFrom(AfterPass2, 1, 0, false) == (Killed, true)
  {
    SoundAfterPass2();
    KillFromSkip(AfterPass2, 1, 0, 2, false);
    Pass3Killed();
    KillAt(AfterPass2, 1, 2, false, Killed[2]);
  }

  lemma Pass3Forced()
    ensures ForceUnknowns(Killed[2], 3) == (true, Settled3[2])
  {
    var h := HandValue(map[2 := 3, 1 := 3], {0, 1}, 1);
    assert Killed[2] == h;
    assert |h.voids| == 2;
    assert FirstOpen(h, 0, 3) == 2;
    assert Count(h, 2) == 3;
    assert h.known[2 := 4] == map[2 := 4, 1 := 3];
  }

  lemma Pass3Force()
    ensures SoundAll(Killed) && ForceFrom(Killed, 0, true) == (Settled3, true)
  {
    SoundKilled();
    var hs := Killed;
    assert hs[0 := hs[0]] == hs && hs[1 := hs[1]] == hs;
    assert ForceFrom(hs, 0, true) == ForceFrom(hs, 1, true) == ForceFrom(hs, 2, true);
    Pass3Forced();
    assert hs[2 := Settled3[2]] == Settled3;
  }

  lemma Pass3First()
    ensures SoundAll(AfterPass2) && SuitStep(AfterPass2, [4, 4, 3], 0) == Go(AfterPass2, false)
  {
    SoundAfterPass2();
    LiteralTotalsThree();
    KillFromStable(AfterPass2, 0, 0, false);
  }

  lemma Pass3Saturate()
    ensures SoundAll(AfterPass2) && SaturateFrom(AfterPass2, [4, 4, 3], 0, false) == Go(Killed, true)
  {
    SoundAfterPass2();
    LiteralTotalsThree();
    Pass3First();
    Pass3Kill();
    assert SuitStep(AfterPass2, [4, 4, 3], 1) == Go(Killed, true);
    assert SaturateFrom(AfterPass2, [4, 4, 3], 1, false) == Go(Killed, true);
  }

  lemma Pass3()
    ensures SoundAll(AfterPass2) && Round(AfterPass2) == Go(Settled3, true)
  {
    SoundAfterPass2();
    SoundKilled();
    Pass3Totals();
    Pass3Saturate();
    Pass3Force();
    RoundSteps(AfterPass2, Killed, true, Settled3, Go(Settled3, true));
  }

  // Pass 4: nothing more to learn

  lemma Pass4Totals()
    ensures Totals(Settled3) == [4, 4, 4] && NonNegative(Totals(Settled3))
  {
    TotalsThree(Settled3);
    TotalThree(Settled3, 0);
    TotalThree(Settled3, 1);
    TotalThree(Settled3, 2);
  }

  lemma Pass4Step(s: nat)
    requires s < 3
    ensures SoundAll(Settled3) && SuitStep(Settled3, [4, 4, 4], s) == Go(Settled3, false)
  {
    SoundSettled3();
    LiteralTotalsThree();
    KillFromStable(Settled3, s, 0, false);
  }

  lemma Pass4Saturate()
    ensures SoundAll(Settled3) && SaturateFrom(Settled3, [4, 4, 4], 0, false) == Go(Settled3, false)
  {
    SoundSettled3();
    LiteralTotalsThree();
    Pass4Step(2);
    assert SaturateFrom(Settled3, [4, 4, 4], 2, false) == Go(Settled3, false);
    Pass4Step(1);
    assert SaturateFrom(Settled3, [4, 4, 4], 1, false) == Go(Settled3, false);
    Pass4Step(0);
  }

  lemma Pass4Groups()
    ensures SoundAll(Settled3) && GroupRule(Settled3, [4, 4, 4]) == Go(Settled3, false)
  {
    SoundSettled3();
    assert GroupsBelow(Settled3, 1) == [] && GroupsBelow(Settled3, 2) == [] && GroupsBelow(Settled3, 3) == [];
  }

  lemma Pass4Quiet()
    ensures SoundAll(Settled3) && PressureFrom(Settled3, [4, 4, 4], 0, false) == Go(Settled3, false)
    ensures MinFrom(Settled3, [4, 4, 4], 0) == Go(Settled3, false)
  {
    SoundSettled3();
    LiteralTotalsThree();
    var hs := Settled3;
    assert PressureFrom(hs, [4, 4, 4], 2, false) == Go(hs, false);
    assert PressureFrom(hs, [4, 4, 4], 0, false) == Go(hs, false);
    assert MinFrom(hs, [4, 4, 4], 2) == Go(hs, false);
  }

  lemma Pass4Force()
    ensures SoundAll(Settled3) && ForceFrom(Settled3, 0, false) == (Settled3, false)
  {
    SoundSettled3();
    ForceFromStable(Settled3, 0, false);
  }

  lemma Pass4After()
    ensures SoundAll(Settled3) && AfterForce(Settled3, [4, 4, 4]) == Go(Settled3, false)
  {
    SoundSettled3();
    LiteralTotalsThree();
    assert Unresolved(Settled3, 1) == [] && Unresolved(Settled3, 2) == [] && Unresolved(Settled3, 3) == [];
    Pass4Quiet();
    Pass4Groups();
    AfterForceQuiet(Settled3, [4, 4, 4]);
  }

  lemma Pass4()
    ensures SoundAll(Settled3) && Round(Settled3) == Go(Settled3, false)
  {
    SoundSettled3();
    Pass4Totals();
    Pass4Saturate();
    Pass4Force();
    Pass4After();
    RoundSteps(Settled3, Settled3, false, Settled3, Go(Settled3, false));
  }

  /** `shake_down` on 001 / 0?x1 / 22211??x0 succeeds and leaves the known cards 001 / 00 / 2222111:
      player 1's unknown card is a 0, and player 2's are a 1 and a 2 (cards.rs:918-920). */
  lemma ShakeDownExample()
    ensures SoundAll(Start)
    ensures ShakeDown(Start) == Done((true, Settled3))
    ensures Settled3[0].known == map[0 := 2, 1 := 1] && Settled3[1].known == map[0 := 2]
         && Settled3[2].known == map[2 := 4, 1 := 3]
  {
    Pass1();
    Pass2();
    Pass3();
    Pass4();
    assert ShakeDown(Settled3) == Done((true, Settled3));
    assert ShakeDown(AfterPass2) == Done((true, Settled3));
    assert ShakeDown(AfterPass1) == Done((true, Settled3));
  }

  // ---------------------------------------------------------------------------
  // test_permutation (cards.rs:1146-1195): 002? / 0?x1 / 2211??x0

  const Ranked: Hands := [
    HandValue(map[0 := 2, 2 := 1], {}, 1),
    HandValue(map[0 := 1], {1}, 1),
    HandValue(map[2 := 2, 1 := 2], {0}, 2)
  ]

  lemma RankingFrom0()
    ensures Encoding.Ranking(Ranked, 0, 3) == [157, 10, 76]
  {
    assert Encoding.Ranking(Ranked, 0, 1) == [4, 0, 2];
    assert Encoding.Ranking(Ranked, 0, 2) == [26, 1, 12];
  }

  lemma RankingFrom1()
    ensures Encoding.Ranking(Ranked, 1, 3) == [82, 60, 26]
  {
    assert Encoding.Ranking(Ranked, 1, 1) == [2, 1, 0];
    assert Encoding.Ranking(Ranked, 1, 2) == [13, 10, 4];
  }

  lemma RankingFrom2()
    ensures Encoding.Ranking(Ranked, 2, 3) == [62, 145, 156]
  {
    assert Encoding.Ranking(Ranked, 2, 1) == [1, 4, 4];
    assert Encoding.Ranking(Ranked, 2, 2) == [10, 24, 26];
  }

  lemma SortedThree(rank: seq<int>, a: int, b: int, c: int)
    requires Encoding.Before(rank, a, b) && Encoding.Before(rank, b, c)
    ensures Encoding.SortedBy(rank, [a, b, c])
  {
    assert Encoding.Before(rank, a, c);
  }

  lemma SuitsOnce(ys: seq<int>)
    requires ys == [0, 2, 1] || ys == [0, 1, 2] || ys == [2, 1, 0]
    ensures multiset(ys) == multiset(Encoding.Identity(3))
  {
    assert Encoding.Identity(3) == [0, 1, 2];
  }

  /** A suit order of three hands is their permutation as soon as it holds each suit once and is sorted
      by the rankings. */
  lemma PermutationIs(hs: Hands, last: nat, rank: seq<int>, ys: seq<int>)
    requires |hs| == 3 && last < 3 && rank == Encoding.Ranking(hs, last, 3)
    requires ys == [0, 2, 1] || ys == [0, 1, 2] || ys == [2, 1, 0]
    requires Encoding.Before(rank, ys[0], ys[1]) && Encoding.Before(rank, ys[1], ys[2])
    ensures Encoding.Permutation(hs, last) == ys
  {
    SuitsOnce(ys);
    SortedThree(rank, ys[0], ys[1], ys[2]);
    assert ys == [ys[0], ys[1], ys[2]];
    Encoding.PermutationOrders(hs, last, ys);
  }

  lemma PermutationFrom0()
    ensures Encoding.Permutation(Ranked, 0) == [0, 2, 1]
  {
    RankingFrom0();
    PermutationIs(Ranked, 0, [157, 10, 76], [0, 2, 1]);
  }

  lemma PermutationFrom1()
    ensures Encoding.Permutation(Ranked, 1) == [0, 1, 2]
  {
    RankingFrom1();
    PermutationIs(Ranked, 1, [82, 60, 26], [0, 1, 2]);
  }

  lemma PermutationFrom2()
    ensures Encoding.Permutation(Ranked, 2) == [2, 1, 0]
  {
    RankingFrom2();
    PermutationIs(Ranked, 2, [62, 145, 156], [2, 1, 0]);
  }

  /** The suit orders the test expects: 0, 2, 1 after player 0; 0, 1, 2 after player 1; 2, 1, 0 after
      player 2. */
  lemma PermutationExample()
    ensures Encoding.Permutation(Ranked, 0) == [0, 2, 1]
    ensures Encoding.Permutation(Ranked, 1) == [0, 1, 2]
    ensures Encoding.Permutation(Ranked, 2) == [2, 1, 0]
  {
    PermutationFrom0();
    PermutationFrom1();
    PermutationFrom2();
  }

  // ---------------------------------------------------------------------------
  // test_four_player_test_winner (cards.rs:1056-1094): 222?x01 / 1x23 / 000??x23 / 1133??

  const Four: Hands := [
    HandValue(map[2 := 3], {0, 1}, 1),
    HandValue(map[1 := 1], {2, 3}, 0),
    HandValue(map[0 := 3], {2, 3}, 2),
    HandValue(map[1 := 2, 3 := 2], {}, 2)
  ]

  /** Player 2 has room only for one more 0 and one more 1, and needs both. */
  const FourA: Hands := [
    HandValue(map[2 := 3], {0, 1}, 1),
    HandValue(map[1 := 1], {2, 3}, 0),
    HandValue(map[0 := 4, 1 := 1], {2, 3}, 0),
    HandValue(map[1 := 2, 3 := 2], {}, 2)
  ]

  /** All four 0s are known: player 3's unknown cards are not 0s. */
  const FourB: Hands := [
    HandValue(map[2 := 3], {0, 1}, 1),
    HandValue(map[1 := 1], {2, 3}, 0),
    HandValue(map[0 := 4, 1 := 1], {2, 3}, 0),
    HandValue(map[1 := 2, 3 := 2], {0}, 2)
  ]

  /** All four 1s are known: nor are they 1s. */
  const FourC: Hands := [
    HandValue(map[2 := 3], {0, 1}, 1),
    HandValue(map[1 := 1], {2, 3}, 0),
    HandValue(map[0 := 4, 1 := 1], {2, 3}, 0),
    HandValue(map[1 := 2, 3 := 2], {0, 1}, 2)
  ]

  /** Player 3's two unknown cards fit in one missing 2 and two missing 3s, so one of them is a 3. */
  const FourD: Hands := [
    HandValue(map[2 := 3], {0, 1}, 1),
    HandValue(map[1 := 1], {2, 3}, 0),
    HandValue(map[0 := 4, 1 := 1], {2, 3}, 0),
    HandValue(map[1 := 2, 3 := 3], {0, 1}, 1)
  ]

  /** Four hands are sound when each of them is. */
  lemma SoundFour(hs: Hands)
    requires |hs| == 4 && Sound(hs[0], 4) && Sound(hs[1], 4) && Sound(hs[2], 4) && Sound(hs[3], 4)
    ensures SoundAll(hs)
  {
  }

  /** The known cards of a suit in four hands. */
  lemma TotalFour(hs: Hands, suit: int)
    requires |hs| == 4
    ensures Total(hs, suit) == Count(hs[0], suit) + Count(hs[1], suit) + Count(hs[2], suit) + Count(hs[3], suit)
  {
    assert TotalBelow(hs, suit, 1) == Count(hs[0], suit);
    assert TotalBelow(hs, suit, 2) == TotalBelow(hs, suit, 1) + Count(hs[1], suit);
    assert TotalBelow(hs, suit, 3) == TotalBelow(hs, suit, 2) + Count(hs[2], suit);
    assert TotalBelow(hs, suit, 4) == TotalBelow(hs, suit, 3) + Count(hs[3], suit);
  }

  lemma TotalsFour(hs: Hands)
    requires |hs| == 4
    ensures Totals(hs) == [Total(hs, 0), Total(hs, 1), Total(hs, 2), Total(hs, 3)]
  {
  }

  /** A hand `kill_unknown(suit)` leaves alone. */
  predicate KillQuiet(h: HandValue, suit: int) {
    h.unknowns == 0 || suit in h.voids
  }

  /** Of four hands only the last learns that it has `suit` void. */
  lemma KillOnlyLast(hs: Hands, suit: int, h': HandValue)
    requires SoundAll(hs) && |hs| == 4 && 0 <= suit < 4
    requires KillQuiet(hs[0], suit) && KillQuiet(hs[1], suit) && KillQuiet(hs[2], suit)
    requires KillUnknown(hs[3], suit) == (true, h')
    ensures KillFrom(hs, suit, 0, false) == (hs[3 := h'], true)
  {
    KillFromSkip(hs, suit, 0, 3, false);
    KillAt(hs, suit, 3, false, h');
  }

  /** Hands that `kill_unknown(suit)` leaves alone can be stepped over. */
  lemma {:induction false} KillFromSkip(hs: Hands, suit: int, i: nat, k: nat, any: bool)
    requires SoundAll(hs) && 0 <= suit < |hs| && i <= k <= |hs|
    requires forall j :: i <= j < k ==> KillQuiet(hs[j], suit)
    decreases k - i
    ensures KillFrom(hs, suit, i, any) == KillFrom(hs, suit, k, any)
  {
    if i < k {
      if hs[i].unknowns > 0 {
        assert hs[i].voids + {suit} == hs[i].voids;
      }
      assert hs[i := hs[i]] == hs;
      KillFromSkip(hs, suit, i + 1, k, any);
    }
  }

  /** A complete suit that every hand with unknown cards already has void changes nothing. */
  lemma CompleteQuiet(hs: Hands, totals: seq<int>, suit: nat)
    requires SoundAll(hs) && |totals| == |hs| == 4 && NonNegative(totals) && suit < 4 && totals[suit] == 4
    requires KillQuiet(hs[0], suit) && KillQuiet(hs[1], suit) && KillQuiet(hs[2], suit) && KillQuiet(hs[3], suit)
    ensures SuitStep(hs, totals, suit) == Go(hs, false)
  {
    KillFromStable(hs, suit, 0, false);
  }

  /** The first loop changes nothing when no suit of four hands does. */
  lemma SaturateQuietFour(hs: Hands, totals: seq<int>)
    requires SoundAll(hs) && |totals| == |hs| == 4 && NonNegative(totals)
    requires SuitStep(hs, totals, 0) == Go(hs, false) && SuitStep(hs, totals, 1) == Go(hs, false)
    requires SuitStep(hs, totals, 2) == Go(hs, false) && SuitStep(hs, totals, 3) == Go(hs, false)
    ensures SaturateFrom(hs, totals, 0, false) == Go(hs, false)
  {
    assert SaturateFrom(hs, totals, 3, false) == Go(hs, false);
    assert SaturateFrom(hs, totals, 2, false) == Go(hs, false);
    assert SaturateFrom(hs, totals, 1, false) == Go(hs, false);
  }

  /** `kill_unknown(suit)` on hand `i` that voids the suit. */
  lemma KillAt(hs: Hands, suit: int, i: nat, any: bool, h': HandValue)
    requires SoundAll(hs) && 0 <= suit < |hs| && i < |hs| && KillUnknown(hs[i], suit) == (true, h')
    ensures SoundAll(hs[i := h'])
    ensures KillFrom(hs, suit, i, any) == KillFrom(hs[i := h'], suit, i + 1, true)
  {
    KillStep(hs[i], suit, |hs|);
    StepEvolves(hs, i, h');
  }

  lemma KillEnd(hs: Hands, suit: int, any: bool)
    requires SoundAll(hs) && 0 <= suit < |hs|
    ensures KillFrom(hs, suit, |hs|, any) == (hs, any)
  {
  }

  /** Whether hand `i` may hold unknown cards of `suit`. */
  predicate Open(h: HandValue, suit: int) {
    h.unknowns > 0 && suit !in h.voids
  }

  /** The hands among four that may hold `suit`, and their unknown cards. */
  lemma HoldersFour(hs: Hands, suit: int)
    requires |hs| == 4
    ensures Holders(hs, suit, 4) == (if Open(hs[0], suit) then [0] else []) + (if Open(hs[1], suit) then [1] else [])
                                  + (if Open(hs[2], suit) then [2] else []) + (if Open(hs[3], suit) then [3] else [])
    ensures HolderUnknowns(hs, suit, 4) == (if Open(hs[0], suit) then hs[0].unknowns else 0)
      + (if Open(hs[1], suit) then hs[1].unknowns else 0) + (if Open(hs[2], suit) then hs[2].unknowns else 0)
      + (if Open(hs[3], suit) then hs[3].unknowns else 0)
  {
    assert Holders(hs, suit, 1) == (if Open(hs[0], suit) then [0] else []);
    assert Holders(hs, suit, 2) == Holders(hs, suit, 1) + (if Open(hs[1], suit) then [1] else []);
    assert Holders(hs, suit, 3) == Holders(hs, suit, 2) + (if Open(hs[2], suit) then [2] else []);
    assert HolderUnknowns(hs, suit, 1) == (if Open(hs[0], suit) then hs[0].unknowns else 0);
    assert HolderUnknowns(hs, suit, 2) == HolderUnknowns(hs, suit, 1) + (if Open(hs[1], suit) then hs[1].unknowns else 0);
    assert HolderUnknowns(hs, suit, 3) == HolderUnknowns(hs, suit, 2) + (if Open(hs[2], suit) then hs[2].unknowns else 0);
  }

  /** The hands with unknown cards among four. */
  lemma UnresolvedFour(hs: Hands)
    requires |hs| == 4
    ensures Unresolved(hs, 4) == (if hs[0].unknowns > 0 then [0] else []) + (if hs[1].unknowns > 0 then [1] else [])
                               + (if hs[2].unknowns > 0 then [2] else []) + (if hs[3].unknowns > 0 then [3] else [])
  {
    assert Unresolved(hs, 1) == (if hs[0].unknowns > 0 then [0] else []);
    assert Unresolved(hs, 2) == Unresolved(hs, 1) + (if hs[1].unknowns > 0 then [1] else []);
    assert Unresolved(hs, 3) == Unresolved(hs, 2) + (if hs[2].unknowns > 0 then [2] else []);
  }

  /** With other than one unresolved hand, and capacity pressure changing something, the pass ends
      there. */
  lemma AfterForcePressure(hs: Hands, totals: seq<int>, hs': Hands)
    requires SoundAll(hs) && |totals| == |hs| && NonNegative(totals)
    requires |Unresolved(hs, |hs|)| != 1 && PressureFrom(hs, totals, 0, false) == Go(hs', true)
    ensures AfterForce(hs, totals) == Go(hs', true)
  {
  }

  /** With other than one unresolved hand and no rule after it changing anything, the pass is quiet. */
  lemma AfterForceQuiet(hs: Hands, totals: seq<int>)
    requires SoundAll(hs) && |totals| == |hs| && NonNegative(totals)
    requires |Unresolved(hs, |hs|)| != 1 && PressureFrom(hs, totals, 0, false) == Go(hs, false)
    requires MinFrom(hs, totals, 0) == Go(hs, false) && GroupRule(hs, totals) == Go(hs, false)
    ensures AfterForce(hs, totals) == Go(hs, false)
  {
  }

  /** A pass: the first loop, then `force_unknowns`, then the later rules. */
  lemma RoundSteps(hs: Hands, h1: Hands, any1: bool, h2: Hands, r: Pass)
    requires SoundAll(hs) && NonNegative(Totals(hs)) && SaturateFrom(hs, Totals(hs), 0, false) == Go(h1, any1)
    requires SoundAll(h1) && |h1| == |hs| && ForceFrom(h1, 0, any1) == (h2, any1) && |h2| == |hs|
    requires !any1 ==> SoundAll(h2) && AfterForce(h2, Totals(hs)) == r && !r.Crash?
    ensures Round(hs) == if any1 then Go(h2, true) else r
  {
  }

  lemma LiteralTotals()
    ensures NonNegative([3, 3, 3, 2]) && NonNegative([4, 4, 3, 2]) && NonNegative([4, 4, 3, 3])
  {
  }

  lemma SoundFourStart()
    ensures SoundAll(Four)
  {
    assert Sound(HandValue(map[2 := 3], {0, 1}, 1), 4);
    assert Sound(HandValue(map[1 := 1], {2, 3}, 0), 4);
    assert Sound(HandValue(map[0 := 3], {2, 3}, 2), 4);
    assert Sound(HandValue(map[1 := 2, 3 := 2], {}, 2), 4);
    SoundFour(Four);
  }

  lemma SoundFourA()
    ensures SoundAll(FourA)
  {
    assert Sound(HandValue(map[2 := 3], {0, 1}, 1), 4);
    assert Sound(HandValue(map[1 := 1], {2, 3}, 0), 4);
    assert Sound(HandValue(map[0 := 4, 1 := 1], {2, 3}, 0), 4);
    assert Sound(HandValue(map[1 := 2, 3 := 2], {}, 2), 4);
    SoundFour(FourA);
  }

  lemma SoundFourB()
    ensures SoundAll(FourB)
  {
    assert Sound(HandValue(map[2 := 3], {0, 1}, 1), 4);
    assert Sound(HandValue(map[1 := 1], {2, 3}, 0), 4);
    assert Sound(HandValue(map[0 := 4, 1 := 1], {2, 3}, 0), 4);
    assert Sound(HandValue(map[1 := 2, 3 := 2], {0}, 2), 4);
    SoundFour(FourB);
  }

  lemma SoundFourC()
    ensures SoundAll(FourC)
  {
    assert Sound(HandValue(map[2 := 3], {0, 1}, 1), 4);
    assert Sound(HandValue(map[1 := 1], {2, 3}, 0), 4);
    assert Sound(HandValue(map[0 := 4, 1 := 1], {2, 3}, 0), 4);
    assert Sound(HandValue(map[1 := 2, 3 := 2], {0, 1}, 2), 4);
    SoundFour(FourC);
  }

  lemma SoundFourD()
    ensures SoundAll(FourD)
  {
    assert Sound(HandValue(map[2 := 3], {0, 1}, 1), 4);
    assert Sound(HandValue(map[1 := 1], {2, 3}, 0), 4);
    assert Sound(HandValue(map[0 := 4, 1 := 1], {2, 3}, 0), 4);
    assert Sound(HandValue(map[1 := 2, 3 := 3], {0, 1}, 1), 4);
    SoundFour(FourD);
  }


  /** No suit change on a pass whose totals leave every suit to at least two hands with room to spare. */
  lemma ExactFitQuiet(hs: Hands, totals: seq<int>, s: nat)
    requires SoundAll(hs) && |totals| == |hs| && NonNegative(totals) && s < |hs| && 0 < totals[s] < 4
    requires |Holders(hs, s, |hs|)| != 1 && HolderUnknowns(hs, s, |hs|) > 4 - totals[s]
    ensures SuitStep(hs, totals, s) == Go(hs, false)
  {
    ShortSuitCases(hs, totals, s);
  }

  // Pass A

  lemma FourTotalsA()
    ensures Totals(Four) == [3, 3, 3, 2] && NonNegative(Totals(Four))
  {
    TotalsFour(Four);
    TotalFour(Four, 0);
    TotalFour(Four, 1);
    TotalFour(Four, 2);
    TotalFour(Four, 3);
  }

  lemma FourHoldersA()
    ensures Holders(Four, 0, 4) == [2, 3] && HolderUnknowns(Four, 0, 4) == 4
    ensures Holders(Four, 1, 4) == [2, 3] && HolderUnknowns(Four, 1, 4) == 4
    ensures Holders(Four, 2, 4) == [0, 3] && HolderUnknowns(Four, 2, 4) == 3
    ensures Holders(Four, 3, 4) == [0, 3] && HolderUnknowns(Four, 3, 4) == 3
  {
    HoldersFour(Four, 0);
    HoldersFour(Four, 1);
    HoldersFour(Four, 2);
    HoldersFour(Four, 3);
  }

  lemma FourSaturateA()
    ensures SoundAll(Four) && SaturateFrom(Four, [3, 3, 3, 2], 0, false) == Go(Four, false)
  {
    SoundFourStart();
    FourHoldersA();
    var t := [3, 3, 3, 2];
    LiteralTotals();
    ExactFitQuiet(Four, t, 0);
    ExactFitQuiet(Four, t, 1);
    ExactFitQuiet(Four, t, 2);
    ExactFitQuiet(Four, t, 3);
    SaturateQuietFour(Four, t);
  }

  lemma FourPressureFillA()
    ensures PressureFill(Four[2], [3, 3, 3, 2], 2, 2, 0, false) == (true, FourA[2], true)
  {
    var t := [3, 3, 3, 2];
    var h := HandValue(map[0 := 3], {2, 3}, 2);
    var h1 := HandValue(map[0 := 4], {2, 3}, 1);
    assert Four[2] == h;
    assert h.known[0 := 4] == map[0 := 4];
    assert FillSomeUnknowns(h, 0, 1) == (true, h1);
    assert h1.known[1 := 1] == map[0 := 4, 1 := 1];
    assert FillSomeUnknowns(h1, 1, 1) == (true, FourA[2]);
    assert PressureFill(FourA[2], t, 2, 2, 2, true) == (true, FourA[2], true);
    assert PressureFill(h1, t, 2, 2, 1, true) == (true, FourA[2], true);
  }

  lemma FourPressureA()
    ensures SoundAll(Four) && PressureFrom(Four, [3, 3, 3, 2], 0, false) == Go(FourA, true)
  {
    SoundFourStart();
    SoundFourA();
    var t := [3, 3, 3, 2];
    LiteralTotals();
    assert Possible(Four[2], t, 4) == 2;
    FourPressureFillA();
    assert Four[2 := FourA[2]] == FourA;
    assert Possible(FourA[3], t, 4) == 5;
    assert PressureFill(FourA[3], t, 5, 2, 0, true) == (true, FourA[3], true);
    assert FourA[3 := FourA[3]] == FourA;
    assert PressureFrom(FourA, t, 3, true) == Go(FourA, true);
    assert PressureFrom(Four, t, 2, false) == Go(FourA, true);
  }

  lemma FourUnresolvedA()
    ensures |Unresolved(Four, 4)| == 3
  {
    UnresolvedFour(Four);
  }

  lemma FourAfterA()
    ensures SoundAll(Four) && AfterForce(Four, [3, 3, 3, 2]) == Go(FourA, true)
  {
    SoundFourStart();
    FourUnresolvedA();
    FourPressureA();
    LiteralTotals();
    AfterForcePressure(Four, [3, 3, 3, 2], FourA);
  }

  lemma FourForceA()
    ensures SoundAll(Four) && ForceFrom(Four, 0, false) == (Four, false)
  {
    SoundFourStart();
    ForceFromStable(Four, 0, false);
  }

  lemma FourRoundA()
    ensures SoundAll(Four) && Round(Four) == Go(FourA, true)
  {
    SoundFourStart();
    SoundFourA();
    FourTotalsA();
    FourSaturateA();
    FourForceA();
    FourAfterA();
    RoundSteps(Four, Four, false, Four, Go(FourA, true));
  }

  // Pass B

  lemma FourTotalsB()
    ensures Totals(FourA) == [4, 4, 3, 2] && Totals(FourB) == [4, 4, 3, 2]
    ensures NonNegative(Totals(FourA)) && NonNegative(Totals(FourB))
  {
    TotalsFour(FourA);
    TotalFour(FourA, 0);
    TotalFour(FourA, 1);
    TotalFour(FourA, 2);
    TotalFour(FourA, 3);
    TotalsFour(FourB);
    TotalFour(FourB, 0);
    TotalFour(FourB, 1);
    TotalFour(FourB, 2);
    TotalFour(FourB, 3);
  }

  lemma FourKilledB()
    ensures KillUnknown(FourA[3], 0) == (true, FourB[3]) && FourA[3 := FourB[3]] == FourB
  {
    var h := HandValue(map[1 := 2, 3 := 2], {}, 2);
    assert FourA[3] == h;
    assert h.voids + {0} == {0};
  }

  lemma FourKillB()
    ensures SoundAll(FourA) && KillFrom(FourA, 0, 0, false) == (FourB, true)
  {
    SoundFourA();
    FourKilledB();
    KillOnlyLast(FourA, 0, FourB[3]);
  }

  lemma FourSaturateB()
    ensures SoundAll(FourA) && SaturateFrom(FourA, [4, 4, 3, 2], 0, false) == Go(FourB, true)
  {
    SoundFourA();
    SoundFourB();
    LiteralTotals();
    FourKillB();
    assert SuitStep(FourA, [4, 4, 3, 2], 0) == Go(FourB, true);
  }

  lemma FourForceB()
    ensures SoundAll(FourB) && ForceFrom(FourB, 0, true) == (FourB, true)
  {
    SoundFourB();
    ForceFromStable(FourB, 0, true);
  }

  lemma FourRoundB()
    ensures SoundAll(FourA) && Round(FourA) == Go(FourB, true)
  {
    SoundFourA();
    FourTotalsB();
    FourSaturateB();
    FourForceB();
    RoundSteps(FourA, FourB, true, FourB, Go(FourB, true));
  }

  // Pass C

  lemma FourKilledC()
    ensures KillUnknown(FourB[3], 1) == (true, FourC[3]) && FourB[3 := FourC[3]] == FourC
  {
    var h := HandValue(map[1 := 2, 3 := 2], {0}, 2);
    assert FourB[3] == h;
    assert h.voids + {1} == {0, 1};
  }

  lemma FourKillC()
    ensures SoundAll(FourB) && KillFrom(FourB, 1, 0, false) == (FourC, true)
  {
    SoundFourB();
    FourKilledC();
    KillOnlyLast(FourB, 1, FourC[3]);
  }

  lemma FourSaturateC()
    ensures SoundAll(FourB) && SaturateFrom(FourB, [4, 4, 3, 2], 0, false) == Go(FourC, true)
  {
    SoundFourB();
    var t := [4, 4, 3, 2];
    LiteralTotals();
    CompleteQuiet(FourB, t, 0);
    FourKillC();
    assert SuitStep(FourB, t, 1) == Go(FourC, true);
    assert SaturateFrom(FourB, t, 1, false) == Go(FourC, true);
  }

  lemma FourForceC()
    ensures SoundAll(FourC) && ForceFrom(FourC, 0, true) == (FourC, true) && ForceFrom(FourC, 0, false) == (FourC, false)
  {
    SoundFourC();
    ForceFromStable(FourC, 0, true);
    ForceFromStable(FourC, 0, false);
  }

  lemma FourRoundC()
    ensures SoundAll(FourB) && Round(FourB) == Go(FourC, true)
  {
    SoundFourB();
    FourTotalsB();
    FourSaturateC();
    FourForceC();
    RoundSteps(FourB, FourC, true, FourC, Go(FourC, true));
  }

  // Pass D

  lemma FourTotalsC()
    ensures Totals(FourC) == [4, 4, 3, 2] && NonNegative(Totals(FourC))
  {
    TotalsFour(FourC);
    TotalFour(FourC, 0);
    TotalFour(FourC, 1);
    TotalFour(FourC, 2);
    TotalFour(FourC, 3);
  }

  lemma FourHoldersD()
    ensures Holders(FourC, 2, 4) == [0, 3] && HolderUnknowns(FourC, 2, 4) == 3
    ensures Holders(FourC, 3, 4) == [0, 3] && HolderUnknowns(FourC, 3, 4) == 3
  {
    HoldersFour(FourC, 2);
    HoldersFour(FourC, 3);
  }

  lemma FourSaturateD()
    ensures SoundAll(FourC) && SaturateFrom(FourC, [4, 4, 3, 2], 0, false) == Go(FourC, false)
  {
    SoundFourC();
    var t := [4, 4, 3, 2];
    LiteralTotals();
    FourHoldersD();
    CompleteQuiet(FourC, t, 0);
    CompleteQuiet(FourC, t, 1);
    ExactFitQuiet(FourC, t, 2);
    ExactFitQuiet(FourC, t, 3);
    SaturateQuietFour(FourC, t);
  }

  lemma FourPressureFillD()
    ensures Possible(FourC[3], [4, 4, 3, 2], 4) == 3
    ensures PressureFill(FourC[3], [4, 4, 3, 2], 3, 2, 0, false) == (true, FourD[3], true)
  {
    var t := [4, 4, 3, 2];
    var h := HandValue(map[1 := 2, 3 := 2], {0, 1}, 2);
    assert FourC[3] == h;
    assert h.known[3 := 3] == map[1 := 2, 3 := 3];
    assert FillSomeUnknowns(h, 3, 1) == (true, FourD[3]);
  }

  lemma FourPressureD()
    ensures SoundAll(FourC) && PressureFrom(FourC, [4, 4, 3, 2], 0, false) == Go(FourD, true)
  {
    SoundFourC();
    SoundFourD();
    var t := [4, 4, 3, 2];
    LiteralTotals();
    FourPressureFillD();
    assert FourC[3 := FourD[3]] == FourD;
    assert PressureFrom(FourC, t, 3, false) == Go(FourD, true);
  }

  lemma FourUnresolvedD()
    ensures |Unresolved(FourC, 4)| == 2 && |Unresolved(FourD, 4)| == 2
  {
    UnresolvedFour(FourC);
    UnresolvedFour(FourD);
  }

  lemma FourAfterD()
    ensures SoundAll(FourC) && AfterForce(FourC, [4, 4, 3, 2]) == Go(FourD, true)
  {
    SoundFourC();
    FourUnresolvedD();
    FourPressureD();
    LiteralTotals();
    AfterForcePressure(FourC, [4, 4, 3, 2], FourD);
  }

  lemma FourRoundD()
    ensures SoundAll(FourC) && Round(FourC) == Go(FourD, true)
  {
    SoundFourC();
    FourTotalsC();
    FourSaturateD();
    FourForceC();
    FourAfterD();
    RoundSteps(FourC, FourC, false, FourC, Go(FourD, true));
  }

  // Pass E: nothing more to learn

  lemma FourTotalsD()
    ensures Totals(FourD) == [4, 4, 3, 3] && NonNegative(Totals(FourD))
  {
    TotalsFour(FourD);
    TotalFour(FourD, 0);
    TotalFour(FourD, 1);
    TotalFour(FourD, 2);
    TotalFour(FourD, 3);
  }

  lemma FourHoldersE()
    ensures Holders(FourD, 2, 4) == [0, 3] && HolderUnknowns(FourD, 2, 4) == 2
    ensures Holders(FourD, 3, 4) == [0, 3] && HolderUnknowns(FourD, 3, 4) == 2
  {
    HoldersFour(FourD, 2);
    HoldersFour(FourD, 3);
  }

  lemma FourSaturateE()
    ensures SoundAll(FourD) && SaturateFrom(FourD, [4, 4, 3, 3], 0, false) == Go(FourD, false)
  {
    SoundFourD();
    var t := [4, 4, 3, 3];
    LiteralTotals();
    FourHoldersE();
    CompleteQuiet(FourD, t, 0);
    CompleteQuiet(FourD, t, 1);
    ExactFitQuiet(FourD, t, 2);
    ExactFitQuiet(FourD, t, 3);
    SaturateQuietFour(FourD, t);
  }

  lemma FourGroupOf()
    ensures Group(FourD[0], 4) == [2, 3] && Group(FourD[3], 4) == [2, 3]
  {
    var h := FourD[0];
    assert Group(h, 1) == [] && Group(h, 2) == [] && Group(h, 3) == [2];
    var h3 := FourD[3];
    assert Group(h3, 1) == [] && Group(h3, 2) == [] && Group(h3, 3) == [2];
  }

  lemma FourGroupTableE()
    ensures GroupsBelow(FourD, 4) == [([2, 3], [0, 3])]
  {
    FourGroupOf();
    assert Grouped(FourD[0]) && !Grouped(FourD[1]) && !Grouped(FourD[2]) && Grouped(FourD[3]);
    assert GroupsBelow(FourD, 1) == [([2, 3], [0])];
    assert GroupsBelow(FourD, 2) == [([2, 3], [0])];
    assert GroupsBelow(FourD, 3) == [([2, 3], [0])];
    var table: GroupTable := [([2, 3], [0])];
    assert table[0].1 + [3] == [0, 3] && table[1..] == [];
    assert AddMember(table, [2, 3], 3) == [([2, 3], [0, 3])];
  }

  /** `kill_unknown` leaves a hand without unknown cards alone, whatever the suits. */
  lemma {:induction false} KillSuitsNone(h: HandValue, group: seq<int>, j: nat, any: bool, n: nat)
    requires Sound(h, n) && h.unknowns == 0 && forall k :: 0 <= k < |group| ==> 0 <= group[k] < n
    decreases |group| - j
    ensures KillSuits(h, group, j, any, n) == (h, any)
  {
    if j < |group| {
      KillSuitsNone(h, group, j + 1, any, n);
    }
  }

  /** The group rule kills nothing in hands outside the group that have no unknown cards. */
  lemma {:induction false} KillOutsideNone(hs: Hands, group: seq<int>, members: seq<nat>, i: nat)
    requires SoundAll(hs) && forall k :: 0 <= k < |group| ==> 0 <= group[k] < |hs|
    requires forall j :: i <= j < |hs| && j !in members ==> hs[j].unknowns == 0
    decreases |hs| - i
    ensures KillOutside(hs, group, members, i, false) == (hs, false)
  {
    if i < |hs| {
      if i !in members {
        KillSuitsNone(hs[i], group, 0, false, |hs|);
        assert hs[i := hs[i]] == hs;
      }
      KillOutsideNone(hs, group, members, i + 1);
    }
  }

  /** The group's suits 2 and 3 together miss two cards, exactly the members' two unknown cards. */
  lemma FourGroupCountsE()
    ensures TotalOver([4, 4, 3, 3], [2, 3], 4) == 6 && UnknownsOf(FourD, [0, 3]) == 2
  {
    assert UnknownsOf(FourD, [0]) == 1;
  }

  /** Players 0 and 3 may hold only 2s and 3s, and their two unknown cards are exactly the two missing
      ones; the other players have no unknown cards, so nothing changes. */
  lemma FourGroupsE()
    ensures SoundAll(FourD) && GroupRule(FourD, [4, 4, 3, 3]) == Go(FourD, false)
  {
    SoundFourD();
    var t := [4, 4, 3, 3];
    var table := [([2, 3], [0, 3])];
    FourGroupTableE();
    GroupsBelowFit(FourD, 4);
    FourGroupCountsE();
    KillOutsideNone(FourD, [2, 3], [0, 3], 0);
    assert GroupsFrom(FourD, t, table, 1, false) == Go(FourD, false);
  }

  lemma FourQuietE()
    ensures SoundAll(FourD) && PressureFrom(FourD, [4, 4, 3, 3], 0, false) == Go(FourD, false)
    ensures MinFrom(FourD, [4, 4, 3, 3], 0) == Go(FourD, false)
  {
    SoundFourD();
    var t := [4, 4, 3, 3];
    LiteralTotals();
    assert PressureFrom(FourD, t, 0, false) == Go(FourD, false);
    assert MinFrom(FourD, t, 0) == Go(FourD, false);
  }

  lemma FourAfterE()
    ensures SoundAll(FourD) && AfterForce(FourD, [4, 4, 3, 3]) == Go(FourD, false)
  {
    SoundFourD();
    LiteralTotals();
    FourUnresolvedD();
    FourQuietE();
    FourGroupsE();
    AfterForceQuiet(FourD, [4, 4, 3, 3]);
  }

  lemma FourForceE()
    ensures SoundAll(FourD) && ForceFrom(FourD, 0, false) == (FourD, false)
  {
    SoundFourD();
    ForceFromStable(FourD, 0, false);
  }

  lemma FourRoundE()
    ensures SoundAll(FourD) && Round(FourD) == Go(FourD, false)
  {
    SoundFourD();
    FourTotalsD();
    FourSaturateE();
    FourForceE();
    FourAfterE();
    RoundSteps(FourD, FourD, false, FourD, Go(FourD, false));
  }

  /** The last two passes: one more card learnt, then nothing. */
  lemma FourShakeDownTail()
    ensures SoundAll(FourC) && ShakeDown(FourC) == Done((true, FourD))
  {
    FourRoundD();
    FourRoundE();
    assert ShakeDown(FourD) == Done((true, FourD));
  }

  /** `shake_down` on 222?x01 / 1x23 / 000??x23 / 1133?? succeeds in five passes. */
  lemma FourShakeDown()
    ensures SoundAll(Four) && ShakeDown(Four) == Done((true, FourD))
  {
    FourRoundA();
    FourRoundB();
    FourRoundC();
    FourShakeDownTail();
    assert ShakeDown(FourB) == Done((true, FourD));
    assert ShakeDown(FourA) == Done((true, FourD));
  }

  /** Player 0 still has an unknown card, and player 2, first in rotation from 2, holds four 0s. */
  lemma FourVerdict()
    ensures Verdict(FourD, 2) == 2
  {
    assert !AllDetermined(FourD) by { assert !IsDetermined(FourD[0]); }
    assert Seat(2, 0, 4) == 2;
    assert FourD[2].known[0] == 4;
    assert HasFourOfAKind(FourD[2]);
  }

  /** `test_winner(2)` on 222?x01 / 1x23 / 000??x23 / 1133?? is 2: `shake_down` finds player 2's two
      unknown cards to be a 0 and a 1, so that player holds four 0s (cards.rs:1092-1093). */
  lemma FourPlayerWinner()
    ensures SoundAll(Four)
    ensures ShakeDown(Four) == Done((true, FourD))
    ensures FourD[2].known == map[0 := 4, 1 := 1]
    ensures TestWinner(Four, 2) == Done((2, FourD))
  {
    FourShakeDown();
    FourVerdict();
  }
}

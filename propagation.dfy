/**
  `Cards::shake_down` (src/cards.rs:458-637) as functions on hand values, rule by
  rule and in the order the code applies them, and `Cards::test_winner`
  (src/cards.rs:430-452) on top of it.

  The source walks a `HashMap` of suit totals and a `HashMap` of suit groups;
  here suits are visited in ascending order and groups in the order of their
  first member player. A suit the totals map does not hold has total 0.
  Each function carries what the loop it models guarantees: the hands only
  `Evolve` (see `Table`), and a pass that reports a change has strictly lowered
  the `Weight`, which is why the `while any_changes` loop ends.
*/
module Propagation {
  import opened Outcomes
  import opened HandSpec
  import opened Table
  import Arith

  /** How one pass of the loop ends: `return false` with the hands as they are, a failed
      assertion, or the end of the pass with the flag `any_changes`. */
  datatype Pass = Fail(hs: Hands) | Crash | Go(hs: Hands, changed: bool)

  ghost predicate NonNegative(t: seq<int>) {
    forall s :: 0 <= s < |t| ==> t[s] >= 0
  }

  // ---------------------------------------------------------------------------
  // One hand's steps

  lemma KillStep(h: HandValue, suit: int, n: nat)
    requires Sound(h, n) && 0 <= suit < n
    ensures var (c, h') := KillUnknown(h, suit);
      HandEvolves(h, h', n) && (c ==> HandWeight(h', n) < HandWeight(h, n)) && (!c ==> h' == h)
  {
    var (c, h') := KillUnknown(h, suit);
    KnownBelowChange(h, h', suit, n);
    if c {
      OpenBelowClose(h, h', suit, n);
    }
  }

  lemma ForceStep(h: HandValue, n: nat)
    requires Sound(h, n)
    ensures var (c, h') := ForceUnknowns(h, n);
      HandEvolves(h, h', n) && (c ==> HandWeight(h', n) < HandWeight(h, n))
  {
    ForceUnknownsEffect(h, n);
    var (c, h') := ForceUnknowns(h, n);
    if c {
      OpenBelowNoVoids(h', n);
    }
  }

  lemma FillStep(h: HandValue, suit: int, count: int, n: nat)
    requires Sound(h, n) && 0 <= suit < n && 1 <= count <= 4 && (h.unknowns >= count ==> suit !in h.voids)
    ensures var (ok, h') := FillSomeUnknowns(h, suit, count);
      HandEvolves(h, h', n) && (ok ==> HandWeight(h', n) < HandWeight(h, n))
  {
    var (ok, h') := FillSomeUnknowns(h, suit, count);
    if ok {
      FillSound(h, suit, count, n);
      FillSomeUnknownsKeepsSize(h, suit, count, n);
      OpenBelowSameVoids(h, h', n);
      FewerUnknownsLighter(h, h', count, n);
    }
  }

  lemma FillSound(h: HandValue, suit: int, count: int, n: nat)
    requires Sound(h, n) && 0 <= suit < n && 1 <= count <= 4 && h.unknowns >= count && suit !in h.voids
    ensures Sound(FillSomeUnknowns(h, suit, count).1, n)
  {
    var h' := FillSomeUnknowns(h, suit, count).1;
    assert h'.known == h.known[suit := Count(h, suit) + count];
  }

  /** Fewer unknown cards and the same open suits weigh less. */
  lemma FewerUnknownsLighter(h: HandValue, h': HandValue, count: int, n: nat)
    requires WellFormed(h) && WellFormed(h') && count >= 1 && h'.unknowns == h.unknowns - count
    requires OpenBelow(h', n) == OpenBelow(h, n)
    ensures HandWeight(h', n) < HandWeight(h, n)
  {
    assert h.unknowns * (n + 1) == h'.unknowns * (n + 1) + count * (n + 1);
    Arith.MulAtLeast(count, n + 1);
  }

  lemma {:induction false} FillUnknownsSteps(h: HandValue, totals: seq<int>, s: nat)
    requires Sound(h, |totals|)
    decreases |totals| - s
    ensures var r := FillUnknownsFrom(h, totals, s);
      r.Done? ==> HandEvolves(h, r.value.1, |totals|)
                  && (r.value.0 && h.unknowns > 0 ==> HandWeight(r.value.1, |totals|) < HandWeight(h, |totals|))
  {
    var n := |totals|;
    var r := FillUnknownsFrom(h, totals, s);
    if s < n && 0 < totals[s] < 4 {
      var count := 4 - totals[s];
      if h.unknowns >= count && s !in h.voids {
        FillStep(h, s, count, n);
        var h1 := FillSomeUnknowns(h, s, count).1;
        FillUnknownsSteps(h1, totals, s + 1);
        if r.Done? {
          HandEvolvesTransitive(h, h1, r.value.1, n);
        }
      }
    } else if s < n {
      FillUnknownsSteps(h, totals, s + 1);
    }
    if r.Done? && r.value.0 && h.unknowns > 0 {
      OpenBelowSameVoids(h, r.value.1, n);
    }
  }

  // ---------------------------------------------------------------------------
  // Saturation, sole holder and exact fit (cards.rs:468-513)

  /** `kill_unknown(suit)` on every hand from `i` on, or-ing the results into `any`. */
  function KillFrom(hs: Hands, suit: int, i: nat, any: bool): (r: (Hands, bool))
    requires SoundAll(hs) && 0 <= suit < |hs|
    decreases |hs| - i
    ensures Evolves(hs, r.0)
    ensures any ==> r.1
    ensures r.1 && !any ==> Weight(r.0) < Weight(hs)
    ensures !r.1 ==> r.0 == hs
  {
    if i >= |hs| then (hs, any)
    else
      var (c, h') := KillUnknown(hs[i], suit);
      KillStep(hs[i], suit, |hs|);
      StepEvolves(hs, i, h');
      var r := KillFrom(hs[i := h'], suit, i + 1, any || c);
      EvolvesTransitive(hs, hs[i := h'], r.0);
      r
  }

  /** The hands with unknown cards that may be `suit` (cards.rs:483-490), in order. */
  function Holders(hs: Hands, suit: int, k: nat): seq<nat>
    requires k <= |hs|
  {
    if k == 0 then []
    else Holders(hs, suit, k - 1) + (if hs[k - 1].unknowns > 0 && suit !in hs[k - 1].voids then [k - 1] else [])
  }

  /** The holders are, in increasing order, exactly the hands below k with unknown cards that may be `suit`. */
  lemma {:induction false} HoldersQualify(hs: Hands, suit: int, k: nat)
    requires k <= |hs|
    ensures var r := Holders(hs, suit, k);
      && (forall j :: 0 <= j < |r| ==> r[j] < k && hs[r[j]].unknowns > 0 && suit !in hs[r[j]].voids)
      && (forall j, j' :: 0 <= j < j' < |r| ==> r[j] < r[j'])
      && (forall i :: 0 <= i < k && hs[i].unknowns > 0 && suit !in hs[i].voids ==> i in r)
  {
    if k > 0 {
      HoldersQualify(hs, suit, k - 1);
    }
  }

  /** The unknown cards of the hands listed in `who`. */
  function UnknownsOf(hs: Hands, who: seq<nat>): int
    requires forall j :: 0 <= j < |who| ==> who[j] < |hs|
  {
    if |who| == 0 then 0 else UnknownsOf(hs, who[..|who| - 1]) + hs[who[|who| - 1]].unknowns
  }

  /** The unknown cards of the holders among the hands 0 .. k-1, summed as the source does while it
      lists them (cards.rs:486-489). */
  function HolderUnknowns(hs: Hands, suit: int, k: nat): int
    requires k <= |hs|
  {
    if k == 0 then 0
    else HolderUnknowns(hs, suit, k - 1) + (if hs[k - 1].unknowns > 0 && suit !in hs[k - 1].voids then hs[k - 1].unknowns else 0)
  }

  /** Each holder's unknown cards are part of the sum, which is not negative. */
  lemma {:induction false} HolderUnknownsBound(hs: Hands, suit: int, k: nat, i: nat)
    requires SoundAll(hs) && k <= |hs|
    ensures HolderUnknowns(hs, suit, k) >= 0
    ensures |Holders(hs, suit, k)| == 0 ==> HolderUnknowns(hs, suit, k) == 0
    ensures i < k && hs[i].unknowns > 0 && suit !in hs[i].voids ==> hs[i].unknowns <= HolderUnknowns(hs, suit, k)
  {
    if k > 0 {
      HolderUnknownsBound(hs, suit, k - 1, i);
    }
  }

  /** Every listed hand gets all its unknown cards as `suit` (cards.rs:502-508). */
  function FillEach(hs: Hands, suit: int, who: seq<nat>, j: nat): (r: (bool, Hands))
    requires SoundAll(hs) && 0 <= suit < |hs|
    requires forall k :: 0 <= k < |who| ==> who[k] < |hs|
    requires forall k, k' :: 0 <= k < k' < |who| ==> who[k] < who[k']
    requires forall k :: j <= k < |who| ==> 1 <= hs[who[k]].unknowns <= 4 && suit !in hs[who[k]].voids
    decreases |who| - j
    ensures Evolves(hs, r.1)
    ensures r.0 && j < |who| ==> Weight(r.1) < Weight(hs)
  {
    if j >= |who| then (true, hs)
    else
      var i := who[j];
      var (ok, h') := FillSomeUnknowns(hs[i], suit, hs[i].unknowns);
      FillStep(hs[i], suit, hs[i].unknowns, |hs|);
      StepEvolves(hs, i, h');
      if !ok then (false, hs)
      else
        var r := FillEach(hs[i := h'], suit, who, j + 1);
        EvolvesTransitive(hs, hs[i := h'], r.1);
        r
  }

  /** One listed hand of `FillEach`, given the result of its `fill_some_unknowns`. */
  lemma FillEachStep(hs: Hands, suit: int, who: seq<nat>, j: nat, ok: bool, h': HandValue)
    requires SoundAll(hs) && 0 <= suit < |hs|
    requires forall k :: 0 <= k < |who| ==> who[k] < |hs|
    requires forall k, k' :: 0 <= k < k' < |who| ==> who[k] < who[k']
    requires forall k :: j <= k < |who| ==> 1 <= hs[who[k]].unknowns <= 4 && suit !in hs[who[k]].voids
    requires j < |who| && (ok, h') == FillSomeUnknowns(hs[who[j]], suit, hs[who[j]].unknowns)
    ensures var hs' := hs[who[j] := h'];
      && SoundAll(hs')
      && (forall k :: j + 1 <= k < |who| ==> 1 <= hs'[who[k]].unknowns <= 4 && suit !in hs'[who[k]].voids)
      && FillEach(hs, suit, who, j) == if ok then FillEach(hs', suit, who, j + 1) else (false, hs')
  {
    var i := who[j];
    FillStep(hs[i], suit, hs[i].unknowns, |hs|);
    StepEvolves(hs, i, h');
    forall k | j + 1 <= k < |who| ensures who[k] != i {
    }
  }

  /** Nothing the first loop over the totals can learn about `suit`: either it is absent, or it is
      complete and every hand with unknown cards already has it void, or at least two hands may hold
      its missing cards and they have more room than that. */
  ghost predicate Settled(hs: Hands, totals: seq<int>, suit: nat)
    requires |totals| == |hs| && suit < |hs|
  {
    var holders := Holders(hs, suit, |hs|);
    && totals[suit] <= 4
    && (totals[suit] == 4 ==> forall i :: 0 <= i < |hs| && hs[i].unknowns > 0 ==> suit in hs[i].voids)
    && (0 < totals[suit] < 4 ==> |holders| >= 2 && HolderUnknowns(hs, suit, |hs|) > 4 - totals[suit])
  }

  /** The only hand that may hold `suit` gets all its missing cards (cards.rs:492-496). */
  function SoleHolder(hs: Hands, s: nat, i: nat, remainder: int): (r: Pass)
    requires SoundAll(hs) && s < |hs| && i < |hs| && 1 <= remainder <= 4
    requires hs[i].unknowns > 0 && s !in hs[i].voids
    ensures r.Fail? || (r.Go? && r.changed)
    ensures (r.Fail? || r.Go?) && Evolves(hs, r.hs)
    ensures r.Go? ==> Weight(r.hs) < Weight(hs)
  {
    var (ok, h') := FillSomeUnknowns(hs[i], s, remainder);
    FillStep(hs[i], s, remainder, |hs|);
    StepEvolves(hs, i, h');
    EvolvesReflexive(hs);
    if !ok then Fail(hs) else Go(hs[i := h'], true)
  }

  /** Holders with exactly the room needed get all their unknown cards as `suit`;
      too little room is inconsistent (cards.rs:497-511). */
  function ExactFit(hs: Hands, s: nat, remainder: int): (r: Pass)
    requires SoundAll(hs) && s < |hs| && 1 <= remainder <= 4
    ensures (r.Fail? || r.Go?) && Evolves(hs, r.hs)
    ensures r.Go? && r.changed ==> Weight(r.hs) < Weight(hs)
    ensures r.Go? && !r.changed ==> r.hs == hs && HolderUnknowns(hs, s, |hs|) > remainder && |Holders(hs, s, |hs|)| > 0
  {
    var holders := Holders(hs, s, |hs|);
    var unknowns := HolderUnknowns(hs, s, |hs|);
    HoldersQualify(hs, s, |hs|);
    HolderUnknownsBound(hs, s, |hs|, 0);
    EvolvesReflexive(hs);
    if unknowns < remainder then Fail(hs)
    else if unknowns == remainder then
      HoldersFit(hs, s, remainder);
      var (ok, hs') := FillEach(hs, s, holders, 0);
      if !ok then Fail(hs') else Go(hs', true)
    else Go(hs, false)
  }

  /** What the first loop over the totals does with a suit whose total is between 1 and 3
      (cards.rs:481-512). */
  function ShortSuit(hs: Hands, totals: seq<int>, s: nat): (r: Pass)
    requires SoundAll(hs) && |totals| == |hs| && s < |hs| && 0 < totals[s] < 4
    ensures (r.Fail? || r.Go?) && Evolves(hs, r.hs)
    ensures r.Go? && r.changed ==> Weight(r.hs) < Weight(hs)
    ensures r.Go? && !r.changed ==> r.hs == hs && Settled(hs, totals, s)
  {
    var holders := Holders(hs, s, |hs|);
    HoldersQualify(hs, s, |hs|);
    if |holders| == 1 then SoleHolder(hs, s, holders[0], 4 - totals[s])
    else ExactFit(hs, s, 4 - totals[s])
  }

  /** The two cases of `ShortSuit`: a sole holder, or the exact-fit rule. */
  lemma ShortSuitCases(hs: Hands, totals: seq<int>, s: nat)
    requires SoundAll(hs) && |totals| == |hs| && s < |hs| && 0 < totals[s] < 4
    ensures var holders := Holders(hs, s, |hs|);
      && (|holders| == 1 ==> holders[0] < |hs| && hs[holders[0]].unknowns > 0 && s !in hs[holders[0]].voids
                             && ShortSuit(hs, totals, s) == SoleHolder(hs, s, holders[0], 4 - totals[s]))
      && (|holders| != 1 ==> ShortSuit(hs, totals, s) == ExactFit(hs, s, 4 - totals[s]))
  {
    HoldersQualify(hs, s, |hs|);
  }

  /** What the first loop over the totals does with one present suit (cards.rs:472-512). */
  function SuitStep(hs: Hands, totals: seq<int>, s: nat): (r: Pass)
    requires SoundAll(hs) && |totals| == |hs| && NonNegative(totals) && s < |hs|
    ensures !r.Crash? && Evolves(hs, r.hs)
    ensures r.Go? && r.changed ==> Weight(r.hs) < Weight(hs)
    ensures r.Go? && !r.changed ==> r.hs == hs && Settled(hs, totals, s)
  {
    if totals[s] == 0 then EvolvesReflexive(hs); Go(hs, false)
    else if totals[s] > 4 then EvolvesReflexive(hs); Fail(hs)
    else if totals[s] == 4 then
      var (hs', c) := KillFrom(hs, s, 0, false);
      if !c then (KillFromQuiet(hs, s, 0); Go(hs', false)) else Go(hs', true)
    else ShortSuit(hs, totals, s)
  }

  /** The first loop over the totals (cards.rs:468-513) from suit `s` on. It stops at the first
      suit that changes something. */
  function SaturateFrom(hs: Hands, totals: seq<int>, s: nat, any: bool): (r: Pass)
    requires SoundAll(hs) && |totals| == |hs| && NonNegative(totals)
    decreases |hs| - s
    ensures !r.Crash?
  {
    if any || s >= |hs| then Go(hs, any)
    else
      match SuitStep(hs, totals, s)
      case Fail(h') => Fail(h')
      case Go(h', c) => SaturateFrom(h', totals, s + 1, c)
  }

  /** The first loop only adds knowledge. */
  lemma {:induction false} SaturateEvolves(hs: Hands, totals: seq<int>, s: nat)
    requires SoundAll(hs) && |totals| == |hs| && NonNegative(totals)
    decreases |hs| - s
    ensures Evolves(hs, SaturateFrom(hs, totals, s, false).hs)
  {
    if s >= |hs| {
      EvolvesReflexive(hs);
    } else {
      match SuitStep(hs, totals, s)
      case Fail(h') =>
      case Go(h', c) =>
        if c {
          assert SaturateFrom(hs, totals, s, false) == Go(h', true);
        } else {
          assert SaturateFrom(hs, totals, s, false) == SaturateFrom(hs, totals, s + 1, false);
          SaturateEvolves(hs, totals, s + 1);
        }
    }
  }

  /** When a suit of the first loop changed something, the weight went down. */
  lemma {:induction false} SaturateChanges(hs: Hands, totals: seq<int>, s: nat)
    requires SoundAll(hs) && |totals| == |hs| && NonNegative(totals)
    decreases |hs| - s
    ensures var r := SaturateFrom(hs, totals, s, false);
      r.Go? && r.changed ==> SoundAll(r.hs) && Weight(r.hs) < Weight(hs)
  {
    if s < |hs| {
      match SuitStep(hs, totals, s)
      case Fail(h') =>
      case Go(h', c) =>
        if c {
          assert SaturateFrom(hs, totals, s, false) == Go(h', true);
        } else {
          assert SaturateFrom(hs, totals, s, false) == SaturateFrom(hs, totals, s + 1, false);
          SaturateChanges(hs, totals, s + 1);
        }
    }
  }

  /** Every suit from `s` on is settled, one suit at a time. */
  ghost predicate SettledFrom(hs: Hands, totals: seq<int>, s: nat)
    requires |totals| == |hs|
    decreases |hs| - s
  {
    s < |hs| ==> Settled(hs, totals, s) && SettledFrom(hs, totals, s + 1)
  }

  lemma {:induction false} SettledFromAll(hs: Hands, totals: seq<int>, s: nat)
    requires |totals| == |hs| && SettledFrom(hs, totals, s)
    decreases |hs| - s
    ensures forall t :: s <= t < |hs| ==> Settled(hs, totals, t)
  {
    if s < |hs| {
      SettledFromAll(hs, totals, s + 1);
    }
  }

  /** A first loop that changes nothing leaves the hands as they were, and every suit it looked at
      is settled. */
  lemma SaturateQuiet(hs: Hands, totals: seq<int>, s: nat)
    requires SoundAll(hs) && |totals| == |hs| && NonNegative(totals)
    ensures var r := SaturateFrom(hs, totals, s, false);
      r.Go? && !r.changed ==> r.hs == hs && forall t :: s <= t < |hs| ==> Settled(hs, totals, t)
  {
    QuietFrom(hs, totals, s);
    var r := SaturateFrom(hs, totals, s, false);
    if r.Go? && !r.changed {
      SettledFromAll(hs, totals, s);
    }
  }

  lemma {:induction false} QuietFrom(hs: Hands, totals: seq<int>, s: nat)
    requires SoundAll(hs) && |totals| == |hs| && NonNegative(totals)
    decreases |hs| - s
    ensures var r := SaturateFrom(hs, totals, s, false);
      r.Go? && !r.changed ==> r.hs == hs && SettledFrom(hs, totals, s)
  {
    var r := SaturateFrom(hs, totals, s, false);
    if s < |hs| && r.Go? && !r.changed {
      QuietStep(hs, totals, s);
      QuietFrom(hs, totals, s + 1);
    }
  }

  /** One suit of a quiet first loop: the loop went on past it without a change, and it is settled. */
  lemma QuietStep(hs: Hands, totals: seq<int>, s: nat)
    requires SoundAll(hs) && |totals| == |hs| && NonNegative(totals) && s < |hs|
    ensures var r := SaturateFrom(hs, totals, s, false);
      r.Go? && !r.changed ==> SuitStep(hs, totals, s) == Go(hs, false)
    ensures SuitStep(hs, totals, s) == Go(hs, false) ==>
      Settled(hs, totals, s) && SaturateFrom(hs, totals, s, false) == SaturateFrom(hs, totals, s + 1, false)
  {
    var step := SuitStep(hs, totals, s);
    if step.Go? && step.changed {
      assert SaturateFrom(step.hs, totals, s + 1, true) == Go(step.hs, true);
    }
  }

  /** When the holders' unknown cards are exactly the few missing, each holder has at most four. */
  lemma HoldersFit(hs: Hands, suit: int, remainder: int)
    requires SoundAll(hs) && HolderUnknowns(hs, suit, |hs|) == remainder <= 4
    ensures var holders := Holders(hs, suit, |hs|);
      forall k :: 0 <= k < |holders| ==> holders[k] < |hs| && hs[holders[k]].unknowns <= 4
  {
    var holders := Holders(hs, suit, |hs|);
    HoldersQualify(hs, suit, |hs|);
    forall k | 0 <= k < |holders| ensures holders[k] < |hs| && hs[holders[k]].unknowns <= 4 {
      HolderUnknownsBound(hs, suit, |hs|, holders[k]);
    }
  }

  /** When no kill reported a change, every hand from `i` on either has no unknown cards or has `suit` void. */
  lemma {:induction false} KillFromQuiet(hs: Hands, suit: int, i: nat)
    requires SoundAll(hs) && 0 <= suit < |hs|
    requires !KillFrom(hs, suit, i, false).1
    decreases |hs| - i
    ensures forall j :: i <= j < |hs| && hs[j].unknowns > 0 ==> suit in hs[j].voids
  {
    if i < |hs| {
      var (c, h') := KillUnknown(hs[i], suit);
      KillStep(hs[i], suit, |hs|);
      assert !c && hs[i := h'] == hs;
      KillFromQuiet(hs, suit, i + 1);
    }
  }

  // ---------------------------------------------------------------------------
  // A single remaining suit (cards.rs:515-519)

  function ForceFrom(hs: Hands, i: nat, any: bool): (r: (Hands, bool))
    requires SoundAll(hs)
    decreases |hs| - i
    ensures Evolves(hs, r.0)
    ensures any ==> r.1
    ensures r.1 && !any ==> Weight(r.0) < Weight(hs)
    ensures !r.1 ==> r.0 == hs
  {
    if i >= |hs| then (hs, any)
    else
      var (c, h') := ForceUnknowns(hs[i], |hs|);
      ForceStep(hs[i], |hs|);
      StepEvolves(hs, i, h');
      var r := ForceFrom(hs[i := h'], i + 1, any || c);
      EvolvesTransitive(hs, hs[i := h'], r.0);
      r
  }

  // ---------------------------------------------------------------------------
  // The sole unresolved hand (cards.rs:523-534)

  /** The hands that still have unknown cards, in order. */
  function Unresolved(hs: Hands, k: nat): seq<nat>
    requires k <= |hs|
  {
    if k == 0 then [] else Unresolved(hs, k - 1) + (if hs[k - 1].unknowns > 0 then [k - 1] else [])
  }

  /** The unresolved hands are exactly the hands below k with unknown cards. */
  lemma {:induction false} UnresolvedQualify(hs: Hands, k: nat)
    requires k <= |hs|
    ensures var r := Unresolved(hs, k);
      && (forall j :: 0 <= j < |r| ==> r[j] < k && hs[r[j]].unknowns > 0)
      && (forall i :: 0 <= i < k && hs[i].unknowns > 0 ==> i in r)
  {
    if k > 0 {
      UnresolvedQualify(hs, k - 1);
    }
  }

  // ---------------------------------------------------------------------------
  // Capacity pressure (cards.rs:546-571)

  /** Room for unknown cards in the suits 0 .. k-1 that the hand may hold and that are not complete. */
  function Possible(h: HandValue, totals: seq<int>, k: nat): int
    requires k <= |totals|
  {
    if k == 0 then 0
    else Possible(h, totals, k - 1) + (if totals[k - 1] < 4 && k - 1 !in h.voids then 4 - totals[k - 1] else 0)
  }

  /** The inner loop of capacity pressure from suit `s` on: a suit whose room is needed, because the
      other suits cannot take all `unknowns` cards, gets the cards the others cannot take. */
  function PressureFill(h: HandValue, totals: seq<int>, possible: int, unknowns: int, s: nat, any: bool)
    : (r: (bool, HandValue, bool))
    requires Sound(h, |totals|) && NonNegative(totals) && unknowns <= possible
    decreases |totals| - s
    ensures HandEvolves(h, r.1, |totals|)
    ensures any ==> r.2
    ensures r.2 && !any ==> HandWeight(r.1, |totals|) < HandWeight(h, |totals|)
    ensures !r.2 ==> r.1 == h
  {
    var n := |totals|;
    if s >= n then (true, h, any)
    else if totals[s] < 4 && s !in h.voids && possible - (4 - totals[s]) < unknowns then
      var count := unknowns - (possible - (4 - totals[s]));
      var (ok, h') := FillSomeUnknowns(h, s, count);
      FillStep(h, s, count, n);
      if !ok then (false, h, any)
      else
        var r := PressureFill(h', totals, possible, unknowns, s + 1, true);
        HandEvolvesTransitive(h, h', r.1, n);
        r
    else PressureFill(h, totals, possible, unknowns, s + 1, any)
  }

  /** A step of the inner loop of capacity pressure on a suit whose room is needed: the fill gave
      (ok, h'). */
  lemma PressureFillFills(h: HandValue, totals: seq<int>, possible: int, unknowns: int, s: nat, any: bool,
                          ok: bool, h': HandValue)
    requires Sound(h, |totals|) && NonNegative(totals) && unknowns <= possible && s < |totals|
    requires totals[s] < 4 && s !in h.voids && possible - (4 - totals[s]) < unknowns
    requires (ok, h') == FillSomeUnknowns(h, s, unknowns - (possible - (4 - totals[s])))
    ensures Sound(h', |totals|)
    ensures PressureFill(h, totals, possible, unknowns, s, any)
         == if ok then PressureFill(h', totals, possible, unknowns, s + 1, true) else (false, h', any)
  {
    FillStep(h, s, unknowns - (possible - (4 - totals[s])), |totals|);
  }

  /** Capacity pressure on a hand with several unknown cards and enough room: its inner loop gave
      (ok, h', any'). */
  lemma PressureStep(hs: Hands, totals: seq<int>, i: nat, any: bool, ok: bool, h': HandValue, any': bool)
    requires SoundAll(hs) && |totals| == |hs| && NonNegative(totals) && i < |hs| && hs[i].unknowns > 1
    requires Possible(hs[i], totals, |hs|) >= hs[i].unknowns
    requires (ok, h', any') == PressureFill(hs[i], totals, Possible(hs[i], totals, |hs|), hs[i].unknowns, 0, any)
    ensures SoundAll(hs[i := h'])
    ensures PressureFrom(hs, totals, i, any) == if ok then PressureFrom(hs[i := h'], totals, i + 1, any') else Fail(hs[i := h'])
  {
    StepEvolves(hs, i, h');
  }

  /** The outer loop of capacity pressure from hand `i` on (cards.rs:546-571). */
  function PressureFrom(hs: Hands, totals: seq<int>, i: nat, any: bool): (r: Pass)
    requires SoundAll(hs) && |totals| == |hs| && NonNegative(totals)
    decreases |hs| - i
    ensures !r.Crash?
    ensures r.Fail? ==> Evolves(hs, r.hs)
    ensures r.Go? ==> Evolves(hs, r.hs) && (any ==> r.changed) && (r.changed && !any ==> Weight(r.hs) < Weight(hs))
  {
    if i >= |hs| then EvolvesReflexive(hs); Go(hs, any)
    else if hs[i].unknowns > 1 then
      var possible := Possible(hs[i], totals, |hs|);
      if possible < hs[i].unknowns then EvolvesReflexive(hs); Fail(hs)
      else
        var (ok, h', any') := PressureFill(hs[i], totals, possible, hs[i].unknowns, 0, any);
        StepEvolves(hs, i, h');
        if !ok then Fail(hs[i := h'])
        else
          var r := PressureFrom(hs[i := h'], totals, i + 1, any');
          EvolvesTransitive(hs, hs[i := h'], r.hs);
          r
    else PressureFrom(hs, totals, i + 1, any)
  }

  // ---------------------------------------------------------------------------
  // Minimum holding (cards.rs:575-595); it never reports a change

  /** Unknown cards, in the hands 0 .. k-1, that may be `suit`. */
  function Slots(hs: Hands, suit: int, k: nat): int
    requires k <= |hs|
  {
    if k == 0 then 0 else Slots(hs, suit, k - 1) + (if suit !in hs[k - 1].voids then hs[k - 1].unknowns else 0)
  }

  lemma {:induction false} SlotsBound(hs: Hands, suit: int, k: nat, i: nat)
    requires SoundAll(hs) && i < k <= |hs| && suit !in hs[i].voids
    ensures 0 <= hs[i].unknowns <= Slots(hs, suit, k)
  {
    SlotsNonNegative(hs, suit, k - 1);
    if i < k - 1 {
      SlotsBound(hs, suit, k - 1, i);
    }
  }

  lemma SlotsNonNegative(hs: Hands, suit: int, k: nat)
    requires SoundAll(hs) && k <= |hs|
    ensures Slots(hs, suit, k) >= 0
  {
  }

  /** Every hand from `i` on that may hold `suit` has between 0 and `slots` unknown cards. */
  ghost predicate SlotsCover(hs: Hands, suit: int, slots: int, i: nat) {
    forall j :: i <= j < |hs| && suit !in hs[j].voids ==> 0 <= hs[j].unknowns <= slots
  }

  /** The slots of a suit cover every hand that may hold it. */
  lemma SlotsCoverAll(hs: Hands, suit: int)
    requires SoundAll(hs)
    ensures SlotsCover(hs, suit, Slots(hs, suit, |hs|), 0)
  {
    forall j | 0 <= j < |hs| && suit !in hs[j].voids ensures 0 <= hs[j].unknowns <= Slots(hs, suit, |hs|) {
      SlotsBound(hs, suit, |hs|, j);
    }
  }

  /** Changing hand `i` keeps the cover of the hands after it. */
  lemma SlotsCoverStep(hs: Hands, suit: int, slots: int, i: nat, h: HandValue)
    requires i < |hs| && SlotsCover(hs, suit, slots, i)
    ensures SlotsCover(hs[i := h], suit, slots, i + 1)
  {
  }

  /** The inner loop of minimum holding from hand `i` on: a hand must hold as many cards of `suit` as
      the other hands' slots fall short of its total. */
  function MinFill(hs: Hands, total: int, suit: int, slots: int, i: nat): (r: (bool, Hands))
    requires SoundAll(hs) && 0 <= suit < |hs| && total <= 2
    requires SlotsCover(hs, suit, slots, i)
    decreases |hs| - i
    ensures Evolves(hs, r.1)
  {
    if i >= |hs| then EvolvesReflexive(hs); (true, hs)
    else if suit !in hs[i].voids && slots - hs[i].unknowns < total then
      var count := total - (slots - hs[i].unknowns);
      var (ok, h') := FillSomeUnknowns(hs[i], suit, count);
      FillStep(hs[i], suit, count, |hs|);
      StepEvolves(hs, i, h');
      if !ok then EvolvesReflexive(hs); (false, hs)
      else
        var r := MinFill(hs[i := h'], total, suit, slots, i + 1);
        EvolvesTransitive(hs, hs[i := h'], r.1);
        r
    else MinFill(hs, total, suit, slots, i + 1)
  }

  /** A step of the inner loop of minimum holding on a hand that must take cards of `suit`: the fill
      gave (ok, h'). */
  lemma MinFillFills(hs: Hands, total: int, suit: int, slots: int, i: nat, ok: bool, h': HandValue)
    requires SoundAll(hs) && 0 <= suit < |hs| && total <= 2 && i < |hs| && SlotsCover(hs, suit, slots, i)
    requires suit !in hs[i].voids && slots - hs[i].unknowns < total
    requires (ok, h') == FillSomeUnknowns(hs[i], suit, total - (slots - hs[i].unknowns))
    ensures SoundAll(hs[i := h']) && SlotsCover(hs[i := h'], suit, slots, i + 1)
    ensures MinFill(hs, total, suit, slots, i) == if ok then MinFill(hs[i := h'], total, suit, slots, i + 1) else (false, hs)
    ensures !ok ==> hs[i := h'] == hs
  {
    var count := total - (slots - hs[i].unknowns);
    FillStep(hs[i], suit, count, |hs|);
    StepEvolves(hs, i, h');
    SlotsCoverStep(hs, suit, slots, i, h');
    if !ok {
      assert hs[i := h'] == hs;
    }
  }

  function MinFrom(hs: Hands, totals: seq<int>, s: nat): (r: Pass)
    requires SoundAll(hs) && |totals| == |hs|
    decreases |hs| - s
    ensures !r.Crash?
    ensures Evolves(hs, r.hs)
    ensures r.Go? ==> !r.changed
  {
    if s >= |hs| then EvolvesReflexive(hs); Go(hs, false)
    else if totals[s] > 2 then MinFrom(hs, totals, s + 1)
    else
      var slots := Slots(hs, s, |hs|);
      SlotsCoverAll(hs, s);
      var (ok, hs') := MinFill(hs, totals[s], s, slots, 0);
      if !ok then Fail(hs')
      else
        var r := MinFrom(hs', totals, s + 1);
        EvolvesTransitive(hs, hs', r.hs);
        r
  }

  // ---------------------------------------------------------------------------
  // Groups (cards.rs:599-634)

  /** The suits 0 .. k-1 the hand may still hold, ascending: the key the source computes with
      `all_suits.difference(known_voids)`. */
  function Group(h: HandValue, k: nat): (r: seq<int>)
    ensures forall j :: 0 <= j < |r| ==> 0 <= r[j] < k && r[j] !in h.voids
  {
    if k == 0 then [] else Group(h, k - 1) + (if k - 1 !in h.voids then [k - 1] else [])
  }

  /** Whether a hand takes part in the groups: unknown cards and more than one void. */
  predicate Grouped(h: HandValue) {
    h.unknowns > 0 && |h.voids| > 1
  }

  type GroupTable = seq<(seq<int>, seq<nat>)>

  /** `groups.entry(group).or_insert(vec![]).push(player)` on a table kept in insertion order. */
  function AddMember(table: GroupTable, group: seq<int>, player: nat): (r: GroupTable)
    ensures |r| == |table| || |r| == |table| + 1
  {
    if |table| == 0 then [(group, [player])]
    else if table[0].0 == group then [(group, table[0].1 + [player])] + table[1..]
    else [table[0]] + AddMember(table[1..], group, player)
  }

  /** The groups of the players 0 .. k-1. */
  function GroupsBelow(hs: Hands, k: nat): GroupTable
    requires k <= |hs|
  {
    if k == 0 then []
    else
      var table := GroupsBelow(hs, k - 1);
      if Grouped(hs[k - 1]) then AddMember(table, Group(hs[k - 1], |hs|), k - 1) else table
  }

  /** Every suit of the table is one of 0 .. n-1 and every player one of 0 .. n-1. */
  ghost predicate TableFits(table: GroupTable, n: nat) {
    forall j :: 0 <= j < |table| ==>
      (forall k :: 0 <= k < |table[j].0| ==> 0 <= table[j].0[k] < n)
      && (forall k :: 0 <= k < |table[j].1| ==> table[j].1[k] < n)
  }

  lemma AddMemberFits(table: GroupTable, group: seq<int>, player: nat, n: nat)
    requires TableFits(table, n) && player < n && forall k :: 0 <= k < |group| ==> 0 <= group[k] < n
    ensures TableFits(AddMember(table, group, player), n)
  {
    if |table| > 0 && table[0].0 != group {
      AddMemberFits(table[1..], group, player, n);
      var r := AddMember(table, group, player);
      forall j | 0 <= j < |r|
        ensures (forall k :: 0 <= k < |r[j].0| ==> 0 <= r[j].0[k] < n)
             && (forall k :: 0 <= k < |r[j].1| ==> r[j].1[k] < n)
      {
        if j > 0 {
          assert r[j] == AddMember(table[1..], group, player)[j - 1];
        }
      }
    }
  }

  lemma {:induction false} GroupsBelowFit(hs: Hands, k: nat)
    requires k <= |hs|
    ensures TableFits(GroupsBelow(hs, k), |hs|)
  {
    if k > 0 {
      GroupsBelowFit(hs, k - 1);
      if Grouped(hs[k - 1]) {
        AddMemberFits(GroupsBelow(hs, k - 1), Group(hs[k - 1], |hs|), k - 1, |hs|);
      }
    }
  }

  /** The totals of the suits 0 .. k-1 that belong to the group (cards.rs:603-607). */
  function TotalOver(totals: seq<int>, group: seq<int>, k: nat): int
    requires k <= |totals|
  {
    if k == 0 then 0 else TotalOver(totals, group, k - 1) + (if k - 1 in group then totals[k - 1] else 0)
  }

  /** `kill_unknown` of each suit of the group from position `j` on. */
  function KillSuits(h: HandValue, group: seq<int>, j: nat, any: bool, n: nat): (r: (HandValue, bool))
    requires Sound(h, n) && forall k :: 0 <= k < |group| ==> 0 <= group[k] < n
    decreases |group| - j
    ensures HandEvolves(h, r.0, n)
    ensures any ==> r.1
    ensures r.1 && !any ==> HandWeight(r.0, n) < HandWeight(h, n)
    ensures !r.1 ==> r.0 == h
  {
    if j >= |group| then (h, any)
    else
      var (c, h') := KillUnknown(h, group[j]);
      KillStep(h, group[j], n);
      var r := KillSuits(h', group, j + 1, any || c, n);
      HandEvolvesTransitive(h, h', r.0, n);
      r
  }

  /** Every hand from `i` on that is not a member of the group has the group's suits killed. */
  function KillOutside(hs: Hands, group: seq<int>, members: seq<nat>, i: nat, any: bool): (r: (Hands, bool))
    requires SoundAll(hs) && forall k :: 0 <= k < |group| ==> 0 <= group[k] < |hs|
    decreases |hs| - i
    ensures Evolves(hs, r.0)
    ensures any ==> r.1
    ensures r.1 && !any ==> Weight(r.0) < Weight(hs)
    ensures !r.1 ==> r.0 == hs
  {
    if i >= |hs| then EvolvesReflexive(hs); (hs, any)
    else if i !in members then
      var (h', c) := KillSuits(hs[i], group, 0, false, |hs|);
      StepEvolves(hs, i, h');
      var r := KillOutside(hs[i := h'], group, members, i + 1, any || c);
      EvolvesTransitive(hs, hs[i := h'], r.0);
      r
    else KillOutside(hs, group, members, i + 1, any)
  }

  /** One suit of `KillSuits`, given the result of its `kill_unknown`. */
  lemma KillSuitsStep(h: HandValue, group: seq<int>, j: nat, any: bool, n: nat, c: bool, h': HandValue)
    requires Sound(h, n) && (forall k :: 0 <= k < |group| ==> 0 <= group[k] < n) && j < |group|
    requires (c, h') == KillUnknown(h, group[j])
    ensures Sound(h', n)
    ensures KillSuits(h, group, j, any, n) == KillSuits(h', group, j + 1, any || c, n)
  {
    KillStep(h, group[j], n);
  }

  /** One hand of `KillOutside` outside the group, given the result of its `KillSuits`. */
  lemma KillOutsideStep(hs: Hands, group: seq<int>, members: seq<nat>, i: nat, any: bool, h': HandValue, c: bool)
    requires SoundAll(hs) && (forall k :: 0 <= k < |group| ==> 0 <= group[k] < |hs|) && i < |hs| && i !in members
    requires (h', c) == KillSuits(hs[i], group, 0, false, |hs|)
    ensures SoundAll(hs[i := h'])
    ensures KillOutside(hs, group, members, i, any) == KillOutside(hs[i := h'], group, members, i + 1, any || c)
  {
    StepEvolves(hs, i, h');
  }

  /** The loop over the groups from entry `j` on: when the members' unknown cards exactly fill what
      the group's suits still miss, no other hand can hold those suits. */
  function GroupsFrom(hs: Hands, totals: seq<int>, table: GroupTable, j: nat, any: bool): (r: Pass)
    requires SoundAll(hs) && |totals| == |hs| && TableFits(table, |hs|)
    decreases |table| - j
    ensures !r.Crash?
    ensures r.Fail? ==> Evolves(hs, r.hs)
    ensures r.Go? ==> Evolves(hs, r.hs) && (any ==> r.changed) && (r.changed && !any ==> Weight(r.hs) < Weight(hs))
  {
    if j >= |table| then EvolvesReflexive(hs); Go(hs, any)
    else
      var (group, members) := table[j];
      if |members| > 1 then
        var missing := 4 * |group| - TotalOver(totals, group, |totals|);
        var holes := UnknownsOf(hs, members);
        if missing < holes then EvolvesReflexive(hs); Fail(hs)
        else if missing == holes then
          var (hs', any') := KillOutside(hs, group, members, 0, any);
          var r := GroupsFrom(hs', totals, table, j + 1, any');
          EvolvesTransitive(hs, hs', r.hs);
          r
        else GroupsFrom(hs, totals, table, j + 1, any)
      else GroupsFrom(hs, totals, table, j + 1, any)
  }

  /** The groups rule (cards.rs:599-634) on the groups the hands form. */
  function GroupRule(hs: Hands, totals: seq<int>): (r: Pass)
    requires SoundAll(hs) && |totals| == |hs|
    ensures !r.Crash? && Evolves(hs, r.hs)
    ensures r.Go? && r.changed ==> Weight(r.hs) < Weight(hs)
  {
    GroupsBelowFit(hs, |hs|);
    GroupsFrom(hs, totals, GroupsBelow(hs, |hs|), 0, false)
  }

  // ---------------------------------------------------------------------------
  // The whole loop

  /** The sole unresolved hand `i` gets the missing cards of every incomplete suit (cards.rs:529-533). */
  function SoleUnresolved(hs: Hands, totals: seq<int>, i: nat): (r: Pass)
    requires SoundAll(hs) && |totals| == |hs| && i < |hs| && hs[i].unknowns > 0
    ensures r.Fail? || r.Go? ==> Evolves(hs, r.hs)
    ensures r.Go? ==> r.changed && Weight(r.hs) < Weight(hs)
  {
    match FillUnknownsFrom(hs[i], totals, 0)
    case Panicked => Crash
    case Done((ok, h')) =>
      FillUnknownsSteps(hs[i], totals, 0);
      StepEvolves(hs, i, h');
      if !ok then Fail(hs[i := h']) else Go(hs[i := h'], true)
  }

  /** Capacity pressure, then minimum holding, then the groups (cards.rs:540-634). */
  function LaterRules(hs: Hands, totals: seq<int>): (r: Pass)
    requires SoundAll(hs) && |totals| == |hs| && NonNegative(totals)
    ensures !r.Crash? && Evolves(hs, r.hs)
    ensures r.Go? && r.changed ==> Weight(r.hs) < Weight(hs)
  {
    match PressureFrom(hs, totals, 0, false)
    case Fail(h3) => Fail(h3)
    case Go(h3, any3) =>
      if any3 then Go(h3, true)
      else
        var r4 := MinFrom(h3, totals, 0);
        EvolvesTransitive(hs, h3, r4.hs);
        if r4.Fail? then Fail(r4.hs)
        else
          var h4 := r4.hs;
          var r5 := GroupRule(h4, totals);
          EvolvesTransitive(hs, h4, r5.hs);
          EvolvesTransitive(hs, h3, r5.hs);
          r5
  }

  /** The rules after `force_unknowns` when it changed nothing (cards.rs:523-634). */
  function AfterForce(hs: Hands, totals: seq<int>): (r: Pass)
    requires SoundAll(hs) && |totals| == |hs| && NonNegative(totals)
    ensures r.Fail? || r.Go? ==> Evolves(hs, r.hs)
    ensures r.Go? && r.changed ==> Weight(r.hs) < Weight(hs)
  {
    var unresolved := Unresolved(hs, |hs|);
    UnresolvedQualify(hs, |hs|);
    if |unresolved| == 1 then SoleUnresolved(hs, totals, unresolved[0]) else LaterRules(hs, totals)
  }

  /** One pass of the `while any_changes` loop (cards.rs:464-635). */
  function Round(hs: Hands): (r: Pass)
    requires SoundAll(hs)
    ensures r.Fail? ==> Evolves(hs, r.hs)
    ensures r.Go? ==> Evolves(hs, r.hs) && (r.changed ==> Weight(r.hs) < Weight(hs))
    ensures r.Go? && !r.changed ==> forall s :: 0 <= s < |hs| ==> Settled(hs, Totals(hs), s)
    ensures r.Crash? ==> forall s :: 0 <= s < |hs| ==> Settled(hs, Totals(hs), s)
  {
    var n := |hs|;
    var totals := Totals(hs);
    forall s | 0 <= s < n ensures totals[s] >= 0 {
      TotalNonNegative(hs, s, n);
    }
    SaturateEvolves(hs, totals, 0);
    SaturateChanges(hs, totals, 0);
    SaturateQuiet(hs, totals, 0);
    match SaturateFrom(hs, totals, 0, false)
    case Fail(h1) => Fail(h1)
    case Go(h1, any1) =>
      var (h2, any2) := ForceFrom(h1, 0, any1);
      EvolvesTransitive(hs, h1, h2);
      if any2 then Go(h2, true)
      else
        var r := AfterForce(h2, totals);
        if r.Crash? then r else EvolvesTransitive(hs, h2, r.hs); r
  }

  /** `shake_down` (cards.rs:458-637): (consistent, the hands afterwards), or `Panicked`. */
  function ShakeDown(hs: Hands): (r: Outcome<(bool, Hands)>)
    requires SoundAll(hs)
    decreases Weight(hs)
    ensures r.Done? ==> Evolves(hs, r.value.1)
  {
    match Round(hs)
    case Crash => Panicked
    case Fail(h') => Done((false, h'))
    case Go(h', changed) =>
      if changed then
        var r := ShakeDown(h');
        if r.Done? then (EvolvesTransitive(hs, h', r.value.1); r) else r
      else Done((true, h'))
  }

  // ---------------------------------------------------------------------------
  // test_winner (cards.rs:430-452)

  const NoWinner: int := -1
  const IllegalCards: int := -2

  predicate AllDetermined(hs: Hands) {
    forall i :: 0 <= i < |hs| ==> IsDetermined(hs[i])
  }

  /** The first player, in rotation from `last` and starting at offset `i`, holding four of a suit. */
  function FirstFour(hs: Hands, last: nat, i: nat): (r: int)
    requires |hs| > 0
    decreases |hs| - i
    ensures r == NoWinner ==> forall k :: i <= k < |hs| ==> !HasFourOfAKind(hs[Seat(last, k, |hs|)])
    ensures r != NoWinner ==> exists k :: i <= k < |hs| && r == Seat(last, k, |hs|) && HasFourOfAKind(hs[r])
                                  && forall k' :: i <= k' < k ==> !HasFourOfAKind(hs[Seat(last, k', |hs|)])
  {
    if i >= |hs| then NoWinner
    else if HasFourOfAKind(hs[Seat(last, i, |hs|)]) then Seat(last, i, |hs|)
    else FirstFour(hs, last, i + 1)
  }

  /** `test_winner(last)`: (the verdict, the hands after `shake_down`), or `Panicked`. */
  function TestWinner(hs: Hands, last: nat): (r: Outcome<(int, Hands)>)
    requires SoundAll(hs)
    ensures r.Done? ==> Evolves(hs, r.value.1)
  {
    match ShakeDown(hs)
    case Panicked => Panicked
    case Done((ok, h')) => if !ok then Done((IllegalCards, h')) else Done((Verdict(h', last), h'))
  }

  /** `test_winner` after `shake_down`: its failed assertion is passed on, inconsistent hands give
      `IllegalCards`, and consistent ones the verdict on the hands `shake_down` leaves. */
  lemma TestWinnerCases(hs: Hands, last: nat)
    requires SoundAll(hs)
    ensures ShakeDown(hs).Panicked? ==> TestWinner(hs, last) == Panicked
    ensures ShakeDown(hs).Done? ==> (TestWinner(hs, last)
      == Done((if ShakeDown(hs).value.0 then Verdict(ShakeDown(hs).value.1, last) else IllegalCards, ShakeDown(hs).value.1)))
  {
  }

  /** The verdict on hands found consistent: `last` when every hand is known, otherwise the first
      player in rotation from `last` holding four of a suit, or `NoWinner`. */
  function Verdict(hs: Hands, last: nat): int {
    if AllDetermined(hs) then last else FirstFour(hs, last, 0)
  }
}

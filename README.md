# A card deduction game: a verified model of what the players know

The game is played by n players with n suits of four cards each; every player
starts with four cards. On a turn, a player asks another player for a suit they
hold themselves. The other player either hands over one card of it or refuses.
A player known to hold all four cards of a suit wins. No cards are ever shown,
so every player can reason only about what the questions and answers revealed.

This project models that reasoning in Dafny, together with the look-ahead player
that uses it:

- **What is known of one hand.** This is the Rust `Hand` of `src/cards.rs`:
  - the suits it is known to hold, with their counts;
  - the suits it is known not to hold (its voids);
  - how many of its cards are still undetermined.

  The model has two forms. `HandSpec.HandValue` is a value, and every mutator is
  a function of it. `HandState.Hand` is a class whose methods update its fields
  in place and are proved against those functions.
- **All the hands at once.** This is the Rust `Cards`:
  - recording a request that was answered (`transfer`) or refused (`no_transfer`);
  - the fixed-point propagator `shake_down`, with every rule the code applies in
    the order it applies them;
  - `test_winner`, legality, the legal moves, the player to move next, and
    `has_card`;
  - the integer encoding of a position, with its symmetry under rotation of the
    players and relabelling of the suits.

  `Propagation`, `Moves` and `Encoding` state these as functions of a sequence
  of hand values. The class `Deck.Cards` holds one `Hand` object per player, and
  its methods are proved equal to those functions.
- **The look-ahead player.** This is `CleverPlayer` of `src/player.rs`, as the
  class `Clever.CleverPlayer`. It covers:
  - the move cache, keyed by the encoded position, with its entries stored
    relative to the player to move;
  - the sorting of the candidate moves into classes and the choice between them;
  - the answer to "do you have a card of this suit?".

  The choice logic is pure and lives in `Choice`. The recursion of the search is
  bounded by an explicit `fuel` argument.
- **The earlier Python revision.** This is `cards.py`, modelled by the value
  functions of `PySpec` and the classes `PyCards.Hand` and `PyCards.Cards`. It
  differs from the Rust code in three ways:
  - a failed refusal is an `assert`, not a `false`;
  - its propagation knows only two rules;
  - its winner rule is different.

  Lemmas compare the two revisions.

What the proofs establish, in the system's own terms:

- **`shake_down` keeps the table consistent.**
  - It never changes the size of a hand and never lowers a known count.
  - It strictly decreases a weight, and that weight is why its `while
    any_changes` loop ends. The weight is the unknown cards times (n+1) plus the
    open suits.
  - It reports an inconsistency whenever a suit totals more than four.
  - It panics exactly when a pass reaches the rule for a sole unresolved hand,
    because that rule's `fill_unknowns` can never fill anything.
- **Answered requests conserve cards.** A successful `transfer` conserves the
  number of cards, and a successful `no_transfer` changes no hand size.
- **The verdict of `test_winner`** comes in the order the code checks it, and the
  three worked examples of the Rust tests hold.
- **The position encoding** is injective on the hands it can encode, and it is
  invariant under rotation of the players and relabelling of the suits.
- **The suit permutation** is the unique arrangement of 0..n-1 sorted by the
  ranking.
- **The move cache** round-trips its entries.
- **The choice of move** is the first outright win, and otherwise the best class
  in the priority order of `_evaluate_move_uncached`.
- **`has_card`** answers in the order of its short-circuits.

The model of Rust `i8`/`i64`/`i128` arithmetic is unbounded (see "Left out").
A `HashMap` walked by the source is walked here in ascending key order.

## Model

| member | source | states |
|---|---|---|
| HandSpec.EnsureHave | src/cards.rs:76-87 | reports success exactly when the suit is already known or not void; on success the suit is known; no other suit's count changes |
| HandSpec.EnsureHaveNot | src/cards.rs:101-107 | succeeds exactly when the suit is not known, and then only adds the suit to the voids; on refusal the hand is unchanged |
| HandSpec.Remove | src/cards.rs:113-130 | succeeds exactly when the suit is known or not void; no other suit's count changes |
| HandSpec.Add | src/cards.rs:135-137 | the suit's count rises by one, nothing else changes |
| HandSpec.KillUnknown | src/cards.rs:171-177 | reports a change exactly when there are unknown cards and the suit was not void, and then only adds the suit to the voids |
| HandSpec.FillSomeUnknowns | src/cards.rs:259-268 | succeeds exactly when there are at least `count` unknown cards, moving `count` of them to the suit; voids untouched; on failure the hand is unchanged |
| HandSpec.FillUnknownsFrom | src/cards.rs:242-252 | a run that does not fail its assertion leaves no unknown cards when it reports success, and never changes the voids |
| HandSpec.HasCard | src/cards.rs:204-235 | the second component of `has_card` is `is_legal` for every hand and suit |
| HandSpec.EnsureHaveEffect | src/cards.rs:76-95 | already known: true, unchanged; void: false, unchanged; otherwise one unknown becomes a known card, voids cleared when no unknown remains; the hand size is kept |
| HandSpec.RemoveEffect | src/cards.rs:113-130 | a known suit loses one card and its key disappears at zero; an unknown void suit gives false unchanged; otherwise one unknown card goes; success lowers the hand size by exactly one |
| HandSpec.ForceUnknownsEffect | src/cards.rs:183-199 | fires exactly when there are unknown cards and n-1 voids, and then moves all unknowns to the one open suit, clearing the voids; size kept, no count lowered |
| HandSpec.AddGrows | src/cards.rs:135-137 | adding a card keeps the hand well formed and raises its size by one |
| HandState.Hand.constructor | src/cards.rs:44-50 | a new hand has four unknown cards, no known cards and no voids |
| HandState.Hand.RemoveUnknown | src/cards.rs:89-95 | the new state is `HandSpec.RemoveUnknown` of the old one |
| HandState.Hand.EnsureHave | src/cards.rs:76-87 | result and new state are those of `HandSpec.EnsureHave` |
| HandState.Hand.EnsureHaveNot | src/cards.rs:101-107 | result and new state are those of `HandSpec.EnsureHaveNot` |
| HandState.Hand.Remove | src/cards.rs:113-130 | result and new state are those of `HandSpec.Remove` |
| HandState.Hand.Add | src/cards.rs:135-137 | new state is `HandSpec.Add` of the old one |
| HandState.Hand.HasFourOfAKind | src/cards.rs:142-149 | the loop finds a suit with four known cards exactly when there is one |
| HandState.Hand.RunningTotals | src/cards.rs:161-165 | every entry of the totals array grows by the hand's count of that suit |
| HandState.Hand.KillUnknown | src/cards.rs:171-177 | result and new state are those of `HandSpec.KillUnknown` |
| HandState.Hand.ForceUnknowns | src/cards.rs:183-199 | result and new state are those of `HandSpec.ForceUnknowns` |
| HandState.Hand.FillSomeUnknowns | src/cards.rs:259-268 | result and new state are those of `HandSpec.FillSomeUnknowns` |
| HandState.Hand.FillUnknowns | src/cards.rs:242-252 | panics exactly when `HandSpec.FillUnknownsFrom` does, and otherwise has its result and new state |
| HandState.Hand.Position | src/cards.rs:278-293 | the loops compute `pos`·4^k·8·2^k plus the digits of the hand, or fail the assertion when a suit has four known cards |
| HandState.Hand.AdjustRanking | src/cards.rs:302-321 | the rankings array becomes `Encoding.AdjustRanking` of its old contents |
| Table.Totals | src/cards.rs:466-467 | entry s is the number of known cards of suit s over all hands |
| Table.EvolvesTotals | src/cards.rs:458-637 | a table that evolved has no suit total lowered |
| Table.EvolvesCards | src/cards.rs:458-637 | a table that evolved holds the same number of cards |
| Moves.Transfer | src/cards.rs:385-400 | a soft refusal happens only in `no_throw` mode; the number of hands is kept |
| Moves.NoTransfer | src/cards.rs:408-422 | a soft refusal happens only in `no_throw` mode; the number of hands is kept |
| Moves.TransferConserves | src/cards.rs:385-400 | a successful transfer keeps every hand sound and the card count equal; the asker gains one card and holds at least two of the suit; the holder loses one; other hands are untouched |
| Moves.TransferNoRollback | src/cards.rs:386-397 | when the holder is known void in the suit, `no_throw` transfer returns false while the asker's new known card stays recorded |
| Moves.NoTransferKeepsSizes | src/cards.rs:408-422 | a completed refusal changes no hand size; on success the asker holds the suit and the holder is void in it |
| Moves.TransferSound | src/cards.rs:385-400 | a completed transfer leaves every hand sound |
| Moves.LegalExactly | src/cards.rs:642-657 | a request is illegal exactly when the asker asks themselves, a player number is out of range, the suit is out of range, or the asker may not ask for the suit |
| Moves.LegalSuits | src/cards.rs:671-675 | keeps exactly the suits of the permutation the asker may ask for |
| Moves.MovesTo | src/cards.rs:684-699 | the moves towards one player are exactly the offered suits of the list |
| Moves.MovesBelow | src/cards.rs:682-700 | the moves to the first i-1 players after the asker are exactly the offered ones |
| Moves.LegalMovesExactly | src/cards.rs:668-703 | a move is listed exactly when it names another player and a suit of the permutation that the asker may ask for and that player can be asked for; every listed move is legal |
| Moves.HasCardAt | src/cards.rs:768-785 | never answers "not forced, has it"; a forced answer of the hand is returned unchanged |
| Moves.Answer | src/cards.rs:776-784 | the three answers match the three outcomes of the refusal and the gift hypotheses, and a panic comes only from them |
| Moves.HasCardMeaning | src/cards.rs:768-785 | unforced: forced yes exactly when refusing is inconsistent; forced no exactly when refusing is consistent and giving is not; unforced exactly when both are consistent |
| Moves.NextFrom | src/cards.rs:787-796 | returns the first player round the table with cards, and fails the assertion exactly when all the players it inspects are empty |
| Moves.NextPlayerVerdict | src/cards.rs:787-796 | the next player has cards and differs from the current player unless there is one player; it panics exactly when every other player is empty |
| Propagation.KillFrom | src/cards.rs:476-480 | evolves the table; reports a change only when the weight drops; no change leaves the table alone |
| Propagation.KillFromQuiet | src/cards.rs:476-480 | if nothing changed, every hand with unknown cards is void in the suit |
| Propagation.HoldersQualify | src/cards.rs:483-490 | the holders are exactly the hands with unknown cards not void in the suit, in increasing order |
| Propagation.FillEach | src/cards.rs:502-508 | filling every holder evolves the table and, on success, lowers the weight |
| Propagation.SoleHolder | src/cards.rs:492-496 | either the single holder takes the missing cards and the weight drops, or the pass returns false |
| Propagation.ExactFit | src/cards.rs:497-511 | returns false, or fills all holders and lowers the weight, or changes nothing because the holders have more unknowns than cards are missing |
| Propagation.ShortSuit | src/cards.rs:481-512 | evolves the table; a change lowers the weight; no change means the suit is settled |
| Propagation.ShortSuitCases | src/cards.rs:481-512 | a short suit with one holder goes to the sole-holder rule, otherwise to the exact-fit rule |
| Propagation.SuitStep | src/cards.rs:472-512 | one suit of the first loop never panics, evolves the table, lowers the weight when it changes and otherwise leaves the suit settled |
| Propagation.SaturateFrom | src/cards.rs:468-513 | the first loop over the totals never panics |
| Propagation.SaturateEvolves | src/cards.rs:468-513 | the first loop evolves the table |
| Propagation.SaturateChanges | src/cards.rs:468-513 | a change in the first loop lowers the weight |
| Propagation.SaturateQuiet | src/cards.rs:468-513 | a quiet first loop leaves the table alone and every suit settled |
| Propagation.ForceFrom | src/cards.rs:515-519 | forcing evolves the table; a change lowers the weight; no change leaves it alone |
| Propagation.PressureFrom | src/cards.rs:546-571 | the capacity rule never panics, evolves the table and lowers the weight whenever it changes |
| Propagation.PressureFill | src/cards.rs:558-569 | one hand's pass evolves it and lowers its weight whenever it fills anything |
| Propagation.MinFill | src/cards.rs:585-594 | the minimum-holding fill evolves the table |
| Propagation.MinFrom | src/cards.rs:575-595 | the minimum-holding block never panics, evolves the table and never reports a change, since the source does not set `any_changes` there |
| Propagation.KillSuits | src/cards.rs:625-629 | killing the suits of a group in one hand evolves it and lowers its weight whenever it changes |
| Propagation.KillOutside | src/cards.rs:623-631 | killing a group's suits outside the group evolves the table and lowers the weight whenever it changes |
| Propagation.GroupsBelowFit | src/cards.rs:599-606 | every group gathered names players and suits within range |
| Propagation.GroupsFrom | src/cards.rs:608-633 | the group loop never panics, evolves the table and lowers the weight whenever it changes |
| Propagation.GroupRule | src/cards.rs:599-634 | the group rule never panics, evolves the table and lowers the weight when it changes |
| Propagation.SoleUnresolved | src/cards.rs:523-534 | when it completes, the rule evolves the table and lowers the weight |
| Propagation.LaterRules | src/cards.rs:540-634 | the rules after the first two loops never panic, evolve the table and lower the weight when they change |
| Propagation.AfterForce | src/cards.rs:523-634 | the rules after forcing evolve the table and lower the weight when they change |
| Propagation.Round | src/cards.rs:464-635 | one pass of the loop evolves the table; a change lowers the weight; a quiet pass or a panic leaves every suit settled |
| Propagation.ShakeDown | src/cards.rs:458-637 | `shake_down` terminates; when it completes, every hand keeps its size and no known count is lowered |
| Propagation.FirstFour | src/cards.rs:442-451 | the first player in rotation from `last` holding four of a suit, or `NO_WINNER` exactly when there is none |
| Propagation.TestWinner | src/cards.rs:430-452 | when it completes, the hands it leaves evolved from the old ones |
| Propagation.TestWinnerCases | src/cards.rs:430-452 | panics exactly when `shake_down` does; `ILLEGAL_CARDS` when `shake_down` returns false; otherwise the verdict on the shaken hands |
| PropagationFacts.ShakeDownRejectsOverfull | src/cards.rs:473-475 | a table with a suit total above four makes `shake_down` return false |
| PropagationFacts.QuietRoundBounded | src/cards.rs:472-475 | a pass that ends quietly or panics saw no suit total above four |
| PropagationFacts.SoleUnresolvedPanics | src/cards.rs:523-534 | a pass panics on the assertion of `fill_unknowns` (line 250) exactly when it reaches the sole-unresolved-hand rule |
| PropagationFacts.FillNothingPanics | src/cards.rs:242-252 | with no short suit, `fill_unknowns` on a hand with unknown cards fails its assertion |
| PropagationFacts.FirstFourVerdict | src/cards.rs:442-451 | `NO_WINNER` exactly when no hand holds four of a suit; otherwise the first such player in rotation from `last` |
| PropagationFacts.TestWinnerRange | src/cards.rs:430-452 | the verdict is `ILLEGAL_CARDS`, `NO_WINNER` or a player number |
| Encoding.HandPositionInjective | src/cards.rs:278-293 | on encodable hands (counts 0..3, unknowns 0..7), equal positions come from equal prefixes and hands that agree on every suit of the permutation |
| Encoding.KnownDigitsBound | src/cards.rs:279-284 | the count digits of an encodable hand fit in 4^k |
| Encoding.HandPositionRelabel | src/cards.rs:278-293 | hands that look alike under two permutations get the same position |
| Encoding.PositionNonNegative | src/cards.rs:726-740 | the position of encodable hands is never negative |
| Encoding.PositionInjective | src/cards.rs:709-740 | two sound encodable tables with the same `position` are the same table with the same last player |
| Encoding.RotationInvariant | src/cards.rs:726-740 | with `player_symmetric`, rotating the players and the last player leaves the position unchanged |
| Encoding.RelabelInvariant | src/cards.rs:726-740 | relabelling the suits together with the permutation leaves the position unchanged |
| Encoding.AdjustRankingKeepsOrder | src/cards.rs:295-321 | a suit ranked higher before a hand is applied stays higher after it when the hand holds fewer known cards of the lower suit than there are suits (always with five suits or more); see "## Findings" for fewer suits |
| Encoding.AdjustRankingReordersThree | src/cards.rs:295-321 | with three suits, a hand holding three cards of the lower-ranked suit 0 ties it with suit 1 and suit 0 then sorts first, so the later hand overrides the earlier order |
| Encoding.AdjustRankingWideOrders | src/cards.rs:295-321 | with a factor of five in place of the number of suits, the adjusted order is exactly the earlier ranking, then the hand's counts, then its voids |
| Encoding.AdjustRankingTie | src/cards.rs:302-321 | two tied suits are separated by the hand's counts, then by its voids |
| Encoding.SortByRank | src/cards.rs:760-765 | the sort returns a permutation of its input, sorted by descending ranking |
| Encoding.SortedUnique | src/cards.rs:760-765 | two arrangements of the same suits both sorted by a ranking are equal |
| Encoding.PermutationMembers | src/cards.rs:748-766 | the permutation holds exactly the suits 0..n-1 |
| Encoding.PermutationOrders | src/cards.rs:748-766 | the permutation is a rearrangement of 0..n-1 sorted by the ranking, and it is the only such rearrangement |
| Deck.Cards.constructor | src/cards.rs:353-358 | n fresh hands, each with four unknown cards |
| Deck.Cards.NumberOfPlayers | src/cards.rs:364-366 | the number of hands |
| Deck.Cards.Transfer | src/cards.rs:385-400 | panics exactly when `Moves.Transfer` does, and otherwise has its result and new hands |
| Deck.Cards.NoTransfer | src/cards.rs:408-422 | panics exactly when `Moves.NoTransfer` does, and otherwise has its result and new hands |
| Deck.Cards.RunningTotals | src/cards.rs:466-467 | the totals of all known cards per suit |
| Deck.Cards.KillAll | src/cards.rs:476-480 | the new hands and the change flag are those of `Propagation.KillFrom` |
| Deck.Cards.FillEach | src/cards.rs:502-508 | the new hands and the flag are those of `Propagation.FillEach` |
| Deck.Cards.SoleHolder | src/cards.rs:492-496 | ending and new hands are those of `Propagation.SoleHolder` |
| Deck.Cards.ExactFit | src/cards.rs:497-511 | ending and new hands are those of `Propagation.ExactFit` |
| Deck.Cards.ShortSuit | src/cards.rs:481-512 | ending and new hands are those of `Propagation.ShortSuit` |
| Deck.Cards.SuitStep | src/cards.rs:472-512 | ending and new hands are those of `Propagation.SuitStep` |
| Deck.Cards.Saturate | src/cards.rs:468-513 | ending and new hands are those of `Propagation.SaturateFrom` |
| Deck.Cards.ForceAll | src/cards.rs:515-519 | the new hands and the flag are those of `Propagation.ForceFrom` |
| Deck.Cards.FillUnknownsAt | src/cards.rs:242-252 | panics exactly when `HandSpec.FillUnknownsFrom` does, and otherwise updates only that hand |
| Deck.Cards.Pressure | src/cards.rs:546-571 | ending and new hands are those of `Propagation.PressureFrom` |
| Deck.Cards.MinHolding | src/cards.rs:575-595 | ending and new hands are those of `Propagation.MinFrom` |
| Deck.Cards.Groups | src/cards.rs:599-634 | ending and new hands are those of `Propagation.GroupRule` |
| Deck.Cards.SoleUnresolved | src/cards.rs:529-533 | ending and, when it does not panic, new hands are those of `Propagation.SoleUnresolved` |
| Deck.Cards.LaterRules | src/cards.rs:540-634 | ending and new hands are those of `Propagation.LaterRules` |
| Deck.Cards.AfterForce | src/cards.rs:523-634 | ending and, when it does not panic, new hands are those of `Propagation.AfterForce` |
| Deck.Cards.Round | src/cards.rs:464-635 | ending and, when it does not panic, new hands are those of `Propagation.Round` |
| Deck.Cards.ShakeDown | src/cards.rs:458-637 | panics exactly when `Propagation.ShakeDown` does, and otherwise has its result and new hands |
| Deck.Cards.TestWinner | src/cards.rs:430-452 | panics exactly when `Propagation.TestWinner` does, and otherwise has its verdict and new hands |
| Deck.Cards.HasCard | src/cards.rs:768-785 | the answer of `Moves.HasCardAt` on the current hands, which are left unchanged |
| Deck.Cards.NextPlayer | src/cards.rs:787-796 | the answer of `Moves.NextPlayer` |
| Deck.Cards.LegalMovesGivenPermutation | src/cards.rs:668-703 | the list of `Moves.LegalMovesGivenPermutation` |
| Deck.Cards.PositionGivenPermutation | src/cards.rs:726-740 | `Encoding.PositionGivenPermutation`, or a failed assertion when some suit has four known cards |
| Deck.Cards.Position | src/cards.rs:709-713 | the position under the identity permutation, or a failed assertion |
| Deck.Cards.Permutation | src/cards.rs:748-766 | `Encoding.Permutation` of the current hands |
| Choice.Encode | src/player.rs:141-146 | the stored entry holds a player offset, the index of the suit in the permutation, and a result that is non-negative exactly when the original was |
| Choice.Decode | src/player.rs:132-136 | a decoded entry names a player and a result in range and a suit of the permutation, with draw position -1 |
| Choice.CacheRoundTrip | src/player.rs:131-146 | storing a result relative to `this` and reading it back recovers player, suit and result, with draw position -1 |
| Choice.RelativeRoundTrip | src/player.rs:133-142 | the relative offset of a player is in range and converts back to the player |
| Choice.CacheRelative | src/player.rs:131-136 | an entry read for a player d seats further on names players d seats further on |
| Choice.Start | src/player.rs:163-169 | the classes start empty, with one slot per preferred winner when preferences are given |
| Choice.Classify | src/player.rs:179-229 | one candidate stops the loop exactly when it wins for `this`, returning it; otherwise it is recorded in its class |
| Choice.Choose | src/player.rs:231-248 | the choice is the first filled class |
| Choice.TalliedMeaning | src/player.rs:171-229 | the loop goes on exactly when no probe so far wins for `this`; then its classes hold the last candidate of each; if it stopped, it returned the first winning candidate |
| Choice.RunMeaning | src/player.rs:171-248 | the first move that wins for `this` is returned; with none, the choice follows the priority draw, out of depth, preferred winners in order, deeper loss, immediate loss |
| Choice.RunPicksBounded | src/player.rs:171-248 | the chosen move is one of the legal moves and its result is in range |
| Choice.Settle | src/player.rs:277-341 | the decision once both hypotheses have their verdict, ending in the tie-break as written, panics exactly when the preferences of `this` are missing |
| Choice.SettleWinners | src/player.rs:277-341 | between two immediate winners the answer is "has it" exactly when the "has not" winner is preferred and neither `this` nor the "has it" winner is |
| Choice.SettleInconsistent | src/player.rs:277-341 | when giving the card is inconsistent the answer is "has it" unless refusing makes `this` win |
| Choice.TieBreakPrefers | src/player.rs:315-341 | the corrected tie-break (a reference only; `has_card` is modelled with the tie-break as written) answers "has it" exactly when `this` prefers the "has it" winner |
| Choice.TieBreakAsWrittenPrefersLowerNumber | src/player.rs:323-337 | as written, with preferences [2, 0] the tie-break answers "has not" between winners 2 and 0 although 2 is preferred |
| Clever.CleverPlayer.constructor | src/player.rs:106-114 | the settings are stored and the cache starts empty |
| Clever.CleverPlayer.CacheSize | src/player.rs:116-118 | the number of cached positions |
| Clever.CleverPlayer.NextMove | src/player.rs:254-259 | the move names a player and a suit of the permutation, and when the position was not cached it is a legal move |
| Clever.CleverPlayer.EvaluateMove | src/player.rs:126-152 | a cached position returns the decoded entry and leaves the cache alone; an uncached one returns a legal move and caches it when its result is a win or its draw position is not in the history |
| Clever.CleverPlayer.Lookup | src/player.rs:130-151 | the same cache behaviour, for a position and permutation already computed |
| Clever.CleverPlayer.EvaluateMoveUncached | src/player.rs:157-249 | no legal move panics; otherwise every probed move was probed as the game says, and the returned move is the one `Choice.Run` picks from them, a legal move with a result in range |
| Clever.CleverPlayer.ProbeAll | src/player.rs:171-247 | the loop's state is `Choice.Tallied` of the probes made, each observed as the game says; it probes every move unless one wins |
| Clever.CleverPlayer.ProbeMove | src/player.rs:171-214 | the probe of one move is what the game says after the answer given |
| Clever.CleverPlayer.Descend | src/player.rs:201-212 | a deeper search is made only at non-zero depth on a position not in the history, and its probe says so |
| Clever.CleverPlayer.HasCard | src/player.rs:261-342 | a forced answer is returned; a "has it" win for `this` answers yes; at `max_has_depth` 0 the answer is whether "has it" has a winner; otherwise two immediate verdicts are settled by `Choice.Settle` |
| Clever.CleverPlayer.Weigh | src/player.rs:276-342 | a failed `next_player` panics; with an immediate "has it" winner and an immediate "has not" winner, the answer is `Choice.Settle` of the two |
| Clever.SupposedSound | src/player.rs:171-178 | a hypothesis that completes keeps every hand sound, and its verdict is `ILLEGAL_CARDS`, `NO_WINNER` or a player |
| Clever.NoDeeperAtDepthZero | src/player.rs:201-204 | at depth 0 no move is searched deeper, and a move is out of depth exactly when it has no winner |
| PySpec.TakeUnknown | cards.py:57-61 | succeeds exactly when there is an unknown card; one unknown goes, and the voids are cleared when none remains |
| PySpec.Have | cards.py:41-55 | a known suit is kept unchanged; otherwise it fails unless the suit is not void and there are unknown cards, and one unknown becomes the known card |
| PySpec.HaveNot | cards.py:63-69 | fails exactly when the suit is known, and otherwise only adds it to the voids |
| PySpec.Take | cards.py:71-84 | succeeds exactly when the suit is known or not void with unknown cards; a known count drops by one and its key disappears at zero; other suits untouched |
| PySpec.AssertsWhereRustRefuses | cards.py:41-84 | where the Rust code would take an unknown card that is not there, Python fails; otherwise each Python mutator fails exactly where the Rust one returns false, and agrees with it elsewhere |
| PySpec.TransferIsStrict | cards.py:224-237 | Python `transfer`/`no_transfer` are the Rust ones with `no_throw` off, a soft refusal turned into a failure |
| PySpec.TransferConserves | cards.py:224-230 | a successful transfer conserves the number of cards and moves exactly one card from holder to asker |
| PySpec.KillSuits | cards.py:255-260 | fails exactly when a suit totals more than four; otherwise evolves the table and lowers the weight on a change |
| PySpec.Pass | cards.py:248-266 | one pass fails exactly when some suit totals more than four; otherwise evolves the table and lowers the weight on a change |
| PySpec.Shaken | cards.py:246-266 | the loop terminates, and evolves the table when it completes |
| PySpec.ShakenQuiet | cards.py:246-266 | when the loop completes, no suit exceeds four, complete suits are void in every open hand, and no hand can be forced |
| PySpec.LowestFour | cards.py:271-273 | the lowest-numbered player holding four of a suit, or -1 exactly when there is none |
| PySpec.TestWinner | cards.py:239-281 | fails when a suit totals more than four; when it completes, the hands evolved and are quiet |
| PySpec.VerdictMeaning | cards.py:270-281 | the lowest four-of-a-kind holder wins; otherwise `last_player` if any hand is determined; -1 exactly when no hand has four and none is determined |
| PySpec.VerdictsAgreeOnSoleFour | cards.py:270-281 | when one player alone holds four of a suit and some hand is open, both revisions name that player |
| PySpec.VerdictsDifferOnOneKnownHand | cards.py:275-278 | with one determined hand and one open hand and no four of a kind, Python names `last_player` while the Rust verdict is `NO_WINNER` |
| PySpec.LegalAgrees | cards.py:283-296 | Python `legal` accepts exactly what the Rust `legal` accepts for non-negative players, and then the asker may ask for the suit |
| PyCards.Hand.constructor | cards.py:12-18 | a new hand has four unknown cards and nothing else |
| PyCards.Hand.RemoveUnknown | cards.py:57-61 | fails exactly when `PySpec.TakeUnknown` does, leaving the hand as it was; otherwise its new state |
| PyCards.Hand.EnsureHave | cards.py:41-55 | fails exactly when `PySpec.Have` does, leaving the hand as it was; otherwise its new state |
| PyCards.Hand.EnsureHaveNot | cards.py:63-69 | fails exactly when `PySpec.HaveNot` does, leaving the hand as it was; otherwise its new state |
| PyCards.Hand.Remove | cards.py:71-84 | fails exactly when `PySpec.Take` does, leaving the hand as it was; otherwise its new state |
| PyCards.Hand.Add | cards.py:86-90 | the suit's count rises by one |
| PyCards.Hand.HasFourOfAKind | cards.py:92-99 | the loop finds a suit with four known cards exactly when there is one |
| PyCards.Hand.IsDetermined | cards.py:101-105 | a hand is determined exactly when it has no unknown card |
| PyCards.Hand.RunningTotals | cards.py:107-111 | every entry of the totals array grows by the hand's count of that suit |
| PyCards.Hand.KillUnknown | cards.py:113-122 | result and new state are those of `HandSpec.KillUnknown` |
| PyCards.Hand.ForceUnknowns | cards.py:124-145 | result and new state are those of `HandSpec.ForceUnknowns` |
| PyCards.Hand.IsLegal | cards.py:147-157 | legal exactly when the suit is known, or there are unknown cards and it is not void |
| PyCards.Hand.HasCard | cards.py:159-171 | the second component is `is_legal`; the answer is that of the Rust hand |
| PyCards.Cards.constructor | cards.py:208-209 | n fresh hands |
| PyCards.Cards.NumberOfPlayers | cards.py:211-212 | the number of hands |
| PyCards.Cards.Transfer | cards.py:224-230 | fails exactly when `PySpec.Transfer` does, and otherwise the new hands are its result |
| PyCards.Cards.NoTransfer | cards.py:232-237 | fails exactly when `PySpec.NoTransfer` does, and otherwise the new hands are its result |
| PyCards.Cards.KillSuits | cards.py:255-260 | fails exactly when `PySpec.KillSuits` does, and otherwise has its new hands and flag |
| PyCards.Cards.Round | cards.py:248-266 | fails exactly when `PySpec.Pass` does, and otherwise has its new hands and flag |
| PyCards.Cards.TestWinner | cards.py:239-281 | fails exactly when `PySpec.TestWinner` does, and otherwise has its verdict and new hands |
| PyCards.Cards.Winner | cards.py:270-281 | the verdict of `PySpec.Verdict` on the current hands |
| PyCards.Cards.Legal | cards.py:283-296 | the answer of `PySpec.Legal`; an accepted request has both players and the suit in range, two different players, and a suit the asker may ask for |
| PyCards.Cards.HasCard | cards.py:309-314 | the answer of the holder's `has_card`; an unforced answer is always "may have it" |
| Scenarios.ShakeDownExample | src/cards.rs:898-922 | `shake_down` turns `001 / 0?x1 / 22211??x0` into the known cards {0:2,1:1}, {0:2} and {2:4,1:3}, and reports consistency |
| Scenarios.FourPlayerWinner | src/cards.rs:1056-1094 | on `222?x01 / 1x23 / 000??x23 / 1133??`, `test_winner(2)` returns 2, with player 2 known to hold four 0s |
| Scenarios.PermutationExample | src/cards.rs:1146-1195 | on `002? / 0?x1 / 2211??x0` the permutation is [0,2,1], [0,1,2] and [2,1,0] for players 0, 1 and 2 |

## Left out

- **Display.** These print text only:
  - `fmt` and `show` of `Hand` and `Cards` (src/cards.rs:19-38, 62-69, 337-350, 373-377; cards.py:20-39, 214-222);
  - the `verbose` messages of `_not_legal`;
  - the warning at src/player.rs:180-182 and the print at src/player.rs:257.

  `legal` is modelled as the boolean it returns.
- **Other players, the game loops and the command line.** `HumanPlayer` (stdin), `RandomPlayer` and `TestPlayer`, src/game.rs, game.py, src/main.rs and main.py drive player objects over I/O. src/game.rs, src/main.rs and the Python player, game and main files are not part of this model.
- **The Python `Hand.position` and `Cards.position` (cards.py:173-199, 298-307).** They index `known_cards` with the built-in `range`. Even with that fixed, they return the last void bit instead of `pos`. They cannot serve as an encoder, so no model of them is given.
- **The full-game tests (src/player.rs:350-450).** They play whole games through the game driver, which is outside this model.
- **Other tests.** Of the tests in src/cards.rs, only `test_shake_down`, `test_four_player_test_winner` and `test_permutation` are replayed, as lemmas. The other tests of that file are not.
- **Machine integer widths.** `i8`, `i64` and `i128` are unbounded integers. An overflow of the position encodings for large tables is not modelled. The `HashSet<i64>` history holding `i128` positions is a set of integers.
- **`HashMap`, `HashSet` and `Counter` iteration order.** The source walks the suit totals, and groups of suits, in an unspecified order. The model walks suits in ascending order and groups in order of their first member. Lemmas hold for that order only, except where they are about every order by construction (`Table.Totals`).
- Clever.CleverPlayer.EvaluateMove: bounded recursion. The search `_evaluate_move` → `_evaluate_move_uncached` → `has_card` → `_evaluate_move` has no decreasing measure in the source. Every method takes `fuel` and answers `OutOfFuel` when it runs out, so the contracts say nothing about searches deeper than the fuel.
- Clever.CleverPlayer.Weigh: searched verdicts. The contract states the answer only when both hypotheses have an immediate verdict. When a hypothesis has no winner and is searched deeper, the answer depends on the recursive result, and the contract only promises a valid state. The body then ends in the tie-break as written (`Choice.TieBreakAsWritten`), as the source does.
- Clever.CleverPlayer.HasCard: searched verdicts. The same holds for the searched branches.
- Clever.CleverPlayer.NextMove: cached moves. A move read from the cache is only shown to name a player and a suit of the permutation. Nothing shows that it is still legal: the cache is not tied to the hands it was filled from.
- PyCards.Cards.Transfer: state after a failed assertion. When a Python assertion fails, the exception ends the program. The contracts state the new hands only on success. In the source, `transfer` may already have changed the asker's hand when the holder's `remove` fails.
- PyCards.Cards.NoTransfer: state after a failed assertion. The same holds here.
- PyCards.Cards.HasCard: negative player numbers. The holder is a natural number. Python would index from the end for a negative `this`.
- **Suit and player ranges.** `transfer` and `no_transfer` are modelled for suits 0..n-1 where hand soundness matters. The source never checks the suit.
- **Empty hands.** The model of `Hand` does not assume that a hand with no unknown cards has no voids, since `ensure_have_not` and `fill_some_unknowns` break that.

## Findings

| source | as written | input that shows it | evidently intended | confidence | as-written member | corrected member |
|---|---|---|---|---|---|---|
| src/player.rs:323-337 | the tie-break of `has_card` compares `p[f]`, the preferred winner's own player number, instead of its place `f` in the preferences | preferences [2, 0] for `this`; both hypotheses reach this point with winners found by the deeper search, 2 under "has it" and 0 under "has not": the code answers "has not" (0 < 2) | answer "has it" when the "has it" winner stands earlier in the preferences (place 0 < 1) | not executed; the inputs are derived by hand from the code | Choice.TieBreakAsWrittenPrefersLowerNumber | Choice.TieBreakPrefers |
| src/cards.rs:295-321 | the doc comment of `adjust_ranking` says earlier hands are more significant, but the earlier ranking is scaled only by the number of suits n, while a hand may hold up to four known cards of a suit | n = 3, rankings [0, 1, 0], a hand with three known cards of suit 0, no voids and one unknown card: the adjusted rankings are [6, 6, 0], so suit 0 now sorts before suit 1 | scale by a factor above any count (five), so that earlier hands always decide and the hand only orders suits ranked alike | not executed; the inputs are derived by hand from the code | Encoding.AdjustRankingReordersThree | Encoding.AdjustRankingWideOrders |

In both rows the rest of the model follows the code as written (`Clever.CleverPlayer.Weigh` and `Choice.Settle` end in `Choice.TieBreakAsWritten`, and `Deck.Cards.Permutation` uses `Encoding.AdjustRanking`). The corrected definitions `Choice.TieBreak` and `Encoding.AdjustRankingWide` stand beside them as references.

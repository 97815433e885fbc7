/**
  `CleverPlayer` (src/player.rs:80-343): the player that looks ahead. Its only
  state is the move cache, keyed by the encoded position; the search copies the
  hands for every hypothesis it tries and asks `Deck.Cards` to propagate them.

  The search is mutually recursive (`_evaluate_move` → `_evaluate_move_uncached`
  → `has_card` → `_evaluate_move`) and ends in the source only because the game
  does. Here every method takes `fuel`, the number of nested `_evaluate_move`
  calls still allowed, and answers `OutOfFuel` when it runs out.
*/
module Clever {
  import opened Outcomes
  import opened HandSpec
  import opened Table
  import Moves
  import Propagation
  import PropagationFacts
  import Encoding
  import opened Deck
  import opened Choice

  /** What a search call returns: a value, a `panic!` or failed assertion, or no fuel left. */
  datatype Result<T> = Ok(value: T) | Panic | OutOfFuel

  /** A value or a panic of the game's own code, as a search result. */
  function Lifted<T>(o: Outcome<T>): Result<T> {
    match o
    case Done(v) => Ok(v)
    case Panicked => Panic
  }

  /** `holder` answers `asker`'s request for `suit` (handing a card over when `gives`), with the
      `no_throw = false` of the search: a contradiction panics. Then `test_winner(asker)` is asked;
      it answers `ILLEGAL_CARDS`, `NO_WINNER` or a player, on hands still sound. */
  function Supposed(hs: Hands, suit: int, holder: nat, asker: nat, gives: bool): (r: Outcome<(int, Hands)>)
    requires SoundAll(hs) && holder < |hs| && asker < |hs| && 0 <= suit < |hs|
  {
    var moved := if gives then Moves.Transfer(hs, suit, holder, asker, false) else Moves.NoTransfer(hs, suit, holder, asker, false);
    Moves.TransferSound(hs, suit, holder, asker, false);
    Moves.NoTransferKeepsSizes(hs, suit, holder, asker, false);
    match moved
    case Panicked => Panicked
    case Done((_, after)) =>
      PropagationFacts.TestWinnerRange(after, asker);
      Propagation.TestWinner(after, asker)
  }

  /** A hypothesis that does not panic leaves as many hands, all sound, and its verdict is
      `ILLEGAL_CARDS`, `NO_WINNER` or one of the players. */
  lemma SupposedSound(hs: Hands, suit: int, holder: nat, asker: nat, gives: bool)
    requires SoundAll(hs) && holder < |hs| && asker < |hs| && 0 <= suit < |hs|
    ensures var r := Supposed(hs, suit, holder, asker, gives);
      r.Done? ==> |r.value.1| == |hs| && SoundAll(r.value.1)
                  && (r.value.0 == Propagation.IllegalCards || r.value.0 == Propagation.NoWinner || 0 <= r.value.0 < |hs|)
  {
    Moves.TransferSound(hs, suit, holder, asker, false);
    Moves.NoTransferKeepsSizes(hs, suit, holder, asker, false);
    var moved := if gives then Moves.Transfer(hs, suit, holder, asker, false) else Moves.NoTransfer(hs, suit, holder, asker, false);
    if moved.Done? {
      PropagationFacts.TestWinnerRange(moved.value.1, asker);
    }
  }

  /** The position the search moves to: that of the next player with cards, or a failed assertion. */
  ghost function NextPosition(hs: Hands, me: nat): Outcome<int>
    requires me < |hs|
  {
    match Moves.NextPlayer(hs, me)
    case Panicked => Panicked
    case Done(next) =>
      if Encoding.AllCountable(hs, Encoding.Identity(|hs|)) then Done(Encoding.Position(hs, next)) else Panicked
  }

  /** The probe fits what the game says after `me` asks for move `m` and gets the answer `has`
      (player.rs:171-212): the verdict of `test_winner`, the depth, and the next position. */
  ghost predicate Observed(hs: Hands, m: Move, has: bool, p: Probe, me: nat, depth: int, history: set<int>) {
    && SoundAll(hs) && me < |hs| && m.0 < |hs| && 0 <= m.1 < |hs|
    && var tried := Supposed(hs, m.1, m.0, me, has);
    && tried.Done?
    && Shows(p, tried.value.0, tried.value.1, me, depth, history)
  }

  ghost predicate Shows(p: Probe, w: int, after: Hands, me: nat, depth: int, history: set<int>)
    requires me < |after|
  {
    match p
    case Illegal => w == Propagation.IllegalCards
    case Won(x) => w == x
    case OutOfDepth => w == Propagation.NoWinner && depth == 0
    case Repeat(position) =>
      w == Propagation.NoWinner && depth != 0 && NextPosition(after, me) == Done(position) && position in history
    case Deeper(_, _) =>
      w == Propagation.NoWinner && depth != 0 && NextPosition(after, me).Done? && NextPosition(after, me).value !in history
  }

  /** The first `|probes|` moves were each probed as `Observed` says, with the answers given. */
  ghost predicate AllObserved(hs: Hands, moves: seq<Move>, answers: seq<bool>, probes: seq<Probe>, me: nat, depth: int, history: set<int>)
    requires |probes| <= |moves| && |answers| == |probes|
  {
    forall k {:trigger Observed(hs, moves[k], answers[k], probes[k], me, depth, history)} ::
      0 <= k < |probes| ==> Observed(hs, moves[k], answers[k], probes[k], me, depth, history)
  }

  /** One more probed move extends what is known of the probes so far. */
  lemma ObservedOne(hs: Hands, moves: seq<Move>, answers: seq<bool>, probes: seq<Probe>, has: bool, p: Probe,
                    me: nat, depth: int, history: set<int>)
    requires |probes| < |moves| && |answers| == |probes|
    requires AllObserved(hs, moves, answers, probes, me, depth, history)
    requires Observed(hs, moves[|probes|], has, p, me, depth, history)
    ensures AllObserved(hs, moves, answers + [has], probes + [p], me, depth, history)
  {
    var n := |probes|;
    var a, q := answers + [has], probes + [p];
    ObservedKept(hs, moves, answers, probes, has, p, me, depth, history);
    forall k | 0 <= k < n + 1
      ensures Observed(hs, moves[k], a[k], q[k], me, depth, history)
    {
      if k == n {
        assert a[k] == has && q[k] == p;
      }
    }
  }

  /** Extending the probes keeps what was known of the earlier ones. */
  lemma ObservedKept(hs: Hands, moves: seq<Move>, answers: seq<bool>, probes: seq<Probe>, has: bool, p: Probe,
                     me: nat, depth: int, history: set<int>)
    requires |probes| < |moves| && |answers| == |probes|
    requires AllObserved(hs, moves, answers, probes, me, depth, history)
    ensures forall k :: 0 <= k < |probes| ==> Observed(hs, moves[k], (answers + [has])[k], (probes + [p])[k], me, depth, history)
  {
    forall k | 0 <= k < |probes|
      ensures Observed(hs, moves[k], (answers + [has])[k], (probes + [p])[k], me, depth, history)
    {
      assert (answers + [has])[k] == answers[k] && (probes + [p])[k] == probes[k];
    }
  }

  /** With no depth left the search never looks past `test_winner`: no move is tried deeper. */
  lemma NoDeeperAtDepthZero(hs: Hands, m: Move, has: bool, p: Probe, me: nat, history: set<int>)
    requires Observed(hs, m, has, p, me, 0, history)
    ensures !p.Deeper? && !p.Repeat?
    ensures p.OutOfDepth? <==> Supposed(hs, m.1, m.0, me, has).value.0 == Propagation.NoWinner
  {
  }

  /** `cards.clone()` followed by the answer and `test_winner`. */
  method Suppose(hs: Hands, suit: int, holder: nat, asker: nat, gives: bool) returns (r: Outcome<int>, after: Cards)
    requires SoundAll(hs) && holder < |hs| && asker < |hs| && 0 <= suit < |hs|
    ensures var spec := Supposed(hs, suit, holder, asker, gives);
      && (r.Panicked? <==> spec.Panicked?)
      && (r.Done? ==> r.value == spec.value.0 && after.Valid() && after.Value() == spec.value.1)
    ensures r.Done? ==> |after.hands| == |hs| && SoundAll(after.Value())
    ensures r.Done? ==> r.value == Propagation.IllegalCards || r.value == Propagation.NoWinner || 0 <= r.value < |hs|
  {
    SupposedSound(hs, suit, holder, asker, gives);
    after := new Cards.Of(hs);
    Moves.TransferSound(hs, suit, holder, asker, false);
    Moves.NoTransferKeepsSizes(hs, suit, holder, asker, false);
    var moved: Outcome<bool>;
    if gives {
      moved := after.Transfer(suit, holder, asker, false);
    } else {
      moved := after.NoTransfer(suit, holder, asker, false);
    }
    if moved.Panicked? {
      return Panicked, after;
    }
    r := after.TestWinner(asker);
  }

  /** The cache key of `_evaluate_move`: the position under the player's own permutation. */
  function Key(hs: Hands, me: nat, symmetric: bool): int
    requires me < |hs|
  {
    Encoding.PositionGivenPermutation(hs, Encoding.Permutation(hs, me), me, symmetric)
  }

  class CleverPlayer {
    const maxDepth: int
    const maxHasDepth: int
    const preferences: seq<seq<nat>>
    const symmetric: bool
    /** `_cached_moves`: position to (other player, suit place, result), relative to the player. */
    var cache: map<int, (int, int, int)>

    /** Every cached entry was made by `Encode`. */
    ghost predicate Valid()
      reads this
    {
      forall pos :: pos in cache ==> cache[pos].0 >= 0 && cache[pos].1 >= 0
    }

    /** `CleverPlayer::new` (player.rs:106-114): an empty cache. */
    constructor (maxDepth: int, maxHasDepth: int, preferences: seq<seq<nat>>, symmetric: bool)
      ensures Valid() && cache == map[]
      ensures this.maxDepth == maxDepth && this.maxHasDepth == maxHasDepth
      ensures this.preferences == preferences && this.symmetric == symmetric
    {
      this.maxDepth := maxDepth;
      this.maxHasDepth := maxHasDepth;
      this.preferences := preferences;
      this.symmetric := symmetric;
      cache := map[];
    }

    /** `cache_size` (player.rs:116-118): the number of cached positions. */
    function CacheSize(): (r: nat)
      reads this
      ensures r == |cache|
    {
      |cache|
    }

    /** `self.preferences[this]` when preferences are given; the indexing fails when `me` has none. */
    function PrefsOf(me: nat): (r: Outcome<Option<seq<nat>>>)
      ensures r.Panicked? <==> 0 < |preferences| <= me
      ensures r.Done? ==> (r.value.None? <==> |preferences| == 0)
      ensures r.Done? && r.value.Some? ==> r.value.value == preferences[me]
    {
      if |preferences| == 0 then Done(None)
      else if me < |preferences| then Done(Some(preferences[me]))
      else Panicked
    }

    /** `next_move` (player.rs:254-259): the move `_evaluate_move` finds at the full depth. */
    method NextMove(me: nat, cards: Cards, history: set<int>, fuel: nat) returns (r: Result<Move>)
      requires Valid() && cards.Valid() && SoundAll(cards.Value()) && me < |cards.hands|
      modifies this
      ensures Valid()
      ensures r.Ok? ==> r.value.0 < |cards.hands| && r.value.1 in Encoding.Permutation(old(cards.Value()), me)
      ensures r.Ok? && Key(old(cards.Value()), me, symmetric) !in old(cache) ==>
        r.value in Moves.LegalMovesGivenPermutation(old(cards.Value()), me, Encoding.Permutation(old(cards.Value()), me))
    {
      var found := EvaluateMove(me, cards, history, maxDepth, fuel);
      match found
      case Panic => r := Panic;
      case OutOfFuel => r := OutOfFuel;
      case Ok(c) => r := Ok((c.other, c.suit));
    }

    /** `_evaluate_move` (player.rs:126-152): a cached move, read back for `me`, or the uncached search,
        whose result is cached unless it is a draw on a position of the history. */
    method EvaluateMove(me: nat, cards: Cards, history: set<int>, depth: int, fuel: nat) returns (r: Result<Cand>)
      requires Valid() && cards.Valid() && SoundAll(cards.Value()) && me < |cards.hands|
      modifies this
      decreases fuel, 6
      ensures Valid()
      ensures fuel == 0 ==> r == OutOfFuel
      ensures r.Ok? ==> r.value.other < |cards.hands| && r.value.result < |cards.hands|
                        && r.value.suit in Encoding.Permutation(old(cards.Value()), me)
      ensures fuel > 0 && !Encoding.AllCountable(old(cards.Value()), Encoding.Permutation(old(cards.Value()), me)) ==>
        r == Panic && cache == old(cache)
      ensures fuel > 0 && Encoding.AllCountable(old(cards.Value()), Encoding.Permutation(old(cards.Value()), me)) ==>
        var perm := Encoding.Permutation(old(cards.Value()), me);
        var key := Key(old(cards.Value()), me, symmetric);
        && (key in old(cache) ==>
              cache == old(cache) && r == match Recall(old(cache)[key], me, perm) case Done(c) => Ok(c) case Panicked => Panic)
        && (key !in old(cache) && r.Ok? ==>
              && (r.value.other, r.value.suit) in Moves.LegalMovesGivenPermutation(old(cards.Value()), me, perm)
              && (Kept(r.value, history) ==> key in cache && cache[key] == Encode(r.value, me, perm)))
    {
      if fuel == 0 {
        return OutOfFuel;
      }
      ghost var hs := cards.Value();
      var permutation := cards.Permutation(me);
      var position := cards.PositionGivenPermutation(permutation, me, symmetric);
      assert cards.Value() == hs && cards.Valid();
      if position.Panicked? {
        return Panic;
      }
      forall i | 0 <= i < |permutation|
        ensures 0 <= permutation[i] < |hs|
      {
        assert permutation[i] in permutation;
      }
      r := Lookup(me, cards, hs, permutation, position.value, history, depth, fuel);
    }

    /** The rest of `_evaluate_move` once the position `pos` is known (player.rs:130-151): a hit is
        read back through `perm`, a miss is searched and its result cached unless it is a draw on a
        position of the history. */
    method Lookup(me: nat, cards: Cards, ghost hs: Hands, perm: seq<int>, pos: int, history: set<int>, depth: int, fuel: nat)
      returns (r: Result<Cand>)
      requires Valid() && cards.Valid() && cards.Value() == hs && SoundAll(hs) && me < |hs| && fuel > 0
      requires |perm| == |hs| && forall i :: 0 <= i < |perm| ==> 0 <= perm[i] < |hs|
      modifies this
      decreases fuel, 5
      ensures Valid()
      ensures r.Ok? ==> r.value.other < |hs| && r.value.result < |hs| && r.value.suit in perm
      ensures pos in old(cache) ==>
        cache == old(cache) && r == match Recall(old(cache)[pos], me, perm) case Done(c) => Ok(c) case Panicked => Panic
      ensures pos !in old(cache) && r.Ok? ==>
        && (r.value.other, r.value.suit) in Moves.LegalMovesGivenPermutation(hs, me, perm)
        && (Kept(r.value, history) ==> pos in cache && cache[pos] == Encode(r.value, me, perm))
    {
      if pos in cache {
        var hit := Recall(cache[pos], me, perm);
        if hit.Panicked? {
          return Panic;
        }
        return Ok(hit.value);
      }
      var found;
      ghost var moves, probes, answers;
      found, moves, probes, answers := EvaluateMoveUncached(me, cards, history, depth, perm, fuel);
      match found
      case Panic => return Panic;
      case OutOfFuel => return OutOfFuel;
      case Ok(c) =>
        var entry := Encode(c, me, perm);
        if entry.2 >= 0 || c.draw !in history {
          cache := cache[pos := entry];
        }
        return Ok(c);
    }

    /** `_evaluate_move_uncached` (player.rs:157-249): every legal move is probed in turn and classified;
        the first outright win is returned at once, otherwise the best class decides. The ghost results
        are the legal moves, the probes made and the answers `has_card` gave. */
    method EvaluateMoveUncached(me: nat, cards: Cards, history: set<int>, depth: int, permutation: seq<int>, fuel: nat)
      returns (r: Result<Cand>, ghost moves: seq<Move>, ghost probes: seq<Probe>, ghost answers: seq<bool>)
      requires Valid() && cards.Valid() && SoundAll(cards.Value()) && me < |cards.hands| && fuel > 0
      requires forall i :: 0 <= i < |permutation| ==> 0 <= permutation[i] < |cards.hands|
      modifies this
      decreases fuel, 4
      ensures Valid()
      ensures moves == Moves.LegalMovesGivenPermutation(old(cards.Value()), me, permutation)
      ensures |moves| == 0 ==> r == Panic
      ensures |probes| <= |moves| && |answers| == |probes|
      ensures AllObserved(old(cards.Value()), moves, answers, probes, me, depth, history)
      ensures r.Ok? ==> PrefsOf(me).Done? && Run(moves, probes, me, PrefsOf(me).value) == Picked(r.value)
      ensures r.Ok? ==> (r.value.other, r.value.suit) in moves && r.value.result < |cards.hands|
    {
      var hs := cards.Value();
      var legal := cards.LegalMovesGivenPermutation(me, permutation);
      moves, probes, answers := legal, [], [];
      if |legal| == 0 {
        return Panic, moves, probes, answers;
      }
      var prefs := PrefsOf(me);
      if prefs.Panicked? {
        return Panic, moves, probes, answers;
      }
      forall k | 0 <= k < |legal|
        ensures legal[k].0 < |hs| && 0 <= legal[k].1 < |hs|
      {
        Moves.LegalMovesExactly(hs, me, permutation, legal[k]);
      }
      var step;
      step, probes, answers := ProbeAll(me, legal, hs, history, depth, prefs.value, fuel);
      match step
      case Panic => return Panic, moves, probes, answers;
      case OutOfFuel => return OutOfFuel, moves, probes, answers;
      case Ok(Stop(c)) =>
        RunPicksBounded(legal, probes, me, prefs.value, |hs|);
        return Ok(c), moves, probes, answers;
      case Ok(Continue(tally)) =>
        var chosen := Choose(tally);
        if chosen.None? {
          return Panic, moves, probes, answers;
        }
        RunPicksBounded(legal, probes, me, prefs.value, |hs|);
        return Ok(chosen.value), moves, probes, answers;
    }

    /** The loop of `_evaluate_move_uncached` (player.rs:171-247): probe the legal moves in order and
        classify each, stopping at the first outright win. The step returned is `Tallied` over the
        probes made, which are all of them unless it stops. */
    method ProbeAll(me: nat, legal: seq<Move>, hs: Hands, history: set<int>, depth: int, prefs: Option<seq<nat>>, fuel: nat)
      returns (r: Result<Step>, ghost probes: seq<Probe>, ghost answers: seq<bool>)
      requires Valid() && SoundAll(hs) && me < |hs| && fuel > 0
      requires forall k :: 0 <= k < |legal| ==> legal[k].0 < |hs| && 0 <= legal[k].1 < |hs|
      modifies this
      decreases fuel, 3
      ensures Valid()
      ensures |probes| <= |legal| && |answers| == |probes|
      ensures AllObserved(hs, legal, answers, probes, me, depth, history)
      ensures forall k :: 0 <= k < |probes| ==> Bounded(probes[k], |hs|)
      ensures r.Ok? ==> Tallied(legal, probes, me, prefs) == r.value
      ensures r.Ok? && r.value.Continue? ==> |probes| == |legal|
    {
      probes, answers := [], [];
      var tally := Start(prefs);
      for i := 0 to |legal|
        invariant Valid()
        invariant |probes| == i && |answers| == i
        invariant Tallied(legal, probes, me, prefs) == Continue(tally)
        invariant AllObserved(hs, legal, answers, probes, me, depth, history)
        invariant forall k :: 0 <= k < i ==> Bounded(probes[k], |hs|)
      {
        var step;
        ghost var probes', answers';
        step, probes', answers' := ProbeNext(me, legal, i, hs, history, depth, prefs, tally, probes, answers, fuel);
        match step
        case Panic => return Panic, probes, answers;
        case OutOfFuel => return OutOfFuel, probes, answers;
        case Ok(Stop(_)) => return step, probes', answers';
        case Ok(Continue(t)) =>
          probes, answers, tally := probes', answers', t;
      }
      return Ok(Continue(tally)), probes, answers;
    }

    /** One turn of the loop: probe the next legal move and classify the probe. */
    method ProbeNext(me: nat, legal: seq<Move>, i: nat, hs: Hands, history: set<int>, depth: int, prefs: Option<seq<nat>>,
                     tally: Tally, ghost probes: seq<Probe>, ghost answers: seq<bool>, fuel: nat)
      returns (r: Result<Step>, ghost probes': seq<Probe>, ghost answers': seq<bool>)
      requires Valid() && SoundAll(hs) && me < |hs| && fuel > 0
      requires forall k :: 0 <= k < |legal| ==> legal[k].0 < |hs| && 0 <= legal[k].1 < |hs|
      requires i == |probes| < |legal| && |answers| == |probes|
      requires AllObserved(hs, legal, answers, probes, me, depth, history)
      requires Tallied(legal, probes, me, prefs) == Continue(tally)
      modifies this
      decreases fuel, 2
      ensures Valid()
      ensures r.Ok? ==> |probes'| == |answers'| == |probes| + 1 && probes'[..|probes|] == probes
      ensures r.Ok? ==> AllObserved(hs, legal, answers', probes', me, depth, history)
      ensures r.Ok? ==> Bounded(probes'[|probes|], |hs|) && Tallied(legal, probes', me, prefs) == r.value
    {
      probes', answers' := probes, answers;
      var m := legal[i];
      var probed := ProbeMove(me, m, hs, history, depth, fuel);
      if probed.Panic? {
        return Panic, probes', answers';
      }
      if probed.OutOfFuel? {
        return OutOfFuel, probes', answers';
      }
      var (probe, has) := probed.value;
      ObservedOne(hs, legal, answers, probes, has, probe, me, depth, history);
      TalliedSnoc(legal, probes, probe, me, prefs);
      probes', answers' := probes + [probe], answers + [has];
      r := Ok(Classify(tally, m, probe, me, prefs));
    }

    /** One turn of the loop of `_evaluate_move_uncached` (player.rs:171-214): ask `has_card` on the
        other player's behalf, apply the answer to a copy, test for a winner and, when the game goes on
        within the depth, search the next position unless the history holds it. */
    method ProbeMove(me: nat, m: Move, hs: Hands, history: set<int>, depth: int, fuel: nat) returns (r: Result<(Probe, bool)>)
      requires Valid() && SoundAll(hs) && me < |hs| && m.0 < |hs| && 0 <= m.1 < |hs| && fuel > 0
      modifies this
      decreases fuel, 1
      ensures Valid()
      ensures r.Ok? ==> Observed(hs, m, r.value.1, r.value.0, me, depth, history) && Bounded(r.value.0, |hs|)
    {
      var (other, suit) := m;
      var has := HasCard(other, me, suit, hs, history, fuel - 1);
      if has.Panic? {
        return Panic;
      }
      if has.OutOfFuel? {
        return OutOfFuel;
      }
      var tested, after := Suppose(hs, suit, other, me, has.value);
      if tested.Panicked? {
        return Panic;
      }
      var winner := tested.value;
      if winner == Propagation.IllegalCards {
        return Ok((Illegal, has.value));
      }
      if winner != Propagation.NoWinner {
        return Ok((Won(winner as nat), has.value));
      }
      if depth == 0 {
        return Ok((OutOfDepth, has.value));
      }
      var deeper := Descend(me, after, history, depth, fuel);
      match deeper
      case Panic => return Panic;
      case OutOfFuel => return OutOfFuel;
      case Ok(p) => return Ok((p, has.value));
    }

    /** The probe of a move after which nobody has won (player.rs:190-212): the next position is
        either one of the history, or searched one level deeper. */
    method Descend(me: nat, after: Cards, history: set<int>, depth: int, fuel: nat) returns (r: Result<Probe>)
      requires Valid() && after.Valid() && SoundAll(after.Value()) && me < |after.hands|
      requires depth != 0 && fuel > 0
      modifies this
      decreases fuel, 0
      ensures Valid()
      ensures r.Ok? ==> Shows(r.value, Propagation.NoWinner, old(after.Value()), me, depth, history)
                        && Bounded(r.value, |after.hands|)
    {
      var next := after.NextPlayer(me);
      if next.Panicked? {
        return Panic;
      }
      var position := after.Position(next.value);
      if position.Panicked? {
        return Panic;
      }
      if position.value in history {
        return Ok(Repeat(position.value));
      }
      var deeper := EvaluateMove(next.value, after, history + {position.value}, depth - 1, fuel - 1);
      match deeper
      case Panic => return Panic;
      case OutOfFuel => return OutOfFuel;
      case Ok(c) => return Ok(Deeper(c.result, c.draw));
    }

    /** `Player::has_card` (player.rs:261-342): whether `me`, asked by `other` for `suit`, says they hold
        a card. A forced answer is given as it is; otherwise both answers are tried on copies, a win for
        `me` or for a preferred player settles it, and the tie-break decides the rest. */
    method HasCard(me: nat, other: nat, suit: int, hs: Hands, history: set<int>, fuel: nat) returns (r: Result<bool>)
      requires Valid() && SoundAll(hs) && me < |hs| && other < |hs| && 0 <= suit < |hs|
      modifies this
      decreases fuel, 8
      ensures Valid()
      ensures var asked := Moves.HasCardAt(hs, suit, me, other);
        && (asked.Panicked? ==> r == Panic)
        && (asked.Done? && asked.value.0 ==> r == Ok(asked.value.1))
      ensures Moves.HasCardAt(hs, suit, me, other) == Done((false, false)) ==>
        var yes := Supposed(hs, suit, me, other, true);
        && (yes.Panicked? ==> r == Panic)
        && (yes.Done? && yes.value.0 == me ==> r == Ok(true))
        && (yes.Done? && yes.value.0 != me && maxHasDepth == 0 ==> r == Ok(yes.value.0 != Propagation.NoWinner))
        && (yes.Done? && yes.value.0 != me && maxHasDepth != 0 && Moves.NextPlayer(yes.value.1, other).Panicked? ==> r == Panic)
    ensures Moves.HasCardAt(hs, suit, me, other) == Done((false, false)) && maxHasDepth != 0 ==>
      var yes := Supposed(hs, suit, me, other, true);
      var no := Supposed(hs, suit, me, other, false);
      yes.Done? && no.Done? && yes.value.0 != me && yes.value.0 != Propagation.NoWinner && no.value.0 != Propagation.NoWinner
      && Moves.NextPlayer(yes.value.1, other).Done? ==>
        r == Lifted(Settle(yes.value.0, no.value.0, me, PrefsOf(me)))
    {
      var asked := HasCardIn(hs, suit, me, other);
      if asked.Panicked? {
        return Panic;
      }
      var (forced, has) := asked.value;
      if forced {
        return Ok(has);
      }
      var yes, yesCards := Suppose(hs, suit, me, other, true);
      if yes.Panicked? {
        return Panic;
      }
      var yesWinner := yes.value;
      if yesWinner == me {
        return Ok(true);
      }
      if maxHasDepth == 0 {
        return Ok(yesWinner != Propagation.NoWinner);
      }
      r := Weigh(me, other, suit, hs, yesCards, yesWinner, history, fuel);
    }

    /** The rest of `has_card` (player.rs:276-342), once the "has it" hypothesis has not decided:
        the outcome of the "has it not" hypothesis, searched deeper where it has no winner, and the
        tie-break between the two. */
    method Weigh(me: nat, other: nat, suit: int, hs: Hands, yesCards: Cards, yesWinner: int, history: set<int>, fuel: nat)
      returns (r: Result<bool>)
      requires Valid() && SoundAll(hs) && me < |hs| && other < |hs| && 0 <= suit < |hs|
      requires yesCards.Valid() && SoundAll(yesCards.Value()) && |yesCards.hands| == |hs|
      modifies this
      decreases fuel, 7
      ensures Valid()
      ensures Moves.NextPlayer(yesCards.Value(), other).Panicked? ==> r == Panic
      ensures Moves.NextPlayer(yesCards.Value(), other).Done? && yesWinner != Propagation.NoWinner ==>
        var no := Supposed(hs, suit, me, other, false);
        no.Done? && no.value.0 != Propagation.NoWinner ==> r == Lifted(Settle(yesWinner, no.value.0, me, PrefsOf(me)))
    {
      var yesWinner := yesWinner;
      var next := yesCards.NextPlayer(other);
      if next.Panicked? {
        return Panic;
      }
      var prefs := PrefsOf(me);
      if yesWinner != Propagation.NoWinner {
        if |preferences| > 0 {
          if prefs.Panicked? {
            return Panic;
          }
          if IndexOf(prefs.value.value, yesWinner).Some? {
            return Ok(false);
          }
        }
      } else {
        var found := EvaluateMove(next.value, yesCards, history, maxHasDepth - 1, fuel);
        if found.Panic? {
          return Panic;
        }
        if found.OutOfFuel? {
          return OutOfFuel;
        }
        yesWinner := found.value.result;
        if yesWinner == me {
          return Ok(true);
        }
      }
      var no, noCards := Suppose(hs, suit, me, other, false);
      if no.Panicked? {
        return Panic;
      }
      var noWinner := no.value;
      if noWinner == me {
        return Ok(false);
      }
      if noWinner != Propagation.NoWinner {
        if |preferences| > 0 {
          if prefs.Panicked? {
            return Panic;
          }
          if IndexOf(prefs.value.value, noWinner).Some? {
            return Ok(true);
          }
        }
      } else {
        // the next player is the one found on the "has it" copy (player.rs:276, 309)
        var found := EvaluateMove(next.value, noCards, history, maxHasDepth - 1, fuel);
        if found.Panic? {
          return Panic;
        }
        if found.OutOfFuel? {
          return OutOfFuel;
        }
        noWinner := found.value.result;
        if noWinner == me {
          return Ok(false);
        }
      }
      if yesWinner < 0 {
        return Ok(true);
      }
      if noWinner < 0 {
        return Ok(false);
      }
      if prefs.Panicked? {
        return Panic;
      }
      return Ok(TieBreakAsWritten(yesWinner, noWinner, prefs.value));
    }
  }
}

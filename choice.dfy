/**
  The decisions of `CleverPlayer` (src/player.rs:120-342) that do not depend on
  the search itself: how the cache stores a move relative to the player to move,
  how `_evaluate_move_uncached` sorts the candidate moves into classes and picks
  one, and how `has_card` breaks a tie between the two hypotheses.

  The outcome of trying one legal move is a `Probe`: what `test_winner` said after
  the move and, when the game goes on, what the deeper search found. The loop of
  `_evaluate_move_uncached` is `Tallied`, a left fold of `Classify` over the
  probes; `Run` adds the final choice. `RunMeaning` proves that the fold returns
  the first move that wins for the player outright, and otherwise the last move of
  the best class: a draw, then a move cut off by the depth, then a win for the
  players `this` prefers in their order, then a deeper loss, then an immediate one.
*/
module Choice {
  import opened Outcomes
  import Arith
  import Propagation

  type Move = (nat, int)

  /** A candidate `(other_player, suit, result, draw_position)`. */
  datatype Cand = Cand(other: nat, suit: int, result: int, draw: int)

  /** What trying one legal move showed: the hands were inconsistent (`ILLEGAL_CARDS`), someone won at
      once, the search was out of depth, the next position had been seen before, or the deeper search
      returned this result and draw position. */
  datatype Probe = Illegal | Won(winner: nat) | OutOfDepth | Repeat(position: int) | Deeper(result: int, draw: int)

  /** The best candidates recorded so far (player.rs:159-169). */
  datatype Tally = Tally(draw: Option<Cand>, outOfDepth: Option<Cand>, others: seq<Option<Cand>>,
                         lose: Option<Cand>, immediateLose: Option<Cand>)

  /** One turn of the loop goes on with a new tally or returns a candidate. */
  datatype Step = Continue(tally: Tally) | Stop(chosen: Cand)

  /** The candidate the search returns, none at all (the `panic!` at player.rs:248), or a fold that has
      not yet seen every legal move. */
  datatype Pick = Picked(chosen: Cand) | NoneLeft | Unexplored

  /** The class of a probe: ignored, an outright win, or a slot graded by preference (lower is better). */
  datatype Class = Skip | Win | Slot(grade: nat)

  // ---------------------------------------------------------------------------
  // The move cache (player.rs:126-152)

  /** A player number relative to `this`, as stored in the cache. */
  function Relative(x: nat, me: nat, n: nat): int
    requires n > 0
  {
    (n + x - me) % n
  }

  /** A stored relative number made absolute again for the player `this`. */
  function Absolute(x: int, me: nat, n: nat): nat
    requires n > 0 && x >= 0
  {
    ((x + me) % n) as nat
  }

  /** The first place of `x` in `xs`: `iter().position`. */
  function IndexOf(xs: seq<int>, x: int): (r: Option<nat>)
    ensures r.Some? ==> r.value < |xs| && xs[r.value] == x && forall k :: 0 <= k < r.value ==> xs[k] != x
    ensures r.None? <==> x !in xs
  {
    if |xs| == 0 then None
    else if xs[0] == x then Some(0)
    else match IndexOf(xs[1..], x)
      case None => None
      case Some(f) => Some(f + 1)
  }

  /** The cached triple for a candidate (player.rs:141-146): the other player and the result relative to
      `this` (a negative result as it is), and the place of the suit in the permutation. */
  function Encode(c: Cand, me: nat, perm: seq<int>): (e: (int, int, int))
    requires |perm| > 0 && c.suit in perm
    ensures e.0 >= 0 && 0 <= e.1 < |perm| && perm[e.1] == c.suit
    ensures e.2 >= 0 <==> c.result >= 0
  {
    var n := |perm|;
    (Relative(c.other, me, n), IndexOf(perm, c.suit).value, if c.result < 0 then c.result else Relative(c.result as nat, me, n))
  }

  /** A cached triple read back for the player `this` (player.rs:132-136); the draw position is not
      stored and reads as -1. */
  function Decode(e: (int, int, int), me: nat, perm: seq<int>): (c: Cand)
    requires |perm| > 0 && e.0 >= 0 && 0 <= e.1 < |perm|
    ensures c.other < |perm| && c.suit in perm && c.result < |perm| && c.draw == -1
  {
    var n := |perm|;
    Cand(Absolute(e.0, me, n), perm[e.1], if e.2 < 0 then e.2 else Absolute(e.2, me, n), -1)
  }

  /** A cache hit: indexing the permutation with the stored suit place fails when it is too large. */
  function Recall(e: (int, int, int), me: nat, perm: seq<int>): (r: Outcome<Cand>)
    requires |perm| > 0 && e.0 >= 0 && e.1 >= 0
    ensures r.Done? <==> e.1 < |perm|
    ensures r.Done? ==> r.value.draw == -1
  {
    if e.1 < |perm| then Done(Decode(e, me, perm)) else Panicked
  }

  /** A result is cached unless it is a draw whose position is in the history (player.rs:145). */
  predicate Kept(c: Cand, history: set<int>) {
    c.result >= 0 || c.draw !in history
  }

  lemma RelativeRoundTrip(x: nat, me: nat, n: nat)
    requires x < n && me < n
    ensures 0 <= Relative(x, me, n) < n && Absolute(Relative(x, me, n), me, n) == x
  {
    Arith.ModOf(0, n, x);
    if x >= me {
      Arith.ModOf(1, n, x - me);
      Arith.ModOf(0, n, x);
    } else {
      Arith.ModOf(0, n, n + x - me);
      Arith.ModOf(1, n, x);
    }
  }

  /** Reading back what was stored gives the candidate again, with draw position -1, for every
      candidate of players and results below the number of players. */
  lemma CacheRoundTrip(c: Cand, me: nat, perm: seq<int>)
    requires |perm| > 0 && c.suit in perm && c.other < |perm| && c.result < |perm| && me < |perm|
    ensures Recall(Encode(c, me, perm), me, perm) == Done(c.(draw := -1))
    ensures Encode(c, me, perm).2 >= 0 <==> c.result >= 0
  {
    var n := |perm|;
    RelativeRoundTrip(c.other, me, n);
    if c.result >= 0 {
      RelativeRoundTrip(c.result as nat, me, n);
    }
  }

  /** The stored triple is relative: the same move seen by a player `d` seats on decodes `d` seats on. */
  lemma CacheRelative(e: (int, int, int), me: nat, d: nat, perm: seq<int>)
    requires |perm| > 0 && e.0 >= 0 && 0 <= e.1 < |perm| && e.2 >= 0
    ensures Decode(e, (me + d) % |perm|, perm).other == (Decode(e, me, perm).other + d) % |perm|
    ensures Decode(e, (me + d) % |perm|, perm).result == (Decode(e, me, perm).result + d) % |perm|
  {
    var n := |perm|;
    AbsoluteShift(e.0, me, d, n);
    AbsoluteShift(e.2, me, d, n);
  }

  lemma AbsoluteShift(x: int, me: nat, d: nat, n: nat)
    requires n > 0 && x >= 0
    ensures Absolute(x, (me + d) % n, n) == (Absolute(x, me, n) + d) % n
  {
    ModSum(x, me, d, n);
  }

  lemma ModSum(x: int, me: nat, d: nat, n: nat)
    requires n > 0 && x >= 0
    ensures (x + (me + d) % n) % n == ((x + me) % n + d) % n
  {
    var a := (me + d) / n;
    var b := (x + me) / n;
    assert me + d == a * n + (me + d) % n;
    assert x + me == b * n + (x + me) % n;
    var s := x + me + d;
    assert x + (me + d) % n == s - a * n;
    assert (x + me) % n + d == s - b * n;
    ModShift(s, a, n);
    ModShift(s, b, n);
  }

  lemma ModShift(s: int, a: int, n: nat)
    requires n > 0
    ensures (s - a * n) % n == s % n
  {
    var q := s / n;
    assert s == q * n + s % n;
    assert s - a * n == (q - a) * n + s % n;
    Arith.ModOf(q - a, n, s % n);
  }

  // ---------------------------------------------------------------------------
  // Classes of candidate moves (player.rs:159-249)

  /** The number of preferred winners listed for `this`. */
  function Width(prefs: Option<seq<nat>>): nat {
    if prefs.Some? then |prefs.value| else 0
  }

  /** The tally's slots in the order they are tried at the end (player.rs:231-247). */
  function Slots(t: Tally): seq<Option<Cand>> {
    [t.draw, t.outOfDepth] + t.others + [t.lose, t.immediateLose]
  }

  predicate Fits(t: Tally, prefs: Option<seq<nat>>) {
    |t.others| == Width(prefs)
  }

  /** Nothing recorded; one preferred-winner slot per listed player (player.rs:166-169). */
  function Start(prefs: Option<seq<nat>>): (t: Tally)
    ensures Fits(t, prefs) && Slots(t) == seq(4 + Width(prefs), _ => None)
  {
    Tally(None, None, seq(Width(prefs), _ => None), None, None)
  }

  /** The slot of a winner other than `this`: its place among the preferred winners, else `fallback`
      past the preferred slots (2 for a deeper loss, 3 for an immediate one). */
  function Ranked(w: int, prefs: Option<seq<nat>>, fallback: nat): Class {
    if prefs.Some? && IndexOf(prefs.value, w).Some? then Slot(2 + IndexOf(prefs.value, w).value)
    else Slot(fallback + Width(prefs))
  }

  /** The class of a probe, independent of the loop's bookkeeping. */
  function ClassOf(p: Probe, me: nat, prefs: Option<seq<nat>>): (c: Class)
    ensures c.Slot? ==> c.grade < 4 + Width(prefs)
  {
    match p
    case Illegal => Skip
    case Won(w) => if w == me then Win else Ranked(w, prefs, 3)
    case OutOfDepth => Slot(1)
    case Repeat(_) => Slot(0)
    case Deeper(w, _) => if w == me then Win else if w < 0 then Slot(0) else Ranked(w, prefs, 2)
  }

  /** The candidate a probe of move `m` makes. */
  function CandOf(m: Move, p: Probe, me: nat, prefs: Option<seq<nat>>): Cand {
    match p
    case Illegal => Cand(m.0, m.1, -1, -1)
    case Won(w) => Cand(m.0, m.1, w, -1)
    case OutOfDepth => Cand(m.0, m.1, -1, -1)
    case Repeat(position) => Cand(m.0, m.1, -1, position)
    case Deeper(w, d) =>
      if w == me then Cand(m.0, m.1, w, -1)
      else if w < 0 then Cand(m.0, m.1, -1, d)
      else if prefs.Some? && IndexOf(prefs.value, w).Some? then Cand(m.0, m.1, w, 0)
      else Cand(m.0, m.1, w, -1)
  }

  /** The slots after recording `x` in the slot of class `c`. */
  function Record(s: seq<Option<Cand>>, c: Class, x: Cand): seq<Option<Cand>> {
    if c.Slot? && c.grade < |s| then s[c.grade := Some(x)] else s
  }

  /** One turn of the loop over the legal moves (player.rs:179-229). */
  function Classify(t: Tally, m: Move, p: Probe, me: nat, prefs: Option<seq<nat>>): (r: Step)
    requires Fits(t, prefs)
    ensures r.Stop? <==> ClassOf(p, me, prefs) == Win
    ensures r.Stop? ==> r.chosen == CandOf(m, p, me, prefs)
    ensures r.Continue? ==> Fits(r.tally, prefs) && Slots(r.tally) == Record(Slots(t), ClassOf(p, me, prefs), CandOf(m, p, me, prefs))
  {
    var (other, suit) := m;
    match p
    case Illegal => Continue(t)
    case Won(w) =>
      var c := Cand(other, suit, w, -1);
      if w == me then Stop(c)
      else if prefs.Some? then
        match IndexOf(prefs.value, w)
        case Some(f) =>
          assert Slots(t.(others := t.others[f := Some(c)])) == Slots(t)[2 + f := Some(c)];
          Continue(t.(others := t.others[f := Some(c)]))
        case None => Continue(t.(immediateLose := Some(c)))
      else Continue(t.(immediateLose := Some(c)))
    case OutOfDepth => Continue(t.(outOfDepth := Some(Cand(other, suit, -1, -1))))
    case Repeat(position) => Continue(t.(draw := Some(Cand(other, suit, -1, position))))
    case Deeper(w, d) =>
      if w == me then Stop(Cand(other, suit, w, -1))
      else if w < 0 then Continue(t.(draw := Some(Cand(other, suit, -1, d))))
      else if prefs.Some? then
        match IndexOf(prefs.value, w)
        case Some(f) =>
          var c := Cand(other, suit, w, 0);
          assert Slots(t.(others := t.others[f := Some(c)])) == Slots(t)[2 + f := Some(c)];
          Continue(t.(others := t.others[f := Some(c)]))
        case None => Continue(t.(lose := Some(Cand(other, suit, w, -1))))
      else Continue(t.(lose := Some(Cand(other, suit, w, -1))))
  }

  /** The first recorded candidate of a sequence of slots. */
  function FirstSome(s: seq<Option<Cand>>): (r: Option<Cand>)
    ensures r.Some? ==> exists g :: 0 <= g < |s| && s[g] == r && forall g' :: 0 <= g' < g ==> s[g'].None?
    ensures r.None? <==> forall g :: 0 <= g < |s| ==> s[g].None?
  {
    if |s| == 0 then None
    else if s[0].Some? then s[0]
    else
      var r := FirstSome(s[1..]);
      assert forall g :: 1 <= g < |s| ==> s[g] == s[1..][g - 1];
      r
  }

  lemma {:induction false} FirstSomeAppend(a: seq<Option<Cand>>, b: seq<Option<Cand>>)
    ensures FirstSome(a + b) == if FirstSome(a).Some? then FirstSome(a) else FirstSome(b)
  {
    if |a| > 0 {
      assert (a + b)[1..] == a[1..] + b;
      FirstSomeAppend(a[1..], b);
    } else {
      assert a + b == b;
    }
  }

  /** The choice after the loop (player.rs:231-248): the first recorded slot in the order of `Slots`. */
  function Choose(t: Tally): (r: Option<Cand>)
    ensures r == FirstSome(Slots(t))
  {
    FirstSomeAppend([t.draw, t.outOfDepth], t.others + [t.lose, t.immediateLose]);
    FirstSomeAppend(t.others, [t.lose, t.immediateLose]);
    assert [t.draw, t.outOfDepth] + t.others + [t.lose, t.immediateLose] == [t.draw, t.outOfDepth] + (t.others + [t.lose, t.immediateLose]);
    if t.draw.Some? then t.draw
    else if t.outOfDepth.Some? then t.outOfDepth
    else if FirstSome(t.others).Some? then FirstSome(t.others)
    else if t.lose.Some? then t.lose
    else t.immediateLose
  }

  /** The loop, run over the first |probes| legal moves. */
  function Tallied(moves: seq<Move>, probes: seq<Probe>, me: nat, prefs: Option<seq<nat>>): (r: Step)
    requires |probes| <= |moves|
    ensures r.Continue? ==> Fits(r.tally, prefs)
    decreases |probes|
  {
    if |probes| == 0 then Continue(Start(prefs))
    else
      var k := |probes| - 1;
      match Tallied(moves, probes[..k], me, prefs)
      case Stop(c) => Stop(c)
      case Continue(t) => Classify(t, moves[k], probes[k], me, prefs)
  }

  /** The loop over one more move: the step `Classify` takes from the tally so far. */
  lemma TalliedSnoc(moves: seq<Move>, probes: seq<Probe>, p: Probe, me: nat, prefs: Option<seq<nat>>)
    requires |probes| < |moves|
    ensures Tallied(moves, probes, me, prefs).Stop? ==> Tallied(moves, probes + [p], me, prefs) == Tallied(moves, probes, me, prefs)
    ensures Tallied(moves, probes, me, prefs).Continue? ==>
      Tallied(moves, probes + [p], me, prefs) == Classify(Tallied(moves, probes, me, prefs).tally, moves[|probes|], p, me, prefs)
  {
    assert (probes + [p])[..|probes|] == probes;
  }

  /** What `_evaluate_move_uncached` returns once it has probed these moves. */
  function Run(moves: seq<Move>, probes: seq<Probe>, me: nat, prefs: Option<seq<nat>>): Pick
    requires |probes| <= |moves|
  {
    match Tallied(moves, probes, me, prefs)
    case Stop(c) => Picked(c)
    case Continue(t) =>
      if |probes| < |moves| then Unexplored
      else match Choose(t)
        case None => NoneLeft
        case Some(c) => Picked(c)
  }

  // ---------------------------------------------------------------------------
  // What the loop computes

  /** The candidate of the last of these probes in class `Slot(g)`. */
  function Latest(moves: seq<Move>, probes: seq<Probe>, g: nat, me: nat, prefs: Option<seq<nat>>): (r: Option<Cand>)
    requires |probes| <= |moves|
    decreases |probes|
  {
    if |probes| == 0 then None
    else
      var k := |probes| - 1;
      if ClassOf(probes[k], me, prefs) == Slot(g) then Some(CandOf(moves[k], probes[k], me, prefs))
      else Latest(moves, probes[..k], g, me, prefs)
  }

  /** For each class, its latest candidate. */
  function Board(moves: seq<Move>, probes: seq<Probe>, me: nat, prefs: Option<seq<nat>>): seq<Option<Cand>>
    requires |probes| <= |moves|
  {
    seq(4 + Width(prefs), g requires 0 <= g => Latest(moves, probes, g, me, prefs))
  }

  predicate NoWin(probes: seq<Probe>, me: nat, prefs: Option<seq<nat>>) {
    forall j :: 0 <= j < |probes| ==> ClassOf(probes[j], me, prefs) != Win
  }

  /** The first probe of an outright win, if there is one. */
  predicate FirstWin(probes: seq<Probe>, k: int, me: nat, prefs: Option<seq<nat>>) {
    0 <= k < |probes| && ClassOf(probes[k], me, prefs) == Win && NoWin(probes[..k], me, prefs)
  }

  /** The loop stops at the first outright win; until then every slot holds the latest candidate of its
      class. */
  lemma TalliedMeaning(moves: seq<Move>, probes: seq<Probe>, me: nat, prefs: Option<seq<nat>>)
    requires |probes| <= |moves|
    ensures Tallied(moves, probes, me, prefs).Continue? <==> NoWin(probes, me, prefs)
    ensures Tallied(moves, probes, me, prefs).Continue? ==> Slots(Tallied(moves, probes, me, prefs).tally) == Board(moves, probes, me, prefs)
    ensures Tallied(moves, probes, me, prefs).Stop? ==>
      exists k :: FirstWin(probes, k, me, prefs) && Tallied(moves, probes, me, prefs).chosen == CandOf(moves[k], probes[k], me, prefs)
  {
    TalliedGoesOn(moves, probes, me, prefs);
    TalliedBoard(moves, probes, me, prefs);
    TalliedStops(moves, probes, me, prefs);
  }

  lemma {:induction false} TalliedGoesOn(moves: seq<Move>, probes: seq<Probe>, me: nat, prefs: Option<seq<nat>>)
    requires |probes| <= |moves|
    decreases |probes|
    ensures Tallied(moves, probes, me, prefs).Continue? <==> NoWin(probes, me, prefs)
  {
    if |probes| > 0 {
      var k := |probes| - 1;
      var front := probes[..k];
      TalliedGoesOn(moves, front, me, prefs);
      assert NoWin(probes, me, prefs) <==> NoWin(front, me, prefs) && ClassOf(probes[k], me, prefs) != Win by {
        assert forall j :: 0 <= j < k ==> front[j] == probes[j];
      }
      match Tallied(moves, front, me, prefs)
      case Stop(_) =>
      case Continue(t) =>
        var r := Classify(t, moves[k], probes[k], me, prefs);
        assert r.Stop? <==> ClassOf(probes[k], me, prefs) == Win;
    }
  }

  lemma {:induction false} TalliedBoard(moves: seq<Move>, probes: seq<Probe>, me: nat, prefs: Option<seq<nat>>)
    requires |probes| <= |moves|
    decreases |probes|
    ensures Tallied(moves, probes, me, prefs).Continue? ==> Slots(Tallied(moves, probes, me, prefs).tally) == Board(moves, probes, me, prefs)
  {
    if |probes| > 0 {
      var k := |probes| - 1;
      TalliedBoard(moves, probes[..k], me, prefs);
      if Tallied(moves, probes, me, prefs).Continue? {
        BoardStep(moves, probes, me, prefs);
      }
    }
  }

  lemma {:induction false} TalliedStops(moves: seq<Move>, probes: seq<Probe>, me: nat, prefs: Option<seq<nat>>)
    requires |probes| <= |moves|
    decreases |probes|
    ensures Tallied(moves, probes, me, prefs).Stop? ==>
      exists k :: FirstWin(probes, k, me, prefs) && Tallied(moves, probes, me, prefs).chosen == CandOf(moves[k], probes[k], me, prefs)
  {
    if |probes| > 0 {
      var k := |probes| - 1;
      var front := probes[..k];
      TalliedStops(moves, front, me, prefs);
      match Tallied(moves, front, me, prefs)
      case Stop(c) =>
        var k' :| FirstWin(front, k', me, prefs) && c == CandOf(moves[k'], front[k'], me, prefs);
        assert front[..k'] == probes[..k'];
        assert FirstWin(probes, k', me, prefs);
      case Continue(t) =>
        TalliedGoesOn(moves, front, me, prefs);
        if Classify(t, moves[k], probes[k], me, prefs).Stop? {
          assert front == probes[..k];
          assert FirstWin(probes, k, me, prefs);
        }
    }
  }

  lemma BoardStep(moves: seq<Move>, probes: seq<Probe>, me: nat, prefs: Option<seq<nat>>)
    requires 0 < |probes| <= |moves|
    ensures var k := |probes| - 1;
      Board(moves, probes, me, prefs)
      == Record(Board(moves, probes[..k], me, prefs), ClassOf(probes[k], me, prefs), CandOf(moves[k], probes[k], me, prefs))
  {
  }

  /** The latest candidate of a class is the candidate of some probe in that class. */
  lemma {:induction false} LatestFrom(moves: seq<Move>, probes: seq<Probe>, g: nat, me: nat, prefs: Option<seq<nat>>)
    requires |probes| <= |moves| && Latest(moves, probes, g, me, prefs).Some?
    decreases |probes|
    ensures exists k :: 0 <= k < |probes| && ClassOf(probes[k], me, prefs) == Slot(g)
                        && Latest(moves, probes, g, me, prefs) == Some(CandOf(moves[k], probes[k], me, prefs))
  {
    var k := |probes| - 1;
    if ClassOf(probes[k], me, prefs) != Slot(g) {
      LatestFrom(moves, probes[..k], g, me, prefs);
      var j :| 0 <= j < k && ClassOf(probes[..k][j], me, prefs) == Slot(g)
               && Latest(moves, probes[..k], g, me, prefs) == Some(CandOf(moves[j], probes[..k][j], me, prefs));
      assert probes[..k][j] == probes[j];
    }
  }

  /** What `_evaluate_move_uncached` returns: the first outright win for `this` among the probed moves;
      otherwise, once every legal move is probed, the latest candidate of the best class that holds
      one, or nothing at all. */
  lemma RunMeaning(moves: seq<Move>, probes: seq<Probe>, me: nat, prefs: Option<seq<nat>>)
    requires |probes| <= |moves|
    ensures forall k :: FirstWin(probes, k, me, prefs) ==>
      Run(moves, probes, me, prefs) == Picked(Cand(moves[k].0, moves[k].1, me, -1))
    ensures NoWin(probes, me, prefs) && |probes| == |moves| ==>
      Run(moves, probes, me, prefs) == match FirstSome(Board(moves, probes, me, prefs))
                                         case None => NoneLeft
                                         case Some(c) => Picked(c)
  {
    TalliedMeaning(moves, probes, me, prefs);
    forall k | FirstWin(probes, k, me, prefs)
      ensures Run(moves, probes, me, prefs) == Picked(Cand(moves[k].0, moves[k].1, me, -1))
    {
      var c := Tallied(moves, probes, me, prefs).chosen;
      var k' :| FirstWin(probes, k', me, prefs) && c == CandOf(moves[k'], probes[k'], me, prefs);
      FirstWinUnique(probes, k, k', me, prefs);
    }
  }

  lemma FirstWinUnique(probes: seq<Probe>, k: int, k': int, me: nat, prefs: Option<seq<nat>>)
    requires FirstWin(probes, k, me, prefs) && FirstWin(probes, k', me, prefs)
    ensures k == k'
  {
  }

  /** The candidate returned is the candidate of one of the probed legal moves, not one that was skipped:
      it asks the player and the suit of that move. */
  lemma RunPicksProbed(moves: seq<Move>, probes: seq<Probe>, me: nat, prefs: Option<seq<nat>>)
    requires |probes| <= |moves| && Run(moves, probes, me, prefs).Picked?
    ensures exists k :: 0 <= k < |probes| && ClassOf(probes[k], me, prefs) != Skip
                        && Run(moves, probes, me, prefs).chosen == CandOf(moves[k], probes[k], me, prefs)
  {
    TalliedMeaning(moves, probes, me, prefs);
    var tallied := Tallied(moves, probes, me, prefs);
    if tallied.Stop? {
      var k :| FirstWin(probes, k, me, prefs) && tallied.chosen == CandOf(moves[k], probes[k], me, prefs);
    } else {
      var board := Board(moves, probes, me, prefs);
      var g :| 0 <= g < |board| && board[g] == FirstSome(board);
      LatestFrom(moves, probes, g, me, prefs);
    }
  }

  /** The winners a probe reports are players of the game. */
  predicate Bounded(p: Probe, n: nat) {
    (p.Won? ==> p.winner < n) && (p.Deeper? ==> p.result < n)
  }

  /** The candidate returned asks for one of the legal moves, and its result is a player of the game
      or negative. */
  lemma RunPicksBounded(moves: seq<Move>, probes: seq<Probe>, me: nat, prefs: Option<seq<nat>>, n: nat)
    requires |probes| <= |moves| && Run(moves, probes, me, prefs).Picked?
    requires forall k :: 0 <= k < |probes| ==> Bounded(probes[k], n)
    ensures var c := Run(moves, probes, me, prefs).chosen;
      (c.other, c.suit) in moves && c.result < n
  {
    RunPicksProbed(moves, probes, me, prefs);
    var k :| 0 <= k < |probes| && ClassOf(probes[k], me, prefs) != Skip
             && Run(moves, probes, me, prefs).chosen == CandOf(moves[k], probes[k], me, prefs);
    CandOfMove(moves[k], probes[k], me, prefs);
  }

  /** A move the search may return asks the player and suit of one of the moves probed. */
  lemma CandOfMove(m: Move, p: Probe, me: nat, prefs: Option<seq<nat>>)
    ensures CandOf(m, p, me, prefs).other == m.0 && CandOf(m, p, me, prefs).suit == m.1
    ensures CandOf(m, p, me, prefs).result == -1
         || (p.Won? && CandOf(m, p, me, prefs).result == p.winner)
         || (p.Deeper? && CandOf(m, p, me, prefs).result == p.result)
  {
  }

  // ---------------------------------------------------------------------------
  // The tie-break of `has_card` (player.rs:315-341)

  /** How much `this` wants `w` to win: its place among the preferred winners, or past all of them. */
  function Standing(p: seq<nat>, w: int): nat {
    match IndexOf(p, w)
    case Some(f) => f
    case None => |p|
  }

  /** `a` comes before every occurrence of `b` in the preferences. */
  predicate Prefers(p: seq<nat>, a: int, b: int) {
    exists i :: 0 <= i < |p| && p[i] == a && forall j :: 0 <= j <= i ==> p[j] != b
  }

  /** The tie-break as written: the value compared for a listed winner is `p[f]`, which is the winner's
      own player number, while an unlisted winner counts as `p.len()`. */
  function TieBreakAsWritten(yes: int, no: int, prefs: Option<seq<nat>>): bool {
    if yes < 0 then true
    else if no < 0 then false
    else if prefs.Some? then
      var p := prefs.value;
      var yesPreference := match IndexOf(p, yes) case Some(f) => p[f] as int case None => |p|;
      var noPreference := match IndexOf(p, no) case Some(f) => p[f] as int case None => |p|;
      if yesPreference < noPreference then true
      else if noPreference < yesPreference then false
      else false
    else false
  }

  /** The tie-break as evidently intended, kept as the reference for the as-written one above and not
      used by the model of `has_card`: a draw under the "has it" hypothesis is taken, then a draw under
      "has not" is, then the hypothesis whose winner stands higher in the preferences; otherwise "has not". */
  function TieBreak(yes: int, no: int, prefs: Option<seq<nat>>): bool {
    if yes < 0 then true
    else if no < 0 then false
    else if prefs.Some? then
      var p := prefs.value;
      var yesPreference := Standing(p, yes);
      var noPreference := Standing(p, no);
      if yesPreference < noPreference then true
      else if noPreference < yesPreference then false
      else false
    else false
  }

  /** The rest of `has_card` once both hypotheses have a verdict of their own and neither needs a search
      (player.rs:277-341): a preferred winner under "has it" makes the answer "has not"; then a win for
      `me` under "has not" makes it "has not" and a preferred winner there makes it "has it"; then an
      inconsistent "has it" is taken, an inconsistent "has not" is taken, and the tie-break settles the
      rest. `prefs` is `self.preferences[this]`, which fails when preferences are given but none for `me`. */
  function Settle(yes: int, no: int, me: nat, prefs: Outcome<Option<seq<nat>>>): (r: Outcome<bool>)
    requires yes != Propagation.NoWinner && no != Propagation.NoWinner
    ensures r.Panicked? <==> prefs.Panicked?
  {
    match prefs
    case Panicked => Panicked
    case Done(p) =>
      if p.Some? && IndexOf(p.value, yes).Some? then Done(false)
      else if no == me then Done(false)
      else if p.Some? && IndexOf(p.value, no).Some? then Done(true)
      else if yes < 0 then Done(true)
      else if no < 0 then Done(false)
      else Done(TieBreakAsWritten(yes, no, p))
  }

  /** Between two players who win at once, `has_card` answers "has it" exactly when the winner of "has not"
      is a preferred player and neither `me` nor the winner of "has it" is: the tie-break itself only
      compares two winners that are both unlisted, and then says "has not". */
  lemma SettleWinners(yes: int, no: int, me: nat, prefs: Option<seq<nat>>)
    requires yes >= 0 && no >= 0
    ensures Settle(yes, no, me, Done(prefs))
         == Done(prefs.Some? && yes !in prefs.value && no != me && no in prefs.value)
  {
    if prefs.Some? && yes !in prefs.value && no !in prefs.value {
      assert IndexOf(prefs.value, yes).None? && IndexOf(prefs.value, no).None?;
    }
  }

  /** When handing the card over proves the hands inconsistent, `has_card` answers "has it" unless
      "has not" wins for `me`. */
  lemma SettleInconsistent(no: int, me: nat, prefs: Option<seq<nat>>)
    requires no != Propagation.NoWinner
    ensures Settle(Propagation.IllegalCards, no, me, Done(prefs)) == Done(no != me)
  {
    if prefs.Some? {
      assert Propagation.IllegalCards !in prefs.value;
    }
  }

  /** Between two winners, the corrected tie-break answers "has it" exactly when `this` prefers the
      winner of that hypothesis. */
  lemma TieBreakPrefers(yes: int, no: int, p: seq<nat>)
    requires yes >= 0 && no >= 0
    ensures TieBreak(yes, no, Some(p)) <==> Prefers(p, yes, no)
  {
    var y := IndexOf(p, yes);
    var m := IndexOf(p, no);
    if TieBreak(yes, no, Some(p)) {
      assert y.Some?;
      forall j | 0 <= j <= y.value ensures p[j] != no {
        if j == y.value {
          assert yes != no;
        }
      }
    }
    if Prefers(p, yes, no) {
      var i :| 0 <= i < |p| && p[i] == yes && forall j :: 0 <= j <= i ==> p[j] != no;
      assert y.Some? && y.value <= i;
      if m.Some? {
        assert m.value > i;
      }
    }
  }

  /** As written, two listed winners are compared by player number, so the less preferred winner can
      be chosen: with preferences [2, 0], winner 2 under "has it" and winner 0 under "has not", the
      answer is "has not" although `this` prefers 2. */
  lemma TieBreakAsWrittenPrefersLowerNumber()
    ensures Prefers([2, 0], 2, 0)
    ensures !TieBreakAsWritten(2, 0, Some([2, 0]))
    ensures TieBreak(2, 0, Some([2, 0]))
  {
    assert IndexOf([2, 0], 2) == Some(0);
    assert IndexOf([2, 0], 0) == Some(1);
    assert [2, 0][0] == 2;
  }
}

/** The Marquise de Cat action that takes the wood off the map
    (RemoveAllWood): for every clearing that is not a forest, its wood
    tokens go back to the Marquise's supply one at a time. The loop as
    written re-reads the clearing's wood count as its bound after each
    removal; `Execute` models that loop, `ExecuteCorrected` the evident
    intent of emptying every clearing. */
module WoodRemoval {
  import opened RootState

  /** A board node: whether it is a forest, and the wood tokens on it. */
  datatype Clearing = Clearing(forest: bool, wood: int)

  /** What the action reads: the game state, the board, whose turn it is
      and each player's faction. */
  datatype Game = Game(state: State, clearings: seq<Clearing>, currentPlayer: int, factions: seq<Faction>)

  /** The action object; its only field is the acting player. */
  datatype RemoveAllWood = RemoveAllWood(playerID: int)

  /** The guard of `execute`: the acting player is the current player and
      plays the Marquise. The faction is only looked up for the current
      player. */
  predicate MayAct(a: RemoveAllWood, g: Game)
    requires g.currentPlayer == a.playerID ==> 0 <= a.playerID < |g.factions|
  {
    g.currentPlayer == a.playerID && g.factions[a.playerID] == MarquiseDeCat
  }

  /** Wood on the board. */
  function MapWood(cs: seq<Clearing>): int
  {
    if |cs| == 0 then 0 else MapWood(cs[..|cs| - 1]) + cs[|cs| - 1].wood
  }

  lemma {:induction false} MapWoodUpdate(cs: seq<Clearing>, j: nat, c: Clearing)
    requires j < |cs|
    ensures MapWood(cs[j := c]) == MapWood(cs) - cs[j].wood + c.wood
  {
    var n := |cs| - 1;
    assert cs[j := c][..n] == if j < n then cs[..n][j := c] else cs[..n];
    if j < n {
      MapWoodUpdate(cs[..n], j, c);
    }
  }

  /** The inner loop as written, from counter `i` with `w` tokens left: take
      a token and advance the counter while the counter is below the
      current count. It stops after removing half the tokens, rounded up. */
  function Drain(w: int, i: nat): (r: (int, nat))
    ensures i >= w ==> r == (w, i)
    ensures i < w ==> r.1 - i == w - r.0 == (w - i + 1) / 2
    decreases w - i
  {
    if i < w then Drain(w - 1, i + 1) else (w, i)
  }

  /** `execute`, loop as written: `ok` is the returned flag. A clearing that
      is touched keeps half its wood, rounded down; the rest goes to the
      supply. */
  method Execute(a: RemoveAllWood, g: Game) returns (ok: bool, g': Game)
    requires g.currentPlayer == a.playerID ==> 0 <= a.playerID < |g.factions|
    ensures ok <==> MayAct(a, g)
    ensures !ok ==> g' == g
    ensures ok ==> g' == g.(state := g'.state, clearings := g'.clearings)
    ensures ok ==> g'.state == g.state.(wood := g'.state.wood)
    ensures |g'.clearings| == |g.clearings|
    ensures ok ==> forall j :: 0 <= j < |g.clearings| ==>
      g'.clearings[j].forest == g.clearings[j].forest &&
      g'.clearings[j].wood == if !g.clearings[j].forest && g.clearings[j].wood > 0
                               then g.clearings[j].wood / 2 else g.clearings[j].wood
    ensures MapWood(g'.clearings) + g'.state.wood == MapWood(g.clearings) + g.state.wood
  {
    if !MayAct(a, g) {
      return false, g;
    }
    var cs := g.clearings;
    var st := g.state;
    var j := 0;
    while j < |cs|
      invariant 0 <= j <= |cs| && |cs| == |g.clearings|
      invariant st == g.state.(wood := st.wood)
      invariant forall k :: j <= k < |cs| ==> cs[k] == g.clearings[k]
      invariant forall k :: 0 <= k < j ==>
        cs[k].forest == g.clearings[k].forest &&
        cs[k].wood == if !g.clearings[k].forest && g.clearings[k].wood > 0
                      then g.clearings[k].wood / 2 else g.clearings[k].wood
      invariant MapWood(cs) + st.wood == MapWood(g.clearings) + g.state.wood
    {
      if !cs[j].forest && cs[j].wood > 0 {
        var before := cs;
        var w0 := cs[j].wood;
        var i := 0;
        while i < cs[j].wood
          invariant 0 <= i <= w0
          invariant |cs| == |before| && cs[j].forest == before[j].forest
          invariant cs[j].wood == w0 - i && i <= (w0 + 1) / 2
          invariant forall k :: 0 <= k < |cs| && k != j ==> cs[k] == before[k]
          invariant st == g.state.(wood := st.wood)
          invariant MapWood(cs) + st.wood == MapWood(g.clearings) + g.state.wood
          decreases cs[j].wood - i
        {
          // the node's removeToken takes one token when there is one
          var taken := cs[j].(wood := cs[j].wood - 1);
          MapWoodUpdate(cs, j, taken);
          cs := cs[j := taken];
          st := AddToken(st, Wood);
          i := i + 1;
        }
        assert cs[j].wood == w0 / 2;
      }
      j := j + 1;
    }
    return true, g.(state := st, clearings := cs);
  }

  /** From a fresh counter, the loop as written takes half the tokens,
      rounded up, and leaves half, rounded down. */
  lemma DrainFromZero(w: int)
    requires w > 0
    ensures Drain(w, 0) == (w / 2, (w + 1) / 2)
  {
  }

  // ----- the evident intent -----

  /** Wood that the corrected action takes: all of it, from every clearing
      that is not a forest. */
  function Moved(cs: seq<Clearing>): int
  {
    if |cs| == 0 then 0
    else Moved(cs[..|cs| - 1]) + (if !cs[|cs| - 1].forest && cs[|cs| - 1].wood > 0 then cs[|cs| - 1].wood else 0)
  }

  /** The board with every clearing that is not a forest emptied of wood. */
  function Emptied(cs: seq<Clearing>): (r: seq<Clearing>)
    ensures |r| == |cs|
    ensures forall j :: 0 <= j < |cs| ==>
      r[j].forest == cs[j].forest &&
      r[j].wood == if !cs[j].forest && cs[j].wood > 0 then 0 else cs[j].wood
  {
    seq(|cs|, j requires 0 <= j < |cs| => if !cs[j].forest && cs[j].wood > 0 then cs[j].(wood := 0) else cs[j])
  }

  lemma {:induction false} EmptiedConserves(cs: seq<Clearing>)
    ensures MapWood(Emptied(cs)) + Moved(cs) == MapWood(cs)
  {
    if |cs| > 0 {
      var n := |cs| - 1;
      EmptiedConserves(cs[..n]);
      assert Emptied(cs)[..n] == Emptied(cs[..n]);
    }
  }

  /** `execute` as evidently intended: every clearing that is not a forest
      ends with no wood, and all of it is in the supply. */
  function ExecuteCorrected(a: RemoveAllWood, g: Game): (r: (bool, Game))
    requires g.currentPlayer == a.playerID ==> 0 <= a.playerID < |g.factions|
    ensures r.0 <==> MayAct(a, g)
    ensures !r.0 ==> r.1 == g
    ensures r.0 ==> r.1.state == g.state.(wood := r.1.state.wood)
    ensures |r.1.clearings| == |g.clearings|
    ensures r.0 ==> forall j :: 0 <= j < |g.clearings| ==>
      r.1.clearings[j].forest == g.clearings[j].forest &&
      (!g.clearings[j].forest ==> r.1.clearings[j].wood <= 0) &&
      (g.clearings[j].forest ==> r.1.clearings[j] == g.clearings[j])
    ensures MapWood(r.1.clearings) + r.1.state.wood == MapWood(g.clearings) + g.state.wood
  {
    if !MayAct(a, g) then (false, g)
    else
      EmptiedConserves(g.clearings);
      (true, g.(state := g.state.(wood := g.state.wood + Moved(g.clearings)), clearings := Emptied(g.clearings)))
  }

  // ----- equality and copy -----

  /** `equals`: another RemoveAllWood action with the same acting player. */
  predicate Equals(a: RemoveAllWood, b: RemoveAllWood)
    ensures Equals(a, b) <==> a == b
  {
    a.playerID == b.playerID
  }

  /** `copy` returns the action itself. */
  function Copy(a: RemoveAllWood): (r: RemoveAllWood)
    ensures Equals(r, a) && Equals(a, r)
  {
    a
  }

  /** Two actions are equal exactly when they act for the same player, and
      a copy is equal to (indeed is) its original. */
  lemma EqualsIsSamePlayer(a: RemoveAllWood, b: RemoveAllWood)
    ensures Equals(a, b) <==> a == b
    ensures Copy(a) == a && Equals(Copy(a), a)
  {
  }
}

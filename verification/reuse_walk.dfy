/** The search tree as an arena, the recorded game history, and the
    backtracking walk that relocates the previous root after the moves
    played since the player's last decision (MCTSEAHPlayer.backtrack). */
module ReuseWalk {
  import opened Basics

  type NodeId = nat

  /** Actions are compared by identity (Java `equals`). */
  type Action = nat

  /** One history entry: the acting player and the action taken. */
  datatype Move = Move(player: int, action: Action)

  /** A tree node: `children` maps each expanded action to an array indexed by
      the player who acts next; `None` in a slot is a null child, and a
      `None` table is a node whose children were never allocated. */
  datatype Node = Node(
    turnOwner: int,
    decisionPlayer: int,
    visits: nat,
    children: Option<map<Action, seq<Option<NodeId>>>>)

  type Arena = map<NodeId, Node>

  /** Every child reference of `node` names a node of the arena. */
  ghost predicate ChildrenIn(arena: Arena, node: Node)
  {
    node.children.Some? ==>
      forall a, k | a in node.children.value && 0 <= k < |node.children.value[a]| ::
        node.children.value[a][k].Some? ==> node.children.value[a][k].value in arena
  }

  /** References never dangle: this is what Java object references guarantee. */
  ghost predicate Closed(arena: Arena)
  {
    forall id | id in arena :: ChildrenIn(arena, arena[id])
  }

  /** Where a walk ends: on a node, on a null child or missing action entry,
      or on an array index outside the child array (an exception in Java). */
  datatype Walk = Landed(node: NodeId) | Lost | OutOfRange

  /** One transition: the action to follow and the child-array slot to read. */
  datatype Edge = Edge(action: Action, slot: int)

  /** One step `children.get(action)[slot]`, with both of the source's null checks. */
  function Step(arena: Arena, id: NodeId, e: Edge): (w: Walk)
    requires Closed(arena) && id in arena
    ensures w.Landed? ==> w.node in arena
    ensures w.Landed? ==>
      && arena[id].children.Some?
      && e.action in arena[id].children.value
      && 0 <= e.slot < |arena[id].children.value[e.action]|
      && arena[id].children.value[e.action][e.slot] == Some(w.node)
    ensures w.OutOfRange? <==>
      && arena[id].children.Some?
      && e.action in arena[id].children.value
      && !(0 <= e.slot < |arena[id].children.value[e.action]|)
    ensures w.Lost? <==>
      || arena[id].children.None?
      || e.action !in arena[id].children.value
      || (0 <= e.slot < |arena[id].children.value[e.action]|
          && arena[id].children.value[e.action][e.slot].None?)
  {
    var node := arena[id];
    if node.children.None? || e.action !in node.children.value then Lost
    else
      var row := node.children.value[e.action];
      if e.slot < 0 || e.slot >= |row| then OutOfRange
      else if row[e.slot].None? then Lost
      else Landed(row[e.slot].value)
  }

  /** Reference walk: follow a list of edges from `id`, stopping at the first
      step that does not land on a node. */
  function Follow(arena: Arena, id: NodeId, edges: seq<Edge>): (w: Walk)
    requires Closed(arena) && id in arena
    ensures w.Landed? ==> w.node in arena
    ensures edges == [] ==> w == Landed(id)
    decreases |edges|
  {
    if edges == [] then Landed(id)
    else
      match Step(arena, id, edges[0])
      case Landed(n) => Follow(arena, n, edges[1..])
      case Lost => Lost
      case OutOfRange => OutOfRange
  }

  /** Following two edge lists one after the other is following their
      concatenation; a walk that stopped stays stopped. */
  lemma {:induction false} FollowAppend(arena: Arena, id: NodeId, e1: seq<Edge>, e2: seq<Edge>)
    requires Closed(arena) && id in arena
    ensures Follow(arena, id, e1 + e2) ==
      match Follow(arena, id, e1)
      case Landed(n) => Follow(arena, n, e2)
      case Lost => Lost
      case OutOfRange => OutOfRange
    decreases |e1|
  {
    if e1 == [] {
      assert e1 + e2 == e2;
    } else {
      assert (e1 + e2)[0] == e1[0];
      assert (e1 + e2)[1..] == e1[1..] + e2;
      match Step(arena, id, e1[0])
      case Landed(n) => FollowAppend(arena, n, e1[1..], e2);
      case Lost =>
      case OutOfRange =>
    }
  }

  /** The player who acts after history entry `i`: the actor of the next
      entry, or the current player for the last entry. */
  function NextActor(h: seq<Move>, i: nat, current: int): int
    requires i < |h|
  {
    if i < |h| - 1 then h[i + 1].player else current
  }

  /** The moves of player `p` in `h`, in order. */
  function MovesBy(h: seq<Move>, p: int): (r: seq<Move>)
    ensures |r| <= |h|
    ensures forall k | 0 <= k < |r| :: r[k].player == p
  {
    if h == [] then []
    else if h[0].player == p then [h[0]] + MovesBy(h[1..], p)
    else MovesBy(h[1..], p)
  }

  /** The edges the forward replay from history index `i` follows. Without
      `selfOnly`, one edge per entry, slotted by the next actor; with it, only
      the root player's own entries, always slotted by the root player. */
  function Steps(h: seq<Move>, i: nat, current: int, selfOnly: bool, rootPlayer: int): (r: seq<Edge>)
    requires i <= |h|
    ensures !selfOnly ==> |r| == |h| - i
    ensures !selfOnly ==> forall k | 0 <= k < |r| ::
      r[k] == Edge(h[i + k].action, NextActor(h, i + k, current))
    ensures selfOnly ==> |r| == |MovesBy(h[i..], rootPlayer)|
    ensures selfOnly ==> forall k | 0 <= k < |r| ::
      r[k] == Edge(MovesBy(h[i..], rootPlayer)[k].action, rootPlayer)
    decreases |h| - i
  {
    if i == |h| then []
    else
      assert h[i..][1..] == h[i + 1..];
      if selfOnly && h[i].player != rootPlayer then Steps(h, i + 1, current, selfOnly, rootPlayer)
      else
        var next := if selfOnly then rootPlayer else NextActor(h, i, current);
        [Edge(h[i].action, next)] + Steps(h, i + 1, current, selfOnly, rootPlayer)
  }

  /** The forward loop of `backtrack` as written: walk from entry `i` to the
      end of the history, skipping other players' entries under `selfOnly`,
      and stop at the first step that fails. */
  function Replay(arena: Arena, id: NodeId, h: seq<Move>, i: nat, current: int,
                  selfOnly: bool, rootPlayer: int): Walk
    requires Closed(arena) && id in arena && i <= |h|
    decreases |h| - i
  {
    if i == |h| then Landed(id)
    else if selfOnly && h[i].player != rootPlayer then
      Replay(arena, id, h, i + 1, current, selfOnly, rootPlayer)
    else
      var next := if selfOnly then rootPlayer else NextActor(h, i, current);
      match Step(arena, id, Edge(h[i].action, next))
      case Landed(n) => Replay(arena, n, h, i + 1, current, selfOnly, rootPlayer)
      case Lost => Lost
      case OutOfRange => OutOfRange
  }

  /** The loop as written is the reference walk along `Steps`. */
  lemma {:induction false} ReplayFollowsSteps(arena: Arena, id: NodeId, h: seq<Move>, i: nat,
                                              current: int, selfOnly: bool, rootPlayer: int)
    requires Closed(arena) && id in arena && i <= |h|
    ensures Replay(arena, id, h, i, current, selfOnly, rootPlayer) ==
            Follow(arena, id, Steps(h, i, current, selfOnly, rootPlayer))
    decreases |h| - i
  {
    if i < |h| {
      if selfOnly && h[i].player != rootPlayer {
        ReplayFollowsSteps(arena, id, h, i + 1, current, selfOnly, rootPlayer);
      } else {
        var next := if selfOnly then rootPlayer else NextActor(h, i, current);
        var rest := Steps(h, i + 1, current, selfOnly, rootPlayer);
        assert Steps(h, i, current, selfOnly, rootPlayer) == [Edge(h[i].action, next)] + rest;
        assert ([Edge(h[i].action, next)] + rest)[1..] == rest;
        match Step(arena, id, Edge(h[i].action, next))
        case Landed(n) => ReplayFollowsSteps(arena, n, h, i + 1, current, selfOnly, rootPlayer);
        case Lost =>
        case OutOfRange =>
      }
    }
  }

  /** Index of the most recent entry of `h` equal to `m`, scanning backwards. */
  function LastMatch(h: seq<Move>, m: Move): (r: Option<nat>)
    ensures r.None? <==> forall j | 0 <= j < |h| :: h[j] != m
    ensures r.Some? ==> r.value < |h| && h[r.value] == m
    ensures r.Some? ==> forall j | r.value < j < |h| :: h[j] != m
  {
    if h == [] then None
    else if h[|h| - 1] == m then Some(|h| - 1)
    else
      var r := LastMatch(h[..|h| - 1], m);
      assert forall j | 0 <= j < |h| - 1 :: h[..|h| - 1][j] == h[j];
      r
  }

  /** `backtrack`: find the most recent entry equal to (current player, last
      action); if there is none the starting root is returned unchanged,
      otherwise replay forward from that entry. */
  function Backtrack(arena: Arena, start: NodeId, h: seq<Move>, current: int,
                     lastAction: Action, selfOnly: bool): (w: Walk)
    requires Closed(arena) && start in arena
    ensures (forall j | 0 <= j < |h| :: h[j] != Move(current, lastAction)) ==> w == Landed(start)
    ensures w.Landed? ==> w.node in arena
  {
    match LastMatch(h, Move(current, lastAction))
    case None => Landed(start)
    case Some(i) =>
      ReplayFollowsSteps(arena, start, h, i, current, selfOnly, arena[start].decisionPlayer);
      Replay(arena, start, h, i, current, selfOnly, arena[start].decisionPlayer)
  }

  /** Backtracking replays exactly the edges of the most recent matching entry
      onwards, and children are read from the starting root's decision player
      under `selfOnly`. */
  lemma BacktrackFromLastMatch(arena: Arena, start: NodeId, h: seq<Move>, current: int,
                               lastAction: Action, selfOnly: bool, i: nat)
    requires Closed(arena) && start in arena
    requires i < |h| && h[i] == Move(current, lastAction)
    requires forall j | i < j < |h| :: h[j] != Move(current, lastAction)
    ensures Backtrack(arena, start, h, current, lastAction, selfOnly) ==
            Follow(arena, start, Steps(h, i, current, selfOnly, arena[start].decisionPlayer))
  {
    ReplayFollowsSteps(arena, start, h, i, current, selfOnly, arena[start].decisionPlayer);
  }

  /** The replay from an index only reads the history from that index on, so
      anything before it may be cut away. */
  lemma {:induction false} ReplayShift(arena: Arena, id: NodeId, p: seq<Move>, s: seq<Move>, j: nat,
                                       current: int, selfOnly: bool, rootPlayer: int)
    requires Closed(arena) && id in arena && j <= |s|
    ensures Replay(arena, id, p + s, |p| + j, current, selfOnly, rootPlayer) ==
            Replay(arena, id, s, j, current, selfOnly, rootPlayer)
    decreases |s| - j
  {
    if j < |s| {
      assert (p + s)[|p| + j] == s[j];
      if j < |s| - 1 {
        assert (p + s)[|p| + j + 1] == s[j + 1];
      }
      assert NextActor(p + s, |p| + j, current) == NextActor(s, j, current);
      var next := if selfOnly then rootPlayer else NextActor(s, j, current);
      if selfOnly && s[j].player != rootPlayer {
        ReplayShift(arena, id, p, s, j + 1, current, selfOnly, rootPlayer);
      } else {
        match Step(arena, id, Edge(s[j].action, next))
        case Landed(n) => ReplayShift(arena, n, p, s, j + 1, current, selfOnly, rootPlayer);
        case Lost =>
        case OutOfRange =>
      }
    }
  }

  /** Earlier matches are never used: once the expected entry occurs in the
      suffix `s`, everything before `s` is irrelevant to the result. */
  lemma BacktrackIgnoresEarlierHistory(arena: Arena, start: NodeId, p: seq<Move>, s: seq<Move>,
                                       current: int, lastAction: Action, selfOnly: bool)
    requires Closed(arena) && start in arena
    requires Move(current, lastAction) in s
    ensures Backtrack(arena, start, p + s, current, lastAction, selfOnly) ==
            Backtrack(arena, start, s, current, lastAction, selfOnly)
  {
    var m := Move(current, lastAction);
    var j := LastMatch(s, m).value;
    assert (p + s)[|p| + j] == m;
    assert forall k | |p| + j < k < |p + s| :: (p + s)[k] == s[k - |p|];
    assert LastMatch(p + s, m) == Some(|p| + j);
    ReplayShift(arena, start, p, s, j, current, selfOnly, arena[start].decisionPlayer);
  }
}

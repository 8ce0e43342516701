/** Choosing the root of the next search (MCTSEAHPlayer.newRootNode,
    newMultiTreeRootNode, createRootNode, registerUpdatedObservation): reuse
    the previous tree by backtracking, prune the transposition graph, or
    build a fresh root. */
module ReuseRoot {
  import opened Basics
  import opened ReuseWalk

  /** MCTSEAHEnums.OpponentTreePolicy. */
  datatype OpponentTreePolicy = OneTree | SelfOnly | MultiTree | MCGS | MCGSSelfOnly | OMA | OMA_All

  /** The node class a fresh root is built from. */
  datatype NodeKind = SingleTreeNode | OMATreeNode | MCGSNode | MultiTreeNode

  /** A transposition-table key (the state key of the graph search). */
  type Key = string

  /** The fatal conditions of the reuse protocol: the two `AssertionError`s of
      `newRootNode`, the visit-count check of the graph, a dereferenced null
      root, and an out-of-bounds child-array index. */
  datatype Fatal = SameRoot | PlayerMismatch | FewerVisits | NullRoot | ChildIndexOutOfRange

  /** Under these policies the tree holds only the root player's own moves. */
  predicate OwnMovesOnly(p: OpponentTreePolicy)
  {
    p == SelfOnly || p == MultiTree
  }

  predicate IsGraph(p: OpponentTreePolicy)
  {
    p == MCGS || p == MCGSSelfOnly
  }

  /** The previous root: none, one tree node, or one root per player. */
  datatype RootRef = NoRoot | TreeRoot(node: NodeId) | MultiRoot(roots: seq<Option<NodeId>>)

  /** What the player keeps between decisions. `table` is the transposition
      map owned by the graph root; `oldGraphKeys` its recorded visit counts. */
  datatype Searcher = Searcher(
    reuseTree: bool,
    policy: OpponentTreePolicy,
    root: RootRef,
    lastAction: Action,
    table: map<Key, NodeId>,
    oldGraphKeys: map<Key, nat>)

  /** What the new game state offers: its history, its current player, and
      its state key. */
  datatype Observation = Observation(history: seq<Move>, current: int, stateKey: Key)

  ghost predicate TableIn(arena: Arena, table: map<Key, NodeId>)
  {
    forall k | k in table :: table[k] in arena
  }

  /** References of the searcher name arena nodes, and the root's shape
      matches the policy (the source casts the root to MultiTreeNode or
      MCGSNode accordingly). */
  ghost predicate Valid(s: Searcher, arena: Arena)
  {
    && Closed(arena)
    && TableIn(arena, s.table)
    && (s.root.TreeRoot? ==> s.root.node in arena && s.policy != MultiTree)
    && (s.root.MultiRoot? ==>
          s.policy == MultiTree &&
          forall p | 0 <= p < |s.root.roots| :: s.root.roots[p].Some? ==> s.root.roots[p].value in arena)
  }

  /** Current visits of a recorded key; an absent key counts as 0 visits. */
  function VisitsNow(arena: Arena, table: map<Key, NodeId>, k: Key): nat
    requires TableIn(arena, table)
  {
    if k in table then arena[table[k]].visits else 0
  }

  /** Some recorded key has fewer visits than when it was recorded. */
  predicate Decreased(arena: Arena, table: map<Key, NodeId>, recorded: map<Key, nat>)
    requires TableIn(arena, table)
  {
    exists k | k in recorded :: VisitsNow(arena, table, k) < recorded[k]
  }

  /** The table without the recorded keys whose visit count did not change. */
  function Pruned(arena: Arena, table: map<Key, NodeId>, recorded: map<Key, nat>): map<Key, NodeId>
    requires TableIn(arena, table)
  {
    map k | k in table && !(k in recorded && VisitsNow(arena, table, k) == recorded[k]) :: table[k]
  }

  /** The loop over the recorded keys, in any order, as written: remove a key
      whose visits are unchanged, fail on one whose visits decreased. */
  method CollectGarbage(arena: Arena, table: map<Key, NodeId>, recorded: map<Key, nat>)
    returns (r: Result<map<Key, NodeId>, Fatal>)
    requires TableIn(arena, table)
    ensures r.Err? <==> Decreased(arena, table, recorded)
    ensures r.Err? ==> r.error == FewerVisits
    ensures r.Ok? ==> r.value == Pruned(arena, table, recorded)
  {
    var pending := recorded.Keys;
    var t := table;
    while pending != {}
      invariant pending <= recorded.Keys
      invariant forall k | k in recorded && k !in pending :: VisitsNow(arena, table, k) >= recorded[k]
      invariant t.Keys <= table.Keys
      invariant forall k | k in t :: t[k] == table[k]
      invariant forall k | k in table :: k in t <==>
        !(k in recorded && k !in pending && VisitsNow(arena, table, k) == recorded[k])
      decreases pending
    {
      var k :| k in pending;
      var newVisits := if k in t then arena[t[k]].visits else 0;
      assert newVisits == VisitsNow(arena, table, k);
      if newVisits == recorded[k] {
        t := t - {k};
      } else if newVisits < recorded[k] {
        return Err(FewerVisits);
      }
      pending := pending - {k};
    }
    assert !Decreased(arena, table, recorded);
    return Ok(t);
  }

  /** The result of the relocation step, before the root itself is replaced. */
  datatype Relocation =
    | NoReuse                               // `null`: a fresh root will be built
    | Relocated(node: NodeId)               // a tree or graph node becomes the root
    | Roots(roots: seq<Option<NodeId>>)     // the multi-tree root, each player's root relocated

  datatype Reuse = Reuse(relocation: Relocation, after: Searcher)

  /** The graph branch of `newRootNode`. */
  function GraphRoot(s: Searcher, arena: Arena, obs: Observation): (r: Result<Reuse, Fatal>)
    requires Valid(s, arena) && !s.root.MultiRoot?
    ensures s.root.NoRoot? ==> (r.Err? <==> |s.oldGraphKeys| > 0)
    ensures s.root.TreeRoot? ==> (r.Err? <==> Decreased(arena, s.table, s.oldGraphKeys))
    ensures r.Err? ==> r.error == (if s.root.NoRoot? then NullRoot else FewerVisits)
    ensures r.Ok? ==> r.value.relocation.NoReuse? || r.value.relocation.Relocated?
    ensures r.Ok? ==> r.value.after == s.(table := r.value.after.table,
                                          oldGraphKeys := r.value.after.oldGraphKeys)
    // a recorded key survives exactly when its visits increased; unrecorded keys survive
    ensures r.Ok? && s.root.TreeRoot? ==> forall k ::
      k in r.value.after.table <==>
        (k in s.table && (k in s.oldGraphKeys ==> VisitsNow(arena, s.table, k) > s.oldGraphKeys[k]))
    ensures r.Ok? ==> forall k | k in r.value.after.table :: k in s.table && r.value.after.table[k] == s.table[k]
    // a relocated root comes with the visit snapshot of the pruned table
    ensures r.Ok? && r.value.relocation.Relocated? ==>
      && obs.stateKey in r.value.after.table
      && r.value.relocation.node == r.value.after.table[obs.stateKey]
      && r.value.after.oldGraphKeys.Keys == r.value.after.table.Keys
      && forall k | k in r.value.after.table ::
           r.value.after.oldGraphKeys[k] == arena[r.value.after.table[k]].visits
    ensures r.Ok? && r.value.relocation.NoReuse? ==> r.value.after.oldGraphKeys == map[]
    ensures r.Ok? && s.root.TreeRoot? && obs.stateKey !in s.table ==> r.value.relocation.NoReuse?
  {
    if s.root.NoRoot? then
      // the loop dereferences the null root as soon as one key was recorded
      if |s.oldGraphKeys| > 0 then Err(NullRoot)
      else Ok(Reuse(NoReuse, s.(oldGraphKeys := map[])))
    else if Decreased(arena, s.table, s.oldGraphKeys) then Err(FewerVisits)
    else
      var t := Pruned(arena, s.table, s.oldGraphKeys);
      if obs.stateKey !in t then Ok(Reuse(NoReuse, s.(table := t, oldGraphKeys := map[])))
      else
        var snapshot := map k | k in t :: arena[t[k]].visits;
        Ok(Reuse(Relocated(t[obs.stateKey]), s.(table := t, oldGraphKeys := snapshot)))
  }

  /** A walk's end as a root reference: only a landed walk yields a node. */
  function AsRoot(w: Walk): Option<NodeId>
  {
    if w.Landed? then Some(w.node) else None
  }

  /** `newMultiTreeRootNode`: every player's non-null root is backtracked on
      its own (own moves only), null roots stay null. */
  function MultiTreeRoots(arena: Arena, roots: seq<Option<NodeId>>, obs: Observation, lastAction: Action)
    : (r: Result<seq<Option<NodeId>>, Fatal>)
    requires Closed(arena)
    requires forall p | 0 <= p < |roots| :: roots[p].Some? ==> roots[p].value in arena
    ensures r.Ok? ==> |r.value| == |roots|
    ensures r.Ok? ==> forall p | 0 <= p < |roots| :: roots[p].None? ==> r.value[p].None?
    ensures r.Ok? ==> forall p | 0 <= p < |roots| :: roots[p].Some? ==>
      r.value[p] == AsRoot(Backtrack(arena, roots[p].value, obs.history, obs.current, lastAction, true))
    ensures r.Err? <==> (exists p | 0 <= p < |roots| ::
      roots[p].Some? && Backtrack(arena, roots[p].value, obs.history, obs.current, lastAction, true).OutOfRange?)
    ensures r.Err? ==> r.error == ChildIndexOutOfRange
    decreases |roots|
  {
    if roots == [] then Ok([])
    else
      var first :=
        if roots[0].None? then Landed(0)
        else Backtrack(arena, roots[0].value, obs.history, obs.current, lastAction, true);
      var head := if roots[0].None? then None else AsRoot(first);
      match MultiTreeRoots(arena, roots[1..], obs, lastAction)
      case Err(e) => Err(e)
      case Ok(rest) =>
        if first.OutOfRange? then Err(ChildIndexOutOfRange)
        else
          assert forall p | 1 <= p < |roots| :: roots[p] == roots[1..][p - 1];
          Ok([head] + rest)
  }

  /** The single-tree case of `newRootNode`: tree reuse is on, the policy
      is neither a graph nor MultiTree, and a previous root exists. */
  predicate SingleTreeCase(s: Searcher)
  {
    s.reuseTree && !IsGraph(s.policy) && s.policy != MultiTree && s.root.TreeRoot?
  }

  /** Where backtracking from the previous tree root ends. */
  function TreeWalk(s: Searcher, arena: Arena, obs: Observation): Walk
    requires Valid(s, arena) && s.root.TreeRoot?
  {
    Backtrack(arena, s.root.node, obs.history, obs.current, s.lastAction, OwnMovesOnly(s.policy))
  }

  /** `newRootNode`: the graph branch, the multi-tree branch, or backtracking
      of a single tree followed by the two sanity checks on the new root. */
  function NewRootNode(s: Searcher, arena: Arena, obs: Observation): (r: Result<Reuse, Fatal>)
    requires Valid(s, arena)
    ensures !s.reuseTree ==> r == Ok(Reuse(NoReuse, s))
    ensures s.reuseTree && !IsGraph(s.policy) && s.root.NoRoot? ==> r == Ok(Reuse(NoReuse, s))
    ensures !IsGraph(s.policy) && r.Ok? ==> r.value.after == s
    ensures r.Ok? && r.value.relocation.Relocated? ==> r.value.relocation.node in arena
    // a relocated tree root is a different node, owned by and deciding for the current player
    ensures r.Ok? && r.value.relocation.Relocated? && !IsGraph(s.policy) ==>
      && s.root.TreeRoot?
      && r.value.relocation.node != s.root.node
      && arena[r.value.relocation.node].turnOwner == obs.current
      && arena[r.value.relocation.node].decisionPlayer == obs.current
    ensures r.Ok? && r.value.relocation.Roots? ==> s.policy == MultiTree && s.reuseTree
    // without a matching history entry the walk stays on the recorded root: fatal
    ensures (s.reuseTree && !IsGraph(s.policy) && s.policy != MultiTree && s.root.TreeRoot? &&
             Move(obs.current, s.lastAction) !in obs.history) ==> r == Err(SameRoot)
    // the graph policies take the graph branch
    ensures s.reuseTree && IsGraph(s.policy) ==> r == GraphRoot(s, arena, obs)
    // MultiTree relocates every player's root on its own
    ensures s.reuseTree && s.policy == MultiTree && s.root.MultiRoot? ==>
      var m := MultiTreeRoots(arena, s.root.roots, obs, s.lastAction);
      && (r.Ok? <==> m.Ok?)
      && (m.Ok? ==> r.value == Reuse(Roots(m.value), s))
      && (m.Err? ==> r == Err(m.error))
    // a single tree: the outcome of backtracking decides the result
    ensures SingleTreeCase(s) && TreeWalk(s, arena, obs).OutOfRange? ==> r == Err(ChildIndexOutOfRange)
    ensures SingleTreeCase(s) && TreeWalk(s, arena, obs).Lost? ==> r == Ok(Reuse(NoReuse, s))
    ensures SingleTreeCase(s) && TreeWalk(s, arena, obs).Landed? ==>
      var n := TreeWalk(s, arena, obs).node;
      && (n == s.root.node ==> r == Err(SameRoot))
      && (n != s.root.node ==>
            if arena[n].turnOwner == obs.current && arena[n].decisionPlayer == obs.current
            then r == Ok(Reuse(Relocated(n), s))
            else r == Err(PlayerMismatch))
  {
    if s.reuseTree && IsGraph(s.policy) then
      GraphRoot(s, arena, obs)
    else if !s.reuseTree || s.root.NoRoot? then
      Ok(Reuse(NoReuse, s))
    else if s.policy == MultiTree then
      match MultiTreeRoots(arena, s.root.roots, obs, s.lastAction)
      case Ok(roots) => Ok(Reuse(Roots(roots), s))
      case Err(e) => Err(e)
    else
      var start := s.root.node;
      match Backtrack(arena, start, obs.history, obs.current, s.lastAction, OwnMovesOnly(s.policy))
      case OutOfRange => Err(ChildIndexOutOfRange)
      case Lost => Ok(Reuse(NoReuse, s))
      case Landed(n) =>
        if n == start then Err(SameRoot)
        else if arena[n].turnOwner != obs.current || arena[n].decisionPlayer != obs.current then
          Err(PlayerMismatch)
        else Ok(Reuse(Relocated(n), s))
  }

  /** For a single tree, the new root is found by following the reference
      edge list from the most recent matching history entry: the search
      relocates to a node exactly when that walk lands on a different node
      owned by and deciding for the current player, and it starts afresh
      exactly when the walk gets lost. */
  lemma NewRootNodeFollowsSteps(s: Searcher, arena: Arena, obs: Observation, i: nat, n: NodeId)
    requires Valid(s, arena) && SingleTreeCase(s)
    requires i < |obs.history| && obs.history[i] == Move(obs.current, s.lastAction)
    requires forall j | i < j < |obs.history| :: obs.history[j] != Move(obs.current, s.lastAction)
    ensures var w := Follow(arena, s.root.node,
                            Steps(obs.history, i, obs.current, OwnMovesOnly(s.policy), arena[s.root.node].decisionPlayer));
      && (NewRootNode(s, arena, obs) == Ok(Reuse(Relocated(n), s)) <==>
            && w == Landed(n) && n != s.root.node
            && arena[n].turnOwner == obs.current && arena[n].decisionPlayer == obs.current)
      && (NewRootNode(s, arena, obs) == Ok(Reuse(NoReuse, s)) <==> w.Lost?)
  {
    BacktrackFromLastMatch(arena, s.root.node, obs.history, obs.current, s.lastAction, OwnMovesOnly(s.policy), i);
  }

  /** The node class `getFactory` supplies for a policy. */
  function FactoryKind(p: OpponentTreePolicy): NodeKind
  {
    if p == OMA || p == OMA_All then OMATreeNode
    else if IsGraph(p) then MCGSNode
    else SingleTreeNode
  }

  /** The root the next search starts from. */
  datatype RootChoice = Fresh(kind: NodeKind) | Reused(relocation: Relocation)

  /** `createRootNode`: a null result of `newRootNode` builds a fresh root
      (a multi-tree root under MultiTree, else the factory's node class);
      anything else is used as the root. */
  function CreateRootNode(s: Searcher, arena: Arena, obs: Observation): (r: Result<(RootChoice, Searcher), Fatal>)
    requires Valid(s, arena)
    ensures r.Err? <==> NewRootNode(s, arena, obs).Err?
    ensures r.Ok? ==> r.value.1 == NewRootNode(s, arena, obs).value.after
    ensures r.Ok? && r.value.0.Fresh? ==> NewRootNode(s, arena, obs).value.relocation.NoReuse?
    ensures r.Ok? && r.value.0.Reused? ==> r.value.0.relocation == NewRootNode(s, arena, obs).value.relocation
    ensures r.Ok? && r.value.0.Fresh? ==>
      && (r.value.0.kind == MultiTreeNode <==> s.policy == MultiTree)
      && (r.value.0.kind == MCGSNode <==> IsGraph(s.policy))
      && (r.value.0.kind == OMATreeNode <==> s.policy in {OMA, OMA_All})
    ensures !s.reuseTree ==> r.Ok? && r.value.0.Fresh?
  {
    match NewRootNode(s, arena, obs)
    case Err(e) => Err(e)
    case Ok(Reuse(relocation, after)) =>
      if relocation.NoReuse? then
        Ok((Fresh(if s.policy == MultiTree then MultiTreeNode else FactoryKind(s.policy)), after))
      else Ok((Reused(relocation), after))
  }

  /** `registerUpdatedObservation`: without tree reuse the recorded root is dropped. */
  function RegisterUpdatedObservation(s: Searcher): (r: Searcher)
    ensures !s.reuseTree ==> r.root == NoRoot
    ensures s.reuseTree ==> r == s
    ensures r == s.(root := r.root)
  {
    if s.reuseTree then s else s.(root := NoRoot)
  }

  /** `children[action][slot]` of `id` is the node `c`. */
  predicate HasChild(arena: Arena, id: NodeId, a: Action, slot: nat, c: NodeId)
  {
    && id in arena
    && arena[id].children.Some?
    && a in arena[id].children.value
    && slot < |arena[id].children.value[a]|
    && arena[id].children.value[a][slot] == Some(c)
  }

  /** After our action `a` and the opponent's reply `b`, a OneTree search that
      expanded both moves relocates its root to exactly the grandchild reached
      by them, with the node and its statistics untouched. */
  lemma OpponentReplyReusesGrandchild(s: Searcher, arena: Arena, obs: Observation, pre: seq<Move>,
                                      me: nat, opp: nat, a: Action, b: Action, child: NodeId, grandchild: NodeId)
    requires Valid(s, arena) && s.reuseTree && s.policy == OneTree && s.root.TreeRoot?
    requires me != opp && s.lastAction == a
    requires obs.history == pre + [Move(me, a), Move(opp, b)] && obs.current == me
    requires HasChild(arena, s.root.node, a, opp, child)
    requires HasChild(arena, child, b, me, grandchild)
    requires grandchild != s.root.node
    requires arena[grandchild].turnOwner == me && arena[grandchild].decisionPlayer == me
    ensures NewRootNode(s, arena, obs) == Ok(Reuse(Relocated(grandchild), s))
  {
    var h := obs.history;
    var m := Move(me, a);
    assert h[|h| - 1] != m;
    assert h[..|h| - 1] == pre + [m];
    assert LastMatch(h, m) == Some(|pre|);
    var start := s.root.node;
    var rp := arena[start].decisionPlayer;
    assert NextActor(h, |pre|, me) == opp;
    assert Step(arena, start, Edge(a, opp)) == Landed(child);
    assert Step(arena, child, Edge(b, me)) == Landed(grandchild);
    assert Replay(arena, grandchild, h, |pre| + 2, me, false, rp) == Landed(grandchild);
    assert Replay(arena, child, h, |pre| + 1, me, false, rp) == Landed(grandchild);
    assert Replay(arena, start, h, |pre|, me, false, rp) == Landed(grandchild);
  }
}

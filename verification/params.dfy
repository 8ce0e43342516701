/** The search parameters (MCTSEAHParams): the normalisation applied when
    registered values are read back (`_reset`), the MAST check of
    `instantiate`, and the lazily built rollout and opponent strategies. */
module SearchParams {
  import Basics
  import ReuseRoot

  datatype SelectionPolicy = SIMPLE | ROBUST | TREE

  /** The tree policies the normalisation names; every other policy of the
      enumeration is carried as `OtherTreePolicy`. */
  datatype TreePolicy = UCB | UCB_Tuned | AlphaGo | OtherTreePolicy(name: string)

  datatype Information = Closed_Loop | Open_Loop | Information_Set

  datatype MASTType = None | Rollout | Tree | Both

  datatype Strategies = RANDOM | MAST | CLASS | PARAMS | DEFAULT

  /** The values registered for the tunable parameters (what
      `getParameterValue` returns). `rolloutParams`/`opponentParams` say
      whether the registered policy-parameter objects are non-null. */
  datatype Settings = Settings(
    selectionPolicy: SelectionPolicy,
    treePolicy: TreePolicy,
    information: Information,
    discardStateAfterEachIteration: bool,
    mast: MASTType,
    useMASTAsActionHeuristic: bool,
    rolloutType: Strategies,
    oppModelType: Strategies,
    rolloutClass: string,
    oppModelClass: string,
    opponentTreePolicy: ReuseRoot.OpponentTreePolicy,
    reuseTree: bool,
    rolloutParams: bool,
    opponentParams: bool)

  /** What a built strategy is. */
  datatype StrategyKind =
    | RandomPlayer(seed: int)
    | MASTPlayer(seed: int)
    | Loaded(className: string)
    | FromPolicyParams

  /** A strategy object; `id` is its object identity. */
  datatype Strategy = Strategy(id: nat, kind: StrategyKind, actionSpace: int)

  /** The parameter object. `rolloutPolicy` and `opponentModel` are the lazily
      built strategies (`None` is null); `nextId` is the identity the next
      built object receives. `hasRolloutParams`/`hasOpponentParams` say
      whether the policy-parameter objects are non-null. */
  datatype Params = Params(
    selectionPolicy: SelectionPolicy,
    treePolicy: TreePolicy,
    information: Information,
    discardStateAfterEachIteration: bool,
    mast: MASTType,
    useMAST: bool,
    useMASTAsActionHeuristic: bool,
    rolloutType: Strategies,
    oppModelType: Strategies,
    rolloutClass: string,
    oppModelClass: string,
    opponentTreePolicy: ReuseRoot.OpponentTreePolicy,
    reuseTree: bool,
    hasRolloutParams: bool,
    hasOpponentParams: bool,
    seed: int,
    actionSpace: int,
    rolloutPolicy: Basics.Option<Strategy>,
    opponentModel: Basics.Option<Strategy>,
    nextId: nat)

  datatype ConfigError = MastNotCollected | PolicyParamsNotSet | UnknownStrategy | NullPolicyParams

  /** Tree policies for which TREE selection is the same as SIMPLE. */
  predicate SelectsLikeSimple(t: TreePolicy)
  {
    t == UCB || t == UCB_Tuned || t == AlphaGo
  }

  /** Every strategy held was built before `nextId` was handed out. */
  predicate IdsIssued(p: Params)
  {
    && (p.rolloutPolicy.Some? ==> p.rolloutPolicy.value.id < p.nextId)
    && (p.opponentModel.Some? ==> p.opponentModel.value.id < p.nextId)
  }

  /** `_reset`: read the registered values back, normalising inconsistent
      combinations, and drop both lazily built strategies. */
  function Reset(p: Params, v: Settings): (r: Params)
    ensures r.selectionPolicy == SIMPLE <==>
      v.selectionPolicy == SIMPLE || (v.selectionPolicy == TREE && SelectsLikeSimple(v.treePolicy))
    ensures r.selectionPolicy != SIMPLE ==> r.selectionPolicy == v.selectionPolicy
    ensures r.treePolicy == v.treePolicy && r.information == v.information
    ensures v.information == Closed_Loop ==> !r.discardStateAfterEachIteration
    ensures v.information != Closed_Loop ==> r.discardStateAfterEachIteration == v.discardStateAfterEachIteration
    ensures r.mast == v.mast && (r.useMAST <==> r.mast != None)
    ensures r.useMASTAsActionHeuristic == v.useMASTAsActionHeuristic
    ensures r.rolloutType == v.rolloutType && r.oppModelType == v.oppModelType
    ensures r.rolloutClass == v.rolloutClass && r.oppModelClass == v.oppModelClass
    ensures r.opponentTreePolicy == v.opponentTreePolicy && r.reuseTree == v.reuseTree
    ensures r.hasRolloutParams == v.rolloutParams && r.hasOpponentParams == v.opponentParams
    ensures r.rolloutPolicy.None? && r.opponentModel.None?
    ensures r.nextId == p.nextId && r.seed == p.seed && r.actionSpace == p.actionSpace
    ensures IdsIssued(r)
  {
    var selection :=
      if v.selectionPolicy == TREE && SelectsLikeSimple(v.treePolicy) then SIMPLE else v.selectionPolicy;
    p.(selectionPolicy := selection,
       treePolicy := v.treePolicy,
       information := v.information,
       discardStateAfterEachIteration :=
         if v.information == Closed_Loop then false else v.discardStateAfterEachIteration,
       mast := v.mast,
       useMAST := v.mast != None,
       useMASTAsActionHeuristic := v.useMASTAsActionHeuristic,
       rolloutType := v.rolloutType,
       oppModelType := v.oppModelType,
       rolloutClass := v.rolloutClass,
       oppModelClass := v.oppModelClass,
       opponentTreePolicy := v.opponentTreePolicy,
       reuseTree := v.reuseTree,
       hasRolloutParams := v.rolloutParams,
       hasOpponentParams := v.opponentParams,
       rolloutPolicy := Basics.None,
       opponentModel := Basics.None)
  }

  /** `instantiate`: refuse to build a player that uses MAST data (as action
      heuristic or rollout policy) when MAST data is not collected. */
  function Instantiate(p: Params): (r: Basics.Result<Params, ConfigError>)
    ensures r.Ok? ==> r.value == p
    ensures r.Ok? && (p.useMASTAsActionHeuristic || p.rolloutType == MAST) ==> p.useMAST
    ensures r.Err? <==> !p.useMAST && (p.useMASTAsActionHeuristic || p.rolloutType == MAST)
    ensures r.Err? ==> r.error == MastNotCollected
  {
    if !p.useMAST && (p.useMASTAsActionHeuristic || p.rolloutType == MAST) then
      Basics.Err(MastNotCollected)
    else Basics.Ok(p)
  }

  /** After a reset, instantiation fails exactly when MAST is switched off but
      used as the action heuristic or as the rollout type. */
  lemma InstantiateAfterReset(p: Params, v: Settings)
    ensures Instantiate(Reset(p, v)).Err? <==>
      v.mast == None && (v.useMASTAsActionHeuristic || v.rolloutType == MAST)
  {
  }

  /** `constructStrategy`: RANDOM, MAST and CLASS build a strategy; PARAMS
      and any other type are errors. */
  function ConstructStrategy(p: Params, t: Strategies, details: string): (r: Basics.Result<StrategyKind, ConfigError>)
    ensures r.Err? <==> t == PARAMS || t == DEFAULT
    ensures t == PARAMS ==> r == Basics.Err(PolicyParamsNotSet)
    ensures t == DEFAULT ==> r == Basics.Err(UnknownStrategy)
    ensures t == CLASS ==> r == Basics.Ok(Loaded(details))
    ensures t == RANDOM ==> r == Basics.Ok(RandomPlayer(p.seed))
    ensures t == MAST ==> r == Basics.Ok(MASTPlayer(p.seed))
  {
    match t
    case RANDOM => Basics.Ok(RandomPlayer(p.seed))
    case MAST => Basics.Ok(MASTPlayer(p.seed))
    case CLASS => Basics.Ok(Loaded(details))
    case PARAMS => Basics.Err(PolicyParamsNotSet)
    case _ => Basics.Err(UnknownStrategy)
  }

  /** What a missing rollout strategy would be built as. */
  function RolloutKind(p: Params): Basics.Result<StrategyKind, ConfigError>
  {
    if p.rolloutType == PARAMS then
      (if p.hasRolloutParams then Basics.Ok(FromPolicyParams) else Basics.Err(NullPolicyParams))
    else ConstructStrategy(p, p.rolloutType, p.rolloutClass)
  }

  /** `getRolloutStrategy`: return the held strategy, or build one object,
      give it the parameters' action space, and hold it. */
  function GetRolloutStrategy(p: Params): (r: Basics.Result<(Params, Strategy), ConfigError>)
    requires IdsIssued(p)
    ensures p.rolloutPolicy.Some? ==> r == Basics.Ok((p, p.rolloutPolicy.value))
    ensures r.Ok? ==> r.value.0.rolloutPolicy == Basics.Some(r.value.1) && IdsIssued(r.value.0)
    ensures r.Ok? ==> r.value.0 == p.(rolloutPolicy := r.value.0.rolloutPolicy, nextId := r.value.0.nextId)
    ensures r.Ok? && p.rolloutPolicy.None? ==>
      && r.value.1.id == p.nextId && r.value.0.nextId == p.nextId + 1
      && r.value.1.actionSpace == p.actionSpace
    ensures r.Err? ==> p.rolloutPolicy.None? && (p.rolloutType == PARAMS || p.rolloutType == DEFAULT)
    // what gets built: the policy parameters' player, or `constructStrategy`
    ensures p.rolloutPolicy.None? && p.rolloutType == PARAMS ==>
      && (r.Ok? <==> p.hasRolloutParams)
      && (r.Ok? ==> r.value.1.kind == FromPolicyParams)
      && (r.Err? ==> r.error == NullPolicyParams)
    ensures p.rolloutPolicy.None? && p.rolloutType != PARAMS ==>
      && (r.Err? <==> p.rolloutType == DEFAULT)
      && (r.Ok? ==> ConstructStrategy(p, p.rolloutType, p.rolloutClass) == Basics.Ok(r.value.1.kind))
      && (r.Err? ==> r.error == UnknownStrategy)
  {
    if p.rolloutPolicy.Some? then Basics.Ok((p, p.rolloutPolicy.value))
    else
      match RolloutKind(p)
      case Err(e) => Basics.Err(e)
      case Ok(kind) =>
        var s := Strategy(p.nextId, kind, p.actionSpace);
        Basics.Ok((p.(rolloutPolicy := Basics.Some(s), nextId := p.nextId + 1), s))
  }

  /** `getOpponentModel`: return the held model, or build one; with DEFAULT
      the opponent model is the rollout strategy object itself. */
  function GetOpponentModel(p: Params): (r: Basics.Result<(Params, Strategy), ConfigError>)
    requires IdsIssued(p)
    ensures p.opponentModel.Some? ==> r == Basics.Ok((p, p.opponentModel.value))
    ensures r.Ok? ==> r.value.0.opponentModel == Basics.Some(r.value.1) && IdsIssued(r.value.0)
    ensures r.Ok? && p.opponentModel.None? && p.oppModelType == DEFAULT ==>
      r.value.0.rolloutPolicy == Basics.Some(r.value.1)
    ensures r.Ok? && p.opponentModel.None? && p.oppModelType != DEFAULT ==>
      r.value.1.id == p.nextId && r.value.0.rolloutPolicy == p.rolloutPolicy
    ensures r.Ok? && p.opponentModel.None? ==> r.value.1.actionSpace == p.actionSpace
    // what gets built: the rollout strategy, the policy parameters' player,
    // or `constructStrategy`
    ensures p.opponentModel.None? && p.oppModelType == DEFAULT ==>
      && (r.Ok? <==> GetRolloutStrategy(p).Ok?)
      && (r.Ok? ==> r.value.1 == GetRolloutStrategy(p).value.1.(actionSpace := p.actionSpace))
      && (r.Err? ==> r.error == GetRolloutStrategy(p).error)
    ensures p.opponentModel.None? && p.oppModelType == PARAMS ==>
      && (r.Ok? <==> p.hasOpponentParams)
      && (r.Ok? ==> r.value.1.kind == FromPolicyParams)
      && (r.Err? ==> r.error == NullPolicyParams)
    ensures p.opponentModel.None? && p.oppModelType != PARAMS && p.oppModelType != DEFAULT ==>
      && r.Ok?
      && ConstructStrategy(p, p.oppModelType, p.oppModelClass) == Basics.Ok(r.value.1.kind)
  {
    if p.opponentModel.Some? then Basics.Ok((p, p.opponentModel.value))
    else if p.oppModelType == DEFAULT then
      match GetRolloutStrategy(p)
      case Err(e) => Basics.Err(e)
      case Ok((q, s)) =>
        // the one object held in both places receives the action space
        var s' := s.(actionSpace := p.actionSpace);
        Basics.Ok((q.(rolloutPolicy := Basics.Some(s'), opponentModel := Basics.Some(s')), s'))
    else
      var kind :=
        if p.oppModelType == PARAMS then
          (if p.hasOpponentParams then Basics.Ok(FromPolicyParams) else Basics.Err(NullPolicyParams))
        else ConstructStrategy(p, p.oppModelType, p.oppModelClass);
      match kind
      case Err(e) => Basics.Err(e)
      case Ok(k) =>
        var s := Strategy(p.nextId, k, p.actionSpace);
        Basics.Ok((p.(opponentModel := Basics.Some(s), nextId := p.nextId + 1), s))
  }

  /** Memoisation: after a reset the first call builds one new object, every
      later call returns that same object, and the next reset forces a
      different object to be built. */
  lemma RolloutStrategyBuiltOncePerReset(p: Params, v: Settings, w: Settings)
    requires IdsIssued(p)
    requires GetRolloutStrategy(Reset(p, v)).Ok?
    ensures
      var (q, s) := GetRolloutStrategy(Reset(p, v)).value;
      && s.id == p.nextId
      && GetRolloutStrategy(q) == Basics.Ok((q, s))
      && (GetRolloutStrategy(Reset(q, w)).Ok? ==> GetRolloutStrategy(Reset(q, w)).value.1.id != s.id)
  {
  }

  /** With the DEFAULT opponent model, the opponent model and the rollout
      strategy are one object, whichever is asked for first. */
  lemma DefaultOpponentIsRolloutStrategy(p: Params)
    requires IdsIssued(p) && p.oppModelType == DEFAULT && p.opponentModel.None?
    requires GetRolloutStrategy(p).Ok?
    ensures
      var (q, s) := GetRolloutStrategy(p).value;
      && GetOpponentModel(q).Ok? && GetOpponentModel(q).value.1.id == s.id
      && GetOpponentModel(p).Ok? && GetOpponentModel(p).value.1.id == s.id
  {
  }
}

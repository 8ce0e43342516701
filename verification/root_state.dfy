/** Bookkeeping of the Root game state (RootGameState): scores under the
    Score victory condition, the per-turn counters, the building and token
    supplies, Woodland Alliance officers, and the Vagabond's relationship
    ("aid") state machine. Every mutator is a state transformer; the ones
    that throw return a `Result`. */
module RootState {
  import opened Basics

  datatype VictoryCondition = Score | OtherCondition

  datatype Suit = Fox | Rabbit | Mouse | Bird | Forrest

  /** `OtherBuilding` and `OtherToken` stand for enumeration values that the
      switches of the mutators do not list. */
  datatype BuildingType = Roost | Recruiter | Workshop | Sawmill | MouseBase | RabbitBase | FoxBase | OtherBuilding

  datatype TokenType = Wood | Sympathy | Keep | OtherToken

  datatype Faction = MarquiseDeCat | EyrieDynasties | WoodlandAlliance | Vagabond

  datatype Relationship = Hostile | Neutral | One | Two | Allied

  /** Buildings still in each faction's supply. */
  datatype Buildings = Buildings(
    roosts: int, recruiters: int, workshops: int, sawmills: int,
    mouseBase: int, rabbitBase: int, foxBase: int)

  datatype State = State(
    scores: seq<int>,
    victory: seq<VictoryCondition>,
    subPhase: int,
    actionsPlayed: int,
    playedSuits: seq<Suit>,
    buildings: Buildings,
    wood: int,
    sympathy: int,
    keep: bool,
    woodlandWarriors: int,
    officers: int,
    relationships: map<Faction, Relationship>,
    aidNumbers: map<Faction, int>)

  datatype Failure = NotAvailable | NoWarriors | NullAidCount

  /** `p` indexes both per-player arrays. */
  predicate IsPlayer(s: State, p: int)
  {
    |s.victory| == |s.scores| && 0 <= p < |s.scores|
  }

  // ----- scores -----

  /** `addGameScorePLayer`. */
  function AddScore(s: State, p: int, n: int): (r: State)
    requires IsPlayer(s, p)
    ensures IsPlayer(r, p) && |r.scores| == |s.scores|
    ensures r.scores[p] == if s.victory[p] == Score then s.scores[p] + n else s.scores[p]
    ensures forall q :: 0 <= q < |s.scores| && q != p ==> r.scores[q] == s.scores[q]
    ensures r == s.(scores := r.scores)
  {
    if s.victory[p] == Score then s.(scores := s.scores[p := s.scores[p] + n]) else s
  }

  /** `removeGameScorePlayer`: one point off, never below zero. */
  function RemoveScore(s: State, p: int): (r: State)
    requires IsPlayer(s, p)
    ensures IsPlayer(r, p) && |r.scores| == |s.scores|
    ensures s.victory[p] == Score && s.scores[p] > 0 ==> r.scores[p] == s.scores[p] - 1
    ensures s.victory[p] != Score || s.scores[p] <= 0 ==> r.scores[p] == s.scores[p]
    ensures s.scores[p] >= 0 ==> r.scores[p] >= 0
    ensures forall q :: 0 <= q < |s.scores| && q != p ==> r.scores[q] == s.scores[q]
    ensures r == s.(scores := r.scores)
  {
    if s.victory[p] == Score && s.scores[p] > 0 then s.(scores := s.scores[p := s.scores[p] - 1]) else s
  }

  /** `setGameScorePlayer`. */
  function SetScore(s: State, p: int, n: int): (r: State)
    requires IsPlayer(s, p)
    ensures IsPlayer(r, p) && |r.scores| == |s.scores|
    ensures r.scores[p] == if s.victory[p] == Score then n else s.scores[p]
    ensures forall q :: 0 <= q < |s.scores| && q != p ==> r.scores[q] == s.scores[q]
    ensures r == s.(scores := r.scores)
  {
    if s.victory[p] == Score then s.(scores := s.scores[p := n]) else s
  }

  /** A player who has switched to another victory condition keeps the
      score they had, whatever score operation is applied. */
  lemma ScoresFrozenOutsideScoreCondition(s: State, p: int, n: int)
    requires IsPlayer(s, p) && s.victory[p] != Score
    ensures AddScore(s, p, n) == s && RemoveScore(s, p) == s && SetScore(s, p, n) == s
  {
  }

  /** Under Score, removing a point after adding one gives the state back. */
  lemma RemoveScoreUndoesAddOne(s: State, p: int)
    requires IsPlayer(s, p) && s.scores[p] >= 0
    ensures RemoveScore(AddScore(s, p, 1), p) == s
  {
    if s.victory[p] == Score {
      assert AddScore(s, p, 1).scores[p := s.scores[p]] == s.scores;
    }
  }

  // ----- turn counters -----

  function IncreaseActionsPlayed(s: State): (r: State)
    ensures r.actionsPlayed == s.actionsPlayed + 1
    ensures r == s.(actionsPlayed := r.actionsPlayed)
  {
    s.(actionsPlayed := s.actionsPlayed + 1)
  }

  /** `decreaseActionsPlayed`: never below zero. */
  function DecreaseActionsPlayed(s: State): (r: State)
    ensures s.actionsPlayed > 0 ==> r.actionsPlayed == s.actionsPlayed - 1
    ensures s.actionsPlayed <= 0 ==> r == s
    ensures s.actionsPlayed >= 0 ==> r.actionsPlayed >= 0
    ensures r == s.(actionsPlayed := r.actionsPlayed)
  {
    if s.actionsPlayed > 0 then s.(actionsPlayed := s.actionsPlayed - 1) else s
  }

  /** `increaseSubGamePhase`: the next sub-phase starts with no played suits
      and no actions played. */
  function IncreaseSubGamePhase(s: State): (r: State)
    ensures r.subPhase == s.subPhase + 1 && r.playedSuits == [] && r.actionsPlayed == 0
    ensures r == s.(subPhase := r.subPhase, playedSuits := [], actionsPlayed := 0)
  {
    s.(subPhase := s.subPhase + 1, playedSuits := [], actionsPlayed := 0)
  }

  lemma DecreaseUndoesIncrease(s: State)
    requires s.actionsPlayed >= 0
    ensures DecreaseActionsPlayed(IncreaseActionsPlayed(s)) == s
  {
  }

  // ----- buildings -----

  /** `getBuildingCount`; unlisted types count 0. */
  function BuildingCount(b: Buildings, bt: BuildingType): int
  {
    match bt
    case Roost => b.roosts
    case Recruiter => b.recruiters
    case Workshop => b.workshops
    case Sawmill => b.sawmills
    case MouseBase => b.mouseBase
    case RabbitBase => b.rabbitBase
    case FoxBase => b.foxBase
    case OtherBuilding => 0
  }

  /** The supply with the count of `bt` changed by `d` (unlisted types have
      no counter). */
  function Shift(b: Buildings, bt: BuildingType, d: int): (r: Buildings)
    ensures bt != OtherBuilding ==> BuildingCount(r, bt) == BuildingCount(b, bt) + d
    ensures forall o :: o != bt ==> BuildingCount(r, o) == BuildingCount(b, o)
    ensures bt == OtherBuilding ==> r == b
  {
    match bt
    case Roost => b.(roosts := b.roosts + d)
    case Recruiter => b.(recruiters := b.recruiters + d)
    case Workshop => b.(workshops := b.workshops + d)
    case Sawmill => b.(sawmills := b.sawmills + d)
    case MouseBase => b.(mouseBase := b.mouseBase + d)
    case RabbitBase => b.(rabbitBase := b.rabbitBase + d)
    case FoxBase => b.(foxBase := b.foxBase + d)
    case OtherBuilding => b
  }

  /** Two supplies with the same counts are the same supply. */
  lemma BuildingsByCount(a: Buildings, b: Buildings)
    requires forall bt :: BuildingCount(a, bt) == BuildingCount(b, bt)
    ensures a == b
  {
    assert BuildingCount(a, Roost) == BuildingCount(b, Roost);
    assert BuildingCount(a, Recruiter) == BuildingCount(b, Recruiter);
    assert BuildingCount(a, Workshop) == BuildingCount(b, Workshop);
    assert BuildingCount(a, Sawmill) == BuildingCount(b, Sawmill);
    assert BuildingCount(a, MouseBase) == BuildingCount(b, MouseBase);
    assert BuildingCount(a, RabbitBase) == BuildingCount(b, RabbitBase);
    assert BuildingCount(a, FoxBase) == BuildingCount(b, FoxBase);
  }

  /** `removeBuilding`: take one building of a listed type from the supply,
      failing when none is left; unlisted types change nothing. */
  function RemoveBuilding(s: State, bt: BuildingType): (r: Result<State, Failure>)
    ensures r.Err? <==> bt != OtherBuilding && BuildingCount(s.buildings, bt) <= 0
    ensures r.Err? ==> r.error == NotAvailable
    ensures r.Ok? && bt != OtherBuilding ==>
      BuildingCount(r.value.buildings, bt) == BuildingCount(s.buildings, bt) - 1
    ensures r.Ok? ==> forall o :: o != bt ==> BuildingCount(r.value.buildings, o) == BuildingCount(s.buildings, o)
    ensures r.Ok? ==> r.value == s.(buildings := r.value.buildings)
  {
    if bt != OtherBuilding && BuildingCount(s.buildings, bt) <= 0 then Err(NotAvailable)
    else Ok(s.(buildings := Shift(s.buildings, bt, -1)))
  }

  /** `addBuilding`: return one building of a listed type to the supply. */
  function AddBuilding(s: State, bt: BuildingType): (r: State)
    ensures bt != OtherBuilding ==> BuildingCount(r.buildings, bt) == BuildingCount(s.buildings, bt) + 1
    ensures forall o :: o != bt ==> BuildingCount(r.buildings, o) == BuildingCount(s.buildings, o)
    ensures r == s.(buildings := r.buildings)
  {
    s.(buildings := Shift(s.buildings, bt, 1))
  }

  predicate SupplyNonNegative(b: Buildings)
  {
    forall bt :: BuildingCount(b, bt) >= 0
  }

  /** A successful removal never takes a counter below zero. */
  lemma RemoveBuildingKeepsSupplyNonNegative(s: State, bt: BuildingType)
    requires SupplyNonNegative(s.buildings) && RemoveBuilding(s, bt).Ok?
    ensures SupplyNonNegative(RemoveBuilding(s, bt).value.buildings)
  {
    var r := RemoveBuilding(s, bt).value;
    forall o ensures BuildingCount(r.buildings, o) >= 0 {
      if o != bt {
        assert BuildingCount(r.buildings, o) == BuildingCount(s.buildings, o);
      }
    }
  }

  /** Adding a building and removing one of the same type restores every
      counter. */
  lemma AddThenRemoveBuilding(s: State, bt: BuildingType)
    requires BuildingCount(s.buildings, bt) >= 0
    ensures RemoveBuilding(AddBuilding(s, bt), bt) == Ok(s)
  {
    var a := AddBuilding(s, bt);
    var r := RemoveBuilding(a, bt);
    assert r.Ok?;
    forall o ensures BuildingCount(r.value.buildings, o) == BuildingCount(s.buildings, o) {
    }
    BuildingsByCount(r.value.buildings, s.buildings);
  }

  // ----- tokens -----

  /** `getTokenCount`: the keep counts as one token while it stands. */
  function TokenCount(s: State, tt: TokenType): int
  {
    match tt
    case Keep => if s.keep then 1 else 0
    case Sympathy => s.sympathy
    case Wood => s.wood
    case OtherToken => 0
  }

  /** `addToken`: wood and sympathy return to the supply; adding the keep
      means it was destroyed. */
  function AddToken(s: State, tt: TokenType): (r: State)
    ensures tt == Wood ==> TokenCount(r, Wood) == TokenCount(s, Wood) + 1
    ensures tt == Sympathy ==> TokenCount(r, Sympathy) == TokenCount(s, Sympathy) + 1
    ensures tt == Keep ==> TokenCount(r, Keep) == 0
    ensures forall o :: o != tt ==> TokenCount(r, o) == TokenCount(s, o)
    ensures r == s.(wood := r.wood, sympathy := r.sympathy, keep := r.keep)
  {
    match tt
    case Wood => s.(wood := s.wood + 1)
    case Sympathy => s.(sympathy := s.sympathy + 1)
    case Keep => s.(keep := false)
    case OtherToken => s
  }

  /** `removeToken`: wood and sympathy never go below zero (the source only
      logs an attempt to remove a missing token); the keep is never removed. */
  function RemoveToken(s: State, tt: TokenType): (r: State)
    ensures (tt == Wood || tt == Sympathy) && TokenCount(s, tt) > 0 ==> TokenCount(r, tt) == TokenCount(s, tt) - 1
    ensures (tt == Wood || tt == Sympathy) && TokenCount(s, tt) <= 0 ==> r == s
    ensures tt == Keep || tt == OtherToken ==> r == s
    ensures forall o :: o != tt ==> TokenCount(r, o) == TokenCount(s, o)
    ensures TokenCount(s, tt) >= 0 ==> TokenCount(r, tt) >= 0
    ensures r == s.(wood := r.wood, sympathy := r.sympathy)
  {
    match tt
    case Wood => if s.wood > 0 then s.(wood := s.wood - 1) else s
    case Sympathy => if s.sympathy > 0 then s.(sympathy := s.sympathy - 1) else s
    case _ => s
  }

  /** `removeSympathyTokens` is `removeToken(Sympathy)`. */
  function RemoveSympathyTokens(s: State): (r: State)
    ensures s.sympathy > 0 ==> r.sympathy == s.sympathy - 1
    ensures s.sympathy <= 0 ==> r == s
    ensures r == s.(sympathy := r.sympathy)
  {
    if s.sympathy > 0 then s.(sympathy := s.sympathy - 1) else s
  }

  lemma RemoveSympathyIsRemoveToken(s: State)
    ensures RemoveSympathyTokens(s) == RemoveToken(s, Sympathy)
  {
  }

  /** Returning a wood or sympathy token and taking it again restores the
      state. */
  lemma RemoveTokenUndoesAddToken(s: State, tt: TokenType)
    requires tt == Wood || tt == Sympathy
    requires TokenCount(s, tt) >= 0
    ensures RemoveToken(AddToken(s, tt), tt) == s
  {
  }

  // ----- officers -----

  /** `addOfficer`: one Woodland Alliance warrior becomes an officer. */
  function AddOfficer(s: State): (r: Result<State, Failure>)
    ensures r.Err? <==> s.woodlandWarriors <= 0
    ensures r.Err? ==> r.error == NoWarriors
    ensures r.Ok? ==>
      && r.value.officers == s.officers + 1
      && r.value.officers + r.value.woodlandWarriors == s.officers + s.woodlandWarriors
      && r.value.woodlandWarriors >= 0
      && r.value == s.(officers := r.value.officers, woodlandWarriors := r.value.woodlandWarriors)
  {
    if s.woodlandWarriors > 0 then
      Ok(s.(officers := s.officers + 1, woodlandWarriors := s.woodlandWarriors - 1))
    else Err(NoWarriors)
  }

  // ----- the Vagabond's relationships -----

  /** Aids needed at each level before the relationship improves, the level
      reached, and the points it is worth. */
  function Threshold(rel: Relationship): int
  {
    match rel
    case Neutral => 1
    case One => 2
    case Two => 3
    case _ => 0
  }

  function Improved(rel: Relationship): Relationship
  {
    match rel
    case Neutral => One
    case One => Two
    case Two => Allied
    case _ => rel
  }

  function PromotionPoints(rel: Relationship): int
  {
    if rel == Neutral then 1 else 2
  }

  function Rank(rel: Relationship): int
  {
    match rel
    case Hostile => -1
    case Neutral => 0
    case One => 1
    case Two => 2
    case Allied => 3
  }

  /** `aid(playerID, faction)`. A faction without a relationship (a null
      lookup) or a hostile one is left alone; otherwise a missing aid count
      is a null dereference. */
  function Aid(s: State, p: int, f: Faction): (r: Result<State, Failure>)
    requires IsPlayer(s, p)
    ensures f !in s.relationships || s.relationships[f] == Hostile ==> r == Ok(s)
    ensures f in s.relationships && s.relationships[f] != Hostile ==> (r.Err? <==> f !in s.aidNumbers)
    ensures r.Err? ==> r.error == NullAidCount
    ensures r.Ok? ==> IsPlayer(r.value, p)
    ensures r.Ok? && f in s.relationships && s.relationships[f] != Hostile ==>
      var rel := s.relationships[f];
      var n := s.aidNumbers[f] + 1;
      var t := r.value;
      if rel == Allied then
        t == AddScore(s.(aidNumbers := s.aidNumbers[f := n]), p, 2)
      else if n >= Threshold(rel) then
        && t.scores == AddScore(s, p, PromotionPoints(rel)).scores
        && t == s.(relationships := s.relationships[f := Improved(rel)],
                   aidNumbers := s.aidNumbers[f := 0],
                   scores := t.scores)
      else
        t == s.(aidNumbers := s.aidNumbers[f := n])
  {
    if f !in s.relationships then Ok(s)
    else
      var rel := s.relationships[f];
      if rel == Hostile then Ok(s)
      else if f !in s.aidNumbers then Err(NullAidCount)
      else
        var n := s.aidNumbers[f] + 1;
        var counted := s.(aidNumbers := s.aidNumbers[f := n]);
        if rel == Allied then Ok(AddScore(counted, p, 2))
        else if n >= Threshold(rel) then
          var promoted := counted.(relationships := s.relationships[f := Improved(rel)]);
          Ok(AddScore(promoted, p, PromotionPoints(rel)).(aidNumbers := s.aidNumbers[f := 0]))
        else Ok(counted)
  }

  /** Aid never worsens a relationship and improves it by at most one level;
      a faction that has no aid count yet never moves. */
  lemma AidMovesOneLevelUp(s: State, p: int, f: Faction)
    requires IsPlayer(s, p) && f in s.relationships
    requires Aid(s, p, f).Ok?
    ensures f in Aid(s, p, f).value.relationships
    ensures
      var rel' := Aid(s, p, f).value.relationships[f];
      Rank(s.relationships[f]) <= Rank(rel') <= Rank(s.relationships[f]) + 1
  {
  }

  /** `k` aids in a row, stopping at the first failure. */
  function AidTimes(s: State, p: int, f: Faction, k: nat): (r: Result<State, Failure>)
    requires IsPlayer(s, p)
    ensures r.Ok? ==> IsPlayer(r.value, p)
    decreases k
  {
    if k == 0 then Ok(s)
    else
      match Aid(s, p, f)
      case Err(e) => Err(e)
      case Ok(t) => AidTimes(t, p, f, k - 1)
  }

  /** One aid at a level below its threshold, with the counter at `c`. */
  lemma AidCounts(s: State, p: int, f: Faction, c: int)
    requires IsPlayer(s, p) && s.victory[p] == Score
    requires f in s.relationships && s.relationships[f] in {Neutral, One, Two}
    requires f in s.aidNumbers && s.aidNumbers[f] == c
    ensures Aid(s, p, f).Ok?
    ensures var t := Aid(s, p, f).value;
      && f in t.relationships && f in t.aidNumbers
      && (c + 1 >= Threshold(s.relationships[f]) ==>
            t.relationships[f] == Improved(s.relationships[f]) && t.aidNumbers[f] == 0
            && t.scores[p] == s.scores[p] + PromotionPoints(s.relationships[f]))
      && (c + 1 < Threshold(s.relationships[f]) ==>
            t.relationships[f] == s.relationships[f] && t.aidNumbers[f] == c + 1
            && t.scores[p] == s.scores[p])
      && t.victory == s.victory
  {
  }

  /** Six aids take a faction from Neutral (no aids counted) to Allied, with
      the counter back at zero, and earn 1 + 2 + 2 points under Score. */
  lemma {:induction false} SixAidsReachAllied(s: State, p: int, f: Faction)
    requires IsPlayer(s, p) && s.victory[p] == Score
    requires f in s.relationships && s.relationships[f] == Neutral
    requires f in s.aidNumbers && s.aidNumbers[f] == 0
    ensures AidTimes(s, p, f, 6).Ok?
    ensures var t := AidTimes(s, p, f, 6).value;
      && f in t.relationships && t.relationships[f] == Allied
      && f in t.aidNumbers && t.aidNumbers[f] == 0
      && t.scores[p] == s.scores[p] + 5
  {
    AidCounts(s, p, f, 0);
    var s1 := Aid(s, p, f).value;
    AidCounts(s1, p, f, 0);
    var s2 := Aid(s1, p, f).value;
    AidCounts(s2, p, f, 1);
    var s3 := Aid(s2, p, f).value;
    AidCounts(s3, p, f, 0);
    var s4 := Aid(s3, p, f).value;
    AidCounts(s4, p, f, 1);
    var s5 := Aid(s4, p, f).value;
    AidCounts(s5, p, f, 2);
    var s6 := Aid(s5, p, f).value;
    assert AidTimes(s5, p, f, 1) == Ok(s6) by {
      assert AidTimes(s6, p, f, 0) == Ok(s6);
    }
    assert AidTimes(s4, p, f, 2) == Ok(s6);
    assert AidTimes(s3, p, f, 3) == Ok(s6);
    assert AidTimes(s2, p, f, 4) == Ok(s6);
    assert AidTimes(s1, p, f, 5) == Ok(s6);
  }
}

/** The genome operators of the rolling-horizon evolutionary player
    (RHEAEAPlayer): crossover of two action sequences, tournament and rank
    selection of parents, the budget test, the MAST statistics backup and
    the elitist replacement of one generation. A genome position holds an
    action together with the game state it was reached from; the random
    draws are parameters. */
module Rhea {
  import opened Basics

  function Min(a: int, b: int): int
  {
    if a < b then a else b
  }

  function Max(a: int, b: int): int
  {
    if a < b then b else a
  }

  // ----- crossover -----

  /** One-point crossover: p1 with its last `min/2` positions replaced by
      the last `min/2` positions of p2, aligned at the end. */
  function OnePoint<G>(p1: seq<G>, p2: seq<G>): (r: seq<G>)
    ensures |r| == |p1|
    ensures forall k :: 0 <= k < |p1| - Min(|p1|, |p2|) / 2 ==> r[k] == p1[k]
    ensures forall k :: |p1| - Min(|p1|, |p2|) / 2 <= k < |p1| ==> r[k] == p2[k - |p1| + |p2|]
  {
    var t := Min(|p1|, |p2|) / 2;
    p1[..|p1| - t] + p2[|p2| - t..]
  }

  /** Two-point crossover: the first and the last `min/3` positions from p2,
      the middle from p1. */
  function TwoPoint<G>(p1: seq<G>, p2: seq<G>): (r: seq<G>)
    ensures |r| == |p1|
    ensures forall k :: Min(|p1|, |p2|) / 3 <= k < |p1| - Min(|p1|, |p2|) / 3 ==> r[k] == p1[k]
    ensures forall k :: 0 <= k < Min(|p1|, |p2|) / 3 ==> r[k] == p2[k]
    ensures forall k :: |p1| - Min(|p1|, |p2|) / 3 <= k < |p1| ==> r[k] == p2[k - |p1| + |p2|]
  {
    var t := Min(|p1|, |p2|) / 3;
    p2[..t] + p1[t..|p1| - t] + p2[|p2| - t..]
  }

  /** Uniform crossover: `heads(i)` is whether the i-th draw of the random
      float is at least one half, which takes position i from p2. */
  function Uniform<G>(p1: seq<G>, p2: seq<G>, heads: nat -> bool): (r: seq<G>)
    ensures |r| == |p1|
    ensures forall k :: 0 <= k < |p1| ==> r[k] == if k < |p2| && heads(k) then p2[k] else p1[k]
  {
    seq(|p1|, k requires 0 <= k < |p1| => if k < |p2| && heads(k) then p2[k] else p1[k])
  }

  /** `onePointCrossover`, loop as written; `calls` is the copy-call counter
      after the child copy. */
  method OnePointCrossover<G>(p1: seq<G>, p2: seq<G>, copyCalls: int) returns (child: seq<G>, calls: int)
    ensures child == OnePoint(p1, p2)
    ensures calls == copyCalls + |p1|
  {
    child := p1;
    calls := copyCalls + |child|;
    var t := Min(|p1|, |p2|) / 2;
    var i := 0;
    while i < t
      invariant 0 <= i <= t
      invariant |child| == |p1|
      invariant forall k :: 0 <= k < |p1| - i ==> child[k] == p1[k]
      invariant forall k :: |p1| - i <= k < |p1| ==> child[k] == p2[k - |p1| + |p2|]
    {
      child := child[|child| - 1 - i := p2[|p2| - 1 - i]];
      i := i + 1;
    }
  }

  /** `twoPointCrossover`, loop as written. */
  method TwoPointCrossover<G>(p1: seq<G>, p2: seq<G>, copyCalls: int) returns (child: seq<G>, calls: int)
    ensures child == TwoPoint(p1, p2)
    ensures calls == copyCalls + |p1|
  {
    child := p1;
    calls := copyCalls + |child|;
    var t := Min(|p1|, |p2|) / 3;
    var i := 0;
    while i < t
      invariant 0 <= i <= t
      invariant |child| == |p1|
      invariant forall k :: i <= k < |p1| - i ==> child[k] == p1[k]
      invariant forall k :: 0 <= k < i ==> child[k] == p2[k]
      invariant forall k :: |p1| - i <= k < |p1| ==> child[k] == p2[k - |p1| + |p2|]
    {
      child := child[i := p2[i]];
      child := child[|child| - 1 - i := p2[|p2| - 1 - i]];
      i := i + 1;
    }
  }

  /** `uniformCrossover`, loop as written. */
  method UniformCrossover<G>(p1: seq<G>, p2: seq<G>, heads: nat -> bool, copyCalls: int) returns (child: seq<G>, calls: int)
    ensures child == Uniform(p1, p2, heads)
    ensures calls == copyCalls + |p1|
  {
    child := p1;
    calls := copyCalls + |child|;
    var m := Min(|p1|, |p2|);
    var i := 0;
    while i < m
      invariant 0 <= i <= m
      invariant |child| == |p1|
      invariant forall k :: 0 <= k < |p1| ==> child[k] == if k < i && heads(k) then p2[k] else p1[k]
    {
      if heads(i) {
        child := child[i := p2[i]];
      }
      i := i + 1;
    }
  }

  datatype CrossoverType = NONE | UNIFORM | ONE_POINT | TWO_POINT

  /** `crossover`: NONE copies the first parent and spends no copy calls. */
  method Crossover<G>(ct: CrossoverType, p1: seq<G>, p2: seq<G>, heads: nat -> bool, copyCalls: int)
    returns (child: seq<G>, calls: int)
    ensures ct == NONE ==> child == p1 && calls == copyCalls
    ensures ct == UNIFORM ==> child == Uniform(p1, p2, heads)
    ensures ct == ONE_POINT ==> child == OnePoint(p1, p2)
    ensures ct == TWO_POINT ==> child == TwoPoint(p1, p2)
    ensures ct != NONE ==> calls == copyCalls + |p1|
  {
    match ct
    case NONE => child, calls := p1, copyCalls;
    case UNIFORM => child, calls := UniformCrossover(p1, p2, heads, copyCalls);
    case ONE_POINT => child, calls := OnePointCrossover(p1, p2, copyCalls);
    case TWO_POINT => child, calls := TwoPointCrossover(p1, p2, copyCalls);
  }

  /** Every crossover of a parent with itself gives that parent back. */
  lemma CrossoverWithSelf<G>(p: seq<G>, heads: nat -> bool)
    ensures OnePoint(p, p) == p && TwoPoint(p, p) == p && Uniform(p, p, heads) == p
  {
  }

  /** For parents of equal length every child position holds the gene one
      of the parents has at that position. */
  lemma CrossoverOfEqualLengthsIsPointwise<G>(p1: seq<G>, p2: seq<G>, heads: nat -> bool)
    requires |p1| == |p2|
    ensures forall k :: 0 <= k < |p1| ==>
      (OnePoint(p1, p2)[k] == p1[k] || OnePoint(p1, p2)[k] == p2[k]) &&
      (TwoPoint(p1, p2)[k] == p1[k] || TwoPoint(p1, p2)[k] == p2[k]) &&
      (Uniform(p1, p2, heads)[k] == p1[k] || Uniform(p1, p2, heads)[k] == p2[k])
  {
  }

  // ----- selection -----

  /** An individual: its genome and its fitness. */
  datatype Individual<G> = Individual(genes: seq<G>, value: real)

  /** `tournamentSelection`: `draws` are the sampled population indices.
      The result is the first sampled individual whose value no other
      sample exceeds; no samples give `null`. */
  method TournamentSelection<G>(population: seq<Individual<G>>, draws: seq<int>) returns (best: Option<nat>)
    requires forall i :: 0 <= i < |draws| ==> 0 <= draws[i] < |population|
    ensures best.None? <==> |draws| == 0
    ensures best.Some? ==> best.value < |population|
    ensures best.Some? ==> forall i :: 0 <= i < |draws| ==> population[draws[i]].value <= population[best.value].value
    ensures best.Some? ==>
      exists i :: 0 <= i < |draws| && draws[i] == best.value
        && (forall j :: 0 <= j < i ==> population[draws[j]].value < population[best.value].value)
  {
    best := None;
    var i := 0;
    while i < |draws|
      invariant 0 <= i <= |draws|
      invariant best.None? <==> i == 0
      invariant best.Some? ==> best.value < |population|
      invariant best.Some? ==> forall k :: 0 <= k < i ==> population[draws[k]].value <= population[best.value].value
      invariant best.Some? ==>
        exists k :: 0 <= k < i && draws[k] == best.value
          && (forall j :: 0 <= j < k ==> population[draws[j]].value < population[best.value].value)
    {
      var current := draws[i];
      if best == None || population[current].value > population[best.value].value {
        best := Some(current);
      }
      i := i + 1;
    }
  }

  /** 1 + 2 + ... + n, the rank sum of a population of n. */
  function Tri(n: nat): nat
  {
    if n == 0 then 0 else Tri(n - 1) + n
  }

  /** The cumulative weight after the first i ranks, rank k weighing n - k. */
  function Cum(n: nat, i: nat): int
  {
    if i == 0 then 0 else Cum(n, i - 1) + (n - (i - 1))
  }

  /** The weights n, n-1, ..., 1 add up to the rank sum. */
  lemma {:induction false} CumAndTri(n: nat, i: nat)
    requires i <= n
    ensures Cum(n, i) + Tri(n - i) == Tri(n)
  {
    if i > 0 {
      CumAndTri(n, i - 1);
      assert Tri(n - (i - 1)) == Tri(n - i) + (n - (i - 1));
    }
  }

  lemma {:induction false} CumIncreasing(n: nat, i: nat, j: nat)
    requires i <= j <= n
    ensures Cum(n, i) <= Cum(n, j)
    ensures i < j ==> Cum(n, i) < Cum(n, j)
    decreases j - i
  {
    if i < j {
      CumIncreasing(n, i, j - 1);
    }
  }

  /** `rankSelection` as written: after the population is sorted, `ran` is
      the draw `nextInt(rankSum)` and the first index whose cumulative
      weight reaches it (`p >= ran`) is picked. An empty population makes
      the draw itself fail (`None`). The final `throw` is unreachable. */
  method RankSelection<G>(population: seq<Individual<G>>, ran: int) returns (pick: Option<nat>)
    requires |population| > 0 ==> 0 <= ran < Tri(|population|)
    ensures pick.None? <==> |population| == 0
    ensures pick.Some? ==> pick.value < |population|
    ensures pick.Some? ==> Cum(|population|, pick.value + 1) >= ran
    ensures pick.Some? ==> forall k :: 0 < k <= pick.value ==> Cum(|population|, k) < ran
  {
    var n := |population|;
    var rankSum := 0;
    var i := 0;
    while i < n
      invariant 0 <= i <= n && rankSum == Tri(i)
    {
      rankSum := rankSum + i + 1;
      i := i + 1;
    }
    if rankSum == 0 {
      return None;
    }
    var p := 0;
    i := 0;
    while i < n
      invariant 0 <= i <= n
      invariant p == Cum(n, i) && p + Tri(n - i) == Tri(n)
      invariant forall k :: 0 < k <= i ==> Cum(n, k) < ran
    {
      p := p + n - i;
      assert Tri(n - i) == Tri(n - (i + 1)) + (n - i);
      if p >= ran {
        return Some(i);
      }
      i := i + 1;
    }
    assert false;
    return None;
  }

  /** With two or more individuals the last rank is never picked: the
      cumulative weight before it, the rank sum minus one, already reaches
      every possible draw, so a pick that passes every earlier rank stops
      before the last. */
  lemma LastRankNeverPicked(n: nat, ran: int, pick: nat)
    requires n >= 2 && 0 <= ran < Tri(n) && pick < n
    requires forall k :: 0 < k <= pick ==> Cum(n, k) < ran
    ensures pick < n - 1
  {
    CumAndTri(n, n - 1);
    assert Tri(1) == 1;
  }

  /** Rank selection as evidently intended (`p > ran`): rank k is picked for
      exactly the draws from Cum(n, k) up to but excluding Cum(n, k + 1), a
      range of n - k draws. */
  method RankSelectionCorrected<G>(population: seq<Individual<G>>, ran: int) returns (pick: Option<nat>)
    requires |population| > 0 ==> 0 <= ran < Tri(|population|)
    ensures pick.None? <==> |population| == 0
    ensures pick.Some? ==> pick.value < |population|
    ensures pick.Some? ==> Cum(|population|, pick.value) <= ran < Cum(|population|, pick.value + 1)
  {
    var n := |population|;
    if n == 0 {
      return None;
    }
    var p := 0;
    var i := 0;
    while i < n
      invariant 0 <= i <= n
      invariant p == Cum(n, i) && p + Tri(n - i) == Tri(n)
      invariant p <= ran
    {
      p := p + n - i;
      assert Tri(n - i) == Tri(n - (i + 1)) + (n - i);
      if p > ran {
        return Some(i);
      }
      i := i + 1;
    }
    assert false;
    return None;
  }

  /** Under the corrected rule every rank is picked by some draw, and by
      no draw outside its own range. */
  lemma EveryRankPickable(n: nat, k: nat, ran: int)
    requires k < n
    ensures 0 <= Cum(n, k) < Cum(n, k + 1) <= Tri(n)
    ensures forall j :: 0 <= j < n && j != k && Cum(n, j) <= ran < Cum(n, j + 1) ==> !(Cum(n, k) <= ran < Cum(n, k + 1))
  {
    CumIncreasing(n, 0, k);
    CumAndTri(n, k + 1);
    forall j | 0 <= j < n && j != k && Cum(n, j) <= ran < Cum(n, j + 1)
      ensures !(Cum(n, k) <= ran < Cum(n, k + 1))
    {
      if j < k {
        CumIncreasing(n, j + 1, k);
      } else {
        CumIncreasing(n, k + 1, j);
      }
    }
  }

  // ----- budget -----

  datatype BudgetType =
    | BUDGET_TIME | BUDGET_FM_CALLS | BUDGET_COPY_CALLS | BUDGET_FMANDCOPY_CALLS | BUDGET_ITERATIONS
    | OtherBudget(code: int)

  /** The counters the budget test reads. */
  datatype Counters = Counters(numIters: int, fmCalls: int, copyCalls: int)

  /** The budget type the test has no branch for. */
  datatype BudgetError = UnknownBudgetType(code: int)

  /** `budgetLeft`: `remaining` is the timer's remaining milliseconds. */
  function BudgetLeft(t: BudgetType, budget: int, breakMS: int, remaining: int, c: Counters): (r: Result<bool, BudgetError>)
    ensures r.Err? <==> t.OtherBudget?
  {
    match t
    case BUDGET_TIME => Ok(remaining > breakMS)
    case BUDGET_FM_CALLS => Ok(c.fmCalls < budget)
    case BUDGET_COPY_CALLS => Ok(c.copyCalls < budget && c.numIters < budget)
    case BUDGET_FMANDCOPY_CALLS => Ok(c.fmCalls + c.copyCalls < budget)
    case BUDGET_ITERATIONS => Ok(c.numIters < budget)
    case OtherBudget(code) => Err(UnknownBudgetType(code))
  }

  predicate NoLess(c: Counters, d: Counters)
  {
    c.numIters <= d.numIters && c.fmCalls <= d.fmCalls && c.copyCalls <= d.copyCalls
  }

  /** A counted budget, once spent, stays spent while the counters only grow. */
  lemma SpentBudgetStaysSpent(t: BudgetType, budget: int, c: Counters, d: Counters)
    requires t != BUDGET_TIME && !t.OtherBudget? && NoLess(c, d)
    requires BudgetLeft(t, budget, 0, 0, c) == Ok(false)
    ensures BudgetLeft(t, budget, 0, 0, d) == Ok(false)
  {
  }

  /** The evolution loop `while (budgetLeft) runIteration()` for the two
      budgets that count iterations; `copyCost(i)` is the copy calls the
      i-th generation spends. It stops with the budget spent, after at most
      `budget` generations in all. */
  method EvolutionLoop(t: BudgetType, budget: int, c0: Counters, copyCost: int -> nat) returns (c: Counters)
    requires t == BUDGET_ITERATIONS || t == BUDGET_COPY_CALLS
    ensures BudgetLeft(t, budget, 0, 0, c) == Ok(false)
    ensures c0.numIters <= c.numIters <= Max(c0.numIters, budget)
    ensures t == BUDGET_ITERATIONS ==> c.numIters == Max(c0.numIters, budget)
  {
    c := c0;
    while BudgetLeft(t, budget, 0, 0, c) == Ok(true)
      invariant c0.numIters <= c.numIters <= Max(c0.numIters, budget)
      decreases budget - c.numIters
    {
      c := Counters(c.numIters + 1, c.fmCalls, c.copyCalls + copyCost(c.numIters));
    }
  }

  // ----- MAST statistics -----

  /** Visits and total value of one action. */
  datatype Stat = Stat(visits: int, total: real)

  function GetStat<A>(m: map<A, Stat>, a: A): Stat
  {
    if a in m then m[a] else Stat(0, 0.0)
  }

  /** `v` plus `k` times `d`, added one at a time. */
  function AddTimes(v: real, d: real, k: nat): real
  {
    if k == 0 then v else AddTimes(v, d, k - 1) + d
  }

  /** Index of the first `null` action, or the length when there is none. */
  function FirstNull<A>(s: seq<Option<A>>): (r: nat)
    ensures r <= |s|
    ensures forall k :: 0 <= k < r ==> s[k].Some?
    ensures r < |s| ==> s[r].None?
  {
    if |s| == 0 || s[0].None? then 0 else 1 + FirstNull(s[1..])
  }

  /** How often `a` occurs (as a non-null action) in `s`. */
  function OccSome<A(==)>(s: seq<Option<A>>, a: A): nat
  {
    if |s| == 0 then 0 else OccSome(s[..|s| - 1], a) + (if s[|s| - 1] == Some(a) then 1 else 0)
  }

  lemma {:induction false} OccSomeAbsent<A>(s: seq<Option<A>>, a: A)
    requires Some(a) !in s
    ensures OccSome(s, a) == 0
  {
    if |s| > 0 {
      assert s[..|s| - 1] <= s;
      OccSomeAbsent(s[..|s| - 1], a);
    }
  }

  /** Table `m` is table `base` after one backup step per action of `pre`. */
  ghost predicate Tallied<A(!new)>(m: map<A, Stat>, base: map<A, Stat>, pre: seq<Option<A>>, delta: real)
  {
    forall a :: (a in m <==> a in base || Some(a) in pre)
      && (a in m ==> m[a] == Stat(GetStat(base, a).visits + OccSome(pre, a), AddTimes(GetStat(base, a).total, delta, OccSome(pre, a))))
  }

  /** One backup step for action `x`. */
  function Tally<A>(m: map<A, Stat>, x: A, delta: real): map<A, Stat>
  {
    m[x := Stat(GetStat(m, x).visits + 1, GetStat(m, x).total + delta)]
  }

  /** The backup steps for the actions of `pre` in order; a `null` adds
      nothing. */
  function TallyAll<A>(m: map<A, Stat>, pre: seq<Option<A>>, delta: real): map<A, Stat>
  {
    if |pre| == 0 then m
    else
      var front := TallyAll(m, pre[..|pre| - 1], delta);
      if pre[|pre| - 1].Some? then Tally(front, pre[|pre| - 1].value, delta) else front
  }

  lemma TallyStep<A(!new)>(m: map<A, Stat>, base: map<A, Stat>, pre: seq<Option<A>>, delta: real, x: A)
    requires Tallied(m, base, pre, delta)
    ensures Tallied(Tally(m, x, delta), base, pre + [Some(x)], delta)
  {
    var pre' := pre + [Some(x)];
    var m' := Tally(m, x, delta);
    assert pre'[..|pre|] == pre;
    if x !in m {
      OccSomeAbsent(pre, x);
    }
    forall a
      ensures (a in m' <==> a in base || Some(a) in pre')
      ensures a in m' ==> m'[a] == Stat(GetStat(base, a).visits + OccSome(pre', a), AddTimes(GetStat(base, a).total, delta, OccSome(pre', a)))
    {
      assert OccSome(pre', a) == OccSome(pre, a) + (if a == x then 1 else 0);
    }
  }

  /** Backing up a run of non-null actions tallies every one of them. */
  lemma {:induction false} TallyAllTallies<A(!new)>(base: map<A, Stat>, pre: seq<Option<A>>, delta: real)
    requires forall k :: 0 <= k < |pre| ==> pre[k].Some?
    ensures Tallied(TallyAll(base, pre, delta), base, pre, delta)
  {
    if |pre| == 0 {
    } else {
      var front := pre[..|pre| - 1];
      TallyAllTallies(base, front, delta);
      assert pre == front + [Some(pre[|pre| - 1].value)];
      TallyStep(TallyAll(base, front, delta), base, front, delta, pre[|pre| - 1].value);
    }
  }

  /** `MASTBackup`: every action before the first `null` adds one visit and
      `delta` value to that action's entry in the table of `player`; no
      other table changes. */
  method MASTBackup<A(==,!new)>(stats: seq<map<A, Stat>>, actions: seq<Option<A>>, delta: real, player: nat)
    returns (r: seq<map<A, Stat>>)
    requires player < |stats|
    ensures |r| == |stats|
    ensures forall q :: 0 <= q < |stats| && q != player ==> r[q] == stats[q]
    ensures Tallied(r[player], stats[player], actions[..FirstNull(actions)], delta)
  {
    var m := stats[player];
    var i := 0;
    while i < |actions|
      invariant 0 <= i <= FirstNull(actions)
      invariant m == TallyAll(stats[player], actions[..i], delta)
    {
      var action := actions[i];
      if action == None {
        break;
      }
      assert actions[..i + 1][..i] == actions[..i];
      m := Tally(m, action.value, delta);
      i := i + 1;
    }
    TallyAllTallies(stats[player], actions[..i], delta);
    r := stats[player := m];
  }

  // ----- replacement -----

  /** The sort applied to the population rearranges it. */
  ghost predicate Rearranges<G(!new)>(sort: seq<Individual<G>> -> seq<Individual<G>>)
  {
    forall s: seq<Individual<G>> :: multiset(sort(s)) == multiset(s)
  }

  lemma SortKeeps<G(!new)>(sort: seq<Individual<G>> -> seq<Individual<G>>, s: seq<Individual<G>>)
    requires Rearranges(sort)
    ensures |sort(s)| == |s|
    ensures forall x :: x in sort(s) <==> x in s
  {
    assert multiset(sort(s)) == multiset(s);
    assert |sort(s)| == |multiset(sort(s))|;
    forall x
      ensures x in sort(s) <==> x in s
    {
      assert x in sort(s) <==> x in multiset(sort(s));
    }
  }

  /** Every individual after its mutation, in population order. The
      mutation of position `i` is `mutate(i, _)`: each list element draws
      its own random numbers, so equal individuals may mutate differently. */
  function MutateAll<G>(s: seq<Individual<G>>, mutate: (nat, Individual<G>) -> Individual<G>): (r: seq<Individual<G>>)
    ensures |r| == |s|
    ensures forall i | 0 <= i < |s| :: r[i] == mutate(i, s[i])
  {
    seq(|s|, i requires 0 <= i < |s| => mutate(i, s[i]))
  }

  /** One generation of `runIteration`, given the children bred by
      crossover and the mutation each individual undergoes: copies of the
      first `eliteCount` individuals, then the best of the mutated old
      population and children, up to `populationSize` in all. `iters` is
      the iteration counter afterwards. */
  method RunIteration<G(!new)>(population: seq<Individual<G>>, children: seq<Individual<G>>,
                               eliteCount: int, populationSize: int,
                               mutate: (nat, Individual<G>) -> Individual<G>,
                               sort: seq<Individual<G>> -> seq<Individual<G>>, numIters: int)
    returns (next: seq<Individual<G>>, iters: int)
    requires Rearranges(sort)
    ensures iters == numIters + 1
    ensures |next| == Max(0, Min(eliteCount, |population|))
                      + Max(0, Min(|population| + |children|, populationSize - eliteCount))
    ensures 0 <= eliteCount <= populationSize ==> |next| <= populationSize
    ensures forall x :: x in next ==>
      x in population || exists i :: 0 <= i < |population + children| && x == mutate(i, (population + children)[i])
    // the unmutated elites, and the mutated individuals the sort ranks first
    ensures var ranked := sort(MutateAll(population + children, mutate));
      && |ranked| == |population| + |children|
      && multiset(next) ==
           multiset(population[..Max(0, Min(eliteCount, |population|))])
           + multiset(ranked[..Max(0, Min(|ranked|, populationSize - eliteCount))])
  {
    var elites := population[..Max(0, Min(eliteCount, |population|))];
    var bred := population + children;
    var mutated := MutateAll(bred, mutate);
    var ranked := sort(mutated);
    SortKeeps(sort, mutated);
    var best := ranked[..Max(0, Min(|ranked|, populationSize - eliteCount))];
    next := sort(elites + best);
    SortKeeps(sort, elites + best);
    assert multiset(next) == multiset(elites + best);
    forall x | x in next
      ensures x in population || exists i :: 0 <= i < |population + children| && x == mutate(i, (population + children)[i])
    {
      if x in best {
        var b :| 0 <= b < |best| && best[b] == x;
        assert ranked[b] == x;
        assert x in sort(mutated);
        var i :| 0 <= i < |mutated| && mutated[i] == x;
        assert x == mutate(i, bred[i]);
      }
    }
    iters := numIters + 1;
  }
}

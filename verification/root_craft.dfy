/** Two queries of the Root game state: whether a card can be crafted from
    the suits a player has available (`canCraftCard`), and which suits of
    one Eyrie decree column can still be played (`getDecreeSuits`). */
module RootCrafting {
  import opened RootState
  import Items
  import opened Basics

  datatype CraftingType = ItemCard | OtherCraft

  /** The parts of a card the crafting check reads. */
  datatype Card = Card(craftingType: CraftingType, craftableItem: Items.ItemType, craftingCost: seq<Suit>)

  /** Occurrences of `x` in `s`. */
  function Occ(s: seq<Suit>, x: Suit): nat
  {
    if |s| == 0 then 0 else Occ(s[..|s| - 1], x) + (if s[|s| - 1] == x then 1 else 0)
  }

  /** A length is the sum of its per-suit occurrences. */
  function SuitTotal(s: seq<Suit>): nat
  {
    Occ(s, Fox) + Occ(s, Rabbit) + Occ(s, Mouse) + Occ(s, Bird) + Occ(s, Forrest)
  }

  lemma {:induction false} LengthIsSuitTotal(s: seq<Suit>)
    ensures |s| == SuitTotal(s)
  {
    if |s| > 0 {
      LengthIsSuitTotal(s[..|s| - 1]);
    }
  }

  lemma OccSnoc(s: seq<Suit>, i: nat, x: Suit)
    requires i < |s|
    ensures Occ(s[..i + 1], x) == Occ(s[..i], x) + (if s[i] == x then 1 else 0)
  {
    assert s[..i + 1][..i] == s[..i];
  }

  lemma {:induction false} OccPrefix(s: seq<Suit>, k: nat, x: Suit)
    requires k <= |s|
    ensures Occ(s[..k], x) <= Occ(s, x)
    decreases |s| - k
  {
    if k < |s| {
      OccSnoc(s, k, x);
      OccPrefix(s, k + 1, x);
    } else {
      assert s[..k] == s;
    }
  }

  /** What crafting needs, stated without the source's counting map: a
      matching craftable item for item cards, every non-Bird cost matched one
      for one by an available suit, and enough suits left over for the Bird
      costs, which is: at least as many suits as cost entries. */
  predicate Craftable(items: seq<Items.Item>, available: seq<Suit>, card: Card)
  {
    && (card.craftingType == ItemCard ==> exists i :: 0 <= i < |items| && items[i].itemType == card.craftableItem)
    && (forall x :: x != Bird ==> Occ(card.craftingCost, x) <= Occ(available, x))
    && |available| >= |card.craftingCost|
  }

  /** The stream filter of `canCraftCard`: is there a craftable item of the
      card's item type? */
  method HasItemOfType(items: seq<Items.Item>, t: Items.ItemType) returns (found: bool)
    ensures found <==> exists i :: 0 <= i < |items| && items[i].itemType == t
  {
    found := false;
    var j := 0;
    while j < |items|
      invariant 0 <= j <= |items|
      invariant found <==> exists i :: 0 <= i < j && items[i].itemType == t
    {
      if items[j].itemType == t {
        found := true;
      }
      j := j + 1;
    }
  }

  /** A count of the counting map; an absent suit counts 0. */
  function Get(m: map<Suit, int>, x: Suit): int
  {
    if x in m then m[x] else 0
  }

  /** The sum of the counting map's values. */
  function MapTotal(m: map<Suit, int>): int
  {
    Get(m, Fox) + Get(m, Rabbit) + Get(m, Mouse) + Get(m, Bird) + Get(m, Forrest)
  }

  /** The first loop: count each available suit. */
  method CountAvailable(available: seq<Suit>) returns (m: map<Suit, int>)
    ensures forall x :: Get(m, x) == Occ(available, x)
  {
    m := map[];
    var i := 0;
    while i < |available|
      invariant 0 <= i <= |available|
      invariant forall x :: Get(m, x) == Occ(available[..i], x)
    {
      var m' := m[available[i] := Get(m, available[i]) + 1];
      forall x ensures Get(m', x) == Occ(available[..i + 1], x) {
        OccSnoc(available, i, x);
      }
      m := m';
      i := i + 1;
    }
    assert available[..|available|] == available;
  }

  /** The second loop: the number of Bird (any-suit) entries of a cost. */
  method CountBirds(cost: seq<Suit>) returns (n: nat)
    ensures n == Occ(cost, Bird)
  {
    n := 0;
    var i := 0;
    while i < |cost|
      invariant 0 <= i <= |cost|
      invariant n == Occ(cost[..i], Bird)
    {
      OccSnoc(cost, i, Bird);
      if cost[i] == Bird {
        n := n + 1;
      }
      i := i + 1;
    }
    assert cost[..|cost|] == cost;
  }

  /** Every suit is either still counted or used by the non-Bird costs among
      the first `i` cost entries. */
  predicate Accounted(m: map<Suit, int>, available: seq<Suit>, cost: seq<Suit>, i: nat)
    requires i <= |cost|
  {
    forall x :: Get(m, x) == Occ(available, x) - (if x == Bird then 0 else Occ(cost[..i], x))
  }

  /** The third loop: take one counted suit for every non-Bird cost, in
      order; `None` when some cost finds its count at zero, otherwise the
      counts left over. */
  method Consume(m0: map<Suit, int>, available: seq<Suit>, cost: seq<Suit>) returns (left: Option<map<Suit, int>>)
    requires forall x :: Get(m0, x) == Occ(available, x)
    ensures left.None? <==> exists x :: x != Bird && Occ(cost, x) > Occ(available, x)
    ensures left.Some? ==> Accounted(left.value, available, cost, |cost|)
  {
    var m := m0;
    var i := 0;
    assert cost[..0] == [];
    while i < |cost|
      invariant 0 <= i <= |cost|
      invariant Accounted(m, available, cost, i)
      invariant forall x :: x != Bird ==> Occ(cost[..i], x) <= Occ(available, x)
    {
      var c := cost[i];
      forall x ensures Occ(cost[..i + 1], x) == Occ(cost[..i], x) + (if c == x then 1 else 0) {
        OccSnoc(cost, i, x);
      }
      if c != Bird {
        if c in m && m[c] > 0 {
          m := m[c := m[c] - 1];
        } else {
          OccPrefix(cost, i + 1, c);
          return None;
        }
      }
      i := i + 1;
    }
    assert cost[..|cost|] == cost;
    left := Some(m);
  }

  /** `canCraftCard`. */
  method CanCraftCard(items: seq<Items.Item>, available: seq<Suit>, card: Card) returns (ok: bool)
    ensures ok <==> Craftable(items, available, card)
  {
    if card.craftingType == ItemCard {
      var found := HasItemOfType(items, card.craftableItem);
      if !found {
        return false;
      }
    }
    var counts := CountAvailable(available);
    var anyCount := CountBirds(card.craftingCost);
    var left := Consume(counts, available, card.craftingCost);
    if left.None? {
      return false;
    }
    var remaining := MapTotal(left.value);
    LengthIsSuitTotal(available);
    LengthIsSuitTotal(card.craftingCost);
    assert card.craftingCost[..|card.craftingCost|] == card.craftingCost;
    ok := remaining >= anyCount;
  }

  // ----- decree suits -----

  /** Position of the first occurrence of `x` in `s`. */
  function IndexOf(s: seq<Suit>, x: Suit): (r: nat)
    requires x in s
    ensures r < |s| && s[r] == x && x !in s[..r]
  {
    if s[0] == x then 0 else 1 + IndexOf(s[1..], x)
  }

  lemma IndexOfInPrefix(s: seq<Suit>, k: nat, x: Suit)
    requires k <= |s| && x in s[..k]
    ensures IndexOf(s, x) == IndexOf(s[..k], x)
  {
  }

  /** The suits of a decree column with every played suit removed, each kept
      once at its first occurrence (`removeAll`, then a `LinkedHashSet`). */
  function DecreeSuitsOf(column: seq<Suit>, played: seq<Suit>): (r: seq<Suit>)
    ensures forall i, j :: 0 <= i < j < |r| ==> r[i] != r[j]
    ensures forall x :: x in r <==> x in column && x !in played
    ensures forall i, j :: 0 <= i < j < |r| ==> IndexOf(column, r[i]) < IndexOf(column, r[j])
  {
    if |column| == 0 then []
    else
      var front := column[..|column| - 1];
      var x := column[|column| - 1];
      var d := DecreeSuitsOf(front, played);
      assert column == front + [x];
      forall y | y in d ensures IndexOf(column, y) == IndexOf(front, y) {
        IndexOfInPrefix(column, |front|, y);
      }
      if x in played || x in d then d
      else
        assert IndexOf(column, x) == |front|;
        d + [x]
  }

  /** `eyrieDecree.get(index)` on an index outside the decree's columns. */
  datatype DecreeFailure = IndexOutOfBounds

  /** `getDecreeSuits(index)`: the suits of the chosen decree column, or the
      list's index failure when there is no such column. */
  function DecreeSuits(decree: seq<seq<Suit>>, index: int, played: seq<Suit>): (r: Result<seq<Suit>, DecreeFailure>)
    ensures r.Err? <==> !(0 <= index < |decree|)
    ensures r.Ok? ==> forall i, j :: 0 <= i < j < |r.value| ==> r.value[i] != r.value[j]
    ensures r.Ok? ==> forall x :: x in r.value <==> x in decree[index] && x !in played
    ensures r.Ok? ==> forall i, j :: 0 <= i < j < |r.value| ==>
      IndexOf(decree[index], r.value[i]) < IndexOf(decree[index], r.value[j])
  {
    if 0 <= index < |decree| then Ok(DecreeSuitsOf(decree[index], played))
    else Err(IndexOutOfBounds)
  }
}

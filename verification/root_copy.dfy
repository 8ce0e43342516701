/** The redeterminising copy of the Root game state, seen from one player
    (`_copy(playerId)`): that player's hand is copied as it is; in every
    other hand the cards the player cannot see are shuffled back into the
    draw pile and the same number redrawn; unless the player is the Woodland
    Alliance, the supporters are redrawn the same way. The shuffles are an
    arbitrary permutation supplied by the caller. Also here: the copy of the
    Vagabond's relationship and aid-count maps. */
module RootCopy {
  import opened Basics
  import opened RootState

  type Card = int

  /** A card of a hand and the players who can see it. */
  datatype Slot = Slot(card: Card, seenBy: set<int>)

  datatype Hand = Hand(owner: int, slots: seq<Slot>)

  /** The part of the state the redeterminisation reads and writes.
      `supporters` is `None` when the game has too few players for the
      Woodland Alliance deck to exist (a null deck). */
  datatype Table = Table(hands: seq<Hand>, drawPile: seq<Card>, supporters: Option<seq<Card>>, factions: seq<Faction>)

  datatype CopyFailure = NullSupporters

  /** The shuffle: call `k` returns a permutation of its input. */
  ghost predicate Permutes(shuffle: (nat, seq<Card>) -> seq<Card>)
  {
    forall k: nat, s: seq<Card> :: multiset(shuffle(k, s)) == multiset(s)
  }

  function Cards(slots: seq<Slot>): seq<Card>
  {
    seq(|slots|, i requires 0 <= i < |slots| => slots[i].card)
  }

  /** Every card held in any hand. */
  function AllCards(hands: seq<Hand>): seq<Card>
  {
    if |hands| == 0 then [] else AllCards(hands[..|hands| - 1]) + Cards(hands[|hands| - 1].slots)
  }

  /** The slots `p` can see, in hand order: they stay in the hand. */
  function Kept(slots: seq<Slot>, p: int): (r: seq<Slot>)
    ensures |r| <= |slots|
    ensures forall i :: 0 <= i < |r| ==> p in r[i].seenBy
  {
    if |slots| == 0 then []
    else
      var front := Kept(slots[..|slots| - 1], p);
      if p in slots[|slots| - 1].seenBy then front + [slots[|slots| - 1]] else front
  }

  /** The cards `p` cannot see, in the order the loop visits them (from the
      last slot down). */
  function Hidden(slots: seq<Slot>, p: int): (r: seq<Card>)
    ensures |r| + |Kept(slots, p)| == |slots|
  {
    if |slots| == 0 then []
    else
      var last := slots[|slots| - 1];
      (if p in last.seenBy then [] else [last.card]) + Hidden(slots[..|slots| - 1], p)
  }

  lemma CardsAppend(a: seq<Slot>, b: seq<Slot>)
    ensures Cards(a + b) == Cards(a) + Cards(b)
  {
  }

  /** One more slot at the end adds its card to the kept or to the hidden
      cards. */
  lemma KeptHiddenSnoc(slots: seq<Slot>, p: int)
    requires |slots| > 0
    ensures var front, last := slots[..|slots| - 1], slots[|slots| - 1];
      && Cards(slots) == Cards(front) + [last.card]
      && Cards(Kept(slots, p)) == Cards(Kept(front, p)) + (if p in last.seenBy then [last.card] else [])
      && Hidden(slots, p) == (if p in last.seenBy then [] else [last.card]) + Hidden(front, p)
  {
    var front, last := slots[..|slots| - 1], slots[|slots| - 1];
    assert slots == front + [last];
    CardsAppend(front, [last]);
    CardsAppend(Kept(front, p), [last]);
  }

  /** A hand's cards are the kept ones and the hidden ones. */
  lemma {:induction false} KeptAndHidden(slots: seq<Slot>, p: int)
    ensures multiset(Cards(slots)) == multiset(Cards(Kept(slots, p))) + multiset(Hidden(slots, p))
  {
    if |slots| > 0 {
      var front, last := slots[..|slots| - 1], slots[|slots| - 1];
      KeptAndHidden(front, p);
      KeptHiddenSnoc(slots, p);
      var L := multiset{last.card};
      var N: multiset<Card> := multiset{};
      SplitLast(multiset(Cards(front)), multiset(Cards(Kept(front, p))), multiset(Hidden(front, p)),
                if p in last.seenBy then L else N, if p in last.seenBy then N else L);
    }
  }

  lemma SplitLast<T>(c: multiset<T>, k: multiset<T>, h: multiset<T>, toKept: multiset<T>, toHidden: multiset<T>)
    requires c == k + h
    ensures c + (toKept + toHidden) == (k + toKept) + (toHidden + h)
  {
    forall x ensures (c + (toKept + toHidden))[x] == ((k + toKept) + (toHidden + h))[x] {
      assert c[x] == (k + h)[x];
    }
  }

  /** Drawing `n` cards from a shuffled pile that received `hidden`, and
      putting them after `kept`, conserves the cards. */
  lemma RedrawConserves(kept: seq<Card>, hidden: seq<Card>, pile: seq<Card>, mixed: seq<Card>, n: nat)
    requires multiset(mixed) == multiset(pile + hidden) && n <= |mixed|
    ensures multiset(kept + mixed[..n]) + multiset(mixed[n..]) == multiset(kept) + multiset(hidden) + multiset(pile)
  {
    assert mixed == mixed[..n] + mixed[n..];
    var K, D, R, P, H := multiset(kept), multiset(mixed[..n]), multiset(mixed[n..]), multiset(pile), multiset(hidden);
    assert D + R == P + H;
    assert multiset(kept + mixed[..n]) == K + D;
    assert K + D + R == K + H + P by {
      assert forall x :: (K + D + R)[x] == K[x] + (D + R)[x];
    }
  }

  /** Cards taken out of one place and put into another are all still
      there. */
  lemma Regroup<T>(a: multiset<T>, b: multiset<T>, c: multiset<T>, d: multiset<T>, e: multiset<T>, f: multiset<T>)
    requires a + b == c + d
    ensures a + b + e + f == c + e + (d + f)
  {
    assert forall x :: (a + b + e + f)[x] == (c + e + (d + f))[x];
  }

  /** Redraw one hand of another player: its hidden cards go into the draw
      pile, the pile is shuffled (call `k`), and as many cards are drawn
      from the top into the hand. Cards drawn are put after the kept cards
      and carry no visibility (where and how `Deck.add` inserts is not part
      of this model). */
  function Redraw(h: Hand, pile: seq<Card>, p: int, shuffle: (nat, seq<Card>) -> seq<Card>, k: nat): (r: (Hand, seq<Card>))
    requires Permutes(shuffle)
    ensures r.0.owner == h.owner && |r.0.slots| == |h.slots|
    ensures r.0.slots[..|Kept(h.slots, p)|] == Kept(h.slots, p)
    ensures multiset(Cards(Kept(h.slots, p))) <= multiset(Cards(r.0.slots))
    ensures multiset(Cards(r.0.slots)) + multiset(r.1) == multiset(Cards(h.slots)) + multiset(pile)
  {
    var hidden := Hidden(h.slots, p);
    var kept := Kept(h.slots, p);
    var mixed := shuffle(k, pile + hidden);
    assert multiset(mixed) == multiset(pile + hidden);
    assert |mixed| == |multiset(mixed)| == |pile + hidden|;
    var n := |hidden|;
    var added := seq(n, i requires 0 <= i < n => Slot(mixed[i], {}));
    assert Cards(added) == mixed[..n];
    CardsAppend(kept, added);
    RedrawConserves(Cards(kept), hidden, pile, mixed, n);
    KeptAndHidden(h.slots, p);
    (Hand(h.owner, kept + added), mixed[n..])
  }

  /** What the copy promises of one hand: same owner and size; the viewing
      player's own hand is untouched; elsewhere the cards the viewer can see
      stay, in order, at the front. */
  predicate Redetermined(before: Hand, after: Hand, p: int)
  {
    && after.owner == before.owner
    && |after.slots| == |before.slots|
    && (before.owner == p ==> after == before)
    && (before.owner != p ==> after.slots[..|Kept(before.slots, p)|] == Kept(before.slots, p))
  }

  lemma AllCardsSnoc(hands: seq<Hand>, h: Hand)
    ensures AllCards(hands + [h]) == AllCards(hands) + Cards(h.slots)
  {
    assert (hands + [h])[..|hands|] == hands;
  }

  /** One turn of the hand loop: the viewer's own hand is copied, any other
      hand is redrawn (using shuffle call `k`). */
  function RedrawStep(h: Hand, pile: seq<Card>, p: int, shuffle: (nat, seq<Card>) -> seq<Card>, k: nat): (r: (Hand, seq<Card>, nat))
    requires Permutes(shuffle)
    ensures Redetermined(h, r.0, p)
    ensures multiset(Cards(r.0.slots)) + multiset(r.1) == multiset(Cards(h.slots)) + multiset(pile)
  {
    if h.owner != p then
      var x := Redraw(h, pile, p, shuffle, k);
      (x.0, x.1, k + 1)
    else (h, pile, k)
  }

  /** Cards are conserved across the hands done so far and the pile. */
  ghost predicate Conserved(newHands: seq<Hand>, pile: seq<Card>, hands: seq<Hand>, pile0: seq<Card>)
  {
    multiset(AllCards(newHands)) + multiset(pile) == multiset(AllCards(hands)) + multiset(pile0)
  }

  lemma ConservedStep(newHands: seq<Hand>, pile: seq<Card>, hands: seq<Hand>, pile0: seq<Card>,
                      h: Hand, next: Hand, pile': seq<Card>)
    requires Conserved(newHands, pile, hands, pile0)
    requires multiset(Cards(next.slots)) + multiset(pile') == multiset(Cards(h.slots)) + multiset(pile)
    ensures Conserved(newHands + [next], pile', hands + [h], pile0)
  {
    AllCardsSnoc(newHands, next);
    AllCardsSnoc(hands, h);
    HandStepConserves(multiset(AllCards(newHands)), multiset(pile), multiset(AllCards(hands)), multiset(pile0),
      multiset(Cards(next.slots)), multiset(pile'), multiset(Cards(h.slots)));
  }

  lemma HandStepConserves<T>(a: multiset<T>, p: multiset<T>, b: multiset<T>, p0: multiset<T>,
                            n: multiset<T>, p2: multiset<T>, h: multiset<T>)
    requires a + p == b + p0 && n + p2 == h + p
    ensures a + n + p2 == b + h + p0
  {
    forall x ensures (a + n + p2)[x] == (b + h + p0)[x] {
      assert (a + p)[x] == (b + p0)[x];
      assert (n + p2)[x] == (h + p)[x];
    }
  }

  /** The hand loop of `_copy` for a viewer `p != -1`: one shuffle of the
      draw pile, then every other player's hand redrawn. Shuffle calls are
      numbered from `k0`; `k` is the next unused number. */
  method RedrawHands(hands: seq<Hand>, pile0: seq<Card>, p: int, shuffle: (nat, seq<Card>) -> seq<Card>, k0: nat)
    returns (newHands: seq<Hand>, pile: seq<Card>, k: nat)
    requires Permutes(shuffle)
    ensures |newHands| == |hands|
    ensures forall i :: 0 <= i < |hands| ==> Redetermined(hands[i], newHands[i], p)
    ensures multiset(AllCards(newHands)) + multiset(pile) == multiset(AllCards(hands)) + multiset(pile0)
  {
    pile := shuffle(k0, pile0);
    k := k0 + 1;
    newHands := [];
    var i := 0;
    while i < |hands|
      invariant 0 <= i <= |hands|
      invariant |newHands| == i
      invariant forall j :: 0 <= j < i ==> Redetermined(hands[j], newHands[j], p)
      invariant Conserved(newHands, pile, hands[..i], pile0)
    {
      var r := RedrawStep(hands[i], pile, p, shuffle, k);
      assert hands[..i + 1] == hands[..i] + [hands[i]];
      ConservedStep(newHands, pile, hands[..i], pile0, hands[i], r.0, r.1);
      newHands := newHands + [r.0];
      pile := r.1;
      k := r.2;
      i := i + 1;
    }
    assert hands[..|hands|] == hands;
  }

  /** Every card of the table: hands, draw pile and supporters. */
  function TableCards(t: Table): multiset<Card>
  {
    multiset(AllCards(t.hands)) + multiset(t.drawPile)
      + (if t.supporters.Some? then multiset(t.supporters.value) else multiset{})
  }

  /** The supporters step: unless the viewer is the Woodland Alliance, the
      supporters go into the draw pile, the pile is shuffled (call `k`) and
      as many cards are drawn back. A missing supporters deck is a null
      dereference. */
  function RedrawSupporters(supporters: Option<seq<Card>>, pile: seq<Card>, shuffle: (nat, seq<Card>) -> seq<Card>, k: nat)
    : (r: Result<(seq<Card>, seq<Card>), CopyFailure>)
    requires Permutes(shuffle)
    ensures r.Err? <==> supporters.None?
    ensures r.Ok? ==> |r.value.0| == |supporters.value|
    ensures r.Ok? ==> multiset(r.value.0) + multiset(r.value.1) == multiset(supporters.value) + multiset(pile)
  {
    if supporters.None? then Err(NullSupporters)
    else
      var sup := supporters.value;
      var mixed := shuffle(k, pile + sup);
      assert multiset(mixed) == multiset(pile + sup);
      assert |mixed| == |multiset(mixed)| == |pile + sup|;
      RedrawConserves([], sup, pile, mixed, |sup|);
      assert [] + mixed[..|sup|] == mixed[..|sup|];
      Ok((mixed[..|sup|], mixed[|sup|..]))
  }

  lemma SupportersStepConserves<T>(h: multiset<T>, p: multiset<T>, s: multiset<T>, s2: multiset<T>, p2: multiset<T>)
    requires s2 + p2 == s + p
    ensures h + p2 + s2 == h + p + s
  {
    forall x ensures (h + p2 + s2)[x] == (h + p + s)[x] {
      assert (s2 + p2)[x] == (s + p)[x];
    }
  }

  /** `_copy(playerId)` as far as the cards go. With `p == -1` every deck is
      copied as it is. Otherwise the hands are redrawn and, unless `p` plays
      the Woodland Alliance, so are the supporters. */
  method RedeterminisedCopy(t: Table, p: int, shuffle: (nat, seq<Card>) -> seq<Card>, k0: nat)
    returns (r: Result<Table, CopyFailure>)
    requires Permutes(shuffle)
    requires p == -1 || 0 <= p < |t.factions|
    ensures p == -1 ==> r == Ok(t)
    ensures p != -1 ==> (r.Err? <==> t.factions[p] != WoodlandAlliance && t.supporters.None?)
    ensures r.Ok? ==> r.value.factions == t.factions && |r.value.hands| == |t.hands|
    ensures r.Ok? && p != -1 ==> forall i :: 0 <= i < |t.hands| ==> Redetermined(t.hands[i], r.value.hands[i], p)
    ensures r.Ok? ==> r.value.supporters.Some? == t.supporters.Some?
    ensures r.Ok? && t.supporters.Some? ==> |r.value.supporters.value| == |t.supporters.value|
    ensures r.Ok? && p != -1 && t.factions[p] == WoodlandAlliance ==> r.value.supporters == t.supporters
    ensures r.Ok? ==> TableCards(r.value) == TableCards(t)
  {
    if p == -1 {
      return Ok(t);
    }
    var hands, pile, k := RedrawHands(t.hands, t.drawPile, p, shuffle, k0);
    if t.factions[p] != WoodlandAlliance {
      var sr := RedrawSupporters(t.supporters, pile, shuffle, k);
      if sr.Err? {
        return Err(sr.error);
      }
      SupportersStepConserves(multiset(AllCards(hands)), multiset(pile), multiset(t.supporters.value),
        multiset(sr.value.0), multiset(sr.value.1));
      r := Ok(Table(hands, sr.value.1, Some(sr.value.0), t.factions));
    } else {
      r := Ok(Table(hands, pile, t.supporters, t.factions));
    }
  }

  // ----- the Vagabond's maps -----

  /** A per-faction map of a copy: the entries of the three factions other
      than the Vagabond, each with its own value (a null entry reads as a
      missing one). The relationship map is copied this way, and so is the
      aid-count map once corrected. */
  function CopyFactionMap<V>(m: map<Faction, V>): (r: map<Faction, V>)
    ensures forall f :: f in r <==> f in m && f != Vagabond
    ensures forall f :: f in r ==> r[f] == m[f]
  {
    map f | f in m && f != Vagabond :: m[f]
  }

  /** The aid-count map of a copy as written: the Eyrie entry is filled from
      the Marquise entry. */
  function CopyAidNumbersAsWritten(aid: map<Faction, int>): (r: map<Faction, int>)
    ensures MarquiseDeCat in r <==> MarquiseDeCat in aid
    ensures EyrieDynasties in r <==> MarquiseDeCat in aid
    ensures WoodlandAlliance in r <==> WoodlandAlliance in aid
    ensures Vagabond !in r
    ensures MarquiseDeCat in aid ==> r[MarquiseDeCat] == aid[MarquiseDeCat] && r[EyrieDynasties] == aid[MarquiseDeCat]
    ensures WoodlandAlliance in aid ==> r[WoodlandAlliance] == aid[WoodlandAlliance]
  {
    var m: map<Faction, int> := map[];
    var m := if MarquiseDeCat in aid then m[MarquiseDeCat := aid[MarquiseDeCat]] else m;
    var m := if MarquiseDeCat in aid then m[EyrieDynasties := aid[MarquiseDeCat]] else m;
    if WoodlandAlliance in aid then m[WoodlandAlliance := aid[WoodlandAlliance]] else m
  }

  /** The copy as written keeps the Eyrie's aid count exactly when the
      Marquise and the Eyrie counts coincide (or are both missing). */
  lemma AidCopyKeepsEyrieOnlyWhenEqual(aid: map<Faction, int>)
    ensures var c := CopyAidNumbersAsWritten(aid);
      ((EyrieDynasties in c <==> EyrieDynasties in aid) && (EyrieDynasties in c ==> c[EyrieDynasties] == aid[EyrieDynasties]))
      <==>
      ((MarquiseDeCat in aid <==> EyrieDynasties in aid)
        && (MarquiseDeCat in aid ==> aid[MarquiseDeCat] == aid[EyrieDynasties]))
  {
  }

  /** An Eyrie at relationship One with one aid counted is promoted by the
      next aid; in a copy made while the Marquise count is 0 it is not. */
  lemma AidOnCopyDiverges(s: State, p: int)
    requires IsPlayer(s, p)
    requires s.relationships == map[MarquiseDeCat := Neutral, EyrieDynasties := One, WoodlandAlliance := Neutral]
    requires s.aidNumbers == map[MarquiseDeCat := 0, EyrieDynasties := 1, WoodlandAlliance := 0]
    ensures var c := s.(relationships := CopyFactionMap(s.relationships),
                        aidNumbers := CopyAidNumbersAsWritten(s.aidNumbers));
      && Aid(s, p, EyrieDynasties).Ok? && Aid(s, p, EyrieDynasties).value.relationships[EyrieDynasties] == Two
      && Aid(c, p, EyrieDynasties).Ok? && Aid(c, p, EyrieDynasties).value.relationships[EyrieDynasties] == One
  {
    var c := s.(relationships := CopyFactionMap(s.relationships),
                aidNumbers := CopyAidNumbersAsWritten(s.aidNumbers));
    assert c.relationships[EyrieDynasties] == One;
    assert c.aidNumbers[EyrieDynasties] == 0;
  }

  /** With the corrected aid copy, aiding a faction in the copy has the
      same outcome for that faction and for the scores as in the original,
      for every state. */
  lemma AidOnCorrectedCopyAgrees(s: State, p: int, f: Faction)
    requires IsPlayer(s, p) && f != Vagabond
    ensures var c := s.(relationships := CopyFactionMap(s.relationships),
                        aidNumbers := CopyFactionMap(s.aidNumbers));
      && Aid(c, p, f).Ok? == Aid(s, p, f).Ok?
      && (Aid(s, p, f).Ok? ==>
            var t, u := Aid(s, p, f).value, Aid(c, p, f).value;
            && u.scores == t.scores
            && (f in u.relationships <==> f in t.relationships)
            && (f in t.relationships ==> u.relationships[f] == t.relationships[f])
            && (f in u.aidNumbers <==> f in t.aidNumbers)
            && (f in t.aidNumbers ==> u.aidNumbers[f] == t.aidNumbers[f]))
  {
    var c := s.(relationships := CopyFactionMap(s.relationships),
                aidNumbers := CopyFactionMap(s.aidNumbers));
    AidIsLocal(s, c, p, f);
  }

  /** The scores and the two entries of `f` coincide. */
  predicate AgreeAt(s: State, c: State, f: Faction)
  {
    && c.scores == s.scores
    && (f in c.relationships <==> f in s.relationships)
    && (f in s.relationships ==> c.relationships[f] == s.relationships[f])
    && (f in c.aidNumbers <==> f in s.aidNumbers)
    && (f in s.aidNumbers ==> c.aidNumbers[f] == s.aidNumbers[f])
  }

  /** Aid to `f` reads and writes only the scores and the two entries of
      `f`: states that agree there get outcomes that agree there. */
  lemma AidIsLocal(s: State, c: State, p: int, f: Faction)
    requires IsPlayer(s, p) && c.victory == s.victory && AgreeAt(s, c, f)
    ensures Aid(c, p, f).Ok? == Aid(s, p, f).Ok?
    ensures Aid(s, p, f).Ok? ==> AgreeAt(Aid(s, p, f).value, Aid(c, p, f).value, f)
  {
    if f in s.relationships && s.relationships[f] != Hostile && f in s.aidNumbers {
      var rel := s.relationships[f];
      if rel == Allied {
        AidLocalAllied(s, c, p, f);
      } else if s.aidNumbers[f] + 1 >= Threshold(rel) {
        AidLocalPromoted(s, c, p, f);
      } else {
        AidLocalCounted(s, c, p, f);
      }
    }
  }

  lemma AidLocalAllied(s: State, c: State, p: int, f: Faction)
    requires IsPlayer(s, p) && c.victory == s.victory && AgreeAt(s, c, f)
    requires f in s.relationships && s.relationships[f] == Allied && f in s.aidNumbers
    ensures Aid(c, p, f).Ok? && Aid(s, p, f).Ok?
    ensures AgreeAt(Aid(s, p, f).value, Aid(c, p, f).value, f)
  {
    var n := s.aidNumbers[f] + 1;
    assert Aid(s, p, f).value == AddScore(s.(aidNumbers := s.aidNumbers[f := n]), p, 2);
    assert Aid(c, p, f).value == AddScore(c.(aidNumbers := c.aidNumbers[f := n]), p, 2);
  }

  lemma AidLocalPromoted(s: State, c: State, p: int, f: Faction)
    requires IsPlayer(s, p) && c.victory == s.victory && AgreeAt(s, c, f)
    requires f in s.relationships && s.relationships[f] !in {Hostile, Allied} && f in s.aidNumbers
    requires s.aidNumbers[f] + 1 >= Threshold(s.relationships[f])
    ensures Aid(c, p, f).Ok? && Aid(s, p, f).Ok?
    ensures AgreeAt(Aid(s, p, f).value, Aid(c, p, f).value, f)
  {
    var rel := s.relationships[f];
    var t, u := Aid(s, p, f).value, Aid(c, p, f).value;
    assert t.scores == AddScore(s, p, PromotionPoints(rel)).scores;
    assert u.scores == AddScore(c, p, PromotionPoints(rel)).scores;
    assert t.relationships == s.relationships[f := Improved(rel)] && t.aidNumbers == s.aidNumbers[f := 0];
    assert u.relationships == c.relationships[f := Improved(rel)] && u.aidNumbers == c.aidNumbers[f := 0];
  }

  lemma AidLocalCounted(s: State, c: State, p: int, f: Faction)
    requires IsPlayer(s, p) && c.victory == s.victory && AgreeAt(s, c, f)
    requires f in s.relationships && s.relationships[f] !in {Hostile, Allied} && f in s.aidNumbers
    requires s.aidNumbers[f] + 1 < Threshold(s.relationships[f])
    ensures Aid(c, p, f).Ok? && Aid(s, p, f).Ok?
    ensures AgreeAt(Aid(s, p, f).value, Aid(c, p, f).value, f)
  {
    var n := s.aidNumbers[f] + 1;
    assert Aid(s, p, f).value == s.(aidNumbers := s.aidNumbers[f := n]);
    assert Aid(c, p, f).value == c.(aidNumbers := c.aidNumbers[f := n]);
  }
}

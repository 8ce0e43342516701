/** The occurrence summariser of the evaluation framework
    (TAGOccurrenceStatSummary): a map from each observed element to how
    often it was seen, with single and bulk adds, merging of two
    summaries, copying, the key-to-count summary and the textual summary
    sorted by count. Element keys are values, so map equality stands for
    Java's `equals`; `toString` of a key and the hash map's iteration order
    are parameters. */
module Occurrence {
  import opened Basics

  datatype StatType = OccurrenceStat | OtherStat

  /** A summary. `name` may be `null`; `n` belongs to the superclass and is
      only carried along. */
  datatype Summary<K> = Summary(name: Option<string>, n: int, statType: StatType, elements: map<K, int>)

  /** A count; an absent key counts 0. */
  function Get<K(!new)>(m: map<K, int>, k: K): int
  {
    if k in m then m[k] else 0
  }

  /** Occurrences of `k` in `xs`. */
  function Occ<K(==)>(xs: seq<K>, k: K): nat
  {
    if |xs| == 0 then 0 else Occ(xs[..|xs| - 1], k) + (if xs[|xs| - 1] == k then 1 else 0)
  }

  lemma {:induction false} OccAbsent<K(!new)>(xs: seq<K>, k: K)
    requires k !in xs
    ensures Occ(xs, k) == 0
  {
    if |xs| > 0 {
      assert xs[..|xs| - 1] <= xs;
      OccAbsent(xs[..|xs| - 1], k);
    }
  }

  /** `reset`: the element map becomes empty. */
  function Reset<K(!new)>(s: Summary<K>): (r: Summary<K>)
    ensures forall k :: Get(r.elements, k) == 0
    ensures r.name == s.name && r.n == s.n && r.statType == s.statType
  {
    s.(elements := map[])
  }

  /** `add(Object)`: put 0 for an unseen key, then increment it. */
  function Add<K(!new)>(s: Summary<K>, o: K): (r: Summary<K>)
    ensures r.elements.Keys == s.elements.Keys + {o}
    ensures Get(r.elements, o) == Get(s.elements, o) + 1
    ensures forall k :: k != o ==> Get(r.elements, k) == Get(s.elements, k)
    ensures r.name == s.name && r.n == s.n && r.statType == s.statType
  {
    var m := if o !in s.elements then s.elements[o := 0] else s.elements;
    s.(elements := m[o := m[o] + 1])
  }

  /** Adding the elements of `xs` one after the other. */
  function AddAll<K(!new)>(s: Summary<K>, xs: seq<K>): Summary<K>
  {
    if |xs| == 0 then s else Add(AddAll(s, xs[..|xs| - 1]), xs[|xs| - 1])
  }

  /** After adding `xs`, every key has its old count plus its occurrences in
      `xs`, and nothing but the element map changes. */
  lemma {:induction false} AddAllCounts<K(!new)>(s: Summary<K>, xs: seq<K>)
    ensures forall k :: k in AddAll(s, xs).elements <==> k in s.elements || k in xs
    ensures forall k :: Get(AddAll(s, xs).elements, k) == Get(s.elements, k) + Occ(xs, k)
    ensures AddAll(s, xs).name == s.name && AddAll(s, xs).n == s.n && AddAll(s, xs).statType == s.statType
  {
    if |xs| > 0 {
      var front := xs[..|xs| - 1];
      AddAllCounts(s, front);
      assert xs == front + [xs[|xs| - 1]];
    }
  }

  /** `add(Object...)`: the loop over the arguments. */
  method AddEach<K(!new)>(s: Summary<K>, xa: seq<K>) returns (r: Summary<K>)
    ensures r == AddAll(s, xa)
    ensures forall k :: Get(r.elements, k) == Get(s.elements, k) + Occ(xa, k)
  {
    r := s;
    var i := 0;
    while i < |xa|
      invariant 0 <= i <= |xa|
      invariant r == AddAll(s, xa[..i])
    {
      assert xa[..i + 1][..i] == xa[..i];
      r := Add(r, xa[i]);
      i := i + 1;
    }
    assert xa[..|xa|] == xa;
    AddAllCounts(s, xa);
  }

  /** The merged element map: the union of the keys, each with the sum of
      its two counts. */
  function Sum<K(!new)>(a: map<K, int>, b: map<K, int>): (r: map<K, int>)
    ensures r.Keys == a.Keys + b.Keys
    ensures forall k :: k in a && k in b ==> r[k] == a[k] + b[k]
    ensures forall k :: k in a && k !in b ==> r[k] == a[k]
    ensures forall k :: k !in a && k in b ==> r[k] == b[k]
  {
    map k | k in a.Keys + b.Keys :: Get(a, k) + Get(b, k)
  }

  /** `order` lists every key of `m` exactly once. */
  ghost predicate Lists<K(!new)>(order: seq<K>, m: map<K, int>)
  {
    && (forall i, j :: 0 <= i < j < |order| ==> order[i] != order[j])
    && (forall k :: k in m <==> k in order)
  }

  /** `add(TAGOccurrenceStatSummary)`: walk the other summary's entries in
      `order`, adding each count to this one's or inserting it. */
  method Merge<K(!new)>(s: Summary<K>, t: Summary<K>, order: seq<K>) returns (r: Summary<K>)
    requires Lists(order, t.elements)
    ensures r.elements == Sum(s.elements, t.elements)
    ensures r.name == s.name && r.n == s.n && r.statType == s.statType
  {
    var m := s.elements;
    var i := 0;
    while i < |order|
      invariant 0 <= i <= |order|
      invariant MergedUpTo(m, s.elements, t.elements, order[..i])
    {
      var key := order[i];
      assert order[..i + 1] == order[..i] + [key];
      assert key !in order[..i];
      MergeStep(m, s.elements, t.elements, order[..i], key);
      if key in m {
        m := m[key := m[key] + t.elements[key]];
      } else {
        m := m[key := t.elements[key]];
      }
      i := i + 1;
    }
    assert order[..|order|] == order;
    MergeDone(m, s.elements, t.elements, order);
    r := s.(elements := m);
  }

  lemma MergeDone<K(!new)>(m: map<K, int>, a: map<K, int>, b: map<K, int>, order: seq<K>)
    requires MergedUpTo(m, a, b, order) && forall k :: k in b <==> k in order
    ensures m == Sum(a, b)
  {
  }

  /** `m` is `a` with the counts of `b` at the keys `done` added in. */
  ghost predicate MergedUpTo<K(!new)>(m: map<K, int>, a: map<K, int>, b: map<K, int>, done: seq<K>)
  {
    && (forall k :: k in done ==> k in b)
    && (forall k :: k in m <==> k in a || k in done)
    && (forall k :: k in m ==> m[k] == Get(a, k) + (if k in done then b[k] else 0))
  }

  lemma MergeStep<K(!new)>(m: map<K, int>, a: map<K, int>, b: map<K, int>, done: seq<K>, key: K)
    requires MergedUpTo(m, a, b, done) && key in b && key !in done
    ensures MergedUpTo(if key in m then m[key := m[key] + b[key]] else m[key := b[key]], a, b, done + [key])
  {
  }

  /** Merging the summary of one run into a summary counts as much as
      adding the run to it. */
  lemma {:induction false} MergeCountsBothRuns<K(!new)>(s: Summary<K>, xs: seq<K>, ys: seq<K>)
    ensures Sum(AddAll(s, xs).elements, AddAll(Reset(s), ys).elements) == AddAll(s, xs + ys).elements
  {
    AddAllCounts(s, xs);
    AddAllCounts(Reset(s), ys);
    AddAllCounts(s, xs + ys);
    var a := AddAll(s, xs).elements;
    var b := AddAll(Reset(s), ys).elements;
    var c := AddAll(s, xs + ys).elements;
    var m := Sum(a, b);
    forall k
      ensures k in m <==> k in c
      ensures k in c ==> m[k] == c[k]
    {
      OccAppend(xs, ys, k);
      assert k in xs + ys <==> k in xs || k in ys;
      assert Get(m, k) == Get(a, k) + Get(b, k);
    }
  }

  lemma {:induction false} OccAppend<K(!new)>(xs: seq<K>, ys: seq<K>, k: K)
    ensures Occ(xs + ys, k) == Occ(xs, k) + Occ(ys, k)
  {
    if |ys| > 0 {
      var front := ys[..|ys| - 1];
      OccAppend(xs, front, k);
      assert (xs + ys)[..|xs + ys| - 1] == xs + front;
    } else {
      assert xs + ys == xs;
    }
  }

  lemma MergeIsSymmetric<K(!new)>(a: map<K, int>, b: map<K, int>)
    ensures Sum(a, b) == Sum(b, a)
  {
  }

  /** `copy`: a new summary (named "unnamed" by its constructor) that then
      takes this one's name, count, type and a copy of the element map. */
  function Copy<K(!new)>(s: Summary<K>): (r: Summary<K>)
    ensures r.name == s.name && r.n == s.n && r.statType == s.statType
    ensures r.elements.Keys == s.elements.Keys
    ensures forall k :: k in s.elements ==> r.elements[k] == s.elements[k]
  {
    var made := Summary(Some("unnamed"), 0, OccurrenceStat, map[]);
    made.(name := s.name, n := s.n, statType := s.statType, elements := map k | k in s.elements :: s.elements[k])
  }

  // ----- the element map by reference -----

  /** Element maps on the heap, by reference; `next` is the next free
      reference. */
  datatype Heap<K> = Heap(maps: map<nat, map<K, int>>, next: nat)

  predicate Allocated<K>(h: Heap<K>)
  {
    forall q :: q in h.maps ==> q < h.next
  }

  /** A summary object whose element map is a reference into the heap. */
  datatype SummaryObj = SummaryObj(name: Option<string>, n: int, statType: StatType, elements: nat)

  /** The summary an object denotes in a heap. */
  function View<K>(h: Heap<K>, o: SummaryObj): Summary<K>
    requires o.elements in h.maps
  {
    Summary(o.name, o.n, o.statType, h.maps[o.elements])
  }

  /** `copy` on the heap: `new HashMap<>(elements)` allocates a fresh map
      holding the same counts; no existing map changes. */
  function CopyOn<K(!new)>(h: Heap<K>, o: SummaryObj): (r: (Heap<K>, SummaryObj))
    requires Allocated(h) && o.elements in h.maps
    ensures Allocated(r.0)
    ensures r.1.elements !in h.maps && r.1.elements in r.0.maps
    ensures View(r.0, r.1) == Copy(View(h, o))
    ensures forall q :: q in h.maps ==> q in r.0.maps && r.0.maps[q] == h.maps[q]
  {
    var c := Copy(View(h, o));
    (Heap(h.maps[h.next := c.elements], h.next + 1), SummaryObj(c.name, c.n, c.statType, h.next))
  }

  /** `add(Object)` on the heap: only the object's own map changes. */
  function AddOn<K(!new)>(h: Heap<K>, o: SummaryObj, x: K): (r: Heap<K>)
    requires o.elements in h.maps
    ensures r.next == h.next && r.maps.Keys == h.maps.Keys
    ensures View(r, o) == Add(View(h, o), x)
    ensures forall q :: q in h.maps && q != o.elements ==> r.maps[q] == h.maps[q]
  {
    Heap(h.maps[o.elements := Add(View(h, o), x).elements], h.next)
  }

  /** The copy holds its own map: adding to the copy counts there and
      leaves the original summary as it was. */
  lemma CopyIsIndependent<K(!new)>(h: Heap<K>, s: SummaryObj, x: K)
    requires Allocated(h) && s.elements in h.maps
    ensures var (h1, c) := CopyOn(h, s);
      && c.elements != s.elements
      && View(AddOn(h1, c, x), s) == View(h, s)
      && Get(View(AddOn(h1, c, x), c).elements, x) == Get(View(h, s).elements, x) + 1
  {
  }

  /** A copy that shared the original's map would not be independent:
      adding to it changes the original. */
  lemma SharedMapIsNotIndependent<K(!new)>(h: Heap<K>, s: SummaryObj, shared: SummaryObj, x: K)
    requires s.elements in h.maps && shared.elements == s.elements
    ensures View(AddOn(h, shared, x), s) != View(h, s)
  {
  }

  /** No later key of `order` prints like the key at position `i`. */
  predicate LastWithName<K>(order: seq<K>, str: K -> string, i: nat)
    requires i < |order|
  {
    forall j :: i < j < |order| ==> str(order[j]) != str(order[i])
  }

  /** `getSummary`: each key's string form mapped to its count, walking the
      keys in `order`; when two keys print alike the later one wins. */
  method GetSummary<K(!new)>(s: Summary<K>, str: K -> string, order: seq<K>) returns (data: map<string, int>)
    requires Lists(order, s.elements)
    ensures forall k :: k in s.elements ==> str(k) in data
    ensures forall x :: x in data ==> exists k :: k in s.elements && str(k) == x
    ensures forall i :: 0 <= i < |order| && LastWithName(order, str, i) ==> data[str(order[i])] == s.elements[order[i]]
  {
    data := map[];
    // for each printed name, the position of the key that wrote it last
    ghost var src: map<string, nat> := map[];
    var i := 0;
    while i < |order|
      invariant 0 <= i <= |order|
      invariant data.Keys == src.Keys
      invariant forall y :: y in src ==> src[y] < i && str(order[src[y]]) == y && data[y] == s.elements[order[src[y]]]
      invariant forall x :: 0 <= x < i ==> str(order[x]) in src && src[str(order[x])] >= x
    {
      var key := order[i];
      data := data[str(key) := s.elements[key]];
      src := src[str(key) := i];
      i := i + 1;
    }
    forall x | 0 <= x < |order| && LastWithName(order, str, x)
      ensures data[str(order[x])] == s.elements[order[x]]
    {
      var y := str(order[x]);
      assert y in src && src[y] >= x && str(order[src[y]]) == y;
    }
    forall y | y in data
      ensures exists k :: k in s.elements && str(k) == y
    {
      assert order[src[y]] in s.elements;
    }
  }

  /** When no two keys print alike, the summary gives every key its count. */
  lemma SummaryOfDistinctNames<K(!new)>(s: Summary<K>, str: K -> string, order: seq<K>, data: map<string, int>)
    requires Lists(order, s.elements)
    requires forall a, b :: a in s.elements && b in s.elements && str(a) == str(b) ==> a == b
    requires forall i :: 0 <= i < |order| && LastWithName(order, str, i) ==> str(order[i]) in data && data[str(order[i])] == s.elements[order[i]]
    ensures forall k :: k in s.elements ==> str(k) in data && data[str(k)] == s.elements[k]
  {
    forall k | k in s.elements
      ensures str(k) in data && data[str(k)] == s.elements[k]
    {
      var i :| 0 <= i < |order| && order[i] == k;
      forall j | i < j < |order|
        ensures str(order[j]) != str(order[i])
      {
        assert order[j] in s.elements;
      }
      assert LastWithName(order, str, i);
    }
  }

  // ----- adding a comma-separated string -----

  /** Position of the first `c` in `x`. */
  function IndexOfChar(x: string, c: char): (i: nat)
    requires c in x
    ensures i < |x| && x[i] == c && c !in x[..i]
  {
    if x[0] == c then 0 else 1 + IndexOfChar(x[1..], c)
  }

  /** The pieces joined back with a comma between neighbours. */
  function Join(ps: seq<string>): string
  {
    if |ps| == 0 then ""
    else if |ps| == 1 then ps[0]
    else ps[0] + "," + Join(ps[1..])
  }

  /** The pieces of `x` between its commas: one more piece than commas, and
      joining them gives `x` back. */
  function Pieces(x: string): (r: seq<string>)
    ensures |r| > 0
    ensures forall i :: 0 <= i < |r| ==> ',' !in r[i]
    ensures Join(r) == x
    decreases |x|
  {
    if ',' !in x then [x]
    else
      var i := IndexOfChar(x, ',');
      var rest := Pieces(x[i + 1..]);
      assert x == x[..i] + "," + x[i + 1..];
      assert ([x[..i]] + rest)[1..] == rest;
      [x[..i]] + rest
  }

  /** `n` empty strings. */
  function Blanks(n: nat): (r: seq<string>)
    ensures |r| == n && forall i :: 0 <= i < n ==> r[i] == ""
  {
    seq(n, _ => "")
  }

  /** The list without its trailing empty strings. */
  function DropTrailingEmpty(ps: seq<string>): (r: seq<string>)
    ensures |r| <= |ps| && r == ps[..|r|]
    ensures |r| > 0 ==> r[|r| - 1] != ""
    ensures forall i :: |r| <= i < |ps| ==> ps[i] == ""
  {
    if |ps| > 0 && ps[|ps| - 1] == "" then DropTrailingEmpty(ps[..|ps| - 1]) else ps
  }

  /** `String.split(",")`: a string without a comma is its own single piece;
      otherwise the pieces between commas, trailing empty ones dropped. */
  function Split(x: string): (r: seq<string>)
    ensures ',' !in x ==> r == [x]
    ensures forall i :: 0 <= i < |r| ==> ',' !in r[i]
    // with a comma: no trailing empty piece, and only empty pieces were cut
    ensures ',' in x ==> |r| == 0 || r[|r| - 1] != ""
    ensures ',' in x ==> |r| <= |Pieces(x)| && Join(r + Blanks(|Pieces(x)| - |r|)) == x
  {
    if ',' !in x then [x]
    else
      var ps := Pieces(x);
      var r := DropTrailingEmpty(ps);
      assert r + Blanks(|ps| - |r|) == ps;
      r
  }

  /** `add(String)` as written, with the call depth bounded by `fuel`;
      `None` is a call that does not return before the bound. `n` grows by
      the number of pieces, then every piece is passed to `add(e)`, which
      for a `String` argument is this same method. */
  function AddText(s: Summary<string>, x: string, fuel: nat): (r: Option<Summary<string>>)
    ensures fuel == 0 ==> r.None?
    // a call that returns had nothing to add: only commas, and nothing changed
    ensures r.Some? ==> |Split(x)| == 0 && r.value == s
    decreases fuel, 0
  {
    if fuel == 0 then None
    else
      var ps := Split(x);
      AddPieces(s.(n := s.n + |ps|), ps, fuel - 1)
  }

  /** The loop over the pieces, each passed to `add(String)`. */
  function AddPieces(s: Summary<string>, ps: seq<string>, fuel: nat): (r: Option<Summary<string>>)
    ensures |ps| == 0 ==> r == Some(s)
    ensures r.Some? ==> r.value == s && forall i :: 0 <= i < |ps| ==> |Split(ps[i])| == 0
    decreases fuel, |ps|
  {
    if |ps| == 0 then Some(s)
    else
      match AddText(s, ps[0], fuel)
      case None => None
      case Some(t) =>
        var rest := AddPieces(t, ps[1..], fuel);
        assert rest.Some? ==> forall i :: 1 <= i < |ps| ==> ps[i] == ps[1..][i - 1];
        rest
  }

  /** As written, adding a string with at least one piece never returns,
      however deep the call stack may grow: the first piece has no comma, so
      it splits into itself and is added again. */
  lemma {:induction false} AddTextDiverges(s: Summary<string>, x: string, fuel: nat)
    requires |Split(x)| > 0
    ensures AddText(s, x, fuel).None?
    decreases fuel
  {
    if fuel > 0 {
      var ps := Split(x);
      var e := ps[0];
      assert ',' !in e;
      AddTextDiverges(s.(n := s.n + |ps|), e, fuel - 1);
    }
  }

  /** A string of commas only has no pieces: as written it returns at once,
      having counted nothing. */
  lemma AddTextOfCommasOnly(s: Summary<string>, x: string, fuel: nat)
    requires fuel > 0 && |Split(x)| == 0
    ensures AddText(s, x, fuel) == Some(s)
  {
  }

  /** `add(String)` as evidently intended: `n` grows by the number of
      pieces and every piece is counted once as an element. */
  function AddTextCorrected(s: Summary<string>, x: string): (r: Summary<string>)
    ensures r.n == s.n + |Split(x)|
    ensures forall k :: k in r.elements <==> k in s.elements || k in Split(x)
    ensures forall k :: Get(r.elements, k) == Get(s.elements, k) + Occ(Split(x), k)
    ensures r.name == s.name && r.statType == s.statType
  {
    var ps := Split(x);
    AddAllCounts(s.(n := s.n + |ps|), ps);
    AddAll(s.(n := s.n + |ps|), ps)
  }

  /** A string without a comma is one element: the corrected add counts it
      exactly as `add(Object)` does, and adds one to `n`. */
  lemma AddTextOfOnePiece(s: Summary<string>, x: string)
    requires ',' !in x
    ensures AddTextCorrected(s, x) == Add(s, x).(n := s.n + 1)
  {
    var s1 := s.(n := s.n + 1);
    assert Split(x) == [x];
    assert [x][..0] == [];
    assert AddAll(s1, [x]) == Add(s1, x);
    assert Add(s1, x).elements == Add(s, x).elements;
  }

  // ----- the textual summary -----

  /** A `DataMeasure`: a key's string form and its count. */
  datatype Measure = Measure(data: string, count: int)

  /** The tree set's order: strictly descending counts. */
  predicate Descending(ts: seq<Measure>)
  {
    forall i, j :: 0 <= i < j < |ts| ==> ts[i].count > ts[j].count
  }

  /** Some measure of `ts` has count `c`. */
  predicate HasCount(ts: seq<Measure>, c: int)
  {
    exists i :: 0 <= i < |ts| && ts[i].count == c
  }

  /** `TreeSet.add` under a comparator that looks at counts only: a measure
      whose count is already present is not added. */
  function Insert(ts: seq<Measure>, d: Measure): (r: seq<Measure>)
    requires Descending(ts)
    ensures Descending(r)
    ensures HasCount(ts, d.count) ==> r == ts
    ensures !HasCount(ts, d.count) ==> |r| == |ts| + 1 && forall e :: e in r <==> e in ts || e == d
  {
    if |ts| == 0 then [d]
    else if ts[0].count == d.count then ts
    else if d.count > ts[0].count then [d] + ts
    else
      var tail := ts[1..];
      TailFacts(ts, d.count);
      var rest := Insert(tail, d);
      ConsDescending(ts[0], rest);
      [ts[0]] + rest
  }

  lemma TailFacts(ts: seq<Measure>, c: int)
    requires |ts| > 0 && Descending(ts)
    ensures Descending(ts[1..])
    ensures forall e :: e in ts <==> e == ts[0] || e in ts[1..]
    ensures forall e :: e in ts[1..] ==> e.count < ts[0].count
    ensures ts[0].count != c ==> (HasCount(ts, c) <==> HasCount(ts[1..], c))
  {
    assert ts == [ts[0]] + ts[1..];
    if ts[0].count != c && HasCount(ts, c) {
      var i :| 0 <= i < |ts| && ts[i].count == c;
      assert ts[1..][i - 1] == ts[i];
    }
    if HasCount(ts[1..], c) {
      var i :| 0 <= i < |ts[1..]| && ts[1..][i].count == c;
      assert ts[i + 1] == ts[1..][i];
    }
  }

  lemma ConsDescending(x: Measure, rest: seq<Measure>)
    requires Descending(rest) && forall e :: e in rest ==> e.count < x.count
    ensures Descending([x] + rest)
    ensures forall e :: e in [x] + rest <==> e == x || e in rest
  {
    forall i, j | 0 <= i < j < |[x] + rest|
      ensures ([x] + rest)[i].count > ([x] + rest)[j].count
    {
      assert ([x] + rest)[j] == rest[j - 1];
      if i > 0 {
        assert ([x] + rest)[i] == rest[i - 1];
      }
    }
  }

  /** The first position of `order` whose key has count `c`. */
  predicate FirstWithCount<K>(order: seq<K>, m: map<K, int>, x: int, c: int)
    requires forall j :: 0 <= j < |order| ==> order[j] in m
  {
    0 <= x < |order| && m[order[x]] == c && forall y :: 0 <= y < x ==> m[order[y]] != c
  }

  /** Every key among the first `i` of `order` has its count in `ts`. */
  predicate CountsCovered<K>(ts: seq<Measure>, order: seq<K>, m: map<K, int>, i: nat)
    requires i <= |order| && forall j :: 0 <= j < |order| ==> order[j] in m
  {
    forall x :: 0 <= x < i ==> HasCount(ts, m[order[x]])
  }

  /** Measure `e` names the first key among the first `i` of `order` with
      its count. */
  predicate NamedFirst<K>(e: Measure, order: seq<K>, m: map<K, int>, str: K -> string, i: nat)
    requires i <= |order| && forall j :: 0 <= j < |order| ==> order[j] in m
  {
    exists x :: 0 <= x < i && FirstWithCount(order, m, x, e.count) && e.data == str(order[x])
  }

  lemma HasCountOfMember(ts: seq<Measure>, e: Measure)
    requires e in ts
    ensures HasCount(ts, e.count)
  {
    var j :| 0 <= j < |ts| && ts[j] == e;
  }

  /** One pass of the loop keeps both facts. */
  lemma SortStep<K>(ts: seq<Measure>, order: seq<K>, m: map<K, int>, str: K -> string, i: nat)
    requires i < |order| && forall j :: 0 <= j < |order| ==> order[j] in m
    requires Descending(ts) && CountsCovered(ts, order, m, i)
    requires forall e :: e in ts ==> NamedFirst(e, order, m, str, i)
    ensures var r := Insert(ts, Measure(str(order[i]), m[order[i]]));
      CountsCovered(r, order, m, i + 1) && forall e :: e in r ==> NamedFirst(e, order, m, str, i + 1)
  {
    var d := Measure(str(order[i]), m[order[i]]);
    var r := Insert(ts, d);
    if HasCount(ts, d.count) {
      assert r == ts;
    } else {
      forall x | 0 <= x < i + 1
        ensures HasCount(r, m[order[x]])
      {
        if x < i {
          var j :| 0 <= j < |ts| && ts[j].count == m[order[x]];
          HasCountOfMember(r, ts[j]);
        } else {
          HasCountOfMember(r, d);
        }
      }
      forall y | 0 <= y < i
        ensures m[order[y]] != d.count
      {
        assert HasCount(ts, m[order[y]]);
      }
      assert FirstWithCount(order, m, i, d.count);
    }
  }

  /** `stringSummary`, the sorting part: one measure per distinct count, by
      descending count, each naming the first key in `order` with that
      count. */
  method SortedMeasures<K(!new)>(s: Summary<K>, str: K -> string, order: seq<K>) returns (ts: seq<Measure>)
    requires Lists(order, s.elements)
    ensures Descending(ts)
    ensures forall k :: k in s.elements ==> HasCount(ts, s.elements[k])
    ensures forall e :: e in ts ==> exists x :: FirstWithCount(order, s.elements, x, e.count) && e.data == str(order[x])
  {
    ts := [];
    var i := 0;
    while i < |order|
      invariant 0 <= i <= |order|
      invariant Descending(ts) && CountsCovered(ts, order, s.elements, i)
      invariant forall e :: e in ts ==> NamedFirst(e, order, s.elements, str, i)
    {
      SortStep(ts, order, s.elements, str, i);
      ts := Insert(ts, Measure(str(order[i]), s.elements[order[i]]));
      i := i + 1;
    }
    forall k | k in s.elements
      ensures HasCount(ts, s.elements[k])
    {
      var x :| 0 <= x < |order| && order[x] == k;
    }
  }

  function DigitChar(d: nat): char
    requires d < 10
  {
    "0123456789"[d]
  }

  /** Decimal digits of a natural number. */
  function Digits(v: nat): (r: string)
    ensures |r| > 0
    decreases v
  {
    if v < 10 then [DigitChar(v)] else Digits(v / 10) + [DigitChar(v % 10)]
  }

  /** `Integer.toString`. */
  function IntText(v: int): string
  {
    if v < 0 then "-" + Digits(-v) else Digits(v)
  }

  /** The lines after the header: a tab, `count - data`, a newline. */
  function Lines(ts: seq<Measure>): string
  {
    if |ts| == 0 then "" else "\t" + IntText(ts[0].count) + " - " + ts[0].data + "\n" + Lines(ts[1..])
  }

  /** The name (`null` prints as "null") and the column header. */
  function Header(name: Option<string>): string
  {
    (if name.Some? then name.value else "null") + "\n\tCount - Measure\n"
  }

  /** `stringSummary`: the name (`null` prints as "null"), the column
      header, then the sorted measures. */
  method StringSummary<K(!new)>(s: Summary<K>, str: K -> string, order: seq<K>) returns (text: string, ts: seq<Measure>)
    requires Lists(order, s.elements)
    ensures Descending(ts)
    ensures forall k :: k in s.elements ==> HasCount(ts, s.elements[k])
    ensures forall e :: e in ts ==> exists x :: FirstWithCount(order, s.elements, x, e.count) && e.data == str(order[x])
    ensures text == Header(s.name) + Lines(ts)
  {
    ts := SortedMeasures(s, str, order);
    text := Header(s.name) + Lines(ts);
  }
}

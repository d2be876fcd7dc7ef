/** The collection store of client/hooks/use-collection.tsx: a set of
    collected bird ids with add, remove, membership and clear, the statistics
    derived from it against a catalog, and the confetti celebration that
    adding a new bird sets off, recorded as data. */
module Collection {
  import opened Wrappers
  import opened Birds
  import Seqs

  /** `collectedBirdIds`. */
  type Ids = set<string>

  /** `isInCollection(id)`: `collectedBirdIds.has(id)`. */
  predicate IsInCollection(c: Ids, id: string) {
    id in c
  }

  /** The set after `addToCollection(id)`: `id` is in, nothing else changed. */
  function Add(c: Ids, id: string): (d: Ids)
    ensures IsInCollection(d, id)
    ensures forall x :: x != id ==> (IsInCollection(d, x) <==> IsInCollection(c, x))
    ensures IsInCollection(c, id) ==> d == c
    ensures |d| <= |c| + 1
  {
    c + {id}
  }

  /** `removeFromCollection(id)`: `id` is out, nothing else changed. */
  function Remove(c: Ids, id: string): (d: Ids)
    ensures !IsInCollection(d, id)
    ensures forall x :: x != id ==> (IsInCollection(d, x) <==> IsInCollection(c, x))
    ensures !IsInCollection(c, id) ==> d == c
  {
    c - {id}
  }

  /** `clearCollection()`. */
  function Clear(): (d: Ids)
    ensures forall x :: !IsInCollection(d, x)
  {
    {}
  }

  /** Removing undoes adding a new id, and adding undoes removing a collected one. */
  lemma AddRemoveInverse(c: Ids, id: string)
    ensures !IsInCollection(c, id) ==> Remove(Add(c, id), id) == c
    ensures IsInCollection(c, id) ==> Add(Remove(c, id), id) == c
  {
  }

  /** One call that changes the store. */
  datatype Action = Adding(id: string) | Removing(id: string) | Clearing

  function Apply(c: Ids, a: Action): Ids {
    match a
    case Adding(id) => Add(c, id)
    case Removing(id) => Remove(c, id)
    case Clearing => Clear()
  }

  /** The set after a history of calls, starting from the empty initial state. */
  function History(acts: seq<Action>): Ids
    decreases |acts|
  {
    if |acts| == 0 then {} else Apply(History(acts[..|acts| - 1]), acts[|acts| - 1])
  }

  /** Some call adds `id` and no later call removes it or clears the store. */
  ghost predicate LastTouchAdds(acts: seq<Action>, id: string) {
    exists k :: 0 <= k < |acts| && acts[k] == Adding(id) &&
      forall j :: k < j < |acts| ==> acts[j] != Removing(id) && !acts[j].Clearing?
  }

  /** How one more call changes whether the last touch of `id` adds it. */
  lemma LastTouchAddsSnoc(prefix: seq<Action>, a: Action, id: string)
    ensures LastTouchAdds(prefix + [a], id) <==>
      a == Adding(id) || (a != Removing(id) && !a.Clearing? && LastTouchAdds(prefix, id))
  {
    var acts := prefix + [a];
    var n := |prefix|;
    if a == Adding(id) {
      assert acts[n] == Adding(id);
    } else if a == Removing(id) || a.Clearing? {
      assert acts[n] == a;
    } else {
      if LastTouchAdds(prefix, id) {
        var k :| 0 <= k < |prefix| && prefix[k] == Adding(id) &&
          forall j :: k < j < |prefix| ==> prefix[j] != Removing(id) && !prefix[j].Clearing?;
        assert acts[k] == Adding(id);
        forall j | k < j < |acts| ensures acts[j] != Removing(id) && !acts[j].Clearing? {
          if j < n { assert acts[j] == prefix[j]; }
        }
      }
      if LastTouchAdds(acts, id) {
        var k :| 0 <= k < |acts| && acts[k] == Adding(id) &&
          forall j :: k < j < |acts| ==> acts[j] != Removing(id) && !acts[j].Clearing?;
        assert k != n;
        assert prefix[k] == Adding(id);
        forall j | k < j < |prefix| ensures prefix[j] != Removing(id) && !prefix[j].Clearing? {
          assert prefix[j] == acts[j];
        }
      }
    }
  }

  /** After any history an id is collected exactly when it was added and
      neither removed nor cleared since. */
  lemma {:induction false} CollectedIffLastAdded(acts: seq<Action>, id: string)
    ensures IsInCollection(History(acts), id) <==> LastTouchAdds(acts, id)
    decreases |acts|
  {
    if |acts| == 0 {
      assert !LastTouchAdds(acts, id);
    } else {
      var n := |acts| - 1;
      CollectedIffLastAdded(acts[..n], id);
      assert acts == acts[..n] + [acts[n]];
      LastTouchAddsSnoc(acts[..n], acts[n], id);
    }
  }

  /** Position `i` holds the first bird of `bs` with this id. */
  ghost predicate IsFirstWithId(bs: seq<Bird>, id: string, i: int) {
    0 <= i < |bs| && bs[i].id == id && forall j :: 0 <= j < i ==> bs[j].id != id
  }

  /** `birds.find(b => b.id === id)`: the first bird with that id, if any. */
  function Find(bs: seq<Bird>, id: string): (r: Option<Bird>)
    ensures r.None? <==> forall i :: 0 <= i < |bs| ==> bs[i].id != id
    ensures r.Some? ==> exists i :: IsFirstWithId(bs, id, i) && bs[i] == r.value
    decreases |bs|
  {
    if |bs| == 0 then None
    else if bs[0].id == id then
      assert IsFirstWithId(bs, id, 0);
      Some(bs[0])
    else
      var r := Find(bs[1..], id);
      if r.Some? then
        assert exists i :: IsFirstWithId(bs, id, i) && bs[i] == r.value by {
          var i :| IsFirstWithId(bs[1..], id, i) && bs[1..][i] == r.value;
          assert IsFirstWithId(bs, id, i + 1) by {
            forall j | 0 <= j < i + 1 ensures bs[j].id != id {
              if j > 0 { assert bs[j] == bs[1..][j - 1]; }
            }
          }
        }
        r
      else
        assert forall i :: 0 <= i < |bs| ==> bs[i].id != id by {
          forall i | 0 <= i < |bs| ensures bs[i].id != id {
            if i > 0 { assert bs[i] == bs[1..][i - 1]; }
          }
        }
        r
  }

  /** `bird?.rarity || 'common'`: an id missing from the catalog counts as common. */
  function CelebrationRarity(cat: seq<Bird>, id: string): Rarity {
    match Find(cat, id)
    case Some(b) => b.rarity
    case None => Common
  }

  /** What the confetti calls of `addToCollection` would draw. */
  datatype Celebration = Celebration(
    colors: seq<string>,
    sideBurstParticles: nat,
    centreParticles: nat,
    centreScalar: real,
    goldenShower: bool)

  /** A `#rrggbb` colour. */
  predicate HexColour(s: string) {
    |s| == 7 && s[0] == '#' && forall k :: 1 <= k < 7 ==> s[k] in "0123456789abcdef"
  }

  /** The confetti palette of each rarity: three greens, three purples, or
      three ambers plus gold, which only the legendary palette has. */
  function ConfettiColors(r: Rarity): (cs: seq<string>)
    ensures |cs| == if r == Legendary then 4 else 3
    ensures forall i :: 0 <= i < |cs| ==> HexColour(cs[i])
    ensures "#ffd700" in cs <==> r == Legendary
  {
    match r
    case Common => ["#22c55e", "#16a34a", "#15803d"]
    case Rare => ["#8b5cf6", "#7c3aed", "#6d28d9"]
    case Legendary => ["#f59e0b", "#d97706", "#b45309", "#ffd700"]
  }

  function CelebrationFor(r: Rarity): (cel: Celebration)
    ensures cel.colors == ConfettiColors(r)
    ensures cel.sideBurstParticles == 50
    ensures cel.centreParticles == (match r case Legendary => 150 case Rare => 100 case Common => 75)
    ensures cel.centreScalar == (if r == Legendary then 1.2 else 1.0)
    ensures cel.goldenShower <==> r == Legendary
  {
    Celebration(
      ConfettiColors(r),
      50,
      if r == Legendary then 150 else if r == Rare then 100 else 75,
      if r == Legendary then 1.2 else 1.0,
      r == Legendary)
  }

  /** No two rarities share a confetti colour. */
  lemma PalettesDisjoint(r: Rarity, q: Rarity)
    requires r != q
    ensures forall x :: x in ConfettiColors(r) ==> x !in ConfettiColors(q)
  {
  }

  /** `addToCollection(id)`: the new set, and the celebration if the id was
      not collected before. */
  function AddToCollection(cat: seq<Bird>, c: Ids, id: string): (res: (Ids, Option<Celebration>))
    ensures res.0 == Add(c, id)
    ensures res.1.Some? <==> !IsInCollection(c, id)
    ensures res.1.Some? ==> res.1.value == CelebrationFor(CelebrationRarity(cat, id))
  {
    (Add(c, id), if id in c then None else Some(CelebrationFor(CelebrationRarity(cat, id))))
  }

  /** Adding a collected id changes nothing and celebrates nothing; adding a
      new one fires a celebration sized by the bird's rarity, an unknown id
      being treated as common. */
  lemma CelebrationRules(cat: seq<Bird>, c: Ids, id: string)
    ensures IsInCollection(c, id) ==> AddToCollection(cat, c, id) == (c, None)
    ensures !IsInCollection(c, id) && (forall i :: 0 <= i < |cat| ==> cat[i].id != id) ==>
      AddToCollection(cat, c, id).1 == Some(CelebrationFor(Common))
    ensures forall i :: IsFirstWithId(cat, id, i) && !IsInCollection(c, id) ==>
      AddToCollection(cat, c, id).1 == Some(CelebrationFor(cat[i].rarity))
  {
    forall i | IsFirstWithId(cat, id, i)
      ensures Find(cat, id) == Some(cat[i])
    {
      var r := Find(cat, id);
      assert r.Some? by {
        assert cat[i].id == id;
      }
      var k :| IsFirstWithId(cat, id, k) && cat[k] == r.value;
    }
  }

  /** `collectionStats`. */
  datatype Stats = Stats(total: nat, common: nat, rare: nat, legendary: nat, habitats: set<Habitat>)

  function InCollection(c: Ids): Bird -> bool {
    (b: Bird) => b.id in c
  }

  /** The catalog birds whose ids are collected, in catalog order. */
  function CollectedBirds(cat: seq<Bird>, c: Ids): (r: seq<Bird>)
    ensures forall b :: b in r <==> b in cat && b.id in c
    ensures multiset(r) + multiset(Seqs.Filter(cat, Seqs.Not(InCollection(c)))) == multiset(cat)
  {
    Seqs.FilterPartition(cat, InCollection(c));
    Seqs.Filter(cat, InCollection(c))
  }

  function HabitatList(bs: seq<Bird>): (hs: seq<Habitat>)
    ensures |hs| == |bs|
  {
    seq(|bs|, i requires 0 <= i < |bs| => bs[i].habitat)
  }

  /** The catalog positions whose bird's id is collected. */
  ghost function CollectedPositions(cat: seq<Bird>, c: Ids): set<int> {
    set i | 0 <= i < |cat| && cat[i].id in c
  }

  /** The collected catalog positions holding a bird of rarity `r`. */
  ghost function CollectedPositionsOf(cat: seq<Bird>, c: Ids, r: Rarity): set<int> {
    set i | 0 <= i < |cat| && cat[i].id in c && cat[i].rarity == r
  }

  /** The habitats of the catalog birds at the positions `ix`. */
  ghost function HabitatsAt(cat: seq<Bird>, ix: set<int>): set<Habitat> {
    set i | i in ix && 0 <= i < |cat| :: cat[i].habitat
  }

  /** The number of collected catalog positions of rarity `r`. */
  lemma CollectedRarityCount(cat: seq<Bird>, c: Ids, r: Rarity)
    ensures Seqs.Count(CollectedBirds(cat, c), RarityFilter(r)) == |CollectedPositionsOf(cat, c, r)|
  {
    var both := Seqs.Both(InCollection(c), RarityFilter(r));
    Seqs.FilterBoth(cat, InCollection(c), RarityFilter(r));
    Seqs.CountIndices(cat, both);
    var ix := CollectedPositionsOf(cat, c, r);
    forall i | 0 <= i < |cat| ensures i in ix <==> both(cat[i]) { }
    Seqs.IndicesAre(cat, both, ix);
  }

  /** Every habitat at a collected catalog position is a habitat of the collected birds. */
  lemma CollectedHabitatsCover(cat: seq<Bird>, c: Ids, i: int)
    requires 0 <= i < |cat| && cat[i].id in c
    ensures cat[i].habitat in Seqs.Elements(HabitatList(CollectedBirds(cat, c)))
  {
    var collected := CollectedBirds(cat, c);
    assert cat[i] in collected;
    var j :| 0 <= j < |collected| && collected[j] == cat[i];
    assert HabitatList(collected)[j] == cat[i].habitat;
  }

  /** Every habitat of the collected birds is found at a collected catalog position. */
  lemma CollectedHabitatsFound(cat: seq<Bird>, c: Ids, h: Habitat)
    requires h in Seqs.Elements(HabitatList(CollectedBirds(cat, c)))
    ensures exists i :: 0 <= i < |cat| && cat[i].id in c && cat[i].habitat == h
  {
    var collected := CollectedBirds(cat, c);
    var j :| 0 <= j < |collected| && HabitatList(collected)[j] == h;
    assert collected[j] in cat;
    var i :| 0 <= i < |cat| && cat[i] == collected[j];
    assert cat[i].id in c && cat[i].habitat == h;
  }

  /** The habitats of the collected birds are those at collected catalog positions. */
  lemma CollectedHabitats(cat: seq<Bird>, c: Ids)
    ensures Seqs.Elements(HabitatList(CollectedBirds(cat, c))) == HabitatsAt(cat, CollectedPositions(cat, c))
  {
    forall i | 0 <= i < |cat| && cat[i].id in c
      ensures cat[i].habitat in Seqs.Elements(HabitatList(CollectedBirds(cat, c)))
    {
      CollectedHabitatsCover(cat, c, i);
    }
    forall h | h in Seqs.Elements(HabitatList(CollectedBirds(cat, c)))
      ensures exists i :: 0 <= i < |cat| && cat[i].id in c && cat[i].habitat == h
    {
      CollectedHabitatsFound(cat, c, h);
    }
  }

  /** `collectionStats`: the number of collected catalog positions, split
      by rarity, and the habitats found at them. */
  function CollectionStats(cat: seq<Bird>, c: Ids): (s: Stats)
    ensures s.total == |CollectedPositions(cat, c)|
    ensures s.common == |CollectedPositionsOf(cat, c, Common)|
    ensures s.rare == |CollectedPositionsOf(cat, c, Rare)|
    ensures s.legendary == |CollectedPositionsOf(cat, c, Legendary)|
    ensures s.habitats == HabitatsAt(cat, CollectedPositions(cat, c))
  {
    var collected := CollectedBirds(cat, c);
    Seqs.CountIndices(cat, InCollection(c));
    var ix := CollectedPositions(cat, c);
    forall i | 0 <= i < |cat| ensures i in ix <==> InCollection(c)(cat[i]) { }
    Seqs.IndicesAre(cat, InCollection(c), ix);
    CollectedRarityCount(cat, c, Common);
    CollectedRarityCount(cat, c, Rare);
    CollectedRarityCount(cat, c, Legendary);
    CollectedHabitats(cat, c);
    Stats(
      |collected|,
      Seqs.Count(collected, RarityFilter(Common)),
      Seqs.Count(collected, RarityFilter(Rare)),
      Seqs.Count(collected, RarityFilter(Legendary)),
      Seqs.Elements(HabitatList(collected)))
  }

  /** Every bird has exactly one of the three rarities. */
  lemma {:induction false} RarityPartition(bs: seq<Bird>)
    ensures Seqs.Count(bs, RarityFilter(Common)) + Seqs.Count(bs, RarityFilter(Rare))
            + Seqs.Count(bs, RarityFilter(Legendary)) == |bs|
    decreases |bs|
  {
    if |bs| > 0 {
      RarityPartition(bs[1..]);
    }
  }

  /** The habitats listed are those of collected catalog birds. */
  lemma StatsHabitats(cat: seq<Bird>, c: Ids)
    ensures forall h :: h in CollectionStats(cat, c).habitats <==>
              exists b :: b in cat && b.id in c && b.habitat == h
  {
    var s := CollectionStats(cat, c);
    forall b | b in cat && b.id in c ensures b.habitat in s.habitats {
      var i :| 0 <= i < |cat| && cat[i] == b;
      assert cat[i].id in c;
    }
    forall h | h in s.habitats ensures exists b :: b in cat && b.id in c && b.habitat == h {
      var i :| 0 <= i < |cat| && cat[i].id in c && cat[i].habitat == h;
      assert cat[i] in cat;
    }
  }

  /** The statistics add up: the rarity counts sum to the total, the total
      is bounded by the catalog, and `habitats` is exactly the set of
      habitats of collected catalog birds, so it is no larger than the total. */
  lemma StatsConsistent(cat: seq<Bird>, c: Ids)
    ensures CollectionStats(cat, c).total
            == CollectionStats(cat, c).common + CollectionStats(cat, c).rare + CollectionStats(cat, c).legendary
    ensures CollectionStats(cat, c).total <= |cat|
    ensures forall h :: h in CollectionStats(cat, c).habitats <==>
              exists b :: b in cat && b.id in c && b.habitat == h
    ensures |CollectionStats(cat, c).habitats| <= CollectionStats(cat, c).total
  {
    var collected := CollectedBirds(cat, c);
    RarityPartition(collected);
    Seqs.ElementsCard(HabitatList(collected));
    StatsHabitats(cat, c);
  }

  /** Collected ids that name no catalog bird are ignored by the statistics. */
  lemma UnknownIdsIgnored(cat: seq<Bird>, c: Ids, known: Ids)
    requires forall i :: 0 <= i < |cat| ==> cat[i].id in known
    ensures CollectionStats(cat, c) == CollectionStats(cat, c * known)
  {
    Seqs.FilterCongruent(cat, InCollection(c), InCollection(c * known));
  }

  /** After `clearCollection` every statistic is zero and no habitat is listed. */
  lemma ClearedStats(cat: seq<Bird>)
    ensures CollectionStats(cat, Clear()) == Stats(0, 0, 0, 0, {})
  {
    Seqs.FilterKeepsNone(cat, InCollection(Clear()));
  }

  /** Statistics are pointwise no larger than others. */
  predicate StatsLe(s: Stats, t: Stats) {
    s.total <= t.total && s.common <= t.common && s.rare <= t.rare
    && s.legendary <= t.legendary && s.habitats <= t.habitats
  }

  /** The birds collected under a smaller set are those collected under a
      larger one, filtered again. */
  lemma CollectedNarrow(cat: seq<Bird>, c: Ids, d: Ids)
    requires c <= d
    ensures CollectedBirds(cat, c) == Seqs.Filter(CollectedBirds(cat, d), InCollection(c))
  {
    Seqs.FilterNarrow(cat, InCollection(d), InCollection(c));
  }

  /** The habitats of a filtered sequence are among those of the whole. */
  lemma HabitatsAfterFilter(bs: seq<Bird>, p: Bird -> bool)
    ensures Seqs.Elements(HabitatList(Seqs.Filter(bs, p))) <= Seqs.Elements(HabitatList(bs))
  {
    var narrow := Seqs.Filter(bs, p);
    forall h | h in Seqs.Elements(HabitatList(narrow))
      ensures h in Seqs.Elements(HabitatList(bs))
    {
      var i :| 0 <= i < |narrow| && HabitatList(narrow)[i] == h;
      assert narrow[i] in bs;
      var j :| 0 <= j < |bs| && bs[j] == narrow[i];
      assert HabitatList(bs)[j] == h;
    }
  }

  /** Collecting more ids never lowers a statistic. */
  lemma StatsMonotone(cat: seq<Bird>, c: Ids, d: Ids)
    requires c <= d
    ensures StatsLe(CollectionStats(cat, c), CollectionStats(cat, d))
  {
    var wide := CollectedBirds(cat, d);
    CollectedNarrow(cat, c, d);
    Seqs.CountAfterFilter(wide, InCollection(c), RarityFilter(Common));
    Seqs.CountAfterFilter(wide, InCollection(c), RarityFilter(Rare));
    Seqs.CountAfterFilter(wide, InCollection(c), RarityFilter(Legendary));
    HabitatsAfterFilter(wide, InCollection(c));
  }
}

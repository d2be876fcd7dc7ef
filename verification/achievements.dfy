/** The achievement table and progress bars of
    client/components/AchievementModal.tsx. */
module Achievements {
  import opened Birds
  import opened Collection
  import Seqs

  datatype Achievement = BirdCollector | HabitatExplorer | LegendaryHunter | RareSeeker

  /** The four achievements, in display order. */
  const AllAchievements: seq<Achievement> := [BirdCollector, HabitatExplorer, LegendaryHunter, RareSeeker]

  /** The statistic each achievement reads (its `current` selector). */
  function Current(a: Achievement, s: Stats): nat {
    match a
    case BirdCollector => s.total
    case HabitatExplorer => |s.habitats|
    case LegendaryHunter => s.legendary
    case RareSeeker => s.rare
  }

  /** The fixed `target` of each achievement. */
  function Target(a: Achievement): (t: nat)
    ensures t > 0
  {
    match a
    case BirdCollector => 15
    case HabitatExplorer => 8
    case LegendaryHunter => 3
    case RareSeeker => 6
  }

  /** The table reads `total`, `habitats.size`, `legendary` and `rare`
      against the targets 15, 8, 3 and 6. */
  lemma AchievementTable(s: Stats)
    ensures |AllAchievements| == 4
    ensures Current(AllAchievements[0], s) == s.total && Target(AllAchievements[0]) == 15
    ensures Current(AllAchievements[1], s) == |s.habitats| && Target(AllAchievements[1]) == 8
    ensures Current(AllAchievements[2], s) == s.legendary && Target(AllAchievements[2]) == 3
    ensures Current(AllAchievements[3], s) == s.rare && Target(AllAchievements[3]) == 6
    ensures forall a :: a in AllAchievements
  {
    forall a ensures a in AllAchievements {
      match a
      case BirdCollector => assert AllAchievements[0] == a;
      case HabitatExplorer => assert AllAchievements[1] == a;
      case LegendaryHunter => assert AllAchievements[2] == a;
      case RareSeeker => assert AllAchievements[3] == a;
    }
  }

  /** `Math.min((current / target) * 100, 100)`, the width of the bar in percent. */
  function Progress(current: int, target: int): (p: real)
    requires target > 0
    ensures p <= 100.0
    ensures current >= 0 ==> 0.0 <= p
    ensures p == 100.0 <==> current >= target
    ensures current < target ==> p * (target as real) == (current as real) * 100.0
  {
    var raw := (current as real / target as real) * 100.0;
    assert raw * (target as real) == (current as real) * 100.0 by {
      var t := target as real;
      assert (current as real / t) * t == current as real;
    }
    if raw < 100.0 then raw else 100.0
  }

  /** `isCompleted`: the achievement whose bar is full. */
  predicate IsCompleted(current: int, target: int)
    ensures target > 0 ==> (IsCompleted(current, target) <==> Progress(current, target) == 100.0)
  {
    current >= target
  }

  /** A completed achievement shows a full bar, and only a completed one does. */
  lemma CompletedIsFull(current: int, target: int)
    requires target > 0
    ensures IsCompleted(current, target) <==> Progress(current, target) == 100.0
  {
  }

  /** Progress never falls as the statistic grows. */
  lemma ProgressMonotone(c: int, d: int, target: int)
    requires target > 0
    requires c <= d
    ensures Progress(c, target) <= Progress(d, target)
  {
    var t := target as real;
    assert c as real / t <= d as real / t by {
      assert (d as real / t) - (c as real / t) == (d - c) as real / t;
    }
  }

  /** The bar of one achievement: the share of its target its statistic reaches. */
  function AchievementProgress(a: Achievement, s: Stats): (p: real)
    ensures 0.0 <= p <= 100.0
    ensures p == 100.0 <==> Current(a, s) >= Target(a)
    ensures Current(a, s) < Target(a) ==> p * (Target(a) as real) == (Current(a, s) as real) * 100.0
  {
    Progress(Current(a, s), Target(a))
  }

  /** The completed mark of one achievement, shown exactly when its bar is full. */
  predicate AchievementCompleted(a: Achievement, s: Stats)
    ensures AchievementCompleted(a, s) <==> AchievementProgress(a, s) == 100.0
  {
    IsCompleted(Current(a, s), Target(a))
  }

  function Completed(s: Stats): Achievement -> bool {
    (a: Achievement) => AchievementCompleted(a, s)
  }

  /** The four achievements are listed once each. */
  lemma AllAchievementsDistinct()
    ensures Seqs.Distinct(AllAchievements)
  {
  }

  /** The set of completed achievements. */
  ghost function CompletedSet(s: Stats): set<Achievement> {
    set a | a in AllAchievements && AchievementCompleted(a, s)
  }

  lemma CountCompleted(s: Stats)
    ensures Seqs.Count(AllAchievements, Completed(s)) == |CompletedSet(s)|
  {
    AllAchievementsDistinct();
    Seqs.CountDistinct(AllAchievements, Completed(s));
    var viaLambda := Seqs.Passing(AllAchievements, Completed(s));
    forall a ensures a in viaLambda <==> a in CompletedSet(s) {
      assert Completed(s)(a) == AchievementCompleted(a, s);
    }
    assert viaLambda == CompletedSet(s);
  }

  /** The "n/4 Achievements" numerator: how many of the four are completed. */
  function CompletedCount(s: Stats): (n: nat)
    ensures n == |CompletedSet(s)|
    ensures n <= 4
  {
    CountCompleted(s);
    Seqs.Count(AllAchievements, Completed(s))
  }

  /** Raising any statistic never lowers a bar, un-completes an achievement
      or lowers the completed count. */
  lemma RaisingStatsNeverLowers(s: Stats, t: Stats)
    requires StatsLe(s, t)
    ensures forall a :: AchievementProgress(a, s) <= AchievementProgress(a, t)
    ensures forall a :: AchievementCompleted(a, s) ==> AchievementCompleted(a, t)
    ensures CompletedCount(s) <= CompletedCount(t)
  {
    Seqs.SubsetCard(s.habitats, t.habitats);
    forall a ensures AchievementProgress(a, s) <= AchievementProgress(a, t) {
      ProgressMonotone(Current(a, s), Current(a, t), Target(a));
    }
    Seqs.CountMonotone(AllAchievements, Completed(s), Completed(t));
  }

  /** The six habitats the catalog uses. */
  const CatalogHabitats: set<Habitat> := {Forest, OakWoodland, Gardens, Urban, Mountain, Wetland}

  lemma CatalogHabitatsBound()
    ensures Seqs.Elements(HabitatList(Catalog)) <= CatalogHabitats
    ensures |CatalogHabitats| == 6
  {
    forall i | 0 <= i < |Catalog| ensures Catalog[i].habitat in CatalogHabitats {
    }
  }

  /** No achievement is completed while every statistic stays below its target. */
  lemma NoneCompletedBelowTargets(s: Stats)
    requires s.total < 15 && |s.habitats| < 8 && s.legendary < 3 && s.rare < 6
    ensures CompletedCount(s) == 0
  {
    forall i | 0 <= i < |AllAchievements|
      ensures !Completed(s)(AllAchievements[i])
    {
    }
    Seqs.FilterKeepsNone(AllAchievements, Completed(s));
  }

  /** The statistics of any collection against a catalog are bounded by the
      catalog's own size, rarity counts and habitats. */
  lemma StatsBoundedByCatalog(cat: seq<Bird>, c: Ids)
    ensures CollectionStats(cat, c).total <= |cat|
    ensures CollectionStats(cat, c).rare <= Seqs.Count(cat, RarityFilter(Rare))
    ensures CollectionStats(cat, c).legendary <= Seqs.Count(cat, RarityFilter(Legendary))
    ensures CollectionStats(cat, c).habitats <= Seqs.Elements(HabitatList(cat))
  {
    Seqs.CountAfterFilter(cat, InCollection(c), RarityFilter(Rare));
    Seqs.CountAfterFilter(cat, InCollection(c), RarityFilter(Legendary));
    HabitatsAfterFilter(cat, InCollection(c));
  }

  /** With the shipped catalog (12 birds in 6 habitats, 1 legendary, 4 rare)
      no achievement can ever be completed, whatever is collected. */
  lemma NoAchievementReachable(c: Ids)
    ensures CompletedCount(CollectionStats(Catalog, c)) == 0
  {
    CatalogShape(Rare);
    CatalogShape(Legendary);
    CatalogHabitatsBound();
    Seqs.SubsetCard(Seqs.Elements(HabitatList(Catalog)), CatalogHabitats);
    NoneReachableWithin(Catalog, c);
  }

  /** A catalog whose size, rarity counts and habitats all stay below the
      targets leaves every achievement out of reach. */
  lemma NoneReachableWithin(cat: seq<Bird>, c: Ids)
    requires |cat| < 15 && |Seqs.Elements(HabitatList(cat))| < 8
    requires Seqs.Count(cat, RarityFilter(Legendary)) < 3 && Seqs.Count(cat, RarityFilter(Rare)) < 6
    ensures CompletedCount(CollectionStats(cat, c)) == 0
  {
    var s := CollectionStats(cat, c);
    StatsBoundedByCatalog(cat, c);
    Seqs.SubsetCard(s.habitats, Seqs.Elements(HabitatList(cat)));
    NoneCompletedBelowTargets(s);
  }
}

/** The older single-file game of src/App.js: eight birds, a button that
    spots one at random and adds it unless a bird with its id is already
    collected, a rarity colour table and a victory banner. The random pick
    is a parameter here. */
module LegacyApp {
  import Seqs

  datatype LegacyBird = LegacyBird(id: int, name: string, emoji: string, rarity: string)

  /** The game's eight birds. */
  const LegacyBirds: seq<LegacyBird> := [
    LegacyBird(1, "Robin", "🐦", "common"),
    LegacyBird(2, "Eagle", "🦅", "rare"),
    LegacyBird(3, "Owl", "🦉", "uncommon"),
    LegacyBird(4, "Penguin", "🐧", "rare"),
    LegacyBird(5, "Flamingo", "🦩", "uncommon"),
    LegacyBird(6, "Peacock", "🦚", "rare"),
    LegacyBird(7, "Duck", "🦆", "common"),
    LegacyBird(8, "Swan", "🦢", "uncommon")
  ]

  /** `collected.find(bird => bird.id === id)` finds something. */
  predicate HasId(collected: seq<LegacyBird>, id: int) {
    exists i :: 0 <= i < |collected| && collected[i].id == id
  }

  /** `collectBird` with the random index `pick` supplied: the picked bird
      is appended unless one with its id is already collected. */
  function CollectBird(collected: seq<LegacyBird>, pick: nat): (r: seq<LegacyBird>)
    requires pick < |LegacyBirds|
    ensures HasId(r, LegacyBirds[pick].id)
    ensures collected <= r && |r| <= |collected| + 1
    ensures |r| == |collected| + 1 ==> r[|collected|] == LegacyBirds[pick]
    ensures |r| == |collected| <==> HasId(collected, LegacyBirds[pick].id)
  {
    var b := LegacyBirds[pick];
    if HasId(collected, b.id) then collected
    else
      assert (collected + [b])[|collected|].id == b.id;
      collected + [b]
  }

  /** The collected list is made of game birds with pairwise distinct ids. */
  ghost predicate Valid(collected: seq<LegacyBird>) {
    (forall i :: 0 <= i < |collected| ==> collected[i] in LegacyBirds) &&
    (forall i, j :: 0 <= i < j < |collected| ==> collected[i].id != collected[j].id)
  }

  /** Spotting a bird keeps the collection valid: no duplicate ever enters. */
  lemma CollectKeepsValid(collected: seq<LegacyBird>, pick: nat)
    requires pick < |LegacyBirds|
    requires Valid(collected)
    ensures Valid(CollectBird(collected, pick))
  {
    var b := LegacyBirds[pick];
    if !HasId(collected, b.id) {
      var r := collected + [b];
      forall i, j | 0 <= i < j < |r|
        ensures r[i].id != r[j].id
      {
        if j == |collected| {
          assert r[i] == collected[i];
        }
      }
    }
  }

  /** The collection after spotting the birds at `picks`, in turn, from empty. */
  function Play(picks: seq<nat>): (r: seq<LegacyBird>)
    requires forall k :: 0 <= k < |picks| ==> picks[k] < |LegacyBirds|
    ensures |r| <= |picks|
    decreases |picks|
  {
    if |picks| == 0 then []
    else CollectBird(Play(picks[..|picks| - 1]), picks[|picks| - 1])
  }

  /** Every reachable collection is valid. */
  lemma {:induction false} PlayValid(picks: seq<nat>)
    requires forall k :: 0 <= k < |picks| ==> picks[k] < |LegacyBirds|
    ensures Valid(Play(picks))
    decreases |picks|
  {
    if |picks| > 0 {
      PlayValid(picks[..|picks| - 1]);
      CollectKeepsValid(Play(picks[..|picks| - 1]), picks[|picks| - 1]);
    }
  }

  /** Game bird ids are pairwise distinct, hence so are the birds. */
  lemma LegacyBirdsDistinct()
    ensures forall i, j :: 0 <= i < j < |LegacyBirds| ==> LegacyBirds[i].id != LegacyBirds[j].id
    ensures Seqs.Distinct(LegacyBirds)
    ensures |Seqs.Elements(LegacyBirds)| == |LegacyBirds|
  {
    Seqs.DistinctCard(LegacyBirds);
  }

  /** A valid collection, as a set, sits inside the game's birds and has as
      many elements as the list has entries. */
  lemma ValidElements(collected: seq<LegacyBird>)
    requires Valid(collected)
    ensures Seqs.Elements(collected) <= Seqs.Elements(LegacyBirds)
    ensures |Seqs.Elements(collected)| == |collected|
  {
    assert Seqs.Distinct(collected);
    Seqs.DistinctCard(collected);
  }

  /** The "Collected: n/8" counter never exceeds eight. */
  lemma CollectedAtMostEight(collected: seq<LegacyBird>)
    requires Valid(collected)
    ensures |collected| <= |LegacyBirds| == 8
  {
    ValidElements(collected);
    LegacyBirdsDistinct();
    Seqs.SubsetCard(Seqs.Elements(collected), Seqs.Elements(LegacyBirds));
  }

  /** The victory banner: `collectedBirds.length === birds.length`. */
  /** For a valid collection the banner shows exactly when every game bird
      has been collected. */
  predicate Victory(collected: seq<LegacyBird>)
    ensures Valid(collected) ==> (Victory(collected) <==> forall b :: b in LegacyBirds ==> b in collected)
  {
    FullIffComplete(collected);
    |collected| == |LegacyBirds|
  }

  /** A valid collection as long as the game's list holds every game bird, and
      only such a collection does. */
  lemma FullIffComplete(collected: seq<LegacyBird>)
    ensures Valid(collected) ==>
      (|collected| == |LegacyBirds| <==> forall b :: b in LegacyBirds ==> b in collected)
  {
    if Valid(collected) {
      ValidElements(collected);
      LegacyBirdsDistinct();
      var e := Seqs.Elements(collected);
      var all := Seqs.Elements(LegacyBirds);
      if |collected| == |LegacyBirds| {
        Seqs.SubsetSameCard(e, all);
        assert e == all;
      }
      if forall b :: b in LegacyBirds ==> b in collected {
        assert e == all;
      }
    }
  }

  /** Later spots only ever append: an earlier collection is a prefix of a later one. */
  lemma {:induction false} PlayExtends(picks: seq<nat>, n: nat)
    requires forall k :: 0 <= k < |picks| ==> picks[k] < |LegacyBirds|
    requires n <= |picks|
    ensures Play(picks[..n]) <= Play(picks)
    decreases |picks| - n
  {
    if n < |picks| {
      var q := picks[..n + 1];
      assert q[..|q| - 1] == picks[..n];
      PlayExtends(picks, n + 1);
      var a, b, c := Play(picks[..n]), Play(q), Play(picks);
      assert a <= b && b <= c;
      assert forall i :: 0 <= i < |a| ==> a[i] == b[i] == c[i];
    } else {
      assert picks[..n] == picks;
    }
  }

  /** In a valid collection, holding a game bird's id means holding that bird. */
  lemma IdMeansBird(collected: seq<LegacyBird>, pick: nat)
    requires Valid(collected)
    requires pick < |LegacyBirds|
    requires HasId(collected, LegacyBirds[pick].id)
    ensures LegacyBirds[pick] in collected
  {
    LegacyBirdsDistinct();
    var i :| 0 <= i < |collected| && collected[i].id == LegacyBirds[pick].id;
    assert collected[i] in LegacyBirds;
  }

  /** The bird spotted at step `n` is in the collection right after it. */
  lemma {:induction false} SpotLands(picks: seq<nat>, n: nat)
    requires forall k :: 0 <= k < |picks| ==> picks[k] < |LegacyBirds|
    requires n < |picks|
    ensures LegacyBirds[picks[n]] in Play(picks[..n + 1])
  {
    var q := picks[..n + 1];
    assert q[..|q| - 1] == picks[..n] && q[|q| - 1] == picks[n];
    var before := Play(q);
    assert before == CollectBird(Play(picks[..n]), picks[n]);
    PlayValid(q);
    IdMeansBird(before, picks[n]);
  }

  /** A bird once spotted is in every later collection. */
  lemma {:induction false} SpottedStays(picks: seq<nat>, n: nat)
    requires forall k :: 0 <= k < |picks| ==> picks[k] < |LegacyBirds|
    requires n < |picks|
    ensures LegacyBirds[picks[n]] in Play(picks)
  {
    SpotLands(picks, n);
    PlayExtends(picks, n + 1);
    InPrefix(Play(picks[..n + 1]), Play(picks), LegacyBirds[picks[n]]);
  }

  lemma InPrefix<T>(a: seq<T>, b: seq<T>, x: T)
    requires a <= b && x in a
    ensures x in b
  {
    var i :| 0 <= i < |a| && a[i] == x;
    assert b[i] == x;
  }

  /** Spotting every game bird at least once wins the game. */
  lemma {:induction false} EveryPickWins(picks: seq<nat>)
    requires forall k :: 0 <= k < |picks| ==> picks[k] < |LegacyBirds|
    requires forall p :: 0 <= p < |LegacyBirds| ==> p in picks
    ensures Victory(Play(picks))
  {
    forall p | 0 <= p < |LegacyBirds|
      ensures LegacyBirds[p] in Play(picks)
    {
      assert p in picks;
      var n :| 0 <= n < |picks| && picks[n] == p;
      SpottedStays(picks, n);
    }
    PlayValid(picks);
  }

  /** `getRarityColor`. */
  function RarityColor(rarity: string): (color: string)
    ensures rarity !in {"common", "uncommon", "rare"} <==> color == "#757575"
    ensures rarity == "common" ==> color == "#8BC34A"
    ensures rarity == "uncommon" ==> color == "#2196F3"
    ensures rarity == "rare" ==> color == "#9C27B0"
  {
    match rarity
    case "common" => "#8BC34A"
    case "uncommon" => "#2196F3"
    case "rare" => "#9C27B0"
    case _ => "#757575"
  }

  /** Each game bird's border colour is one of the three named colours, and
      different rarities get different colours. */
  lemma GameColours()
    ensures forall i :: 0 <= i < |LegacyBirds| ==> RarityColor(LegacyBirds[i].rarity) != "#757575"
    ensures forall r, s :: r in {"common", "uncommon", "rare"} && s in {"common", "uncommon", "rare"} ==>
      (RarityColor(r) == RarityColor(s) <==> r == s)
  {
  }
}

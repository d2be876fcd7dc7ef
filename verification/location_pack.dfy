/** The "location pack" page of client/pages/Index.tsx: the birds shown are
    the first six of the catalog, and the "Birds Collected" counter reads
    how many of those are in the collection. */
module LocationPack {
  import opened Birds
  import opened Collection
  import Seqs

  /** How many catalog birds a location pack shows. */
  const PackSize: nat := 6

  function Min(a: nat, b: nat): nat {
    if a <= b then a else b
  }

  /** `birds.slice(0, 6)`: a prefix of the catalog, six long unless the
      catalog is shorter. */
  function LocationBirds(cat: seq<Bird>): (r: seq<Bird>)
    ensures |r| == Min(PackSize, |cat|)
    ensures forall i :: 0 <= i < |r| ==> r[i] == cat[i]
  {
    cat[..Min(PackSize, |cat|)]
  }

  /** `locationBirds.filter(bird => isInCollection(bird.id))`. */
  function CollectedLocationBirds(cat: seq<Bird>, c: Ids): (r: seq<Bird>)
    ensures Seqs.SubseqOf(r, LocationBirds(cat))
    ensures forall b :: b in r <==> b in LocationBirds(cat) && IsInCollection(c, b.id)
    ensures multiset(r) + multiset(Seqs.Filter(LocationBirds(cat), Seqs.Not(InCollection(c))))
         == multiset(LocationBirds(cat))
  {
    Seqs.FilterIsSubseq(LocationBirds(cat), InCollection(c));
    Seqs.FilterPartition(LocationBirds(cat), InCollection(c));
    Seqs.Filter(LocationBirds(cat), InCollection(c))
  }

  /** The counter's numerator and denominator. */
  datatype Counter = Counter(collected: nat, shown: nat)

  /** The counter reads the number of shown positions holding a collected
      bird, out of the number of positions shown. */
  function BirdsCollected(cat: seq<Bird>, c: Ids): (k: Counter)
    ensures k.shown == Min(PackSize, |cat|)
    ensures k.collected == |set i | 0 <= i < k.shown && IsInCollection(c, cat[i].id)|
    ensures k.collected <= k.shown <= PackSize
  {
    var shown := LocationBirds(cat);
    Seqs.CountIndices(shown, InCollection(c));
    assert Seqs.Indices(shown, InCollection(c))
        == set i | 0 <= i < |shown| && IsInCollection(c, cat[i].id);
    Counter(|CollectedLocationBirds(cat, c)|, |LocationBirds(cat)|)
  }

  /** Only the ids of the shown birds matter: two collections that agree on
      them give the same list, whatever else they hold. */
  lemma {:induction false} OnlyShownIdsMatter(cat: seq<Bird>, c: Ids, d: Ids)
    requires forall i :: 0 <= i < Min(PackSize, |cat|) ==>
      (IsInCollection(c, cat[i].id) <==> IsInCollection(d, cat[i].id))
    ensures CollectedLocationBirds(cat, c) == CollectedLocationBirds(cat, d)
    ensures BirdsCollected(cat, c) == BirdsCollected(cat, d)
  {
    var shown := LocationBirds(cat);
    forall i | 0 <= i < |shown|
      ensures InCollection(c)(shown[i]) <==> InCollection(d)(shown[i])
    {
      assert shown[i] == cat[i];
    }
    Seqs.FilterCongruent(shown, InCollection(c), InCollection(d));
  }

  /** Collecting a bird beyond the first six leaves the counter unchanged. */
  lemma CollectingOutsideThePack(cat: seq<Bird>, c: Ids, id: string)
    requires forall i :: 0 <= i < Min(PackSize, |cat|) ==> cat[i].id != id
    ensures BirdsCollected(cat, Add(c, id)) == BirdsCollected(cat, c)
  {
    OnlyShownIdsMatter(cat, Add(c, id), c);
  }

  /** With every shown bird collected the counter is full, and with none it is zero. */
  lemma {:induction false} CounterExtremes(cat: seq<Bird>, c: Ids)
    ensures (forall i :: 0 <= i < Min(PackSize, |cat|) ==> IsInCollection(c, cat[i].id)) ==>
      BirdsCollected(cat, c).collected == BirdsCollected(cat, c).shown
    ensures BirdsCollected(cat, Clear()).collected == 0
  {
    var shown := LocationBirds(cat);
    if forall i :: 0 <= i < Min(PackSize, |cat|) ==> IsInCollection(c, cat[i].id) {
      forall i | 0 <= i < |shown|
        ensures InCollection(c)(shown[i])
      {
        assert shown[i] == cat[i];
      }
      Seqs.FilterKeepsAll(shown, InCollection(c));
    }
    Seqs.FilterKeepsNone(shown, InCollection(Clear()));
  }

  /** The shipped catalog's pack is its first six birds, so the counter
      reads out of six. */
  lemma CatalogPack()
    ensures LocationBirds(Catalog) == [Kinglet, BlueJay, Hummingbird, Wren, Towhee, StellersJay]
    ensures forall c :: BirdsCollected(Catalog, c).shown == 6
  {
  }
}

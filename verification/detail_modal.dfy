/** The detail modal of client/components/BirdDetailModal.tsx: the
    collect/uncollect toggle, the size-comparison strip and the conditions
    under which the dialog and its Photos section show. The bird is
    optional, as the component's `bird` prop may be null. */
module DetailModal {
  import opened Wrappers
  import opened Birds
  import opened Collection
  import Seqs

  /** `handleCollectionToggle`: with no bird nothing happens; otherwise the
      bird's id is removed when collected, and when not it goes through
      `addToCollection`, which also celebrates the new bird. */
  function Toggle(cat: seq<Bird>, bird: Option<Bird>, c: Ids): (res: (Ids, Option<Celebration>))
    ensures bird.None? ==> res == (c, None)
    ensures bird.Some? ==>
      (IsInCollection(res.0, bird.value.id) <==> !IsInCollection(c, bird.value.id))
    ensures forall x :: (bird.None? || x != bird.value.id) ==>
      (IsInCollection(res.0, x) <==> IsInCollection(c, x))
    ensures res.1.Some? <==> bird.Some? && !IsInCollection(c, bird.value.id)
    ensures res.1.Some? ==> res.1.value == CelebrationFor(CelebrationRarity(cat, bird.value.id))
  {
    match bird
    case None => (c, None)
    case Some(b) => if IsInCollection(c, b.id) then (Remove(c, b.id), None) else AddToCollection(cat, c, b.id)
  }

  /** Toggling twice gives back the collection one started with, and of the
      two toggles of a bird exactly one celebrates. */
  lemma ToggleTwice(cat: seq<Bird>, bird: Option<Bird>, c: Ids)
    ensures Toggle(cat, bird, Toggle(cat, bird, c).0).0 == c
    ensures bird.Some? ==>
      (Toggle(cat, bird, c).1.Some? <==> Toggle(cat, bird, Toggle(cat, bird, c).0).1.None?)
  {
    if bird.Some? {
      var id := bird.value.id;
      if IsInCollection(c, id) {
        AddRemoveInverse(Remove(c, id), id);
        assert Add(Remove(c, id), id) == c;
      } else {
        AddRemoveInverse(c, id);
      }
    }
  }

  /** One entry of the size-comparison strip. */
  datatype SizeSlot = SizeSlot(size: Size, active: bool)

  /** The sizes the strip shows, left to right. */
  const StripSizes: seq<Size> := [Tiny, Small, Medium, Large, Enormous]

  /** `sizeComparisonIcons`: one slot per strip size, active when the bird
      has exactly that size. */
  function SizeComparisonIcons(bird: Option<Bird>): (icons: seq<SizeSlot>)
    ensures |icons| == |StripSizes|
    ensures forall i :: 0 <= i < |icons| ==> icons[i].size == StripSizes[i]
    ensures forall i :: 0 <= i < |icons| ==>
      (icons[i].active <==> bird.Some? && bird.value.size == StripSizes[i])
  {
    seq(|StripSizes|, i requires 0 <= i < |StripSizes| =>
      SizeSlot(StripSizes[i], bird.Some? && bird.value.size == StripSizes[i]))
  }

  function SlotActive(): SizeSlot -> bool {
    (s: SizeSlot) => s.active
  }

  /** Number of highlighted slots. */
  function ActiveSlots(bird: Option<Bird>): nat {
    Seqs.Count(SizeComparisonIcons(bird), SlotActive())
  }

  function Flag(b: bool): nat {
    if b then 1 else 0
  }

  /** The highlighted slots counted one by one. */
  lemma ActiveSlotsUnrolled(bird: Option<Bird>)
    ensures var icons := SizeComparisonIcons(bird);
      ActiveSlots(bird) == Flag(icons[0].active) + Flag(icons[1].active) +
        Flag(icons[2].active) + Flag(icons[3].active) + Flag(icons[4].active)
  {
    var icons := SizeComparisonIcons(bird);
    var f := SlotActive();
    assert icons == [icons[0]] + ([icons[1]] + ([icons[2]] + ([icons[3]] + ([icons[4]] + []))));
    Seqs.FilterCons(icons[4], [], f);
    Seqs.FilterCons(icons[3], [icons[4]] + [], f);
    Seqs.FilterCons(icons[2], [icons[3]] + ([icons[4]] + []), f);
    Seqs.FilterCons(icons[1], [icons[2]] + ([icons[3]] + ([icons[4]] + [])), f);
    Seqs.FilterCons(icons[0], [icons[1]] + ([icons[2]] + ([icons[3]] + ([icons[4]] + []))), f);
  }

  /** At most one slot is highlighted, and exactly one is when a bird is
      shown whose size is on the strip; a `huge` bird lights none. */
  lemma SizeStripExclusive(bird: Option<Bird>)
    ensures ActiveSlots(bird) <= 1
    ensures ActiveSlots(bird) == 1 <==> bird.Some? && bird.value.size in StripSizes
    ensures bird.Some? && bird.value.size == Huge ==> ActiveSlots(bird) == 0
  {
    ActiveSlotsUnrolled(bird);
  }

  /** Every catalog bird lights exactly one slot of the strip. */
  lemma CatalogSizesOnStrip()
    ensures forall i :: 0 <= i < |Catalog| ==> ActiveSlots(Some(Catalog[i])) == 1
  {
    forall i | 0 <= i < |Catalog|
      ensures Catalog[i].size in StripSizes
    {
    }
    forall i | 0 <= i < |Catalog|
      ensures ActiveSlots(Some(Catalog[i])) == 1
    {
      SizeStripExclusive(Some(Catalog[i]));
    }
  }

  /** What the modal shows for its props and the current collection. */
  datatype ModalView = ModalView(
    dialogOpen: bool,
    collected: bool,
    showPhotos: bool,
    sizeIcons: seq<SizeSlot>)

  /** The modal for `bird`, `open` and collection `c`. */
  function Render(bird: Option<Bird>, open: bool, c: Ids): (v: ModalView)
    ensures v.dialogOpen <==> open && bird.Some?
    ensures v.collected <==> bird.Some? && IsInCollection(c, bird.value.id)
    ensures v.showPhotos <==> bird.Some? && |bird.value.additionalImages| > 0
    ensures v.sizeIcons == SizeComparisonIcons(bird)
  {
    ModalView(
      open && bird.Some?,
      if bird.Some? then IsInCollection(c, bird.value.id) else false,
      bird.Some? && |bird.value.additionalImages| > 0,
      SizeComparisonIcons(bird))
  }

  /** The toggle button flips the collected badge of the shown bird and
      touches nothing else the modal shows. */
  lemma ToggleFlipsBadge(cat: seq<Bird>, bird: Option<Bird>, open: bool, c: Ids)
    requires bird.Some?
    ensures Render(bird, open, Toggle(cat, bird, c).0).collected == !Render(bird, open, c).collected
    ensures Render(bird, open, Toggle(cat, bird, c).0).dialogOpen == Render(bird, open, c).dialogOpen
    ensures Render(bird, open, Toggle(cat, bird, c).0).showPhotos == Render(bird, open, c).showPhotos
  {
  }
}

# Bird Deck in Dafny

Bird Deck is a bird-card collecting web app. A catalog of twelve birds is
shown as cards. Players search and filter the catalog, open a detail modal,
and add birds to or remove them from a collection; each new bird sets off a
confetti celebration. The collection's statistics drive an achievement
panel, and the home page shows a "location pack" of six birds with a
"Birds Collected" counter. Cards tilt in 3D under the pointer through one of
three hooks: a tilt hook with a sheen and a device-orientation path, a
holographic hook with glare and shine overlays, and a plain hover hook.
The repository also keeps an older single-file game with eight birds and a
random "spot a bird" button.

This project models those parts as pure Dafny functions over immutable data
and proves properties of them:

- `Birds` (birds.dfy): the enumerations, the catalog and its lookup tables.
- `SearchFilter` (search_filter.dfy): the filter state, its updates, the
  badge count, and `filterBirds`.
- `Collection` (collection.dfy): the set of collected ids, the celebration
  that adding a new bird would fire, and the statistics.
- `Achievements` (achievements.dfy): the four achievements, the progress
  bars and the completed count.
- `Carousel` (carousel.dfy): the photo viewer's selection state machine,
  what it renders, and the image caption.
- `DetailModal` (detail_modal.dfy): the collect toggle, the size strip and
  the modal's visibility rules.
- `LocationPack` (location_pack.dfy): the six-bird pack and its counter.
- `LegacyApp` (legacy_app.dfy): the eight-bird game; the random pick is a
  parameter.
- `Geometry` (geometry.dfy): pointer offsets, percentages, clamping and
  rotation shared by the three tilt hooks, on `real`.
- `CardTilt`, `Holographic`, `Hover3D` (card_tilt.dfy, holographic.dfy,
  hover3d.dfy): each hook as an event-driven state machine.
- `Seqs`, `Text` and `Wrappers` (seqs.dfy, text.dfy, wrappers.dfy): helpers
  for filtering and counting, ASCII case mapping and substring search, and
  `Option`.

I/O and the browser are parameters. The element's bounding rectangle is an
`Option<Rect>` (`None` when the card is not mounted). Pointer coordinates
and orientation angles are event payloads. The random index of the old game
is an argument. Confetti calls are returned as a `Celebration` record
rather than performed.

The three tilt hooks are separate. They read mouse events, and
`use-card-tilt` also reads device orientation. None of them handles touch
input, boosts intensities for orientation, delays a leave, or offsets the
shine angle by 90 degrees, and none of that is modelled. Pointer-driven
rotation is not clamped: `Geometry.RotationBounds` and
`CardTilt.MouseBeyondEdge` prove that a pointer beyond the card's left or
right edge tilts it past `maxTilt`. Orientation-driven rotation is clamped,
because each angle is limited to plus or minus 45 degrees before it is
scaled: `CardTilt.OrientationBounded` proves it never exceeds `maxTilt`.

## Model

| member | source | states |
|---|---|---|
| Birds.NamesInjective | shared/birds.ts:1-3 | the source spellings of rarities, habitats and sizes are pairwise distinct, so comparing the strings compares the values |
| Birds.CatalogIdsUnique | shared/birds.ts:19-187 | the twelve catalog ids are non-empty and pairwise distinct |
| Birds.CatalogDeclared | shared/birds.ts:19-187 | every catalog bird's habitat and size belong to the declared unions (no coast, shrubland or enormous bird) |
| Birds.CatalogRarities | shared/birds.ts:19-187 | the catalog's rarities, entry by entry |
| Birds.CatalogShape | shared/birds.ts:19-187 | the catalog has 12 birds: 7 common, 4 rare and 1 legendary |
| Birds.RarityColor | shared/birds.ts:189-193 | each rarity's badge class is "bg-" followed by the rarity's own name |
| Birds.HabitatIcon | shared/birds.ts:195-206 | a habitat has an icon exactly when it is one of the ten declared habitats, and the icon is non-empty |
| Birds.SizeIcon | shared/birds.ts:208-214 | a size has an icon exactly when it is declared (huge has one, enormous none), and the icon is non-empty |
| Birds.CatalogIconsDefined | shared/birds.ts:195-214 | every catalog bird has both a habitat icon and a size icon |
| Text.ToLower | client/components/BirdSearchAndFilter.tsx:226 | lower-casing keeps the length, turns each upper-case ASCII letter into its lower-case partner 32 code points on, keeps every other character, and so leaves no upper-case letter |
| Text.ToLowerIdempotent | client/components/BirdSearchAndFilter.tsx:226-233 | lower-casing an already lower-cased string changes nothing, so lower-casing both the query and the field is consistent |
| Text.ToUpperChar | client/components/BirdPhotoCarousel.tsx:33 | a lower-case letter becomes its upper-case partner and every other character is unchanged |
| Text.Includes | client/components/BirdSearchAndFilter.tsx:228-233 | `includes` holds exactly when some window of the text spells the query; the empty query occurs everywhere |
| SearchFilter.UpdateFilters | client/components/BirdSearchAndFilter.tsx:31-35 | each supplied field of the partial update overwrites, and each field not supplied keeps its old value |
| SearchFilter.UpdateAlgebra | client/components/BirdSearchAndFilter.tsx:31-35 | the empty update is the identity, an update is idempotent, and two updates compose into one with the later fields winning |
| SearchFilter.HasFilterFilters | client/components/BirdSearchAndFilter.tsx:49 | the Filters button is flagged exactly when "Clear All" would change the state |
| SearchFilter.HasActiveFilters | client/components/BirdSearchAndFilter.tsx:48 | the "active filters" row shows exactly when the state differs from the initial one (an empty search counting as none) |
| SearchFilter.ClearFilters | client/components/BirdSearchAndFilter.tsx:37-46 | after clearing, no filter is active and the search is empty |
| SearchFilter.ActiveIffNotDefault | client/components/BirdSearchAndFilter.tsx:24-48 | the "active filters" flag is off exactly in the initial state, which clearing restores |
| SearchFilter.ClearAllKeepsSearch | client/components/BirdSearchAndFilter.tsx:88 | "Clear All" resets the three select boxes, keeps the search text, and leaves filters active only when that text is non-empty |
| SearchFilter.BadgeCount | client/components/BirdSearchAndFilter.tsx:73-75 | the badge is at most 3, positive exactly when some select box is not 'all', and 3 exactly when all three are set |
| SearchFilter.RemoveBadge | client/components/BirdSearchAndFilter.tsx:179-206 | the remove button on a set box's badge lowers the count by exactly one; clearing the search leaves it alone |
| SearchFilter.Matches | client/components/BirdSearchAndFilter.tsx:223-252 | the initial filters keep every bird, and a kept bird has each selected rarity, habitat and size |
| SearchFilter.MatchesSplits | client/components/BirdSearchAndFilter.tsx:223-252 | the search and the select boxes act independently: a bird is kept exactly when the search alone keeps it and the boxes alone keep it |
| SearchFilter.FilterBirds | client/components/BirdSearchAndFilter.tsx:222-255 | the result is a subsequence of the input (order kept) holding every copy of each matching bird and nothing else |
| SearchFilter.DefaultKeepsAll | client/components/BirdSearchAndFilter.tsx:222-255 | with the initial filters every bird is shown, in order |
| SearchFilter.ShownMatchSelection | client/components/BirdSearchAndFilter.tsx:238-251 | every shown bird has the selected rarity, habitat and size |
| SearchFilter.SearchSemantics | client/components/BirdSearchAndFilter.tsx:225-236 | for a non-empty search, a bird is shown exactly when the lower-cased query occurs in one of its six lower-cased text fields and the boxes accept it |
| SearchFilter.RarityNotSearched | client/components/BirdSearchAndFilter.tsx:227-233 | the search never reads rarity: with the rarity box on 'all', a bird's rarity does not affect whether it matches |
| SearchFilter.FilterIdempotent | client/components/BirdSearchAndFilter.tsx:222-255 | filtering the filtered list again changes nothing |
| SearchFilter.NarrowingMonotone | client/components/BirdSearchAndFilter.tsx:238-251 | setting a box that was 'all' only hides birds: the narrower result is the wider one filtered again, and a subsequence of it |
| SearchFilter.UndeclaredChoicesEmpty | client/components/BirdSearchAndFilter.tsx:243-251 | choosing coast, shrubland or enormous (offered by the panel, used by no bird) shows an empty list |
| Collection.IsInCollection | client/hooks/use-collection.tsx:141-143 | membership in the id set; what it means after a history of calls is stated by `CollectedIffLastAdded` |
| Collection.CollectedIffLastAdded | client/hooks/use-collection.tsx:130-147 | starting from the empty set, after any sequence of adds, removes and clears an id is collected exactly when some add of it is followed by no remove of it and no clear |
| Collection.Add | client/hooks/use-collection.tsx:130 | after adding, the id is collected, every other id is as before, and adding a collected id changes nothing |
| Collection.Remove | client/hooks/use-collection.tsx:133-139 | after removing, the id is not collected, every other id is as before, and removing an absent id changes nothing |
| Collection.Clear | client/hooks/use-collection.tsx:145-147 | after clearing no id is collected |
| Collection.AddRemoveInverse | client/hooks/use-collection.tsx:130-139 | removing undoes adding a new id, and adding undoes removing a collected one |
| Collection.Find | client/hooks/use-collection.tsx:59 | `find` yields nothing exactly when no bird has the id, and otherwise the first bird with it |
| Collection.ConfettiColors | client/hooks/use-collection.tsx:63-67 | the common and rare palettes hold three `#rrggbb` colours and the legendary one four, gold (#ffd700) being only in the legendary palette |
| Collection.PalettesDisjoint | client/hooks/use-collection.tsx:63-67 | no colour appears in the palettes of two different rarities |
| Collection.CelebrationFor | client/hooks/use-collection.tsx:70-127 | every burst uses the rarity's palette; both side bursts have 50 particles; the centre burst has 150, 100 or 75 for legendary, rare or common, scaled 1.2 only for legendary; the golden shower fires only for legendary |
| Collection.AddToCollection | client/hooks/use-collection.tsx:53-131 | the id is always added, and a celebration fires exactly when it was not already collected, sized by the catalog rarity |
| Collection.CelebrationRules | client/hooks/use-collection.tsx:55-60 | re-adding a collected id changes nothing and celebrates nothing; a new id celebrates with the rarity of the first catalog bird having it, or as common when none has it |
| Collection.CollectedBirds | client/hooks/use-collection.tsx:151 | the list holds every copy of each catalog bird whose id is collected and nothing else |
| Collection.CollectionStats | client/hooks/use-collection.tsx:150-160 | the total is the number of catalog positions whose id is collected, each rarity count the number of those positions with that rarity, and the habitats those found at them |
| Collection.RarityPartition | client/hooks/use-collection.tsx:154-157 | the common, rare and legendary counts of any bird list add up to its length |
| Collection.StatsConsistent | client/hooks/use-collection.tsx:150-160 | total = common + rare + legendary, total is at most the catalog size, the habitat set is exactly the habitats of collected catalog birds, and it is no larger than total |
| Collection.UnknownIdsIgnored | client/hooks/use-collection.tsx:151 | collected ids naming no catalog bird do not affect the statistics |
| Collection.ClearedStats | client/hooks/use-collection.tsx:145-160 | after clearing every count is 0 and no habitat is listed |
| Collection.CollectedNarrow | client/hooks/use-collection.tsx:151 | the birds collected under a smaller id set are those collected under a larger one, filtered again |
| Collection.HabitatsAfterFilter | client/hooks/use-collection.tsx:158 | the habitats of a filtered list are among the habitats of the whole list |
| Collection.StatsMonotone | client/hooks/use-collection.tsx:150-160 | collecting more ids never lowers a count and never drops a habitat |
| Achievements.Target | client/components/AchievementModal.tsx:30-67 | every achievement target is positive, so the progress division is defined |
| Achievements.AchievementTable | client/components/AchievementModal.tsx:30-67 | the four achievements read total, habitat count, legendary and rare against the targets 15, 8, 3 and 6 |
| Achievements.Progress | client/components/AchievementModal.tsx:87 | below the target the bar is the count's share of the target in percent; it is at most 100%, non-negative for a non-negative count, and exactly 100% when the count reaches the target |
| Achievements.IsCompleted | client/components/AchievementModal.tsx:88 | an achievement is completed exactly when its bar is full |
| Achievements.CompletedIsFull | client/components/AchievementModal.tsx:87-88 | an achievement is completed exactly when its bar is full |
| Achievements.ProgressMonotone | client/components/AchievementModal.tsx:87 | a larger count never gives a shorter bar |
| Achievements.AchievementProgress | client/components/AchievementModal.tsx:85-87 | an achievement's bar reads its own statistic against its own target: in [0, 100], full exactly when the statistic reaches the target, and proportional below it |
| Achievements.AchievementCompleted | client/components/AchievementModal.tsx:88 | an achievement shows as completed exactly when its bar is full |
| Achievements.CompletedCount | client/components/AchievementModal.tsx:160 | the "n/4 Achievements" numerator is the number of distinct completed achievements, at most 4 |
| Achievements.RaisingStatsNeverLowers | client/components/AchievementModal.tsx:85-88 | pointwise larger statistics never lower a bar, never un-complete an achievement, and never lower the completed count |
| Achievements.CatalogHabitatsBound | shared/birds.ts:19-187 | the catalog uses at most six habitats |
| Achievements.NoneCompletedBelowTargets | client/components/AchievementModal.tsx:160 | with every statistic below its target, no achievement counts as completed |
| Achievements.StatsBoundedByCatalog | client/hooks/use-collection.tsx:150-160 | any collection's total, rare, legendary and habitats are bounded by the catalog's own |
| Achievements.NoAchievementReachable | client/components/AchievementModal.tsx:30-67 | with the shipped catalog (12 birds, 6 habitats, 4 rare, 1 legendary) no achievement can ever be completed, whatever is collected |
| Carousel.Step | client/components/BirdPhotoCarousel.tsx:20-46 | opening selects the index and closing clears it; the arrows keep the selection present or absent, step by one, and stop at the first and last image |
| Carousel.RunStaysInRange | client/components/BirdPhotoCarousel.tsx:36-46 | any sequence of events the rendered component can dispatch keeps the selection empty or a valid index |
| Carousel.NextThenPrevious | client/components/BirdPhotoCarousel.tsx:36-46 | next then previous returns to an index that has a successor, and previous then next to one that has a predecessor |
| Carousel.ArrowsStopAtEnds | client/components/BirdPhotoCarousel.tsx:36-46 | previous on the first image, next on the last, and either arrow with nothing selected leave the selection unchanged |
| Carousel.CurrentImage | client/components/BirdPhotoCarousel.tsx:48 | the image shown full-screen is the selected one when the selection is in range and its URL is not empty, and nothing otherwise |
| Carousel.Render | client/components/BirdPhotoCarousel.tsx:16-104 | the component renders nothing exactly when the image list is empty; otherwise each thumbnail k is captioned with the formatted caption of image k, the strip gets its own arrows exactly when there are more than two images, the dialog is open exactly while an index is selected, and viewer content exists exactly when the selected image exists and is non-empty |
| Carousel.ViewerControls | client/components/BirdPhotoCarousel.tsx:104-154 | for a selected image i, the viewer shows images[i] with its formatted caption, the previous arrow shows exactly when i is not the first, the next arrow exactly when it is not the last, and the counter shows exactly when there are several images and then reads i + 1 |
| Carousel.ClosedViewer | client/components/BirdPhotoCarousel.tsx:98-104 | with nothing selected the dialog is closed and shows no image |
| Carousel.LastSegment | client/components/BirdPhotoCarousel.tsx:30 | the last path segment is a suffix of the path that contains no slash and follows the last slash |
| Carousel.TrailingRun | client/components/BirdPhotoCarousel.tsx:30 | the counted run is the longest suffix free of '.' and '/' |
| Carousel.StripExtension | client/components/BirdPhotoCarousel.tsx:30 | a trailing dot plus one or more characters without '.' or '/' is removed; otherwise the name is unchanged |
| Carousel.Capitalize | client/components/BirdPhotoCarousel.tsx:33 | the first character is upper-cased and the rest kept |
| Carousel.FormatImageCaption | client/components/BirdPhotoCarousel.tsx:28-34 | the caption is the capitalised last path segment with its extension removed |
| Carousel.CaptionOfPath | client/components/BirdPhotoCarousel.tsx:28-34 | for a path ending in "/name.ext" with a plain name and extension, the caption is the name capitalised |
| Carousel.ExtensionRun | client/components/BirdPhotoCarousel.tsx:30 | after "name.ext" the suffix without '.' or '/' is exactly the extension |
| Carousel.CaptionWithoutExtension | client/components/BirdPhotoCarousel.tsx:28-34 | a last segment with no dot is only capitalised |
| Carousel.LastSegmentAfterSlash | client/components/BirdPhotoCarousel.tsx:30 | the segment after a directory prefix ending in '/' is the file name itself |
| Carousel.RockPigeonCaption | client/components/BirdPhotoCarousel.tsx:28-34 | "/images/birds/rock-pigeon/male.png" is captioned "Male" |
| DetailModal.Toggle | client/components/BirdDetailModal.tsx:31-38 | with no bird nothing changes; otherwise the bird's membership flips, every other id is as before, and a celebration for the bird's rarity comes exactly when the bird was not collected |
| DetailModal.ToggleTwice | client/components/BirdDetailModal.tsx:31-38 | toggling twice restores the collection, and exactly one of the two toggles celebrates |
| DetailModal.SizeComparisonIcons | client/components/BirdDetailModal.tsx:40-46 | the strip lists tiny, small, medium, large and enormous in order, each active exactly when a bird of that size is shown |
| DetailModal.ActiveSlotsUnrolled | client/components/BirdDetailModal.tsx:40-46 | the number of lit slots is the sum over the five slots |
| DetailModal.SizeStripExclusive | client/components/BirdDetailModal.tsx:40-46 | at most one slot is lit; exactly one is when a bird with a size on the strip is shown; a huge bird lights none |
| DetailModal.CatalogSizesOnStrip | client/components/BirdDetailModal.tsx:40-46 | every catalog bird lights exactly one slot |
| DetailModal.Render | client/components/BirdDetailModal.tsx:28-49 | the dialog is open exactly when asked to be and a bird is given; the badge shows whether that bird is collected; Photos shows exactly when it has additional images |
| DetailModal.ToggleFlipsBadge | client/components/BirdDetailModal.tsx:28-38 | the toggle flips the collected badge and leaves the dialog and the Photos section as they were |
| LocationPack.LocationBirds | client/pages/Index.tsx:14 | the pack is the catalog's prefix of length min(6, catalog size) |
| LocationPack.CollectedLocationBirds | client/pages/Index.tsx:22 | the list is a subsequence of the pack holding every copy of each pack bird whose id is collected and nothing else |
| LocationPack.BirdsCollected | client/pages/Index.tsx:60-61 | the denominator is the pack size, min(6, catalog size); the numerator is the number of pack positions holding a collected bird, so it is at most the denominator |
| LocationPack.OnlyShownIdsMatter | client/pages/Index.tsx:14-22 | two collections that agree on the shown birds' ids give the same list and counter |
| LocationPack.CollectingOutsideThePack | client/pages/Index.tsx:14-22 | collecting a bird outside the first six leaves the counter unchanged |
| LocationPack.CounterExtremes | client/pages/Index.tsx:22-61 | with every shown bird collected the counter is full, and after clearing it reads zero |
| LocationPack.CatalogPack | client/pages/Index.tsx:14 | the shipped pack is the first six catalog birds, and the counter reads out of 6 |
| LegacyApp.CollectBird | src/App.js:18-23 | after a spot the picked id is held; the list only grows at the end, by at most the picked bird, and stays the same exactly when that id was already held |
| LegacyApp.CollectKeepsValid | src/App.js:20-21 | spotting keeps the list made of game birds with pairwise distinct ids |
| LegacyApp.Play | src/App.js:18-23 | a game of n spots collects at most n birds |
| LegacyApp.PlayValid | src/App.js:18-23 | every reachable collection has distinct ids and only game birds |
| LegacyApp.LegacyBirdsDistinct | src/App.js:7-16 | the eight game birds have pairwise distinct ids |
| LegacyApp.ValidElements | src/App.js:18-23 | a valid collection, as a set, is within the game birds and has as many elements as entries |
| LegacyApp.CollectedAtMostEight | src/App.js:40 | the "Collected: n/8" counter never exceeds 8 |
| LegacyApp.Victory | src/App.js:80 | for a valid collection the victory banner shows exactly when every game bird is collected |
| LegacyApp.FullIffComplete | src/App.js:80 | a valid collection is as long as the game list exactly when it holds every game bird |
| LegacyApp.PlayExtends | src/App.js:21 | a collection is a prefix of every later collection |
| LegacyApp.IdMeansBird | src/App.js:20 | in a valid collection, holding a game bird's id means holding that bird |
| LegacyApp.SpotLands | src/App.js:19-22 | the bird spotted at a step is collected right after it |
| LegacyApp.SpottedStays | src/App.js:19-22 | a bird once spotted stays collected |
| LegacyApp.EveryPickWins | src/App.js:80 | spotting every game bird at least once wins the game |
| LegacyApp.RarityColor | src/App.js:25-32 | common, uncommon and rare get #8BC34A, #2196F3 and #9C27B0, and any other rarity (only those) gets #757575 |
| LegacyApp.GameColours | src/App.js:25-32 | every game bird gets one of the three named colours, and distinct rarities get distinct colours |
| Geometry.Offset | client/hooks/use-card-tilt.tsx:56-60 | the offset times the half-size is the distance from the centre; it is 0 exactly at the centre, within [-1, 1] exactly on the element, below -1 exactly before it, and above 1 exactly past it |
| Geometry.Percent | client/hooks/use-holographic-card.tsx:43-44 | the percentage times the size is 100 times the distance from the start, and lies in [0, 100] exactly on the element |
| Geometry.PercentIsShiftedOffset | client/hooks/use-holographic-card.tsx:39-44 | the glare position is the centre offset moved from [-1, 1] to [0, 100] (50 + 50 times the offset), the same formula as the tilt hook's sheen |
| Geometry.Clamp | client/hooks/use-card-tilt.tsx:72-73 | the result lies in the range, equals the input inside it, and equals the nearer bound outside it |
| Geometry.PointerRotation | client/hooks/use-holographic-card.tsx:39-40 | each angle is proportional to the pointer's distance from the centre (maxTilt per half-size, inverted vertically); the centre gives no rotation; on the element both angles stay within maxTilt, and beyond a side edge the vertical-axis angle exceeds it; the card turns towards the pointer sideways and tips back when the pointer is above the centre |
| Geometry.CentreIsFlat | client/hooks/use-3d-card-hover.tsx:25-34 | a pointer at the centre gives no rotation |
| Geometry.RotationBounds | client/hooks/use-card-tilt.tsx:59-63 | on the element the rotation is at most maxTilt either way; beyond the left or right edge it exceeds maxTilt, because nothing clamps it |
| Geometry.EdgeAndSign | client/hooks/use-holographic-card.tsx:39-40 | the middle of the right edge gives exactly maxTilt about the vertical axis; above the centre the card tips back, below it forward |
| Geometry.CardTransition | client/hooks/use-3d-card-hover.tsx:58 | no transition exactly while hovered, otherwise an ease-out over `speed` ms |
| CardTilt.FromMouse | client/hooks/use-card-tilt.tsx:52-79 | the rotation is the pointer rotation, the scale is the option's, the sheen is on the card and, each axis on its own, equals the pointer percentage while the pointer is within the card's span on that axis, is 0 before it and 100 past it; the sheen opacity is maxGlare with glare on, else 0 |
| CardTilt.Normalize | client/hooks/use-card-tilt.tsx:87-88 | the normalised angle is in [-1, 1], saturates at 45 degrees either way, and is the angle over 45 in between |
| CardTilt.FromOrientation | client/hooks/use-card-tilt.tsx:82-104 | beta drives rotateX and the vertical sheen, gamma drives rotateY and the horizontal sheen, the sheen is on the card, and its opacity is 0.7 of maxGlare with glare on |
| CardTilt.MouseAtCentre | client/hooks/use-card-tilt.tsx:56-66 | the mouse at the centre leaves the card flat with the sheen in the middle |
| CardTilt.MouseBeyondEdge | client/hooks/use-card-tilt.tsx:59-76 | beyond the left or right edge the horizontal sheen is pinned to 0 or 100 while the rotation about the vertical axis exceeds maxTilt; beyond the top or bottom edge the same holds for the vertical sheen and the rotation about the horizontal axis, and the horizontal sheen still follows a pointer within the card's width |
| CardTilt.OrientationBounded | client/hooks/use-card-tilt.tsx:87-91 | orientation never tilts the card past maxTilt |
| CardTilt.OrientationSaturates | client/hooks/use-card-tilt.tsx:87-91 | past 45 degrees either way the orientation tilt is the full maxTilt that way |
| CardTilt.Handle | client/hooks/use-card-tilt.tsx:113-133 | unmounted, nothing changes; enter sets hovered; leave clears it and resets the tilt; a move tilts only while hovered; an orientation event missing an angle is dropped, and a complete one tilts whether hovered or not |
| CardTilt.RunKeepsSheen | client/hooks/use-card-tilt.tsx:72-102 | after any events the sheen stays on the card, and its opacity is 0, maxGlare or 0.7 maxGlare (always 0 with glare off) |
| CardTilt.LeaveResets | client/hooks/use-card-tilt.tsx:40-49 | whatever happened before, a leave restores the initial tilt and unhovers |
| CardTilt.Sheen | client/hooks/use-card-tilt.tsx:180-187 | the gradient's peak alpha is the sheen opacity; the overlay shows exactly when that opacity is positive; its shift is positive exactly when the sheen is past the middle, within plus or minus 100% for a sheen on the card, and 0 at the middle |
| CardTilt.SheenFollowsInput | client/hooks/use-card-tilt.tsx:52-104 | over the card the overlay shifts by 100 times the pointer's centre offset on each axis; after an orientation event by 100 times the normalised angle; after a move its peak alpha is maxGlare with glare on, else 0 |
| CardTilt.CardTransform | client/hooks/use-card-tilt.tsx:177 | the initial tilt gives the flat, unscaled transform |
| CardTilt.CardTransformFollowsInput | client/hooks/use-card-tilt.tsx:52-104 | after a mouse move the transform is the pointer rotation at the option's scale; after an orientation event its rotation is within maxTilt either way |
| CardTilt.SheenVisibility | client/hooks/use-card-tilt.tsx:28-35 | at rest the card is flat and the sheen hidden; after a move the sheen shows exactly when glare is on with a positive maxGlare |
| Holographic.Move | client/hooks/use-holographic-card.tsx:24-72 | hover is kept; the transform is the pointer rotation at the option's scale; the glare centre is the pointer percentage, in [0, 100] exactly on the card; the gradient stops are the intensity, 0.3 of it, and 0.1 and 0.3 of the shine intensity; the overlays are opaque exactly when hovered |
| Holographic.Handle | client/hooks/use-holographic-card.tsx:24-83 | enter applies handleMouseEnter (Enter) and leave handleMouseLeave (Leave), which hides both overlays; a move over a mounted card applies handleMouseMove (Move) and with no card changes nothing; an overlay lit only while hovered stays so |
| Holographic.Enter | client/hooks/use-holographic-card.tsx:74-76 | entering sets hovered and changes nothing else |
| Holographic.Leave | client/hooks/use-holographic-card.tsx:78-83 | leaving unhovers, resets the transform to flat and unscaled, and hides both overlays |
| Holographic.LitOnlyWhileHovered | client/hooks/use-holographic-card.tsx:57-82 | after any events an overlay is lit only while the pointer is over the card, even with a move before the enter |
| Holographic.EnterThenMoveLights | client/hooks/use-holographic-card.tsx:57-76 | a move after an enter lights both overlays fully |
| Holographic.MoveLandmarks | client/hooks/use-holographic-card.tsx:31-44 | at the centre the card is flat with the glare at (50, 50); at the middle of the right edge it tilts maxTilt about the vertical axis with the glare at (100, 50) |
| Holographic.GlareTracksTilt | client/hooks/use-holographic-card.tsx:39-44 | the glare's distance from the middle is proportional to the rotation, with the sign inverted vertically |
| Holographic.StopProportions | client/hooks/use-holographic-card.tsx:51-68 | the mid glare stop is 3/10 of the centre and the shine peak 3 times its quarter; for non-negative intensities none exceeds its intensity |
| Holographic.Style | client/hooks/use-holographic-card.tsx:85-111 | the card uses the transform; it has no transition and is brightened exactly while hovered; the overlays' opacity fades over `speed` ms |
| Holographic.StyleAfterEnterLeave | client/hooks/use-holographic-card.tsx:93-95 | after a leave the card eases back un-brightened; after an enter it follows at once, brightened |
| Hover3D.Handle | client/hooks/use-3d-card-hover.tsx:18-48 | a move with no card changes nothing and otherwise sets the pointer rotation at the option's scale, keeping hover; enter sets hovered; leave unhovers and flattens |
| Hover3D.Transition | client/hooks/use-3d-card-hover.tsx:58 | no transition exactly while hovered, otherwise an ease-out over `speed` ms |
| Hover3D.MoveToCentre | client/hooks/use-3d-card-hover.tsx:25-38 | the pointer at the centre leaves the card flat but scaled |
| Hover3D.SameTiltAsHolographic | client/hooks/use-3d-card-hover.tsx:18-58 | under any event sequence this hook and the holographic hook with the same tilt, scale and speed agree on hover, transform and card transition |

## Left out

- Confetti drawing, `setTimeout` delays and the confetti options other than particle counts, scalar, palette and the golden shower: these only reach the animation library. `Collection.CelebrationFor` records what would be drawn.
- Persistence of the collection in `localStorage` (use-collection.tsx lines 1-51): it is I/O; the model starts from a given set.
- React plumbing: refs, `useState`/`useCallback` scheduling, listener registration and clean-up, and effect dependency lists. Each hook is modelled as a function from state and event to state. Stale closures in the effect of use-card-tilt are not modelled; a move is gated on the current hover flag.
- CardTilt.Handle: the device-orientation listener exists only on user agents matching the mobile pattern, after a one-second timer and, on iOS, a granted permission. The model lets orientation events arrive whenever the card is mounted and leaves out the user-agent test, the timer and the permission request.
- Holographic.Move: the shine's gradient angle (`atan2` of the pointer offset plus 45 degrees) is not modelled, because Dafny has no trigonometry; the stops and opacity are.
- CardTilt.Sheen: the gradient angle is stored as the sum of the sheen coordinates but nothing is proved about it.
- Geometry.Offset, Geometry.Percent and every member using them require a positive width and height. A zero-size element divides by zero in the source (Infinity or NaN in the transform), which is not modelled.
- Achievements.Progress requires a positive target; the source only ever passes 15, 8, 3 and 6.
- Text.ToLower, Text.ToUpperChar: JavaScript's case mapping is modelled on ASCII letters only; other characters are left unchanged.
- Floating point: all tilt arithmetic is on exact reals, so rounding in the browser's doubles is not modelled.
- LegacyApp.CollectBird: `Math.random` is replaced by the picked index, which must be in range as `Math.floor(Math.random() * 8)` always is.
- The legacy game's rendering beyond the counter, the victory banner and the border colour is not modelled.
- Markup, class names, icons other than the lookup tables, alt text and dialog titles of all components.
- The hard-coded statistics shown on the home page (client/pages/Index.tsx), and the page's modal wiring.
- shared/birds-json-loader.ts, client/App.tsx, client/components/LazyComponents.tsx and client/components/BirdCard.tsx: routing, lazy loading, a JSON loader and presentation only; they are not part of this model.
- The catalog's text fields (descriptions, fun facts, abilities, image URLs, colours) are carried as data. The search results over concrete catalog text are not computed; `SearchFilter.SearchSemantics` states the matching rule for any bird.
- Calls to `console.log` and `console.warn`: logging only.

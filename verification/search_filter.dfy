/** The search-and-filter panel of client/components/BirdSearchAndFilter.tsx:
    the `FilterState` record, its partial update and reset, the flags and the
    badge count shown on the Filters button, and `filterBirds`. */
module SearchFilter {
  import opened Wrappers
  import opened Birds
  import Text
  import Seqs

  /** A select box: `'all'` or one selected value. */
  datatype Choice<T> = All | Only(value: T)

  datatype FilterState = FilterState(
    search: string,
    rarity: Choice<Rarity>,
    habitat: Choice<Habitat>,
    size: Choice<Size>)

  /** The initial state, and the state "clear" restores. */
  const DefaultFilters := FilterState("", All, All, All)

  /** `Partial<FilterState>`: `None` marks a field the caller did not supply. */
  datatype FilterPatch = FilterPatch(
    search: Option<string>,
    rarity: Option<Choice<Rarity>>,
    habitat: Option<Choice<Habitat>>,
    size: Option<Choice<Size>>)

  const EmptyPatch := FilterPatch(None, None, None, None)

  /** `{ ...filters, ...newFilters }`: supplied fields overwrite, the others stay. */
  function UpdateFilters(f: FilterState, patch: FilterPatch): (g: FilterState)
    ensures g.search == patch.search.GetOr(f.search)
    ensures g.rarity == patch.rarity.GetOr(f.rarity)
    ensures g.habitat == patch.habitat.GetOr(f.habitat)
    ensures g.size == patch.size.GetOr(f.size)
  {
    FilterState(
      patch.search.GetOr(f.search),
      patch.rarity.GetOr(f.rarity),
      patch.habitat.GetOr(f.habitat),
      patch.size.GetOr(f.size))
  }

  /** The patch that applies `q` after `p`: later fields win. */
  function Then(p: FilterPatch, q: FilterPatch): FilterPatch {
    FilterPatch(
      if q.search.Some? then q.search else p.search,
      if q.rarity.Some? then q.rarity else p.rarity,
      if q.habitat.Some? then q.habitat else p.habitat,
      if q.size.Some? then q.size else p.size)
  }

  /** An empty patch changes nothing, a patch applied twice acts once, and
      two successive updates are one update with the merged patch. */
  lemma UpdateAlgebra(f: FilterState, p: FilterPatch, q: FilterPatch)
    ensures UpdateFilters(f, EmptyPatch) == f
    ensures UpdateFilters(UpdateFilters(f, p), p) == UpdateFilters(f, p)
    ensures UpdateFilters(UpdateFilters(f, p), q) == UpdateFilters(f, Then(p, q))
  {
  }

  /** The "Clear All" button of the filter popover. */
  const ClearAllPatch := FilterPatch(None, Some(All), Some(All), Some(All))

  /** The rarity/habitat/size flag shown on the Filters button: raised
      exactly when "Clear All" would change something. */
  predicate HasFilterFilters(f: FilterState)
    ensures HasFilterFilters(f) <==> UpdateFilters(f, ClearAllPatch) != f
  {
    f.rarity != All || f.habitat != All || f.size != All
  }

  /** Whether the "Active filters" row is shown; an empty search is falsy,
      so the row shows exactly when the state differs from the default. */
  predicate HasActiveFilters(f: FilterState)
    ensures HasActiveFilters(f) <==> f != DefaultFilters
  {
    f.search != "" || HasFilterFilters(f)
  }

  /** `clearFilters()`: the default state, in which nothing is active. */
  function ClearFilters(): (g: FilterState)
    ensures !HasActiveFilters(g)
    ensures g.search == ""
  {
    DefaultFilters
  }

  /** Exactly the default state has no active filter. */
  lemma ActiveIffNotDefault(f: FilterState)
    ensures !HasActiveFilters(f) <==> f == DefaultFilters
    ensures ClearFilters() == DefaultFilters
  {
  }

  /** "Clear All" resets the three select boxes and keeps the search text. */
  lemma ClearAllKeepsSearch(f: FilterState)
    ensures UpdateFilters(f, ClearAllPatch).search == f.search
    ensures !HasFilterFilters(UpdateFilters(f, ClearAllPatch))
    ensures HasActiveFilters(UpdateFilters(f, ClearAllPatch)) <==> f.search != ""
  {
  }

  function Indicator(b: bool): nat {
    if b then 1 else 0
  }

  /** The number on the Filters badge: one per select box that is not `'all'`. */
  function BadgeCount(f: FilterState): (n: nat)
    ensures n <= 3
    ensures n > 0 <==> HasFilterFilters(f)
    ensures n == 3 <==> f.rarity != All && f.habitat != All && f.size != All
  {
    Indicator(f.rarity != All) + Indicator(f.habitat != All) + Indicator(f.size != All)
  }

  /** The ✕ on an active-filter badge resets that one field, which lowers the
      badge count by exactly one and leaves the other fields alone. */
  lemma RemoveBadge(f: FilterState)
    ensures f.rarity != All ==>
      BadgeCount(UpdateFilters(f, FilterPatch(None, Some(All), None, None))) == BadgeCount(f) - 1
    ensures f.habitat != All ==>
      BadgeCount(UpdateFilters(f, FilterPatch(None, None, Some(All), None))) == BadgeCount(f) - 1
    ensures f.size != All ==>
      BadgeCount(UpdateFilters(f, FilterPatch(None, None, None, Some(All)))) == BadgeCount(f) - 1
    ensures BadgeCount(UpdateFilters(f, FilterPatch(Some(""), None, None, None))) == BadgeCount(f)
  {
  }

  /** Whether the lower-cased query occurs in one of the six lower-cased
      text fields; rarity is not among them. */
  predicate MatchesSearch(b: Bird, query: string) {
    var q := Text.ToLower(query);
    Text.Includes(Text.ToLower(b.name), q)
    || Text.Includes(Text.ToLower(b.ability), q)
    || Text.Includes(Text.ToLower(b.description), q)
    || Text.Includes(Text.ToLower(b.funFact), q)
    || Text.Includes(Text.ToLower(HabitatName(b.habitat)), q)
    || Text.Includes(Text.ToLower(SizeName(b.size)), q)
  }

  predicate MatchesChoice<T(==)>(c: Choice<T>, v: T) {
    c.All? || c.value == v
  }

  /** The callback passed to `birds.filter`: the default state keeps every
      bird, and a kept bird has every selected rarity, habitat and size. */
  predicate Matches(b: Bird, f: FilterState)
    ensures f == DefaultFilters ==> Matches(b, f)
    ensures Matches(b, f) ==>
      && (f.rarity.Only? ==> b.rarity == f.rarity.value)
      && (f.habitat.Only? ==> b.habitat == f.habitat.value)
      && (f.size.Only? ==> b.size == f.size.value)
  {
    && (f.search == "" || MatchesSearch(b, f.search))
    && MatchesChoice(f.rarity, b.rarity)
    && MatchesChoice(f.habitat, b.habitat)
    && MatchesChoice(f.size, b.size)
  }

  /** The search and the three select boxes act independently: a bird is
      kept exactly when the search alone and the select boxes alone keep it. */
  lemma MatchesSplits(b: Bird, f: FilterState)
    ensures Matches(b, f) <==>
      Matches(b, UpdateFilters(f, ClearAllPatch))
      && Matches(b, UpdateFilters(f, FilterPatch(Some(""), None, None, None)))
  {
  }

  function Keep(f: FilterState): Bird -> bool {
    (b: Bird) => Matches(b, f)
  }

  /** `filterBirds(birds, filters)`: the matching birds, in input order. */
  function FilterBirds(bs: seq<Bird>, f: FilterState): (r: seq<Bird>)
    ensures Seqs.SubseqOf(r, bs)
    ensures forall b :: b in r <==> b in bs && Matches(b, f)
    ensures multiset(r) + multiset(Seqs.Filter(bs, Seqs.Not(Keep(f)))) == multiset(bs)
  {
    Seqs.FilterIsSubseq(bs, Keep(f));
    Seqs.FilterPartition(bs, Keep(f));
    Seqs.Filter(bs, Keep(f))
  }

  /** With the default filters every bird is shown, in order. */
  lemma DefaultKeepsAll(bs: seq<Bird>)
    ensures FilterBirds(bs, DefaultFilters) == bs
  {
    Seqs.FilterKeepsAll(bs, Keep(DefaultFilters));
  }

  /** Every bird shown has the selected rarity, habitat and size. */
  lemma ShownMatchSelection(bs: seq<Bird>, f: FilterState, b: Bird)
    requires b in FilterBirds(bs, f)
    ensures b in bs
    ensures f.rarity.Only? ==> b.rarity == f.rarity.value
    ensures f.habitat.Only? ==> b.habitat == f.habitat.value
    ensures f.size.Only? ==> b.size == f.size.value
  {
  }

  /** `needle` occurs somewhere in `hay`. */
  ghost predicate Occurs(hay: string, needle: string) {
    exists i :: Text.OccursAt(hay, needle, i)
  }

  /** For a non-empty search, a bird is shown exactly when the lower-cased
      query occurs in one of its six lower-cased text fields (and the select
      boxes accept it). */
  lemma SearchSemantics(bs: seq<Bird>, f: FilterState, b: Bird)
    requires f.search != ""
    ensures
      var q := Text.ToLower(f.search);
      b in FilterBirds(bs, f) <==>
        && b in bs
        && (|| Occurs(Text.ToLower(b.name), q)
            || Occurs(Text.ToLower(b.ability), q)
            || Occurs(Text.ToLower(b.description), q)
            || Occurs(Text.ToLower(b.funFact), q)
            || Occurs(Text.ToLower(HabitatName(b.habitat)), q)
            || Occurs(Text.ToLower(SizeName(b.size)), q))
        && MatchesChoice(f.rarity, b.rarity)
        && MatchesChoice(f.habitat, b.habitat)
        && MatchesChoice(f.size, b.size)
  {
  }

  /** The search never looks at rarity: while the rarity box is `'all'`,
      changing a bird's rarity does not change whether it is shown. */
  lemma RarityNotSearched(b: Bird, f: FilterState, r: Rarity)
    requires f.rarity == All
    ensures Matches(b, f) <==> Matches(b.(rarity := r), f)
  {
  }

  /** Filtering twice with the same filters is filtering once. */
  lemma FilterIdempotent(bs: seq<Bird>, f: FilterState)
    ensures FilterBirds(FilterBirds(bs, f), f) == FilterBirds(bs, f)
  {
    Seqs.FilterNarrow(bs, Keep(f), Keep(f));
  }

  /** `g` selects a value in some boxes where `f` had `'all'`, and is otherwise `f`. */
  predicate Narrows(f: FilterState, g: FilterState) {
    && g.search == f.search
    && (f.rarity == All || g.rarity == f.rarity)
    && (f.habitat == All || g.habitat == f.habitat)
    && (f.size == All || g.size == f.size)
  }

  /** Narrowing a box from `'all'` never shows a bird that was hidden: the
      narrower result is the wider one filtered again, a subsequence of it. */
  lemma NarrowingMonotone(bs: seq<Bird>, f: FilterState, g: FilterState)
    requires Narrows(f, g)
    ensures FilterBirds(FilterBirds(bs, f), g) == FilterBirds(bs, g)
    ensures Seqs.SubseqOf(FilterBirds(bs, g), FilterBirds(bs, f))
    ensures |FilterBirds(bs, g)| <= |FilterBirds(bs, f)|
  {
    Seqs.FilterNarrow(bs, Keep(f), Keep(g));
    Seqs.FilterMonotone(bs, Keep(f), Keep(g));
  }

  /** Selecting `coast`, `shrubland` or `enormous` hides every catalog bird. */
  lemma UndeclaredChoicesEmpty(f: FilterState)
    requires (f.habitat.Only? && !DeclaredHabitat(f.habitat.value))
          || (f.size.Only? && !DeclaredSize(f.size.value))
    ensures FilterBirds(Catalog, f) == []
  {
    CatalogDeclared();
    Seqs.FilterKeepsNone(Catalog, Keep(f));
  }
}

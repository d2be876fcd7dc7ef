/** The bird catalog: rarity, habitat and size enumerations, the `Bird`
    record, the twelve catalog entries and the three lookup tables of
    shared/birds.ts.

    Habitat and size are SUPERSETS of the declared TypeScript unions: the
    filter panel also offers `coast`, `shrubland` and `enormous`, and the
    detail modal compares sizes against `enormous`, while the declared
    unions list ten habitats and `huge`. `DeclaredHabitat`/`DeclaredSize`
    pick out the declared members. */
module Birds {
  import opened Wrappers
  import Seqs

  datatype Rarity = Common | Rare | Legendary

  datatype Habitat =
    | Forest | Wetland | Grassland | Mountain | Desert | Arctic | Ocean | Urban
    | OakWoodland | Gardens
    | Coast | Shrubland

  datatype Size = Tiny | Small | Medium | Large | Huge | Enormous

  /** Members of the declared `BirdHabitat` union. */
  predicate DeclaredHabitat(h: Habitat) {
    !h.Coast? && !h.Shrubland?
  }

  /** Members of the declared `BirdSize` union. */
  predicate DeclaredSize(s: Size) {
    !s.Enormous?
  }

  /** The string each rarity is spelled as in the source. */
  function RarityName(r: Rarity): string {
    match r
    case Common => "common"
    case Rare => "rare"
    case Legendary => "legendary"
  }

  function HabitatName(h: Habitat): string {
    match h
    case Forest => "forest"
    case Wetland => "wetland"
    case Grassland => "grassland"
    case Mountain => "mountain"
    case Desert => "desert"
    case Arctic => "arctic"
    case Ocean => "ocean"
    case Urban => "urban"
    case OakWoodland => "oak woodland"
    case Gardens => "gardens"
    case Coast => "coast"
    case Shrubland => "shrubland"
  }

  function SizeName(s: Size): string {
    match s
    case Tiny => "tiny"
    case Small => "small"
    case Medium => "medium"
    case Large => "large"
    case Huge => "huge"
    case Enormous => "enormous"
  }

  /** The spellings are distinct, so comparing names is comparing values. */
  lemma NamesInjective()
    ensures forall a, b :: RarityName(a) == RarityName(b) ==> a == b
    ensures forall a, b :: HabitatName(a) == HabitatName(b) ==> a == b
    ensures forall a, b :: SizeName(a) == SizeName(b) ==> a == b
  {
  }

  datatype Bird = Bird(
    id: string,
    name: string,
    ability: string,
    rarity: Rarity,
    description: string,
    funFact: string,
    habitat: Habitat,
    size: Size,
    imageUrl: string,
    additionalImages: seq<string>,
    colors: seq<string>)

  const Kinglet: Bird := Bird("1", "Ruby-Crowned Kinglet", "Crown Flash", Common,
    "A tiny, energetic songbird with a hidden ruby crown that appears when excited.",
    "Despite weighing less than a penny, it can survive temperatures as low as -40°F!",
    Forest, Tiny, "/images/birds/ruby-crowned-kinglet/main.png", [],
    ["#dc2626", "#65a30d", "#fbbf24"])

  const BlueJay: Bird := Bird("2", "Western Blue Jay", "Acorn Hoarder", Common,
    "A clever bird with bright blue plumage, often seen hiding acorns in secret caches.",
    "Western Blue Jays can remember hundreds of hiding spots for their winter meals!",
    OakWoodland, Medium, "/images/birds/western-blue-jay/main.png", [],
    ["#2563eb", "#f8fafc", "#1e40af"])

  const Hummingbird: Bird := Bird("3", "Anna's Hummingbird", "Hover Master", Common,
    "A tiny iridescent bird with a sparkling rose-pink throat, known for hovering with precision.",
    "Anna's Hummingbirds can survive cold nights by lowering their metabolism dramatically.",
    Gardens, Tiny, "/images/birds/annas-hummingbird/main.png", [],
    ["#16a34a", "#ec4899", "#f59e0b"])

  const Wren: Bird := Bird("4", "Pacific Wren", "Tiny Songbird", Common,
    "A small brown bird with a big personality, constantly singing in dense forests.",
    "Its song is so loud that it can be heard over a waterfall!",
    Forest, Tiny, "/images/birds/pacific-wren/main.png", [],
    ["#a16207", "#d97706", "#92400e"])

  const Towhee: Bird := Bird("5", "California Towhee", "Bush Hopper", Common,
    "A plump brown bird often found hopping through underbrush and suburban yards.",
    "Its call sounds like \"chink-chink\" and is often heard before the bird is seen.",
    Urban, Medium, "/images/birds/california-towhee/main.png", [],
    ["#a16207", "#6b7280", "#d97706"])

  const StellersJay: Bird := Bird("6", "Steller's Jay", "Forest Guardian", Rare,
    "A bold blue and black bird known for its intelligence and loud calls.",
    "Steller's Jays can mimic the calls of hawks to scare other birds away from food!",
    Mountain, Medium, "/images/birds/stellers-jay/main.png", [],
    ["#1e40af", "#1f2937", "#2563eb"])

  const RockPigeon: Bird := Bird("7", "Rock Pigeon", "Urban Survivor", Common,
    "A highly adaptable bird that thrives in urban environments worldwide.",
    "Rock Pigeons can navigate using magnetic fields and are excellent at finding their way home!",
    Urban, Medium, "/images/birds/rock-pigeon/main.png",
    ["/images/birds/rock-pigeon/male.png", "/images/birds/rock-pigeon/female.png",
     "/images/birds/rock-pigeon/juvenile.png", "/images/birds/rock-pigeon/extra.png"],
    ["#6b7280", "#7c3aed", "#475569"])

  const BlueHeron: Bird := Bird("8", "Great Blue Heron", "Patient Hunter", Rare,
    "A large wading bird known for its incredible patience while hunting fish.",
    "Great Blue Herons can stand motionless for over an hour waiting for the perfect moment to strike!",
    Wetland, Large, "/images/birds/great-blue-heron/main.png", [],
    ["#1e40af", "#6b7280", "#f1f5f9"])

  const NightHeron: Bird := Bird("9", "Black-Crowned Night Heron", "Night Vision", Rare,
    "A stocky heron that hunts primarily at dawn and dusk with excellent night vision.",
    "Night Herons have special adaptations that allow them to see clearly in low light conditions!",
    Wetland, Medium, "/images/birds/night-heron/main.png", [],
    ["#1f2937", "#6b7280", "#f8fafc"])

  const Falcon: Bird := Bird("10", "Peregrine Falcon", "Speed Demon", Legendary,
    "The fastest bird in the world, capable of diving at speeds over 240 mph.",
    "Peregrine Falcons are found on every continent except Antarctica and have made a remarkable recovery from near extinction!",
    Mountain, Medium, "/images/birds/peregrine-falcon/main.png", [],
    ["#6b7280", "#f8fafc", "#374151"])

  const Cardinal: Bird := Bird("11", "Northern Cardinal", "Brilliant Flash", Common,
    "A vibrant red songbird that brightens winter landscapes with its striking plumage.",
    "Cardinals mate for life and often stay together year-round!",
    Forest, Small, "/images/birds/northern-cardinal/main.png",
    ["/images/birds/northern-cardinal/male.png", "/images/birds/northern-cardinal/female.png"],
    ["#dc2626", "#fbbf24", "#1f2937"])

  const HornedOwl: Bird := Bird("12", "Great Horned Owl", "Silent Stalker", Rare,
    "A powerful nocturnal hunter with distinctive ear tufts and piercing yellow eyes.",
    "Their talons exert pressure of 300 pounds per square inch - stronger than a large dog bite!",
    Forest, Large, "/images/birds/great-horned-owl/main.png",
    ["/images/birds/great-horned-owl/hunting.png", "/images/birds/great-horned-owl/nest.png"],
    ["#a16207", "#f59e0b", "#1f2937"])

  /** The catalog, in its source order. */
  const Catalog: seq<Bird> := [
    Kinglet, BlueJay, Hummingbird, Wren, Towhee, StellersJay,
    RockPigeon, BlueHeron, NightHeron, Falcon, Cardinal, HornedOwl
  ]

  /** No two entries of `bs` share an id. */
  ghost predicate UniqueIds(bs: seq<Bird>) {
    forall i, j :: 0 <= i < j < |bs| ==> bs[i].id != bs[j].id
  }

  /** The catalog's ids, in order. */
  const CatalogIds: seq<string> := ["1", "2", "3", "4", "5", "6", "7", "8", "9", "10", "11", "12"]

  lemma CatalogIdList()
    ensures |Catalog| == |CatalogIds|
    ensures forall i :: 0 <= i < |Catalog| ==> Catalog[i].id == CatalogIds[i]
  {
  }

  lemma CatalogIdsDistinct()
    ensures forall i, j :: 0 <= i < j < |CatalogIds| ==> CatalogIds[i] != CatalogIds[j]
  {
  }

  /** Catalog ids are pairwise distinct ("1" to "12"). */
  lemma CatalogIdsUnique()
    ensures UniqueIds(Catalog)
    ensures forall i :: 0 <= i < |Catalog| ==> Catalog[i].id != ""
  {
    CatalogIdList();
    CatalogIdsDistinct();
  }

  /** Every catalog entry lies in the declared enumerations: no `coast`,
      `shrubland` or `enormous` bird exists. */
  lemma CatalogDeclared()
    ensures forall i :: 0 <= i < |Catalog| ==>
      DeclaredHabitat(Catalog[i].habitat) && DeclaredSize(Catalog[i].size)
  {
  }

  function RarityFilter(r: Rarity): Bird -> bool {
    (b: Bird) => b.rarity == r
  }

  /** The catalog's rarities, in order. */
  const CatalogRarityList: seq<Rarity> :=
    [Common, Common, Common, Common, Common, Rare, Common, Rare, Rare, Legendary, Common, Rare]

  /** The catalog's rarities, position by position. */
  lemma CatalogRarities()
    ensures |Catalog| == |CatalogRarityList|
    ensures forall i :: 0 <= i < |Catalog| ==> Catalog[i].rarity == CatalogRarityList[i]
  {
  }

  function IsRarity(r: Rarity): Rarity -> bool {
    (x: Rarity) => x == r
  }

  lemma RarityListCount(r: Rarity)
    ensures Seqs.Count(CatalogRarityList, IsRarity(r))
      == match r case Common => 7 case Rare => 4 case Legendary => 1
  {
  }

  /** The number of catalog birds of rarity `r`. */
  function CatalogCount(r: Rarity): nat {
    Seqs.Count(Catalog, RarityFilter(r))
  }

  /** Twelve birds: seven common, four rare, one legendary. */
  lemma CatalogShape(r: Rarity)
    ensures |Catalog| == 12
    ensures CatalogCount(r) == match r case Common => 7 case Rare => 4 case Legendary => 1
  {
    CatalogRarities();
    Seqs.CountPointwise(Catalog, CatalogRarityList, RarityFilter(r), IsRarity(r));
    RarityListCount(r);
  }

  /** `rarityColors`: the badge colour class of each rarity. */
  function RarityColor(r: Rarity): (c: string)
    ensures c == "bg-" + RarityName(r)
  {
    match r
    case Common => "bg-common"
    case Rare => "bg-rare"
    case Legendary => "bg-legendary"
  }

  /** `habitatIcons[h]`: defined exactly on the declared habitats; the
      filter-only habitats have no icon (the lookup yields `undefined`). */
  function HabitatIcon(h: Habitat): (icon: Option<string>)
    ensures icon.Some? <==> DeclaredHabitat(h)
    ensures icon.Some? ==> icon.value != ""
  {
    match h
    case Forest => Some("🌲")
    case Wetland => Some("🦆")
    case Grassland => Some("🌾")
    case Mountain => Some("⛰️")
    case Desert => Some("🌵")
    case Arctic => Some("❄️")
    case Ocean => Some("🌊")
    case Urban => Some("🏙️")
    case OakWoodland => Some("🌳")
    case Gardens => Some("🌺")
    case Coast => None
    case Shrubland => None
  }

  /** `sizeIcons[s]`: defined exactly on the declared sizes, so `enormous`
      has no icon while `huge` does. */
  function SizeIcon(s: Size): (icon: Option<string>)
    ensures icon.Some? <==> DeclaredSize(s)
    ensures icon.Some? ==> icon.value != ""
  {
    match s
    case Tiny => Some("🐣")
    case Small => Some("🐦")
    case Medium => Some("🦅")
    case Large => Some("🦆")
    case Huge => Some("🦢")
    case Enormous => None
  }

  /** Every catalog bird has a habitat icon and a size icon. */
  lemma CatalogIconsDefined()
    ensures forall i :: 0 <= i < |Catalog| ==>
      HabitatIcon(Catalog[i].habitat).Some? && SizeIcon(Catalog[i].size).Some?
  {
    CatalogDeclared();
  }
}

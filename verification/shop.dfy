/**
 The student shop screen: a local coin balance and list of purchased ids,
 seeded from the `coins` prop, with a purchase handler and a category filter.
 Nothing here is written back to the central snapshot.
 */
module Shop {
  import opened Domain
  import opened Seqs
  import Text

  /** The screen's local state: `currentCoins` and `purchased`. */
  datatype ShopState = ShopState(coins: int, purchased: seq<string>)

  /** The state the screen starts from for a given `coins` prop. */
  function Open(coins: int): (r: ShopState)
    ensures r.coins == coins && |r.purchased| == 0
  {
    ShopState(coins, [])
  }

  /** Which alert (or silent decline) a click ends with. */
  datatype Notice = AlreadyOwned | InsufficientCoins | Declined | Purchased

  datatype BuyResult = BuyResult(state: ShopState, notice: Notice)

  /**
   `handleBuy`: ownership is checked first, then funds, then the confirmation
   (`confirmed` is the answer the prompt would give); only then are the coins
   debited and the id appended.
   */
  function Buy(s: ShopState, item: ShopItem, confirmed: bool): (r: BuyResult)
    ensures r.notice == AlreadyOwned <==> item.id in s.purchased
    ensures r.notice == InsufficientCoins <==> item.id !in s.purchased && s.coins < item.price
    ensures r.notice == Declined <==> item.id !in s.purchased && s.coins >= item.price && !confirmed
    ensures r.notice == Purchased ==>
              r.state.coins == s.coins - item.price && r.state.purchased == s.purchased + [item.id]
    ensures r.notice != Purchased ==> r.state == s
    ensures r.notice == Purchased ==> r.state.coins >= 0
    ensures s.coins >= 0 ==> r.state.coins >= 0
    ensures UniqueBy(s.purchased, Itself) ==> UniqueBy(r.state.purchased, Itself)
  {
    if item.id in s.purchased then BuyResult(s, AlreadyOwned)
    else if s.coins >= item.price then
      if confirmed then BuyResult(ShopState(s.coins - item.price, s.purchased + [item.id]), Purchased)
      else BuyResult(s, Declined)
    else BuyResult(s, InsufficientCoins)
  }

  /** The price of the first catalog entry with the id, 0 when there is none. */
  function PriceOf(catalog: seq<ShopItem>, id: string): int
    decreases |catalog|
  {
    if |catalog| == 0 then 0
    else if catalog[0].id == id then catalog[0].price
    else PriceOf(catalog[1..], id)
  }

  /** With distinct ids, looking an item's id up finds the item's own price. */
  lemma {:induction false} PriceOfMember(catalog: seq<ShopItem>, item: ShopItem)
    requires UniqueBy(catalog, ItemId)
    requires item in catalog
    ensures PriceOf(catalog, item.id) == item.price
    decreases |catalog|
  {
    if catalog[0] != item {
      var k :| 0 <= k < |catalog| && catalog[k] == item;
      assert k > 0;
      assert catalog[0].id != catalog[k].id;
      assert catalog[1..][k - 1] == item;
      PriceOfMember(catalog[1..], item);
    }
  }

  /** The catalog price as a function of an id. */
  function PriceIn(catalog: seq<ShopItem>): string -> int
  {
    (id: string) => PriceOf(catalog, id)
  }

  /** Coins spent on the purchased ids. */
  function Spent(catalog: seq<ShopItem>, ids: seq<string>): int
  {
    SumOf(ids, PriceIn(catalog))
  }

  /** Balance plus what was spent equals the starting balance. */
  predicate Conserves(catalog: seq<ShopItem>, initial: int, s: ShopState)
  {
    s.coins + Spent(catalog, s.purchased) == initial
  }

  /** Every click on a catalog item keeps coins-plus-spent at the starting balance. */
  lemma BuyConserves(catalog: seq<ShopItem>, initial: int, s: ShopState, item: ShopItem, confirmed: bool)
    requires UniqueBy(catalog, ItemId)
    requires item in catalog
    requires Conserves(catalog, initial, s)
    ensures Conserves(catalog, initial, Buy(s, item, confirmed).state)
  {
    var r := Buy(s, item, confirmed);
    if r.notice == Purchased {
      SumOfAppend(s.purchased, [item.id], PriceIn(catalog));
      PriceOfMember(catalog, item);
      assert SumOf([item.id], PriceIn(catalog)) == item.price;
    }
  }

  /** One click on a buy button, with the answer the confirmation would give. */
  datatype Click = Click(item: ShopItem, confirmed: bool)

  /** The screen's state after a series of clicks. */
  function Shopping(s: ShopState, clicks: seq<Click>): ShopState
    decreases |clicks|
  {
    if |clicks| == 0 then s else Shopping(Buy(s, clicks[0].item, clicks[0].confirmed).state, clicks[1..])
  }

  /**
   From a freshly opened screen, whatever catalog items are clicked: the
   balance plus the prices of the purchased items stays at the `coins` prop,
   no id is bought twice, and a non-negative balance never goes negative.
   */
  lemma {:induction false} ShoppingInvariant(catalog: seq<ShopItem>, initial: int, s: ShopState, clicks: seq<Click>)
    requires UniqueBy(catalog, ItemId)
    requires forall c :: c in clicks ==> c.item in catalog
    requires Conserves(catalog, initial, s) && UniqueBy(s.purchased, Itself)
    ensures Conserves(catalog, initial, Shopping(s, clicks))
    ensures UniqueBy(Shopping(s, clicks).purchased, Itself)
    ensures s.coins >= 0 ==> Shopping(s, clicks).coins >= 0
    decreases |clicks|
  {
    if |clicks| > 0 {
      assert clicks[0] in clicks;
      BuyConserves(catalog, initial, s, clicks[0].item, clicks[0].confirmed);
      var next := Buy(s, clicks[0].item, clicks[0].confirmed).state;
      assert forall c :: c in clicks[1..] ==> c in clicks;
      ShoppingInvariant(catalog, initial, next, clicks[1..]);
    }
  }

  /** A freshly opened screen satisfies the shopping invariant. */
  lemma OpenConserves(catalog: seq<ShopItem>, coins: int)
    ensures Conserves(catalog, coins, Open(coins)) && UniqueBy(Open(coins).purchased, Itself)
  {
  }

  /** The category tabs 'Todos', 'Avatar', 'Poderes', 'Real'. */
  datatype CategoryTab = AllTab | AvatarTab | PowersTab | RealTab

  function Label(t: CategoryTab): string
  {
    match t
    case AllTab => "Todos"
    case AvatarTab => "Avatar"
    case PowersTab => "Poderes"
    case RealTab => "Real"
  }

  /**
   The category value a tab's label is compared against: the lower-cased label
   (the labels carry no diacritics to strip), with 'poderes' renamed 'powerup'.
   */
  function CategoryKey(t: CategoryTab): string
  {
    var l := Text.Lower(Label(t));
    if l == "poderes" then "powerup" else l
  }

  /** The three non-trivial tabs select the categories 'avatar', 'powerup' and 'real'. */
  lemma CategoryKeys()
    ensures CategoryKey(AvatarTab) == "avatar"
    ensures CategoryKey(PowersTab) == "powerup"
    ensures CategoryKey(RealTab) == "real"
  {
    assert Text.Lower("Avatar") == "avatar";
    assert Text.Lower("Poderes") == "poderes";
    assert Text.Lower("Real") == "real";
  }

  /** The predicate `item.category === key` of the filter. */
  function InCategory(key: string): ShopItem -> bool
  {
    (item: ShopItem) => item.category == key
  }

  /** `filteredItems`: the whole catalog on 'Todos', else the items of the tab's category in order. */
  function FilterItems(catalog: seq<ShopItem>, t: CategoryTab): (r: seq<ShopItem>)
    ensures t == AllTab ==> r == catalog
    ensures t != AllTab ==> forall i :: i in r <==> i in catalog && i.category == CategoryKey(t)
    ensures t != AllTab ==> forall i :: multiset(r)[i] == if i.category == CategoryKey(t) then multiset(catalog)[i] else 0
    ensures SubseqOf(r, catalog)
  {
    if t == AllTab then SubseqOfRefl(catalog); catalog
    else Filter(catalog, InCategory(CategoryKey(t)))
  }

  /** Choosing the same tab again, on the list it already shows, changes nothing. */
  lemma FilterItemsIdempotent(catalog: seq<ShopItem>, t: CategoryTab)
    ensures FilterItems(FilterItems(catalog, t), t) == FilterItems(catalog, t)
  {
    if t != AllTab {
      FilterIdempotent(catalog, InCategory(CategoryKey(t)));
    }
  }

  /** Two different category tabs never show the same item. */
  lemma CategoryTabsDisjoint(catalog: seq<ShopItem>, a: CategoryTab, b: CategoryTab)
    requires a != AllTab && b != AllTab && a != b
    ensures forall i :: !(i in FilterItems(catalog, a) && i in FilterItems(catalog, b))
  {
    CategoryKeys();
  }
}

/** The shop commands (cogs/shop.py): buying an item, the administrator's
    four-field item definition, and the administrator's item grant. */
module Shop {
  import opened Basics
  import opened Text
  import opened Store

  // ---------------------------------------------------------------------
  // buy
  // ---------------------------------------------------------------------

  datatype Purchase =
    | NoSuchItem
    | CannotAfford(item: ShopItem)
    | Bought(item: ShopItem, db: Db)

  /** `buy_item`: take the first shop row whose name equals the requested
      one ignoring case; refuse when the balance is below its price;
      otherwise debit the price and add one unit, looked up by the row's own
      name. */
  function BuyItem(db: Db, m: MemberId, name: string): (r: Purchase)
    ensures r == NoSuchItem <==> FindItem(db.shop, name, true).None?
    ensures !r.NoSuchItem? ==> r.item == db.shop[FindItem(db.shop, name, true).value]
    ensures r.CannotAfford? <==> FindItem(db.shop, name, true).Some? && GetCash(db, m) < r.item.price
  {
    match FindItem(db.shop, name, true)
    case None => NoSuchItem
    case Some(i) =>
      var item := db.shop[i];
      if GetCash(db, m) < item.price then CannotAfford(item)
      else Bought(item, AddInventoryItem(RemoveCash(db, m, item.price), m, item.name))
  }

  /** The exact-name lookup `add_inventory_item` makes with the row's own
      name finds that same row: no earlier row matches it even ignoring
      case. */
  lemma ExactLookupFindsSameItem(shop: seq<ShopItem>, name: string)
    requires FindItem(shop, name, true).Some?
    ensures FindItem(shop, shop[FindItem(shop, name, true).value].name, false) == FindItem(shop, name, true)
  {
    var i := FindItem(shop, name, true).value;
    var own := shop[i].name;
    forall j | 0 <= j < i ensures !Matches(shop[j], own, false) {
      assert !Matches(shop[j], name, true);
    }
  }

  /** A successful purchase debits exactly the price and adds one unit of the
      bought row to the buyer's inventory; nothing else changes, and the
      table invariant and a non-negative balance are kept. */
  lemma BuyItemEffect(db: Db, m: MemberId, name: string)
    ensures var r := BuyItem(db, m, name);
            r.Bought? ==>
              var key := (m, r.item.id);
              && GetCash(r.db, m) == GetCash(db, m) - (if m in db.money then r.item.price else 0)
              && (forall k :: k != m ==> GetCash(r.db, k) == GetCash(db, k))
              && r.db.inventory == db.inventory[key := (if key in db.inventory then db.inventory[key] else 0) + 1]
              && r.db.shop == db.shop && r.db.members == db.members
              && r.db.activity == db.activity && r.db.income == db.income
              && (Valid(db) ==> Valid(r.db))
              && (GetCash(db, m) >= 0 ==> GetCash(r.db, m) >= 0)
  {
    if FindItem(db.shop, name, true).Some? {
      ExactLookupFindsSameItem(db.shop, name);
    }
  }

  /** A refused or unmatched purchase changes nothing: the outcome carries
      no new state, and a purchase goes through exactly when the balance
      covers the first matching row's price. */
  lemma BuyItemGate(db: Db, m: MemberId, name: string)
    requires FindItem(db.shop, name, true).Some?
    ensures BuyItem(db, m, name).Bought? <==>
              GetCash(db, m) >= db.shop[FindItem(db.shop, name, true).value].price
  {
  }

  // ---------------------------------------------------------------------
  // additem
  // ---------------------------------------------------------------------

  /** A parsed item definition: the Shop columns the command fills in. */
  datatype ItemDefinition = ItemDefinition(name: string, price: int, consumable: bool, role: Option<string>)

  datatype ParseError = WrongFieldCount | BadPrice | BadConsumable

  datatype Parsed = Rejected(error: ParseError) | Definition(def: ItemDefinition)

  /** The `add_item` parser: exactly four comma-separated fields; the name
      stripped; the price through `int()`; the consumable flag `yes` or `no`
      ignoring case and surrounding space; the role stripped and lower-cased,
      `none` meaning no role. The checks run in that order. */
  function ParseItem(message: string): (r: Parsed)
    ensures r == Rejected(WrongFieldCount) <==> |Split(message, ',')| != 4
    ensures r == Rejected(BadPrice) <==>
              |Split(message, ',')| == 4 && ParseInt(Strip(Split(message, ',')[1])).None?
    ensures r == Rejected(BadConsumable) <==>
              && |Split(message, ',')| == 4
              && ParseInt(Strip(Split(message, ',')[1])).Some?
              && Lower(Strip(Split(message, ',')[2])) !in {"yes", "no"}
    ensures r.Definition? ==>
              var fields := Split(message, ',');
              && |fields| == 4
              && r.def.name == Strip(fields[0])
              && Some(r.def.price) == ParseInt(Strip(fields[1]))
              && (r.def.consumable <==> Lower(Strip(fields[2])) == "yes")
              && (!r.def.consumable ==> Lower(Strip(fields[2])) == "no")
              && (r.def.role.None? <==> Lower(Strip(fields[3])) == "none")
              && (r.def.role.Some? ==> r.def.role.value == Lower(Strip(fields[3])))
  {
    var fields := Split(message, ',');
    if |fields| != 4 then Rejected(WrongFieldCount)
    else
      match ParseInt(Strip(fields[1]))
      case None => Rejected(BadPrice)
      case Some(price) =>
        var flag := Lower(Strip(fields[2]));
        if flag != "yes" && flag != "no" then Rejected(BadConsumable)
        else
          var role := Lower(Strip(fields[3]));
          Definition(ItemDefinition(Strip(fields[0]), price, flag == "yes", if role == "none" then None else Some(role)))
  }

  /** The `additem` command: a parsed definition becomes a new shop row; a
      rejected message leaves the shop alone. */
  function AddItem(db: Db, message: string): (r: (Parsed, Db))
    ensures r.0 == ParseItem(message)
    ensures r.0.Rejected? ==> r.1 == db
    ensures r.0.Definition? ==>
              && |r.1.shop| == |db.shop| + 1
              && r.1.shop[..|db.shop|] == db.shop
              && var it := r.1.shop[|db.shop|];
                 ItemDefinition(it.name, it.price, it.consumable, it.role) == r.0.def
    ensures Valid(db) ==> Valid(r.1)
  {
    var p := ParseItem(message);
    match p
    case Rejected(_) => (p, db)
    case Definition(d) => (p, AddShopItem(db, d.name, d.price, d.consumable, d.role))
  }

  /** The four fields an administrator would type for a definition. */
  function Fields(d: ItemDefinition): (f: seq<string>)
    ensures |f| == 4
  {
    [d.name, IntToString(d.price), if d.consumable then "yes" else "no",
     if d.role.Some? then d.role.value else "none"]
  }

  /** The message an administrator would type for a definition. */
  function Render(d: ItemDefinition): string {
    Join(Fields(d), ',')
  }

  /** A name or role the parser gives back unchanged: no comma and no
      whitespace at either end. */
  predicate Plain(s: string) {
    ',' !in s && (|s| > 0 ==> !IsSpace(s[0]) && !IsSpace(s[|s| - 1]))
  }

  /** Splitting a rendering at commas gives back the fields. */
  lemma SplitRender(d: ItemDefinition)
    requires Plain(d.name)
    requires d.role.Some? ==> Plain(d.role.value)
    ensures Split(Render(d), ',') == Fields(d)
  {
    IntToStringShape(d.price);
    SplitJoin(Fields(d), ',');
  }

  /** Stripping leaves each rendered field as it is. */
  lemma StripFields(d: ItemDefinition)
    requires Plain(d.name)
    requires d.role.Some? ==> Plain(d.role.value)
    ensures Strip(d.name) == d.name
    ensures Strip(IntToString(d.price)) == IntToString(d.price)
    ensures Strip("yes") == "yes" && Strip("no") == "no" && Strip("none") == "none"
    ensures d.role.Some? ==> Strip(d.role.value) == d.role.value
  {
    IntToStringShape(d.price);
    StripUnpadded(d.name);
    StripUnpadded(IntToString(d.price));
    StripUnpadded("yes");
    StripUnpadded("no");
    StripUnpadded("none");
    if d.role.Some? {
      StripUnpadded(d.role.value);
    }
  }

  /** A definition whose name and role are plain, whose role is already
      lower case and is not the word `none`, survives rendering and parsing
      unchanged. */
  lemma ParseRender(d: ItemDefinition)
    requires Plain(d.name)
    requires d.role.Some? ==> Plain(d.role.value) && Lower(d.role.value) == d.role.value && d.role.value != "none"
    ensures ParseItem(Render(d)) == Definition(d)
  {
    SplitRender(d);
    StripFields(d);
    IntToStringRoundTrip(d.price);
    LowerKeywords();
  }

  /** The keywords the parser compares against are already lower case. */
  lemma LowerKeywords()
    ensures Lower("yes") == "yes" && Lower("no") == "no" && Lower("none") == "none"
  {
  }

  // ---------------------------------------------------------------------
  // giveItem
  // ---------------------------------------------------------------------

  datatype Grant = PermissionDenied | MissingItemName | Given(db: Db)

  /** `give_item`: administrators only; the recipient defaults to the
      author; without an item name nothing is given. Otherwise one unit is
      added by exact name, which silently does nothing for a name that is
      not in the shop. */
  function GiveItem(db: Db, isAdmin: bool, author: MemberId, recipient: Option<MemberId>, name: Option<string>): (r: Grant)
    ensures r == PermissionDenied <==> !isAdmin
    ensures r == MissingItemName <==> isAdmin && name.None?
    ensures r.Given? ==> r.db == db.(inventory := r.db.inventory)
  {
    if !isAdmin then PermissionDenied
    else if name.None? then MissingItemName
    else Given(AddInventoryItem(db, recipient.GetOr(author), name.value))
  }

  /** A grant changes the inventory only for an administrator naming an
      item in the shop, and then adds exactly one unit of the first row with
      that exact name to the recipient (the author when none is named). */
  lemma GiveItemEffect(db: Db, isAdmin: bool, author: MemberId, recipient: Option<MemberId>, name: Option<string>)
    ensures var r := GiveItem(db, isAdmin, author, recipient, name);
            && (r.Given? && r.db != db ==> FindItem(db.shop, name.value, false).Some?)
            && (r.Given? && FindItem(db.shop, name.value, false).Some? ==>
                  var key := (recipient.GetOr(author), db.shop[FindItem(db.shop, name.value, false).value].id);
                  r.db.inventory == db.inventory[key := (if key in db.inventory then db.inventory[key] else 0) + 1])
            && (r.Given? && Valid(db) ==> Valid(r.db))
  {
  }
}

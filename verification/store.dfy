/** The bot's SQLite tables and the `DiscordBotCrud` primitives over them
    (db/dbcalls.py), as pure functions from one database state to the next.

    Each table is keyed the way the code uses it: one UserActivity, Income
    and Money row per member, one Inventory row per (member, item). The Shop
    table is a sequence in rowid order, because lookups return the FIRST
    matching row and item names are not unique. SQL `CURRENT_TIMESTAMP` is
    the caller-supplied `now`. */
module Store {
  import opened Basics
  import opened Text

  /** A UserActivity row. `minutesInVc` is fractional: voice time is stored
      as a Python float. */
  datatype Activity = Activity(
    messagesSent: int,
    xp: int,
    minutesInVc: real,
    lastMessageTime: int,
    lastVcTime: int)

  /** An Income row: the last daily and weekly claim times, NULL when never
      claimed. */
  datatype Claims = Claims(lastDaily: Option<int>, lastWeekly: Option<int>)

  datatype ClaimKind = Daily | Weekly

  /** A Shop row. `role` is the RoleAssigned column. */
  datatype ShopItem = ShopItem(
    id: ItemId,
    name: string,
    price: int,
    consumable: bool,
    role: Option<string>)

  /** The whole database. `inventory` maps (member, item id) to Quantity. */
  datatype Db = Db(
    members: set<MemberId>,
    activity: map<MemberId, Activity>,
    income: map<MemberId, Claims>,
    money: map<MemberId, int>,
    shop: seq<ShopItem>,
    inventory: map<(MemberId, ItemId), int>)

  /** The UserActivity row the column defaults produce: no messages, no XP,
      no voice time, both timestamps `CURRENT_TIMESTAMP`. */
  function FreshActivity(now: int): Activity {
    Activity(0, 0, 0.0, now, now)
  }

  // ---------------------------------------------------------------------
  // Table invariant
  // ---------------------------------------------------------------------

  /** The ids of the items in the shop. */
  function ShopIds(shop: seq<ShopItem>): set<ItemId> {
    set k | 0 <= k < |shop| :: shop[k].id
  }

  /** ItemId is the Shop table's primary key. */
  predicate DistinctIds(shop: seq<ShopItem>) {
    forall i, j :: 0 <= i < j < |shop| ==> shop[i].id != shop[j].id
  }

  /** The referential state the code maintains: shop ids are unique, every
      inventory row names an item that is in the shop, and no inventory row
      holds a quantity of zero or less. */
  predicate Valid(db: Db) {
    && DistinctIds(db.shop)
    && (forall key :: key in db.inventory ==> key.1 in ShopIds(db.shop))
    && (forall key :: key in db.inventory ==> db.inventory[key] > 0)
  }

  // ---------------------------------------------------------------------
  // Members
  // ---------------------------------------------------------------------

  /** `add_member`: INSERT OR IGNORE into Members, UserActivity, Income and
      Money. Rows that already exist are kept as they are. */
  function AddMember(db: Db, m: MemberId, now: int): (r: Db)
    ensures m in r.members && m in r.activity && m in r.income && m in r.money
    ensures r.activity[m] == (if m in db.activity then db.activity[m] else FreshActivity(now))
    ensures r.income[m] == (if m in db.income then db.income[m] else Claims(None, None))
    ensures r.money[m] == (if m in db.money then db.money[m] else 0)
    ensures r.members == db.members + {m}
    ensures r.activity == db.activity[m := r.activity[m]]
    ensures r.income == db.income[m := r.income[m]]
    ensures r.money == db.money[m := r.money[m]]
    ensures r.shop == db.shop && r.inventory == db.inventory
  {
    db.(
      members := db.members + {m},
      activity := if m in db.activity then db.activity else db.activity[m := FreshActivity(now)],
      income := if m in db.income then db.income else db.income[m := Claims(None, None)],
      money := if m in db.money then db.money else db.money[m := 0])
  }

  /** Adding a member twice is the same as adding it once, whatever the
      clock says the second time. */
  lemma AddMemberIdempotent(db: Db, m: MemberId, now: int, later: int)
    ensures AddMember(AddMember(db, m, now), m, later) == AddMember(db, m, now)
  {
  }

  /** `remove_member`: delete the member's rows from Inventory, Money,
      Income, UserActivity and Members. Every other row is untouched. */
  function RemoveMember(db: Db, m: MemberId): (r: Db)
    ensures m !in r.members && m !in r.activity && m !in r.income && m !in r.money
    ensures forall key :: key in r.inventory <==> key in db.inventory && key.0 != m
    ensures forall key :: key in r.inventory ==> r.inventory[key] == db.inventory[key]
    ensures forall k :: k != m ==> (k in r.members <==> k in db.members)
    ensures forall k :: k != m && k in db.activity ==> k in r.activity && r.activity[k] == db.activity[k]
    ensures forall k :: k != m && k in db.income ==> k in r.income && r.income[k] == db.income[k]
    ensures forall k :: k != m && k in db.money ==> k in r.money && r.money[k] == db.money[k]
    ensures r.activity.Keys <= db.activity.Keys && r.income.Keys <= db.income.Keys
    ensures r.money.Keys <= db.money.Keys && r.shop == db.shop
  {
    Db(
      db.members - {m},
      db.activity - {m},
      db.income - {m},
      db.money - {m},
      db.shop,
      map key | key in db.inventory && key.0 != m :: db.inventory[key])
  }

  /** A member who joins and leaves leaves no trace: removal after adding
      gives the same state as removal alone. */
  lemma RemoveUndoesAdd(db: Db, m: MemberId, now: int)
    ensures RemoveMember(AddMember(db, m, now), m) == RemoveMember(db, m)
  {
  }

  /** Removing a member keeps the table invariant. */
  lemma RemoveMemberValid(db: Db, m: MemberId)
    requires Valid(db)
    ensures Valid(RemoveMember(db, m))
  {
  }

  // ---------------------------------------------------------------------
  // Activity counters, XP and cash
  // ---------------------------------------------------------------------

  /** `increment_messages_sent`: one more message and one more XP, stamped
      with `now`; a member without a row gets a new row with one message and
      one XP. */
  function IncrementMessagesSent(db: Db, m: MemberId, now: int): (r: Db)
    ensures m in r.activity
    ensures var a := r.activity[m];
            && a.lastMessageTime == now
            && (m in db.activity ==>
                  && a.messagesSent == db.activity[m].messagesSent + 1
                  && a.xp == db.activity[m].xp + 1
                  && a.minutesInVc == db.activity[m].minutesInVc
                  && a.lastVcTime == db.activity[m].lastVcTime)
            && (m !in db.activity ==> a == Activity(1, 1, 0.0, now, now))
    ensures r == db.(activity := db.activity[m := r.activity[m]])
  {
    var a := if m in db.activity then
        var old_ := db.activity[m];
        old_.(messagesSent := old_.messagesSent + 1, xp := old_.xp + 1, lastMessageTime := now)
      else Activity(1, 1, 0.0, now, now);
    db.(activity := db.activity[m := a])
  }

  /** Counting a message never changes how far XP is ahead of the message
      count, and a fresh row starts with the two equal. */
  lemma MessageKeepsXpLead(db: Db, m: MemberId, now: int)
    ensures var a := IncrementMessagesSent(db, m, now).activity[m];
            a.xp - a.messagesSent
              == (if m in db.activity then db.activity[m].xp - db.activity[m].messagesSent else 0)
  {
  }

  /** `add_xp` (`delta` > 0) and `remove_xp` (`delta` < 0): an unconditional
      `XP = XP + delta` on an existing row, nothing otherwise. */
  function AdjustXp(db: Db, m: MemberId, delta: int): (r: Db)
    ensures m in db.activity ==> r.activity == db.activity[m := db.activity[m].(xp := db.activity[m].xp + delta)]
    ensures m !in db.activity ==> r == db
    ensures r == db.(activity := r.activity)
  {
    if m in db.activity then
      db.(activity := db.activity[m := db.activity[m].(xp := db.activity[m].xp + delta)])
    else db
  }

  function AddXp(db: Db, m: MemberId, amount: int): Db {
    AdjustXp(db, m, amount)
  }

  function RemoveXp(db: Db, m: MemberId, amount: int): Db {
    AdjustXp(db, m, -amount)
  }

  /** Removing the XP just added restores the database exactly. */
  lemma XpRoundTrip(db: Db, m: MemberId, amount: int)
    ensures RemoveXp(AddXp(db, m, amount), m, amount) == db
  {
  }

  /** `remove_xp` has no floor: XP can go below zero. */
  lemma XpCanGoNegative(db: Db, m: MemberId, amount: int)
    requires m in db.activity && amount > db.activity[m].xp
    ensures RemoveXp(db, m, amount).activity[m].xp < 0
  {
  }

  /** `add_cash` (`delta` > 0) and `remove_cash` (`delta` < 0): an
      unconditional `Cash = Cash + delta` on an existing Money row, nothing
      otherwise. */
  function AdjustCash(db: Db, m: MemberId, delta: int): (r: Db)
    ensures m in db.money ==> r.money == db.money[m := db.money[m] + delta]
    ensures m !in db.money ==> r == db
    ensures r == db.(money := r.money)
  {
    if m in db.money then db.(money := db.money[m := db.money[m] + delta]) else db
  }

  function AddCash(db: Db, m: MemberId, amount: int): Db {
    AdjustCash(db, m, amount)
  }

  function RemoveCash(db: Db, m: MemberId, amount: int): Db {
    AdjustCash(db, m, -amount)
  }

  /** `get_cash`: the balance, or 0 when the member has no Money row. */
  function GetCash(db: Db, m: MemberId): int {
    if m in db.money then db.money[m] else 0
  }

  /** Removing the cash just added restores the database exactly. */
  lemma CashRoundTrip(db: Db, m: MemberId, amount: int)
    ensures RemoveCash(AddCash(db, m, amount), m, amount) == db
    ensures GetCash(AddCash(db, m, amount), m) == GetCash(db, m) + (if m in db.money then amount else 0)
  {
  }

  /** `remove_cash` does not clamp: removing more than the balance leaves it
      negative. */
  lemma CashCanGoNegative(db: Db, m: MemberId, amount: int)
    requires m in db.money && amount > db.money[m]
    ensures GetCash(RemoveCash(db, m, amount), m) < 0
  {
  }

  /** `reset_cash`: overwrite the balance of an existing Money row. */
  function ResetCash(db: Db, m: MemberId, cash: int): (r: Db)
    ensures GetCash(r, m) == (if m in db.money then cash else 0)
    ensures forall k :: k != m ==> GetCash(r, k) == GetCash(db, k)
    ensures r.money.Keys == db.money.Keys && r == db.(money := r.money)
  {
    if m in db.money then db.(money := db.money[m := cash]) else db
  }

  // ---------------------------------------------------------------------
  // Income claim timestamps
  // ---------------------------------------------------------------------

  /** `get_lastclaimtime`: the stored claim time, NULL or no row both read
      as absent. */
  function GetLastClaimTime(db: Db, m: MemberId, kind: ClaimKind): Option<int> {
    if m !in db.income then None
    else if kind == Daily then db.income[m].lastDaily
    else db.income[m].lastWeekly
  }

  /** `update_lastclaimtime`: set one column of the member's Income row,
      inserting a row (other column NULL) when there is none. */
  function UpdateLastClaimTime(db: Db, m: MemberId, kind: ClaimKind, t: int): (r: Db)
    ensures m in r.income
    ensures r == db.(income := r.income)
    ensures r.income == db.income[m := r.income[m]]
  {
    var row := if m in db.income then db.income[m] else Claims(None, None);
    var row' := if kind == Daily then row.(lastDaily := Some(t)) else row.(lastWeekly := Some(t));
    db.(income := db.income[m := row'])
  }

  /** Reading back a claim time returns what was just written, and the other
      claim kind and every other member are unaffected. */
  lemma ClaimTimeReadBack(db: Db, m: MemberId, kind: ClaimKind, t: int, m': MemberId, kind': ClaimKind)
    ensures GetLastClaimTime(UpdateLastClaimTime(db, m, kind, t), m, kind) == Some(t)
    ensures (m', kind') != (m, kind) ==>
              GetLastClaimTime(UpdateLastClaimTime(db, m, kind, t), m', kind') == GetLastClaimTime(db, m', kind')
  {
  }

  // ---------------------------------------------------------------------
  // Shop lookups
  // ---------------------------------------------------------------------

  /** Whether a shop row matches a name: exactly (`ItemName = ?`) or
      ignoring ASCII case (`LOWER(ItemName) = LOWER(?)`, `.lower() ==`). */
  predicate Matches(item: ShopItem, name: string, caseless: bool) {
    if caseless then Lower(item.name) == Lower(name) else item.name == name
  }

  /** Index of the first matching shop row, as `fetchone()` / `next(...)`
      return it. */
  function FindItem(shop: seq<ShopItem>, name: string, caseless: bool): (r: Option<nat>)
    ensures r.Some? ==> r.value < |shop| && Matches(shop[r.value], name, caseless)
    ensures r.Some? ==> forall j :: 0 <= j < r.value ==> !Matches(shop[j], name, caseless)
    ensures r.None? ==> forall j :: 0 <= j < |shop| ==> !Matches(shop[j], name, caseless)
  {
    if |shop| == 0 then None
    else if Matches(shop[0], name, caseless) then Some(0)
    else match FindItem(shop[1..], name, caseless)
      case None => None
      case Some(i) => Some(i + 1)
  }

  /** The largest id in the shop, 0 when it is empty. */
  function MaxId(shop: seq<ShopItem>): (r: int)
    ensures forall k :: 0 <= k < |shop| ==> shop[k].id <= r
  {
    if |shop| == 0 then 0
    else var rest := MaxId(shop[1..]); if shop[0].id > rest then shop[0].id else rest
  }

  /** `add_shop_item`: append a row with a fresh INTEGER PRIMARY KEY. The
      model takes one more than the largest key, or 1 when no key is
      positive; SQLite's own choice when every key is negative differs, but
      any fresh key satisfies the contract. */
  function AddShopItem(db: Db, name: string, price: int, consumable: bool, role: Option<string>): (r: Db)
    ensures |r.shop| == |db.shop| + 1 && r.shop[..|db.shop|] == db.shop
    ensures var it := r.shop[|db.shop|];
            it.name == name && it.price == price && it.consumable == consumable && it.role == role
    ensures r.shop[|db.shop|].id !in ShopIds(db.shop)
    ensures Valid(db) ==> Valid(r)
    ensures r == db.(shop := r.shop)
  {
    var item := ShopItem(MaxId(db.shop) + 1, name, price, consumable, role);
    var r := db.(shop := db.shop + [item]);
    assert r.shop[..|db.shop|] == db.shop;
    assert ShopIds(db.shop) <= ShopIds(r.shop) by {
      forall x | x in ShopIds(db.shop) ensures x in ShopIds(r.shop) {
        var k :| 0 <= k < |db.shop| && db.shop[k].id == x;
        assert r.shop[k].id == x;
      }
    }
    r
  }

  // ---------------------------------------------------------------------
  // Inventory
  // ---------------------------------------------------------------------

  /** `add_inventory_item`: look the item up by exact name; if found, add one
      unit to the member's row, creating the row with quantity 1 when there
      is none. An unknown name changes nothing. */
  function AddInventoryItem(db: Db, m: MemberId, name: string): (r: Db)
    ensures FindItem(db.shop, name, false).None? ==> r == db
    ensures FindItem(db.shop, name, false).Some? ==>
              var key := (m, db.shop[FindItem(db.shop, name, false).value].id);
              r.inventory == db.inventory[key := (if key in db.inventory then db.inventory[key] else 0) + 1]
    ensures r == db.(inventory := r.inventory)
    ensures Valid(db) ==> Valid(r)
  {
    match FindItem(db.shop, name, false)
    case None => db
    case Some(i) =>
      var key := (m, db.shop[i].id);
      var q := if key in db.inventory then db.inventory[key] + 1 else 1;
      db.(inventory := db.inventory[key := q])
  }

  /** Why `use_inventory_item` raises `ValueError`. */
  datatype UseError = NotInShop | NotInInventory

  datatype UseResult = Failed(error: UseError) | Used(role: Option<string>, db: Db)

  /** `use_inventory_item`: look the item up by exact name and check the
      member holds a positive quantity; a consumable loses one unit (the row
      is deleted when none are left), a non-consumable is kept. Returns the
      item's RoleAssigned. On either error nothing changes. */
  function UseInventoryItem(db: Db, m: MemberId, name: string): (r: UseResult)
    ensures FindItem(db.shop, name, false).None? <==> r == Failed(NotInShop)
    ensures r.Used? ==> var i := FindItem(db.shop, name, false).value;
              var key := (m, db.shop[i].id);
              && key in db.inventory && db.inventory[key] > 0
              && r.role == db.shop[i].role
              && r.db == db.(inventory := r.db.inventory)
              && (!db.shop[i].consumable ==> r.db == db)
              && (db.shop[i].consumable && db.inventory[key] > 1 ==>
                    r.db.inventory == db.inventory[key := db.inventory[key] - 1])
              && (db.shop[i].consumable && db.inventory[key] == 1 ==>
                    r.db.inventory == db.inventory - {key})
    ensures r == Failed(NotInInventory) <==>
              FindItem(db.shop, name, false).Some? &&
              var key := (m, db.shop[FindItem(db.shop, name, false).value].id);
              key !in db.inventory || db.inventory[key] <= 0
  {
    match FindItem(db.shop, name, false)
    case None => Failed(NotInShop)
    case Some(i) =>
      var item := db.shop[i];
      var key := (m, item.id);
      if key !in db.inventory || db.inventory[key] <= 0 then Failed(NotInInventory)
      else if !item.consumable then Used(item.role, db)
      else
        var q := db.inventory[key] - 1;
        if q <= 0 then Used(item.role, db.(inventory := db.inventory - {key}))
        else Used(item.role, db.(inventory := db.inventory[key := q]))
  }

  /** Using an item keeps the table invariant: in particular no zero-quantity
      row is left behind. */
  lemma UseInventoryItemValid(db: Db, m: MemberId, name: string)
    requires Valid(db)
    ensures var r := UseInventoryItem(db, m, name); r.Used? ==> Valid(r.db)
  {
  }

  /** A non-consumable can be used any number of times: a successful use
      leaves the state exactly as it was, so the next use succeeds too. */
  lemma NonConsumableReusable(db: Db, m: MemberId, name: string)
    requires UseInventoryItem(db, m, name).Used?
    requires !db.shop[FindItem(db.shop, name, false).value].consumable
    ensures UseInventoryItem(UseInventoryItem(db, m, name).db, m, name) == UseInventoryItem(db, m, name)
  {
  }

  /** Adding one unit and then using it returns a consumable's inventory to
      what it was. */
  lemma AddThenUseConsumable(db: Db, m: MemberId, name: string)
    requires Valid(db)
    requires FindItem(db.shop, name, false).Some?
    requires db.shop[FindItem(db.shop, name, false).value].consumable
    ensures var r := UseInventoryItem(AddInventoryItem(db, m, name), m, name);
            r.Used? && r.db == db
  {
    var i := FindItem(db.shop, name, false).value;
    var key := (m, db.shop[i].id);
    var added := AddInventoryItem(db, m, name);
    if key in db.inventory {
      assert added.inventory[key := db.inventory[key]] == db.inventory;
    } else {
      assert added.inventory - {key} == db.inventory;
    }
  }

  // ---------------------------------------------------------------------
  // Shop item deletion
  // ---------------------------------------------------------------------

  /** The shop without every row whose name matches ignoring case: the
      `DELETE FROM Shop WHERE LOWER(ItemName) = LOWER(?)`. */
  function RemoveMatching(shop: seq<ShopItem>, name: string): (r: seq<ShopItem>)
    ensures |r| <= |shop|
    ensures forall k :: 0 <= k < |r| ==> !Matches(r[k], name, true)
    ensures forall k :: 0 <= k < |r| ==> r[k] in shop
    ensures forall k :: 0 <= k < |shop| && !Matches(shop[k], name, true) ==> shop[k] in r
  {
    if |shop| == 0 then []
    else
      var rest := RemoveMatching(shop[1..], name);
      if Matches(shop[0], name, true) then rest
      else
        var r := [shop[0]] + rest;
        assert forall k :: 1 <= k < |r| ==> r[k] == rest[k - 1];
        r
  }

  /** Deleting never adds a row, nor a second copy of one. */
  lemma {:induction false} RemoveMatchingMultiset(shop: seq<ShopItem>, name: string)
    ensures multiset(RemoveMatching(shop, name)) <= multiset(shop)
    decreases |shop|
  {
    if |shop| > 0 {
      assert shop == [shop[0]] + shop[1..];
      RemoveMatchingMultiset(shop[1..], name);
    }
  }

  /** The deletion works row by row in scan order: deleting from two tables
      laid end to end gives the two results laid end to end, so the kept
      rows keep their relative order and their number. */
  lemma {:induction false} RemoveMatchingAppend(a: seq<ShopItem>, b: seq<ShopItem>, name: string)
    ensures RemoveMatching(a + b, name) == RemoveMatching(a, name) + RemoveMatching(b, name)
    decreases |a|
  {
    if |a| == 0 {
      assert a + b == b;
    } else {
      assert (a + b)[1..] == a[1..] + b;
      RemoveMatchingAppend(a[1..], b, name);
    }
  }

  /** A lookup whose first match survives the deletion finds the same row
      afterwards, so later first-match lookups are not disturbed. */
  lemma {:induction false} RemoveMatchingKeepsLookup(shop: seq<ShopItem>, name: string, other: string, caseless: bool)
    requires FindItem(shop, other, caseless).Some?
    requires !Matches(shop[FindItem(shop, other, caseless).value], name, true)
    ensures FindItem(RemoveMatching(shop, name), other, caseless).Some?
    ensures RemoveMatching(shop, name)[FindItem(RemoveMatching(shop, name), other, caseless).value]
              == shop[FindItem(shop, other, caseless).value]
    decreases |shop|
  {
    var i := FindItem(shop, other, caseless).value;
    var rest := RemoveMatching(shop[1..], name);
    if i > 0 {
      assert FindItem(shop[1..], other, caseless) == Some(i - 1);
      RemoveMatchingKeepsLookup(shop[1..], name, other, caseless);
    }
  }

  /** Deleting rows adds no id. */
  lemma RemoveMatchingIds(shop: seq<ShopItem>, name: string)
    ensures ShopIds(RemoveMatching(shop, name)) <= ShopIds(shop)
  {
    var r := RemoveMatching(shop, name);
    forall x | x in ShopIds(r) ensures x in ShopIds(shop) {
      var k :| 0 <= k < |r| && r[k].id == x;
      var j :| 0 <= j < |shop| && shop[j] == r[k];
    }
  }

  /** Deleting rows keeps the ids distinct: the rows kept are a
      subsequence of the table. */
  lemma {:induction false} RemoveMatchingDistinct(shop: seq<ShopItem>, name: string)
    requires DistinctIds(shop)
    ensures DistinctIds(RemoveMatching(shop, name))
  {
    if |shop| > 0 {
      var tail := shop[1..];
      DistinctTail(shop);
      RemoveMatchingDistinct(tail, name);
      var rest := RemoveMatching(tail, name);
      if !Matches(shop[0], name, true) {
        HeadIdFresh(shop, rest);
        DistinctCons(shop[0], rest);
      }
    }
  }

  lemma DistinctTail(shop: seq<ShopItem>)
    requires |shop| > 0 && DistinctIds(shop)
    ensures DistinctIds(shop[1..])
  {
    assert forall k :: 0 <= k < |shop| - 1 ==> shop[1..][k] == shop[k + 1];
  }

  /** Rows drawn from the tail of a table with distinct ids do not share
      the head's id. */
  lemma HeadIdFresh(shop: seq<ShopItem>, rest: seq<ShopItem>)
    requires |shop| > 0 && DistinctIds(shop)
    requires forall k :: 0 <= k < |rest| ==> rest[k] in shop[1..]
    ensures forall k :: 0 <= k < |rest| ==> rest[k].id != shop[0].id
  {
    forall k | 0 <= k < |rest| ensures rest[k].id != shop[0].id {
      var j :| 0 <= j < |shop| - 1 && shop[1..][j] == rest[k];
      assert shop[j + 1] == rest[k];
    }
  }

  lemma DistinctCons(head: ShopItem, rest: seq<ShopItem>)
    requires DistinctIds(rest)
    requires forall k :: 0 <= k < |rest| ==> rest[k].id != head.id
    ensures DistinctIds([head] + rest)
  {
    var r := [head] + rest;
    assert forall k :: 1 <= k < |r| ==> r[k] == rest[k - 1];
  }

  /** The inventory without any row that holds one of `ids`. */
  function DropItems(inventory: map<(MemberId, ItemId), int>, ids: set<ItemId>): (r: map<(MemberId, ItemId), int>)
    ensures forall key :: key in r <==> key in inventory && key.1 !in ids
    ensures forall key :: key in r ==> r[key] == inventory[key]
  {
    map key | key in inventory && key.1 !in ids :: inventory[key]
  }

  /** `delete_shop_item` AS WRITTEN: the inventory rows of the FIRST
      case-insensitive match are deleted, then EVERY case-insensitive match
      is deleted from the shop. Returns whether anything was found. */
  function DeleteShopItemAsWritten(db: Db, name: string): (r: (bool, Db))
    ensures r.0 <==> FindItem(db.shop, name, true).Some?
    ensures !r.0 ==> r.1 == db
    ensures r.0 ==> r.1.shop == RemoveMatching(db.shop, name)
    ensures r.0 ==> forall k :: 0 <= k < |r.1.shop| ==> !Matches(r.1.shop[k], name, true)
    ensures r.0 ==> forall k :: 0 <= k < |db.shop| && !Matches(db.shop[k], name, true) ==> db.shop[k] in r.1.shop
    ensures r.0 ==>
              var first := db.shop[FindItem(db.shop, name, true).value].id;
              && (forall key :: key in r.1.inventory <==> key in db.inventory && key.1 != first)
              && (forall key :: key in r.1.inventory ==> r.1.inventory[key] == db.inventory[key])
    ensures r.1 == db.(shop := r.1.shop, inventory := r.1.inventory)
  {
    match FindItem(db.shop, name, true)
    case None => (false, db)
    case Some(i) =>
      (true, db.(inventory := DropItems(db.inventory, {db.shop[i].id}),
                 shop := RemoveMatching(db.shop, name)))
  }

  /** The as-written deletion does what was intended exactly when no item
      matching the name, other than the first, is held by anyone; otherwise
      it leaves a row that the corrected deletion removes. */
  lemma DeleteShopItemAsWrittenAgrees(db: Db, name: string)
    requires FindItem(db.shop, name, true).Some?
    ensures var first := db.shop[FindItem(db.shop, name, true).value].id;
            DeleteShopItemAsWritten(db, name) == DeleteShopItem(db, name) <==>
              forall key :: key in db.inventory && key.1 in MatchingIds(db.shop, name) ==> key.1 == first
  {
    var first := db.shop[FindItem(db.shop, name, true).value].id;
    var a := DeleteShopItemAsWritten(db, name).1.inventory;
    var c := DeleteShopItem(db, name).1.inventory;
    if forall key :: key in db.inventory && key.1 in MatchingIds(db.shop, name) ==> key.1 == first {
      assert a == c;
    } else {
      var key :| key in db.inventory && key.1 in MatchingIds(db.shop, name) && key.1 != first;
      assert key in a && key !in c;
    }
  }

  /** The ids of every shop row whose name matches ignoring case. */
  function MatchingIds(shop: seq<ShopItem>, name: string): set<ItemId> {
    set k | 0 <= k < |shop| && Matches(shop[k], name, true) :: shop[k].id
  }

  /** `delete_shop_item` as evidently intended: every deleted item's
      inventory rows go with it. */
  function DeleteShopItem(db: Db, name: string): (r: (bool, Db))
    ensures r.0 <==> FindItem(db.shop, name, true).Some?
    ensures !r.0 ==> r.1 == db
    ensures r.0 ==> r.1.shop == RemoveMatching(db.shop, name)
    ensures r.0 ==> forall k :: 0 <= k < |r.1.shop| ==> !Matches(r.1.shop[k], name, true)
    ensures r.0 ==> forall key :: key in r.1.inventory ==> key.1 !in MatchingIds(db.shop, name)
    ensures r.0 ==> forall k :: 0 <= k < |db.shop| && !Matches(db.shop[k], name, true) ==> db.shop[k] in r.1.shop
    ensures forall key :: key in db.inventory && key.1 !in MatchingIds(db.shop, name) ==>
              key in r.1.inventory && r.1.inventory[key] == db.inventory[key]
    ensures r.1.members == db.members && r.1.money == db.money && r.1.activity == db.activity
    ensures r.1.income == db.income
  {
    match FindItem(db.shop, name, true)
    case None => (false, db)
    case Some(_) =>
      (true, db.(inventory := DropItems(db.inventory, MatchingIds(db.shop, name)),
                 shop := RemoveMatching(db.shop, name)))
  }

  /** Deleting a shop item (as intended) keeps the table invariant: no
      inventory row is left pointing at a deleted item. */
  lemma DeleteShopItemValid(db: Db, name: string)
    requires Valid(db)
    ensures Valid(DeleteShopItem(db, name).1)
  {
    var (found, r) := DeleteShopItem(db, name);
    RemoveMatchingDistinct(db.shop, name);
    if found {
      forall key | key in r.inventory ensures key.1 in ShopIds(r.shop) {
        assert key in db.inventory;
        var k :| 0 <= k < |db.shop| && db.shop[k].id == key.1;
        assert key.1 !in MatchingIds(db.shop, name);
        assert !Matches(db.shop[k], name, true);
        assert db.shop[k] in r.shop;
        var j :| 0 <= j < |r.shop| && r.shop[j] == db.shop[k];
        assert r.shop[j].id == key.1;
      }
    }
  }

  /** The as-written deletion breaks the invariant: with two items whose
      names differ only in case, a member's unit of the second item survives
      as an inventory row whose ItemId is no longer in the shop. */
  lemma DeleteShopItemAsWrittenOrphans()
    ensures var db := Db({7}, map[], map[], map[7 := 0],
                         [ShopItem(1, "Rose", 100, true, None), ShopItem(2, "rose", 100, true, None)],
                         map[(7, 2) := 1]);
            && Valid(db)
            && !Valid(DeleteShopItemAsWritten(db, "rose").1)
  {
    var db := Db({7}, map[], map[], map[7 := 0],
                 [ShopItem(1, "Rose", 100, true, None), ShopItem(2, "rose", 100, true, None)],
                 map[(7, 2) := 1]);
    assert ShopIds(db.shop) == {1, 2} by {
      assert db.shop[0].id == 1 && db.shop[1].id == 2;
    }
    assert Lower("Rose") == "rose";
    assert Lower("rose") == "rose";
    assert FindItem(db.shop, "rose", true) == Some(0);
    var r := DeleteShopItemAsWritten(db, "rose").1;
    assert RemoveMatching(db.shop, "rose") == [];
    assert (7, 2) in r.inventory;
    assert ShopIds(r.shop) == {};
  }

  /** `delete_shop_item` as written, against the Inventory table that
      db/database.py:68-74 declares, whose ItemId is a foreign key into Shop,
      with enforcement switched on (db/dbcalls.py:34). The Inventory DELETE
      removes the first match's rows; the Shop DELETE then fails as a whole
      when another matching item is still held, the `sqlite3.Error` handler
      returns False, and the shop is unchanged. The Inventory DELETE stays
      in the connection's open transaction, so the next commit keeps it. */
  function DeleteShopItemEnforced(db: Db, name: string): (r: (bool, Db))
    ensures FindItem(db.shop, name, true).None? ==> r == (false, db)
    ensures FindItem(db.shop, name, true).Some? ==>
              var first := db.shop[FindItem(db.shop, name, true).value].id;
              && r.1.inventory == DropItems(db.inventory, {first})
              && (r.0 <==> forall key :: key in db.inventory && key.1 in MatchingIds(db.shop, name) ==> key.1 == first)
              && (!r.0 ==> r.1.shop == db.shop)
    ensures r.0 ==> r == DeleteShopItem(db, name)
    ensures r.1.members == db.members && r.1.money == db.money && r.1.activity == db.activity
    ensures r.1.income == db.income
  {
    match FindItem(db.shop, name, true)
    case None => (false, db)
    case Some(i) =>
      var inventory := DropItems(db.inventory, {db.shop[i].id});
      if exists key :: key in inventory && key.1 in MatchingIds(db.shop, name) then
        (false, db.(inventory := inventory))
      else
        assert inventory == DropItems(db.inventory, MatchingIds(db.shop, name));
        (true, db.(inventory := inventory, shop := RemoveMatching(db.shop, name)))
  }

  /** Under enforced foreign keys the deletion never orphans a row: it keeps
      the table invariant whether it succeeds or fails. */
  lemma DeleteShopItemEnforcedValid(db: Db, name: string)
    requires Valid(db)
    ensures Valid(DeleteShopItemEnforced(db, name).1)
  {
    if DeleteShopItemEnforced(db, name).0 {
      DeleteShopItemValid(db, name);
    }
  }

  /** Under enforced foreign keys the orphaning input instead fails: with
      items "Rose" and "rose", a member holding both, deleting "rose" returns
      False and leaves both items in the shop, yet the member's unit of
      "Rose" is gone. */
  lemma DeleteShopItemEnforcedRefuses()
    ensures var db := Db({7}, map[], map[], map[7 := 0],
                         [ShopItem(1, "Rose", 100, true, None), ShopItem(2, "rose", 100, true, None)],
                         map[(7, 1) := 1, (7, 2) := 1]);
            var r := DeleteShopItemEnforced(db, "rose");
            && !r.0
            && r.1.shop == db.shop
            && (7, 1) !in r.1.inventory && (7, 2) in r.1.inventory
  {
    var db := Db({7}, map[], map[], map[7 := 0],
                 [ShopItem(1, "Rose", 100, true, None), ShopItem(2, "rose", 100, true, None)],
                 map[(7, 1) := 1, (7, 2) := 1]);
    assert Lower("Rose") == "rose";
    assert Lower("rose") == "rose";
    assert FindItem(db.shop, "rose", true) == Some(0);
    assert 2 in MatchingIds(db.shop, "rose") by {
      assert Matches(db.shop[1], "rose", true);
    }
    var inventory := DropItems(db.inventory, {1});
    assert (7, 2) in inventory;
  }
}

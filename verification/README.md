# eli_bot economy and wagers in Dafny

This project models the economy of the eli_bot Discord server bot: the
SQLite ledger behind it (`DiscordBotCrud`), the three wagers (roulette,
slots, blackjack), the `collect` income command, the shop commands, and
voice-channel XP. Each table is an immutable map or sequence, and each
database call or command is a pure function from one state to the next.
Whatever the bot draws at random, reads from the clock or receives from
Discord is a parameter:

- the roulette landing slot;
- the slot-machine draws;
- the sequence of cards dealt and the player's hit/stand replies;
- the member's role names;
- the current time.

Modules, in dependency order:

- `Basics`: the option type, member and item ids, and whole days as
  `timedelta.days` counts them.
- `Text`: the Python string operations the code uses:
  - `strip`, ASCII `lower` and `split(',')`;
  - `isdigit`, `int()` and `str(n)`;
  - with the round trips `','.join(s.split(',')) == s` and `int(str(n)) == n`.
- `Store`: the tables and every `DiscordBotCrud` primitive of the economy.
  - The table invariant is `Valid`: shop ids are unique, no inventory row
    points outside the shop, and no inventory row holds a quantity of zero
    or less.
- `Ranking`: the four leaderboard queries. `ORDER BY … DESC LIMIT n` is a
  stable sort over the order in which the table is scanned.
- `Roulette`, `Slots`, `Blackjack`: the wager rules and the balance changes
  they make.
- `Income`: the daily and weekly claims of `collect`.
- `Shop`: these commands:
  - `buy`;
  - the four-field `additem` parser, with a parse/render round trip;
  - `giveItem`.
- `Voice`: the join-time map and the two-XP-per-minute accrual.

## Model

| member | source | states |
|---|---|---|
| Basics.WholeDaysAtLeast | cogs/income.py:43 | `(now - last).days >= n` holds exactly when at least `n * 86400` seconds have elapsed |
| Text.StripSpec | cogs/shop.py:109 | `strip()` removes only whitespace from the two ends, and the result neither starts nor ends with whitespace |
| Text.JoinSplit | cogs/shop.py:101 | joining the fields of `split(',')` gives back the message, and there is one more field than there are commas |
| Text.SplitJoin | cogs/shop.py:101 | splitting a join of comma-free fields gives back the fields |
| Text.IntToStringRoundTrip | cogs/shop.py:111 | `int()` of the decimal rendering of any integer is that integer |
| Store.AddMember | db/dbcalls.py:37-47 | afterwards the member has a Members row and UserActivity, Income and Money rows. An existing row is kept unchanged (INSERT OR IGNORE). A new row holds the column defaults. No other member's rows change |
| Store.AddMemberIdempotent | db/dbcalls.py:41-44 | adding a member twice gives the same state as adding once |
| Store.RemoveMember | db/dbcalls.py:53-66 | the member's rows leave Inventory, Money, Income, UserActivity and Members; every other member's rows are unchanged |
| Store.RemoveUndoesAdd | db/dbcalls.py:37-66 | removing a member right after adding them gives the same state as removing them alone |
| Store.RemoveMemberValid | db/dbcalls.py:59-65 | removal keeps the table invariant |
| Store.IncrementMessagesSent | db/dbcalls.py:83-102 | an existing row gains exactly one message and one XP, is stamped now, and keeps its voice columns; a missing row is created as (1 message, 1 XP) |
| Store.MessageKeepsXpLead | db/dbcalls.py:90-102 | counting a message never changes XP minus MessagesSent, and a new row starts with the two equal |
| Store.XpRoundTrip | db/dbcalls.py:251-283 | `remove_xp` after `add_xp` of the same amount restores the state exactly |
| Store.XpCanGoNegative | db/dbcalls.py:268-275 | removing more XP than a member has leaves XP negative |
| Store.CashRoundTrip | db/dbcalls.py:285-317 | `remove_cash` after `add_cash` of the same amount restores the state exactly; `get_cash` sees the credit only when the member has a row |
| Store.CashCanGoNegative | db/dbcalls.py:302-309 | removing more than the balance leaves it negative |
| Store.ResetCash | db/dbcalls.py:319-327 | an existing balance is overwritten; no row is created and no other balance changes |
| Store.UpdateLastClaimTime | db/dbcalls.py:341-368 | only the member's Income row changes; it is inserted when missing |
| Store.ClaimTimeReadBack | db/dbcalls.py:329-368 | `get_lastclaimtime` returns the time just written, while the other claim kind and other members keep theirs |
| Store.FindItem | db/dbcalls.py:495-499 | the lookup returns the first matching shop row, or nothing when no row matches |
| Store.AddShopItem | db/dbcalls.py:436-448 | one row is appended with a fresh id and the given columns; the table invariant is kept |
| Store.AddInventoryItem | db/dbcalls.py:490-522 | a name with no exact shop match changes nothing; otherwise the member's row for the first match gains one unit, or is created with quantity 1; the table invariant is kept |
| Store.UseInventoryItem | db/dbcalls.py:532-573 | the two `ValueError`s arise exactly when the item is not in the shop, or the member holds no positive quantity, and they change nothing. On success the item's RoleAssigned is returned. A consumable loses one unit, and its row is deleted at zero. A non-consumable is left as it was |
| Store.UseInventoryItemValid | db/dbcalls.py:558-569 | a successful use keeps the table invariant and leaves no zero-quantity row |
| Store.NonConsumableReusable | db/dbcalls.py:559-573 | using a non-consumable leaves the state unchanged, so the next use gives the same result |
| Store.AddThenUseConsumable | db/dbcalls.py:490-573 | adding one unit of a consumable and then using it restores the state |
| Store.RemoveMatching | db/dbcalls.py:470 | the shop keeps exactly the rows whose name differs from the given one ignoring case |
| Store.RemoveMatchingMultiset | db/dbcalls.py:470 | deleting never adds a row or a second copy of one |
| Store.RemoveMatchingAppend | db/dbcalls.py:470 | deletion distributes over laying two tables end to end, so the kept rows keep their scan order and their number |
| Store.RemoveMatchingKeepsLookup | db/dbcalls.py:470 | a first-match lookup whose match survives the deletion finds the same row afterwards |
| Store.RemoveMatchingIds | db/dbcalls.py:470 | deleting rows introduces no new id |
| Store.RemoveMatchingDistinct | db/dbcalls.py:470 | deleting rows keeps the shop ids distinct |
| Store.DeleteShopItemAsWritten | db/dbcalls.py:451-477 | returns True exactly when some row matches ignoring case; with no match nothing changes. On a match the shop becomes `RemoveMatching` of it (every matching row leaves, every other row stays in order), but only the inventory rows of the FIRST match are deleted; no other table changes |
| Store.DeleteShopItemAsWrittenAgrees | db/dbcalls.py:456-470 | when a row matches, the as-written deletion equals the corrected one exactly when nobody holds a matching item other than the first |
| Store.DeleteShopItemAsWrittenOrphans | db/dbcalls.py:456-470 | with items "Rose" and "rose", deleting "rose" leaves a member's unit of the second item as an inventory row whose item is no longer in the shop |
| Store.DeleteShopItem | db/dbcalls.py:451-477 | returns True exactly when some row matches ignoring case. Then the shop becomes `RemoveMatching` of it: every matching row leaves and every other row stays, in order. No inventory row references a deleted id, and every other inventory row stays. With no match nothing changes |
| Store.DeleteShopItemValid | db/dbcalls.py:451-477 | the corrected deletion keeps the table invariant |
| Store.DeleteShopItemEnforced | db/dbcalls.py:456-484 | with the Inventory foreign key enforced, the first match's inventory rows are deleted either way. The call returns True exactly when no other matching item is still held, and then agrees with the corrected deletion. Otherwise it returns False with the shop unchanged |
| Store.DeleteShopItemEnforcedValid | db/dbcalls.py:456-484 | with the foreign key enforced, the deletion keeps the table invariant whether it succeeds or fails |
| Store.DeleteShopItemEnforcedRefuses | db/dbcalls.py:456-484 | with the foreign key enforced, deleting "rose" from items "Rose" and "rose", both held, returns False and leaves both items in the shop, while the unit of "Rose" is gone |
| Ranking.Insert | db/dbcalls.py:169 | placing a row into a descending list keeps it descending and adds exactly that row |
| Ranking.SortDesc | db/dbcalls.py:169 | `ORDER BY … DESC` is a descending permutation of the selected rows |
| Ranking.Top | db/dbcalls.py:165-172 | `LIMIT n` returns min(n, rows) of the selected rows, in descending order; each row is returned at most as often as it was selected |
| Ranking.TopIsTop | db/dbcalls.py:169-170 | no row that `LIMIT` cuts ranks above a row it keeps |
| Ranking.ActivityRows | db/dbcalls.py:165-168 | the WHERE clause selects exactly the UserActivity rows stamped at or after the window start, each carrying its own metric |
| Ranking.ActivityRowsDistinct | db/dbcalls.py:165-168 | the selection lists no member twice, since each member has one UserActivity row |
| Ranking.ActivityRowsCount | db/dbcalls.py:165-168 | the selection holds exactly one row per member stamped within the window |
| Ranking.WindowedEmpty | db/dbcalls.py:172-177 | the windowed result is empty exactly when no row falls in the window, which is when the fallback runs |
| Ranking.TopActivity | db/dbcalls.py:160-224 | the chat/voice leaderboards hold at most 10 rows, are non-increasing, and carry each member's own metric. No member is listed twice. When any row is in the 7-day window they list min(10, members in the window) rows, all in the window; otherwise they list the top min(10, rows) of all time |
| Ranking.TopActivityIsTop | db/dbcalls.py:160-224 | a member of the ranked pool that the chat/voice board leaves out ranks no higher than anyone it lists |
| Ranking.TopColumn | db/dbcalls.py:231-242 | an all-time board lists min(limit, rows) distinct members, non-increasing, each with its own column value |
| Ranking.TopColumnIsTop | db/dbcalls.py:226-242 | a member left off an all-time board ranks no higher than anyone on it |
| Ranking.TopXp | db/dbcalls.py:226-242 | `get_top_xp` lists min(9, rows) distinct members, each with its own XP, non-increasing |
| Ranking.TopXpIsTop | db/dbcalls.py:226-242 | a member left off the XP board has no more XP than anyone on it |
| Ranking.TopCash | db/dbcalls.py:374-390 | `get_top_cash` lists min(9, rows) distinct members, each with its own balance, non-increasing |
| Ranking.TopCashIsTop | db/dbcalls.py:374-390 | a member left off the cash board has no larger balance than anyone on it |
| Roulette.WheelColours | cogs/gambling.py:79-86 | '0' and '00' are green, and every other entry has the standard red/black colouring of its number |
| Roulette.WheelKeysLow | cogs/gambling.py:79-83 | the keys are '0', '00', then the decimal renderings of 1..18 in order |
| Roulette.WheelKeysHigh | cogs/gambling.py:82-86 | the remaining keys are the decimal renderings of 19..36 in order |
| Roulette.WheelKeysDistinct | cogs/gambling.py:79-86 | no key repeats |
| Roulette.LayoutCounts | cogs/gambling.py:79-86 | any colour list laid out like the wheel holds 18 red, 18 black and 2 green |
| Roulette.WheelShape | cogs/gambling.py:79-86 | the table has exactly 38 distinct keys: 18 red, 18 black, 2 green |
| Roulette.Play | cogs/gambling.py:88-132 | a space that is neither a keyword nor digits is refused. A bet outside 100..1000 or above the balance is refused. Either refusal leaves the state unchanged. Otherwise the result is the given slot, the win is decided by the source's tests, and only this member's balance changes |
| Roulette.PlayNetChange | cogs/gambling.py:98-132 | an accepted bet nets `bet * (multiplier - 1)` on a win and `-bet` on a loss, and never leaves the balance negative; no spin gains more than 34 times the bet |
| Roulette.GreenLosesColourBets | cogs/gambling.py:109-113 | red and black both lose on a green slot |
| Roulette.ZerosAreEven | cogs/gambling.py:115-121 | '0' and '00' win 'even' and lose 'odd' |
| Roulette.NumberWinsIffSame | cogs/gambling.py:123-124 | a numeric bet wins exactly on the key spelled the same way |
| Roulette.PlayExamples | cogs/gambling.py:98-132 | 100 on '17' landing on 17 nets +3400; 100 on red landing on black 17 nets -100 |
| Slots.SpinPayout | cogs/gambling.py:15-28 | a forced win pays 2·bet; otherwise a non-zero bet pays 2·bet exactly when the independent draws coincide |
| Slots.CoincidentalTriplePays | cogs/gambling.py:20-28 | a triple drawn on the losing branch pays too |
| Slots.Stake | cogs/gambling.py:30-40 | `play_slots` takes the bet exactly when `0 < bet <= get_cash`; a taken bet is debited from the member's balance, a refused one changes nothing, and no other balance changes |
| Slots.StakeKeepsBalance | cogs/gambling.py:30-40 | a taken bet never leaves the balance negative, and a non-negative balance stays non-negative either way |
| Blackjack.ReduceSpec | cogs/gambling.py:183-185 | the demotion loop removes 10 per ace, at most once per ace; a result over 21 means every ace was demoted; a demotion happens only from a bust value |
| Blackjack.HandValueBounds | cogs/gambling.py:180-186 | the hand value lies between the all-aces-low and all-aces-high sums and differs from the latter by a multiple of 10; above 21 every ace counts 1 |
| Blackjack.HandValueExamples | cogs/gambling.py:171-186 | [10,10]=20, [A,10]=21, [A,A,9]=21, [K,Q,2]=22 |
| Blackjack.CalculateHandValue | cogs/gambling.py:180-186 | the source's summing pass, ace-counting pass and demotion loop compute the hand value |
| Blackjack.PlayerTurn | cogs/gambling.py:221-238 | the player's hand is the opening hand plus the next cards dealt in order, one per hit. The turn ends at 21 or more, on a stand, or on an unanswered prompt |
| Blackjack.PlayerTurnHits | cogs/gambling.py:233-238 | every prompt answered before the turn ended was a hit |
| Blackjack.PlayerTurnUnder21 | cogs/gambling.py:221 | the player is prompted only while the hand is worth less than 21 |
| Blackjack.DealerTurn | cogs/gambling.py:248-251 | the dealer's hand is its opening hand plus the next cards in order, and ends worth at least 17 |
| Blackjack.DealerTurnDraws | cogs/gambling.py:248-249 | the dealer draws only while the hand is worth less than 17 |
| Blackjack.Settle | cogs/gambling.py:240-264 | the outcome is player bust, dealer bust, dealer higher, player higher or push, each under exactly the source's conditions |
| Blackjack.Play | cogs/gambling.py:192-264 | a bet outside 100..1000 or above the balance is refused with no debit. Otherwise the player gets cards 0,1 and the dealer cards 2,3. The player's hand is the opening two plus one card per hit, dealt from position 4 on. The dealer draws only when the player has not bust, and then from the position where the player stopped. The round settles on the hand values. Only this member's balance changes |
| Blackjack.PlayNetChange | cogs/gambling.py:209-264 | the balance moves by credit minus bet, which is one of -bet, 0 or +bet; it rises exactly on a dealer bust or a higher player hand |
| Blackjack.TimeoutIsStand | cogs/gambling.py:227-238 | a stand plays out exactly like an unanswered prompt, and no reply after a stand is read |
| Blackjack.NaturalSkipsPrompts | cogs/gambling.py:221 | an opening hand worth 21 is never prompted |
| Income.QualifyingRoles | cogs/income.py:66 | the member's role names that are in the weekly table, in order and with repeats; empty exactly when no role qualifies |
| Income.WeeklyAmountAdditive | cogs/income.py:73 | the weekly sum is additive over the role list, and filtering out unlisted roles does not change it |
| Income.WeeklyAmountExamples | cogs/income.py:21-26 | Efflorescent and Vanity Link give 7000; two roles named Bronze Clover give 4000 |
| Income.ClaimIncome | cogs/income.py:39-60 | one claim: without eligibility, nothing. Otherwise it is granted when there was no earlier claim or `period` whole days have passed, and the grant credits and stamps now. A refusal reports the seconds left until `period` days after the last claim and changes nothing |
| Income.Collect | cogs/income.py:29-93 | `collect` runs the daily claim, then the weekly one. The total is the sum granted. Only the member's balance and Income row change: every other member's claim times and Income row are kept, and no Money row appears. A claim kind the member has no role for keeps its stamp |
| Income.CollectWithoutRoles | cogs/income.py:39-67 | a member with no daily and no weekly role gets nothing, and the state is unchanged |
| Income.DailyGate | cogs/income.py:39-60 | a first daily claim grants 500 and stamps now. A later one is granted exactly when a whole day has passed; otherwise it reports the time left and keeps the old stamp |
| Income.WeeklyGate | cogs/income.py:66-90 | a weekly claim is granted exactly when there is no earlier claim or 7 whole days have passed; a refusal keeps the old stamp |
| Income.CollectTwice | cogs/income.py:43-88 | a second `collect` at the same instant grants nothing and changes nothing |
| Shop.BuyItem | cogs/shop.py:155-186 | the purchase looks at the first row matching ignoring case. No match, or a balance below the price, changes nothing |
| Shop.ExactLookupFindsSameItem | cogs/shop.py:164-186 | the exact-name lookup made with the row's own name finds that same row |
| Shop.BuyItemEffect | cogs/shop.py:174-186 | a purchase debits exactly the price and adds one unit of the bought item; nothing else changes, the invariant holds, and a non-negative balance stays non-negative |
| Shop.BuyItemGate | cogs/shop.py:174-183 | a purchase of a matched item goes through exactly when the balance covers its price |
| Shop.ParseItem | cogs/shop.py:101-125 | rejected exactly for a field count other than 4, then a price `int()` refuses, then a consumable flag other than yes or no, ignoring case and space. The role is stripped and lower-cased, and `none` means no role |
| Shop.AddItem | cogs/shop.py:101-128 | a parsed definition becomes exactly one new shop row; a rejected message leaves the shop alone |
| Shop.ParseRender | cogs/shop.py:101-125 | the parser reads back any definition whose name and role are plain, and whose role is lower case and not 'none', from the message that spells it out |
| Shop.GiveItem | cogs/shop.py:200-229 | non-administrators are refused; a missing item name gives nothing; only the inventory can change |
| Shop.GiveItemEffect | cogs/shop.py:202-229 | a grant changes the inventory only for a name in the shop, and then adds exactly one unit to the recipient, defaulting to the author |
| Voice.Trunc | cogs/voiceChat.py:38 | `int()` on a float truncates toward zero |
| Voice.VcXpBounds | cogs/voiceChat.py:38 | a stay of `t >= 0` minutes earns the whole part of `2t` |
| Voice.SplitStayXp | cogs/voiceChat.py:38 | splitting a stay never earns more and loses at most one XP; two quarter-minute stays earn 0 while one half-minute earns 1 |
| Voice.UpdateVcTime | cogs/voiceChat.py:32-53 | an existing row gains the minutes and their XP and is stamped; a missing row is created with just those; nothing else changes |
| Voice.OnVoiceStateUpdate | cogs/voiceChat.py:56-71 | a join records the time, replacing any older entry. A leave with an entry removes it and credits the minutes since. Anything else changes nothing |
| Voice.JoinThenLeave | cogs/voiceChat.py:56-71 | a join then a leave credits exactly the elapsed minutes and their XP, forgets the join, and touches no other member |

## Left out

- Discord I/O is left out: embeds, messages, the log channel, waiting for replies, role lookup and assignment (`give_role`, the role half of `use_item`), and guild permission objects. The administrator check of `giveItem` is a boolean input.
- Randomness is an input. This covers `random.random` and `random.choice` in the spin, the landing slot, and `deal_card`.
- Blackjack cards are ranks only. The suit does not affect any value, and the card text is never parsed apart from its rank.
- Time is an input. The clock is an integer number of seconds. The voice clock (`time.time()`) is a `real`, and the voice stamp (`datetime.now()`) is a separate integer. ISO-format strings are not modelled.
- The daily cooldown decorators on `blackjack`, `roulette` and `slots` are left out, along with which outcomes reset them.
  - Blackjack's two refusals (bet outside 100..1000, too little cash) reset the cooldown (cogs/gambling.py:199, 205).
  - Roulette's refusals, `InvalidSpace` and `InvalidBet`, return normally and use up the day's play (cogs/gambling.py:92-96, 309-312). Only the error handler, which runs on an exception, resets it (cogs/gambling.py:316-320).
  - Every modelled refusal returns the state unchanged either way.
- The rest of the `play_slots` flow is left out. It calls a method that does not exist (cogs/gambling.py:48), and the `slots` command is unbound (cogs/gambling.py:344-345). The spin, the payout, and the bet check with its debit (cogs/gambling.py:30-40, `Slots.Stake`) are modelled.
- Case folding and `isdigit` are ASCII-only in the model. Python's `str.lower` and `str.isdigit` also know non-ASCII letters and digits; SQLite's `LOWER` is ASCII-only.
- `int()` is modelled on ASCII digits, with an optional sign, surrounding whitespace and single underscores between digits.
- Floating point is not modelled. Voice minutes are exact reals, so float rounding of `(now - join) / 60` is not represented.
- The Inventory row that `add_member` inserts with only a MemberId is not modelled (db/dbcalls.py:45). Its ItemId is NULL and its quantity is the column default, so no lookup by item ever reads it.
- Foreign-key enforcement is modelled only for `delete_shop_item` (`Store.DeleteShopItemEnforced`). The Income and Inventory schemas that declare keys (db/database.py:50-74) are created by `create_tables`, which nothing in the code calls. For `delete_shop_item` both schemas are carried; elsewhere the keys are taken as absent. Each table is keyed as the code uses it: one UserActivity, Income and Money row per member, one Inventory row per (member, item).
- Store.UpdateLastClaimTime: with the key `Income.MemberId REFERENCES Members` (db/database.py:55) enforced, the INSERT at db/dbcalls.py:358-361 fails for a member with no Members row, and the call prints and changes nothing. The model inserts the row regardless, so under that schema it assumes the member was added first.
- Store.AddInventoryItem: with the key `Inventory.MemberId REFERENCES Members` (db/database.py:72) enforced, the INSERT at db/dbcalls.py:519-521 fails for a member with no Members row, and nothing changes. The model inserts the row regardless, so under that schema it assumes the member was added first.
- The schema DDL, connection handling, and the separate connection `cogs/voiceChat.py` opens are left out.
- Voice.UpdateVcTime: a newly inserted row's LastMessageTime (the UTC `CURRENT_TIMESTAMP` default) and its LastVCTimestamp (the local `datetime.now()`) both take the one `stamp`; the offset between the two clocks is not modelled.
- Errors raised by SQLite are not modelled, apart from the foreign-key failure of `delete_shop_item`. The other `except sqlite3.Error` branches, which print and roll back, are left out.
- The leaderboard cog (JSON configuration, refresh loop, embeds), the shop pagination, the inventory and shop listings, and the thin wrappers in `cogs/cash.py` and `cogs/general.py` are left out as presentation.
- The message texts are not modelled. This includes the hours/minutes formatting of the time left before the next claim; the model returns the seconds.
- Ranking.TopActivity: ties are broken by the order in which the storage engine scans the table. SQL leaves that order unspecified, so the scan order is a parameter.
- Ranking.TopActivity: the window start is `now - days * 86400` on the same integer clock; SQLite's `DATETIME('now', '-7 days')` string comparison is not modelled.

## Findings

| source | as written | input that shows it | evidently intended | confidence | as-written member | corrected member |
|---|---|---|---|---|---|---|
| db/dbcalls.py:456-484 | The inventory rows of the FIRST item whose name matches ignoring case are deleted, and then EVERY shop row matching ignoring case is deleted. | Shop items 1 "Rose" and 2 "rose", a member holding one unit of item 2, and `delete_shop_item("rose")`. If the Inventory table has no foreign key on ItemId (the code never creates that table; the declared key is only in the uncalled `create_tables`), item 2 leaves the shop but its inventory row stays, pointing at a missing item. If it has the key of db/database.py:73, enforced as db/dbcalls.py:34 asks, the Shop DELETE fails and the call returns False. Both items stay in the shop, and any unit of item 1 the member held is already deleted in the open transaction. | Every deleted item takes its inventory rows with it, so no inventory row references a missing item, and the call succeeds. | not executed | Store.DeleteShopItemAsWritten, Store.DeleteShopItemAsWrittenOrphans, Store.DeleteShopItemEnforced, Store.DeleteShopItemEnforcedRefuses | Store.DeleteShopItem, Store.DeleteShopItemValid |

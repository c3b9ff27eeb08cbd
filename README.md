# Game log analyser — a Dafny model

The analyser reads two game-server logs and reconstructs what every player
owns and earns:

- an inventory log with lines like `[1700000000]ITEM_ADD|7,(42, 3, 17, 1)`;
- a money log with lines like `1700000000|7|MONEY_ADD,500,quest reward`.

It then produces three things:

- a chronologically merged log;
- a report: the ten most mentioned items, the ten richest players, and the
  first and last ten distinct items mentioned;
- answers to an item query: the total held, the number of owners and the ten
  largest holders.

This project models that core and proves what it promises:

- the two tolerant line parsers, which never fail and return an event or
  nothing;
- the mutable `Player` record;
- the replay, which folds both logs into the players, an item histogram and
  the ordered list of item mentions;
- the stable sort of the merged log on (timestamp, rank);
- the selections behind the report and the query.

Modules, in dependency order:

- `Wrappers` (`Option`);
- `Text`: Python's `strip`, `find`, `split` and `int`;
- `Parsers`;
- `Players`;
- `Replay`: the replay as a fold over events, which serves as its
  specification;
- `ReplayRun`: the replay as the program runs it, on mutable `Player`
  objects, proved equal to the fold;
- `Merge`;
- `Ranking`: `sorted(..., reverse=True)[:10]`;
- `Report`.

Points of the code the model follows closely:

- **`update_seen`.** It runs once per parsed event, before the item loop
  (main.py:137), so an inventory event with no item pairs still widens the
  player's seen range.
- **Signed amounts.** Money and item amounts are read with `int()`, which
  accepts a sign, so negative amounts are modelled.
- **Sort stability.** `list.sort` is stable (main.py:184), and
  `Merge.CombinedLog` proves the stable order.

## Model

| member | source | states |
|---|---|---|
| Text.Strip | main.py:69 | `strip()`: no whitespace is left at either end, and a string already trimmed is returned unchanged |
| Text.StripCuts | main.py:69 | `strip()` removes exactly the whitespace at both ends: the result is the slice `s[i..j]` of the input, and every character before `i` and from `j` on is whitespace |
| Text.Find | main.py:75 | `find(',')` is -1 exactly when the character is absent; otherwise it is the index of its first occurrence |
| Text.FindFirst | main.py:75 | `find` stops at the first separator: on `a + c + b` with no `c` in `a` it returns `len(a)` |
| Text.SplitN | main.py:70 | `split(c, n)` yields between 1 and n+1 pieces |
| Text.SplitJoin | main.py:83 | `split(',')` undoes joining separator-free pieces |
| Text.JoinSplit | main.py:83 | `split(',')` loses no character: joining its pieces with the separator gives the input back |
| Text.SplitPiecesFree | main.py:83 | no piece of `split(',')` holds the separator |
| Text.SplitCons | main.py:98 | a full split peels a separator-free first piece off the front |
| Text.ParseIntRoundTrip | main.py:86-87 | `int(str(n)) == n` for every integer, negative ones included |
| Text.ParseIntStripped | main.py:86-87 | `int` strips its own argument, so `int(s.strip())` and `int(s)` agree |
| Text.ParseIntSignSpace | main.py:86-87 | `int()` skips whitespace between the sign and the digits, so `int('- 5') == -5` |
| Text.StripAround | main.py:69-74 | stripping `left + c + right` around a non-space `c` trims `left` only on its left and `right` only on its right |
| Parsers.Unparen | main.py:80-81 | one layer of parentheses is removed exactly when the text starts with `(` and ends with `)`; otherwise the text is unchanged |
| Parsers.ParsePairs | main.py:82-90 | the item loop yields at most half as many pairs as there are tokens |
| Parsers.PairSlotsRange | main.py:84 | `range(0, len(parts) - 1, 2)` yields the index `2k` for exactly the slots `k`: one index per complete pair of tokens, an odd last token left over |
| Parsers.ParsePairsBySlots | main.py:84-90 | the pairs kept are exactly the well-formed slots, in source order; a malformed pair is skipped on its own; an odd last token is ignored |
| Parsers.ParsePairsAll | main.py:84-90 | when every pair of tokens is well-formed, every pair is kept, in order |
| Parsers.ParseInventoryLog | main.py:63-66 | an inventory line is accepted only if it contains both `]` and a bar |
| Parsers.InventoryHeader | main.py:65-69 | the timestamp is the text between the first character and the first `]`; a non-integer there rejects the line; the rest is stripped |
| Parsers.InventoryAction | main.py:69-74 | the action is the text before the first bar, stripped; the rest, stripped, holds the player and the items |
| Parsers.InventoryPlayer | main.py:75-91 | the player id is the text before the first `,`; the items are read from the stripped, unparenthesised rest; a non-integer id rejects the line |
| Parsers.InventoryLineShape | main.py:63-93 | on a line made of a marker character, the timestamp, `]`, the action, a bar, the player, `,` and the items, the result is an event exactly when both numbers read as integers, with the stripped action and the pairs of the unparenthesised item text |
| Parsers.InventoryRejectsNoBar | main.py:69-72 | a line with no bar after its first `]` gives no event |
| Parsers.InventoryRejectsTimestamp | main.py:67-68 | a line whose timestamp text is not an integer gives no event |
| Parsers.InventoryRejectsEmptyTimestamp | main.py:67-68 | a line that starts with `]` has an empty timestamp text, which is no integer, so the line gives no event |
| Parsers.InventoryRejectsNoComma | main.py:75-77 | a line with no `,` after the bar gives no event |
| Parsers.ItemTokensRead | main.py:83-90 | the item list as the log writes it (`42, 3, 17, 1`) reads back as the same pairs |
| Parsers.InventoryRoundTrip | main.py:63-93 | formatting any event whose action has no bar and no surrounding spaces as an inventory line and parsing it gives the event back |
| Parsers.ParseMoneyLog | main.py:96-100 | a money line is accepted only if it has at least three bar-separated fields |
| Parsers.MoneyFields | main.py:98-102 | the first three bar-separated fields of the line are the timestamp, the player and the action text; later fields are ignored |
| Parsers.MoneyAction | main.py:101-107 | the action text is cut at its first two commas only; the reason is the remainder, commas included and not stripped; the line gives an event exactly when the timestamp, player and amount texts all read as integers |
| Parsers.MoneyNoReason | main.py:103-107 | with a single comma there is no third part and the reason is empty; the line gives an event exactly when the timestamp, player and amount texts all read as integers |
| Parsers.MoneyLineShape | main.py:96-109 | on a stripped line of three bar-separated fields followed by any further bar-separated fields, the result is that of the three fields alone |
| Parsers.MoneyStripped | main.py:98 | the parser strips the line itself, so stripping it first changes nothing |
| Parsers.MoneyRejectsMissingAmount | main.py:103-105 | a third field with no `,` has no amount, so the line gives no event |
| Parsers.MoneyRoundTrip | main.py:96-109 | formatting any event whose action and reason fit the grammar as a money line and parsing it gives the event back, reason included |
| Players.Adjust | main.py:24-32 | the quantity of the item moves by the delta; the key is present exactly when the result is positive; every other key is unchanged; a positive inventory stays positive |
| Players.SeenStep | main.py:18-22 | after `update_seen(t)`, both ends are set and `first <= t <= last`; an ordered range stays ordered |
| Players.SeenIsRange | main.py:18-22 | from a never-seen record, `update_seen` over any timestamps leaves `first_seen` at their minimum and `last_seen` at their maximum, and `None` only for no timestamps |
| Players.SeenOrdered | main.py:18-22 | `first_seen <= last_seen` whatever the order of the timestamps |
| Players.Player.constructor | main.py:10-16 | a new player has no money, an empty inventory and no seen times |
| Players.Player.UpdateSeen | main.py:18-22 | only the seen range changes, as `SeenStep` says |
| Players.Player.AddItem | main.py:24-27 | only the inventory changes, by `Adjust` with `+amount`; the positive-inventory invariant is kept |
| Players.Player.RemoveItem | main.py:29-32 | only the inventory changes, by `Adjust` with `-amount`; the positive-inventory invariant is kept |
| Replay.InventoryEvents | main.py:126-131 | each line gives at most one event |
| Replay.MoneyEvents | main.py:149-154 | each line gives at most one event |
| Replay.Touch | main.py:133-137 | afterwards the player exists; the histogram and the mentions are untouched |
| Replay.PairsEffect | main.py:138-145 | the item pairs keep the inventory positive, and an action other than `ITEM_ADD` or `ITEM_REMOVE` leaves it unchanged |
| Replay.ApplyItems | main.py:138-145 | the acting player is still present after the item loop |
| Replay.ApplyMoneyEvent | main.py:153-164 | a money event leaves the histogram and the mentions alone |
| Replay.ReplayMoney | main.py:147-164 | the money pass leaves the histogram and the mentions alone |
| Replay.ReplayInventoryLine | main.py:126-145 | replaying one more inventory line applies its event, if it has one, to the state before it |
| Replay.ReplayMoneyLine | main.py:149-164 | replaying one more money line applies its event, if it has one, to the state before it |
| Replay.ItemStepStats | main.py:139-140 | one item pair adds one mention and one count to the same item, so the histogram keeps agreeing with the mentions |
| Replay.ApplyItemsEffect | main.py:138-145 | the item loop appends exactly the event's mentions, keeps the histogram in agreement with them, and changes only the acting player's inventory |
| Replay.ReplayInventoryStats | main.py:121-145 | the inventory pass appends the mentions of every event in file order and keeps the histogram in agreement |
| Replay.AllMentionsCount | main.py:138-140 | there is one mention per item pair |
| Replay.ReplayStats | main.py:118-145 | after the replay, the mentions are every pair's, in file order, one per pair; `item_stats[item]` is the number of mentions of the item, and an item is a key exactly when it is mentioned |
| Replay.InventoryEventPlayer | main.py:130-145 | an inventory event changes only its own player, which is created if needed, seen at the event time and updated by the pairs |
| Replay.InventoryUntouched | main.py:130-145 | a player with no inventory event keeps its inventory |
| Replay.ReplayInventoryPlayer | main.py:121-145 | after the inventory pass, a player is unchanged if it had no event; otherwise it is created if needed, its seen range covers its timestamps, and its inventory is the result of its own events in order |
| Replay.NetIsAddedMinusRemoved | main.py:161-164 | a player's balance change is the sum of its `MONEY_ADD` amounts minus the sum of its `MONEY_REMOVE` amounts |
| Replay.MoneyUntouched | main.py:153-164 | a player with no money event has no balance change |
| Replay.MoneyEventPlayer | main.py:153-164 | a money event changes only its own player: seen at the event time, balance moved by the signed amount |
| Replay.ReplayMoneyPlayer | main.py:147-164 | the money pass, seen from one player: unchanged without events; otherwise its balance moves by its net amount and its seen range covers its timestamps |
| Replay.ReplayEventsPlayer | main.py:118-164 | over the parsed events, a player exists exactly when it has an event in either log, and then it has the expected name, balance, inventory and seen range |
| Replay.ReplayPlayer | main.py:118-164 | a player exists exactly when one of its lines parses. Then it has: its loaded name or `Player_<id>`; money equal to its credits minus its debits; the inventory its own events build from empty; the seen range of all its timestamps |
| Replay.ReplayPlayerSummary | main.py:118-164 | every stored quantity is positive; `first_seen`/`last_seen` are the min/max of the player's timestamps over both logs |
| Replay.InventoryOtherAction | main.py:138-145 | an inventory event with another action creates the player and widens its seen range, but changes no inventory and no balance |
| Replay.MoneyOtherAction | main.py:161-164 | a money event with another action only creates the player and widens its seen range |
| ReplayRun.Obtain | main.py:134-136 | looks the player up, creating it under its id with the name the naming function gives on first sight; nothing else changes |
| ReplayRun.ApplyPair | main.py:141-144 | one pair changes only the player's inventory: added, removed, or left alone for another action |
| ReplayRun.ApplyPairs | main.py:138-145 | the item loop on the mutable player computes exactly the fold's `ApplyItems` |
| ReplayRun.Touched | main.py:133-137 | obtaining and marking the player seen computes the fold's `Touch` |
| ReplayRun.ApplyInventoryLine | main.py:130-145 | one parsed inventory event on the objects computes the fold's step; other objects are untouched and new ones are fresh |
| ReplayRun.ReadInventory | main.py:126-145 | one raw inventory line (stripped, skipped if blank or malformed) computes the fold's line effect |
| ReplayRun.ReplayInventoryLines | main.py:121-145 | the inventory loop leaves objects whose values are the fold over the inventory log |
| ReplayRun.ApplyMoneyLine | main.py:153-164 | one parsed money event on the objects computes the fold's step |
| ReplayRun.ReadMoney | main.py:149-164 | one raw money line computes the fold's line effect |
| ReplayRun.ReplayMoneyLines | main.py:146-164 | the money loop, starting from the inventory pass's objects, computes the fold over the money log |
| ReplayRun.ReplayLogs | main.py:118-164 | the replay's objects, histogram and mentions are exactly what the fold `Replayed` computes; every object is stored under its own id |
| Merge.InventoryEntry | main.py:172-175 | an inventory entry carries its event's timestamp and rank 0 |
| Merge.MoneyEntry | main.py:181-183 | a money entry carries its event's timestamp and rank 1 |
| Merge.BlankUnparsed | main.py:169-170 | parsing `line.strip()` without skipping blank lines reads the same events as the replay, which skips them |
| Merge.InventoryLineEntry | main.py:170-175 | one inventory line gives one entry when it parses and none otherwise |
| Merge.ReadInventoryEntries | main.py:167-175 | the inventory loop appends the entries of the parsed inventory events, in file order |
| Merge.MoneyLineEntry | main.py:179-183 | one money line gives one entry when it parses and none otherwise |
| Merge.ReadMoneyEntries | main.py:176-183 | the money loop appends the entries of the parsed money events, in file order |
| Merge.CollectEntries | main.py:166-183 | before sorting, the list holds the inventory entries, then the money entries |
| Merge.Sink | main.py:184 | one insertion step extends the sorted prefix by one and keeps every key's run unchanged |
| Merge.SortLog | main.py:184 | the in-place sort leaves the array sorted on (timestamp, rank) and a permutation of what it held; entries with equal keys keep their order |
| Merge.CombinedLog | main.py:166-184 | the combined log holds the entries of both logs, sorted on (timestamp, rank), inventory before money at equal timestamps, and equal keys in file order |
| Merge.RunsPermutation | main.py:184 | lists that agree on every key's run are permutations of each other |
| Merge.SortedRunsUnique | main.py:184 | two sorted lists with the same run for every key are equal, so every stable sort on this key, Python's included, gives the same combined log |
| Ranking.Take | main.py:192 | `s[:n]` has `min(len(s), n)` elements, each the element of `s` at the same index |
| Ranking.SortDescending | main.py:192 | `sorted(..., reverse=True)` puts the highest score first |
| Ranking.SortPermutes | main.py:192 | the sort neither loses nor invents elements |
| Ranking.SortStable | main.py:192 | elements with equal scores keep their original order |
| Ranking.TopSelects | main.py:192 | `sorted(...)[:10]` selects `min(len(s), 10)` elements of `s`, best first, and nothing left out scores more than anything selected |
| Report.DefaultLabelsDistinct | main.py:195 | the default labels `Item <id>` and `str(id)` never give two unnamed items the same label |
| Report.TopItemsSelect | main.py:192-196 | the top-items table has at most ten items, each with its histogram count and none twice, most mentioned first; no item left out is mentioned more often than one listed |
| Report.TopPlayersSelect | main.py:203-207 | the top-players table has at most ten players, none twice, richest first; no player left out has more money than one listed |
| Report.OwnerCount | main.py:256 | there are never more owners than players |
| Report.OwnersExact | main.py:256-258 | the owners are exactly the players holding the item, as many as `owners` counts |
| Report.QueryAgrees | main.py:255-256 | with positive inventories there are never more owners than items held, and `total` is 0 exactly when `owners` is 0 |
| Report.TopHoldersSelect | main.py:257-260 | the query's `top` has at most ten players, each holding the item, largest holding first; no owner left out holds more than one listed |
| Report.FirstIndicesExact | main.py:214-219 | the candidate positions are exactly the first mentions of each id, in increasing order |
| Report.FirstStep | main.py:216-219 | mention i is taken exactly when its id is not yet taken and fewer than ten are |
| Report.FirstItemsSelect | main.py:214-219 | `first_items` has at most ten entries with distinct ids, each the first mention of its id, in source order; no first mention is skipped before the last one taken |
| Report.FirstItemsComplete | main.py:214-219 | with fewer than ten `first_items`, every mentioned id is among them |
| Report.SelectFirstItems | main.py:214-219 | the loop with its `seen` set computes `FirstItems` |
| Report.LastIndicesExact | main.py:229-234 | the candidate positions are exactly the last mentions of each id, in decreasing order |
| Report.LastStep | main.py:231-234 | walking backwards, mention i is taken exactly when its id is not yet taken and fewer than ten are |
| Report.ReverseAt | main.py:235 | `reverse()` reads the list from the end |
| Report.LastItemsSelect | main.py:229-235 | `last_items` has at most ten entries with distinct ids, each the last mention of its id, in source order; no last mention after the first one taken is skipped |
| Report.LastItemsComplete | main.py:229-235 | with fewer than ten `last_items`, every mentioned id is among them |
| Report.SelectLastItems | main.py:229-235 | the backward loop with its `seen` set, followed by the reversal, computes `LastItems` |

## Left out

- Loading player and item names from `db.json` and `items.xml` (main.py:35-60) is file I/O. The names are a `map<int, string>` parameter. The defaults `Player_<id>`, `Item <id>` and `str(id)` are modelled. The fold and the object-based replay are stated for any naming function `int -> string`; `Replay.NameOf` builds the program's one from the names map and the `Player_<id>` default, and `Replay.Replayed`, `Replay.ReplayPlayer` and `ReplayRun.ReplayLogs` use it.
- Reading the log files and writing `combined_log.txt` and `output.txt` are I/O. So are the section headers, the "no data" lines and the line formatting. The model works on the lines of each file as a sequence, and a missing file is an empty sequence.
- The interactive query loop (main.py:246-273) reads from the console: `raw_input`, `exit` and the `ValueError` message are not modelled. Only the numbers computed for one item id are.
- `datetime.fromtimestamp` and `strftime` are not modelled: timestamps are the epoch integers of the logs. Out-of-range values that Python rejects are therefore accepted. Local-time effects (a daylight-saving fall-back makes two epochs map to the same or to reversed local times) do not reorder the model's merge. The merged entries' text leaves out the rendered time prefix.
- Text.ParseInt: models `int()` on a Python 2 byte string: surrounding ASCII whitespace, an optional sign, whitespace after the sign and decimal digits. Unicode input, with its wider whitespace and digit sets, is not modelled.
- Python's dict iteration order for `item_stats.items()` and `players.values()` is not modelled. It is a parameter `order`, a duplicate-free listing of the keys. The report's sorts act on ids ranked by the same key, which gives the same order as sorting the pairs or the player objects, because the sort is stable and each id appears once.
- Merge.SortLog: Python's timsort is replaced by a stable insertion sort. Merge.SortedRunsUnique shows that every stable sort on (timestamp, rank) gives the same list.
- Report.SelectLastItems: `list.reverse()` in place is modelled as the value `Reverse`.
- The counters `inventory_count` and `money_count` (main.py:123, 133, 146, 156) are never read, so they are not modelled.
- Exceptions inside the parsers are modelled as `None`. The `try` blocks catch every exception, so the parsers are total functions.

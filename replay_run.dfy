/**
 * The replay loop of main.py:116-164 as the program runs it: one mutable
 * `Player` object per id, updated in place, an item histogram and a list of
 * mentions, both grown line by line. Each method is proved to compute what
 * the fold in module `Replay` specifies.
 */
module ReplayRun {
  import opened Wrappers
  import opened Text
  import opened Parsers
  import opened Players
  import opened Replay

  /** The value of every player object, by id. */
  ghost function Snapshot(players: map<int, Player>): map<int, PlayerView>
    reads players.Values
  {
    map id | id in players :: players[id].View()
  }

  /**
   * Every object sits under its own id (main.py:133-135 stores `Player(player_id, …)`
   * under `player_id`), so no two ids share one object and updating one
   * player leaves the others alone.
   */
  ghost predicate Keyed(players: map<int, Player>) {
    forall id :: id in players ==> players[id].id == id
  }

  ghost predicate AllValid(players: map<int, Player>)
    reads players.Values
  {
    forall id :: id in players ==> players[id].Valid()
  }

  /** Look the player up, creating it with its loaded or default name on first sight (main.py:133-135). */
  method Obtain(players: map<int, Player>, nameOf: int -> string, id: int) returns (newPlayers: map<int, Player>, p: Player)
    requires Keyed(players) && AllValid(players)
    ensures Keyed(newPlayers) && AllValid(newPlayers)
    ensures id in newPlayers && p == newPlayers[id]
    ensures id in players ==> newPlayers == players
    ensures id !in players ==> fresh(p) && newPlayers == players[id := p]
    ensures Snapshot(newPlayers) == Snapshot(players)[id := Base(ReplayState(Snapshot(players), map[], []), nameOf, id)]
  {
    if id in players {
      p := players[id];
      newPlayers := players;
    } else {
      p := new Player(id, nameOf(id));
      newPlayers := players[id := p];
    }
  }

  /** The body of the item loop for the acting player (main.py:142-145). */
  method ApplyPair(p: Player, action: string, pair: ItemPair)
    requires p.Valid()
    modifies p
    ensures p.Valid()
    ensures p.View() == old(p.View()).(inventory := PairEffect(old(p.inventory), action, pair))
  {
    if action == "ITEM_ADD" {
      p.AddItem(pair.item, pair.amount);
    } else if action == "ITEM_REMOVE" {
      p.RemoveItem(pair.item, pair.amount);
    }
  }

  /** One parsed inventory line (main.py:130-145): create, mark seen, then walk the item pairs. */
  method ApplyInventoryLine(players: map<int, Player>, itemStats: map<int, int>, mentions: seq<Mention>,
                            nameOf: int -> string, e: InventoryEvent)
    returns (newPlayers: map<int, Player>, newStats: map<int, int>, newMentions: seq<Mention>)
    requires Keyed(players) && AllValid(players)
    modifies players.Values
    ensures Keyed(newPlayers) && AllValid(newPlayers)
    ensures fresh(newPlayers.Values - players.Values)
    ensures ReplayState(Snapshot(newPlayers), newStats, newMentions) ==
      ApplyInventoryEvent(ReplayState(old(Snapshot(players)), itemStats, mentions), nameOf, e)
  {
    var p;
    newPlayers, p := Touched(players, itemStats, mentions, nameOf, e.player, e.ts);
    newStats, newMentions := ApplyPairs(newPlayers, p, itemStats, mentions, e.player, e.action, e.ts, e.items);
  }

  /** The item loop of main.py:138-145 for the acting player `p`, stored under `id`. */
  method ApplyPairs(players: map<int, Player>, p: Player, itemStats: map<int, int>, mentions: seq<Mention>,
                    id: int, action: string, ts: int, items: seq<ItemPair>)
    returns (newStats: map<int, int>, newMentions: seq<Mention>)
    requires Keyed(players) && AllValid(players) && id in players && p == players[id]
    modifies p
    ensures AllValid(players)
    ensures ReplayState(Snapshot(players), newStats, newMentions) ==
      ApplyItems(ReplayState(old(Snapshot(players)), itemStats, mentions), id, action, ts, items)
  {
    ghost var start := ReplayState(Snapshot(players), itemStats, mentions);
    newStats, newMentions := itemStats, mentions;
    var j := 0;
    while j < |items|
      invariant 0 <= j <= |items|
      invariant AllValid(players)
      invariant ReplayState(Snapshot(players), newStats, newMentions) == ApplyItems(start, id, action, ts, items[..j])
    {
      var pair := items[j];
      ghost var before, stats0, mentions0 := Snapshot(players), newStats, newMentions;
      assert before[id] == p.View();
      newStats := newStats[pair.item := Get(newStats, pair.item) + 1];
      newMentions := newMentions + [Mention(pair.item, ts)];
      ApplyPair(p, action, pair);
      SnapshotUpdate(players, id, before);
      ItemStepIs(before, stats0, mentions0, p.View(), id, action, ts, pair);
      ApplyItemsSnoc(start, id, action, ts, items, j);
      j := j + 1;
    }
    assert items[..j] == items;
  }

  /** Obtain the player and call `update_seen` on it (main.py:133-137, 156-160). */
  method Touched(players: map<int, Player>, ghost itemStats: map<int, int>, ghost mentions: seq<Mention>,
                 nameOf: int -> string, id: int, ts: int)
    returns (newPlayers: map<int, Player>, p: Player)
    requires Keyed(players) && AllValid(players)
    modifies players.Values
    ensures Keyed(newPlayers) && AllValid(newPlayers)
    ensures id in newPlayers && p == newPlayers[id]
    ensures fresh(newPlayers.Values - players.Values)
    ensures ReplayState(Snapshot(newPlayers), itemStats, mentions) ==
      Touch(ReplayState(old(Snapshot(players)), itemStats, mentions), nameOf, id, ts)
  {
    ghost var before := Snapshot(players);
    newPlayers, p := Obtain(players, nameOf, id);
    ghost var created := Snapshot(newPlayers);
    assert created[id] == p.View();
    p.UpdateSeen(ts);
    SnapshotUpdate(newPlayers, id, created);
    TouchIsSeen(before, created, p.View(), itemStats, mentions, nameOf, id, ts);
  }

  /** `Touch` creates the record if needed, then widens its seen range. */
  lemma TouchIsSeen(before: map<int, PlayerView>, created: map<int, PlayerView>, v: PlayerView,
                    itemStats: map<int, int>, mentions: seq<Mention>, nameOf: int -> string, id: int, ts: int)
    requires created == before[id := Base(ReplayState(before, map[], []), nameOf, id)]
    requires v == created[id].(seen := SeenStep(created[id].seen, ts))
    ensures ReplayState(created[id := v], itemStats, mentions) ==
      Touch(ReplayState(before, itemStats, mentions), nameOf, id, ts)
  {
    assert created[id := v] == before[id := v];
  }

  /** One parsed money line (main.py:153-164): create, mark seen, move the balance. */
  method ApplyMoneyLine(players: map<int, Player>, ghost itemStats: map<int, int>, ghost mentions: seq<Mention>,
                        nameOf: int -> string, e: MoneyEvent)
    returns (newPlayers: map<int, Player>)
    requires Keyed(players) && AllValid(players)
    modifies players.Values
    ensures Keyed(newPlayers) && AllValid(newPlayers)
    ensures fresh(newPlayers.Values - players.Values)
    ensures ReplayState(Snapshot(newPlayers), itemStats, mentions) ==
      ApplyMoneyEvent(ReplayState(old(Snapshot(players)), itemStats, mentions), nameOf, e)
  {
    ghost var before := Snapshot(players);
    var p;
    newPlayers, p := Touched(players, itemStats, mentions, nameOf, e.player, e.ts);
    ghost var touched := Snapshot(newPlayers);
    assert touched[e.player] == p.View();
    if e.action == "MONEY_ADD" {
      p.money := p.money + e.amount;
    } else if e.action == "MONEY_REMOVE" {
      p.money := p.money - e.amount;
    }
    assert p.View() == touched[e.player].(money := touched[e.player].money + MoneyDelta(e));
    SnapshotUpdate(newPlayers, e.player, touched);
    MoneyIsCredit(before, touched, p.View(), itemStats, mentions, nameOf, e);
  }

  /** `ItemStep` counts the mention, records it and applies the pair to the acting player. */
  lemma ItemStepIs(players: map<int, PlayerView>, itemStats: map<int, int>, mentions: seq<Mention>, v: PlayerView,
                   id: int, action: string, ts: int, pair: ItemPair)
    requires id in players
    requires v == players[id].(inventory := PairEffect(players[id].inventory, action, pair))
    ensures ReplayState(players[id := v], itemStats[pair.item := Get(itemStats, pair.item) + 1],
                        mentions + [Mention(pair.item, ts)]) == ItemStep(ReplayState(players, itemStats, mentions), id, action, ts, pair)
  {
  }

  /** `ApplyMoneyEvent` is `Touch` followed by a move of the balance. */
  lemma MoneyIsCredit(before: map<int, PlayerView>, touched: map<int, PlayerView>, v: PlayerView,
                      itemStats: map<int, int>, mentions: seq<Mention>, nameOf: int -> string, e: MoneyEvent)
    requires ReplayState(touched, itemStats, mentions) == Touch(ReplayState(before, itemStats, mentions), nameOf, e.player, e.ts)
    requires v == touched[e.player].(money := touched[e.player].money + MoneyDelta(e))
    ensures ReplayState(touched[e.player := v], itemStats, mentions) ==
      ApplyMoneyEvent(ReplayState(before, itemStats, mentions), nameOf, e)
  {
  }

  /**
   * The replay of main.py:116-164: the inventory log line by line, then the
   * money log line by line. The resulting objects hold exactly the players
   * the fold `Replayed` computes, and the histogram and the mentions are the
   * fold's too.
   */
  method ReplayLogs(inventoryLines: seq<string>, moneyLines: seq<string>, names: map<int, string>)
    returns (players: map<int, Player>, itemStats: map<int, int>, mentions: seq<Mention>)
    ensures Keyed(players) && AllValid(players)
    ensures fresh(players.Values)
    ensures ReplayState(Snapshot(players), itemStats, mentions) == Replayed(inventoryLines, moneyLines, names)
  {
    var nameOf := NameOf(names);
    players, itemStats, mentions := ReplayInventoryLines(inventoryLines, nameOf);
    ghost var mid := ReplayState(Snapshot(players), itemStats, mentions);
    assert mid == ReplayInventory(Start, nameOf, InventoryEvents(inventoryLines));
    players := ReplayMoneyLines(players, itemStats, mentions, moneyLines, nameOf);
    assert ReplayState(Snapshot(players), itemStats, mentions) == ReplayMoney(mid, nameOf, MoneyEvents(moneyLines));
  }

  /** The inventory pass (main.py:121-145): every line of the log in order. */
  method ReplayInventoryLines(lines: seq<string>, nameOf: int -> string)
    returns (players: map<int, Player>, itemStats: map<int, int>, mentions: seq<Mention>)
    ensures Keyed(players) && AllValid(players)
    ensures fresh(players.Values)
    ensures ReplayState(Snapshot(players), itemStats, mentions) == ReplayInventory(Start, nameOf, InventoryEvents(lines))
  {
    players, itemStats, mentions := map[], map[], [];
    var i := 0;
    while i < |lines|
      invariant 0 <= i <= |lines|
      invariant Keyed(players) && AllValid(players)
      invariant fresh(players.Values)
      invariant ReplayState(Snapshot(players), itemStats, mentions) == ReplayInventory(Start, nameOf, InventoryEvents(lines[..i]))
    {
      ReplayInventoryLine(Start, nameOf, lines, i);
      players, itemStats, mentions := ReadInventory(players, itemStats, mentions, nameOf, lines[i]);
      i := i + 1;
    }
    assert lines[..i] == lines;
  }

  /** One raw line of the inventory log (main.py:125-145): strip it, skip it if blank or malformed, apply it otherwise. */
  method ReadInventory(players: map<int, Player>, itemStats: map<int, int>, mentions: seq<Mention>,
                       nameOf: int -> string, raw: string)
    returns (newPlayers: map<int, Player>, newStats: map<int, int>, newMentions: seq<Mention>)
    requires Keyed(players) && AllValid(players)
    modifies players.Values
    ensures Keyed(newPlayers) && AllValid(newPlayers)
    ensures fresh(newPlayers.Values - players.Values)
    ensures ReplayState(Snapshot(newPlayers), newStats, newMentions) ==
      InventoryLineEffect(ReplayState(old(Snapshot(players)), itemStats, mentions), nameOf, raw)
  {
    newPlayers, newStats, newMentions := players, itemStats, mentions;
    var line := Strip(raw);
    if line != [] {
      var parsed := ParseInventoryLog(line);
      if parsed.Some? {
        newPlayers, newStats, newMentions := ApplyInventoryLine(players, itemStats, mentions, nameOf, parsed.value);
      }
    }
  }

  /** The money pass (main.py:147-164), on the players the inventory pass left. */
  method ReplayMoneyLines(players: map<int, Player>, ghost itemStats: map<int, int>, ghost mentions: seq<Mention>,
                          lines: seq<string>, nameOf: int -> string)
    returns (newPlayers: map<int, Player>)
    requires Keyed(players) && AllValid(players)
    modifies players.Values
    ensures Keyed(newPlayers) && AllValid(newPlayers)
    ensures fresh(newPlayers.Values - players.Values)
    ensures ReplayState(Snapshot(newPlayers), itemStats, mentions) ==
      ReplayMoney(ReplayState(old(Snapshot(players)), itemStats, mentions), nameOf, MoneyEvents(lines))
  {
    ghost var start := ReplayState(Snapshot(players), itemStats, mentions);
    newPlayers := players;
    var i := 0;
    while i < |lines|
      invariant 0 <= i <= |lines|
      invariant Keyed(newPlayers) && AllValid(newPlayers)
      invariant fresh(newPlayers.Values - players.Values)
      invariant ReplayState(Snapshot(newPlayers), itemStats, mentions) == ReplayMoney(start, nameOf, MoneyEvents(lines[..i]))
    {
      ReplayMoneyLine(start, nameOf, lines, i);
      newPlayers := ReadMoney(newPlayers, itemStats, mentions, nameOf, lines[i]);
      i := i + 1;
    }
    assert lines[..i] == lines;
  }

  /** One raw line of the money log (main.py:150-164), read like an inventory line. */
  method ReadMoney(players: map<int, Player>, ghost itemStats: map<int, int>, ghost mentions: seq<Mention>,
                   nameOf: int -> string, raw: string)
    returns (newPlayers: map<int, Player>)
    requires Keyed(players) && AllValid(players)
    modifies players.Values
    ensures Keyed(newPlayers) && AllValid(newPlayers)
    ensures fresh(newPlayers.Values - players.Values)
    ensures ReplayState(Snapshot(newPlayers), itemStats, mentions) ==
      MoneyLineEffect(ReplayState(old(Snapshot(players)), itemStats, mentions), nameOf, raw)
  {
    newPlayers := players;
    var line := Strip(raw);
    if line != [] {
      var parsed := ParseMoneyLog(line);
      if parsed.Some? {
        newPlayers := ApplyMoneyLine(players, itemStats, mentions, nameOf, parsed.value);
      }
    }
  }

  /** After a change to the object of `id` alone, the snapshot changes at `id` alone. */
  lemma SnapshotUpdate(players: map<int, Player>, id: int, before: map<int, PlayerView>)
    requires Keyed(players) && id in players
    requires before.Keys == players.Keys
    requires forall k :: k in players && k != id ==> before[k] == players[k].View()
    ensures Snapshot(players) == before[id := players[id].View()]
  {
    var after := before[id := players[id].View()];
    assert Snapshot(players).Keys == after.Keys;
    forall k | k in players
      ensures Snapshot(players)[k] == after[k]
    {
    }
  }
}

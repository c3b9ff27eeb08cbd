/**
 * The replay of main.py:116-164 as a fold over parsed events: the inventory
 * log first, then the money log, into a map of players, an item histogram
 * and the ordered list of item mentions. This module is the specification;
 * the method that runs the replay on mutable `Player` objects is in module
 * `ReplayRun`.
 */
module Replay {
  import opened Wrappers
  import opened Text
  import opened Parsers
  import opened Players

  /** One entry of the list of item mentions: an item id and the timestamp of the event naming it. */
  datatype Mention = Mention(item: int, ts: int)

  /** The three accumulators of the replay: players by id, mentions per item id, all mentions in order. */
  datatype ReplayState = ReplayState(players: map<int, PlayerView>, itemStats: map<int, int>, mentions: seq<Mention>)

  const Start := ReplayState(map[], map[], [])

  /** The name a player is created with: the loaded name, or `Player_<id>` (main.py:134-135). */
  function PlayerName(names: map<int, string>, id: int): string {
    if id in names then names[id] else "Player_" + IntToString(id)
  }

  /**
   * `PlayerName` as a naming function. The replay is stated for any naming
   * function, so that its proofs never look inside the default name.
   */
  function NameOf(names: map<int, string>): int -> string {
    (id: int) => PlayerName(names, id)
  }

  // ---------------------------------------------------------------------------
  // Log files to events
  // ---------------------------------------------------------------------------

  /** One raw inventory line (main.py:125-129): stripped, and no event when it is blank or does not parse. */
  function ReadInventoryLine(raw: string): Option<InventoryEvent> {
    var line := Strip(raw);
    if line == [] then None else ParseInventoryLog(line)
  }

  /** One raw money line (main.py:150-152), read the same way. */
  function ReadMoneyLine(raw: string): Option<MoneyEvent> {
    var line := Strip(raw);
    if line == [] then None else ParseMoneyLog(line)
  }

  /** The events of an inventory log: each line stripped, blank lines skipped, unparsable lines dropped. */
  function InventoryEvents(lines: seq<string>): (r: seq<InventoryEvent>)
    ensures |r| <= |lines|
  {
    if lines == [] then []
    else
      var events := InventoryEvents(lines[..|lines| - 1]);
      match ReadInventoryLine(lines[|lines| - 1])
      case Some(e) => events + [e]
      case None => events
  }

  /** The events of a money log, read the same way. */
  function MoneyEvents(lines: seq<string>): (r: seq<MoneyEvent>)
    ensures |r| <= |lines|
  {
    if lines == [] then []
    else
      var events := MoneyEvents(lines[..|lines| - 1]);
      match ReadMoneyLine(lines[|lines| - 1])
      case Some(e) => events + [e]
      case None => events
  }

  // ---------------------------------------------------------------------------
  // One inventory event
  // ---------------------------------------------------------------------------

  /** What one item pair does to the acting player's inventory: add, remove, or nothing for another action. */
  function PairEffect(inventory: map<int, int>, action: string, pair: ItemPair): map<int, int> {
    if action == "ITEM_ADD" then Adjust(inventory, pair.item, pair.amount)
    else if action == "ITEM_REMOVE" then Adjust(inventory, pair.item, -pair.amount)
    else inventory
  }

  /** The item pairs of one event applied in order. Inventories stay positive; other actions leave them alone. */
  function PairsEffect(inventory: map<int, int>, action: string, items: seq<ItemPair>): (r: map<int, int>)
    ensures Positive(inventory) ==> Positive(r)
    ensures action != "ITEM_ADD" && action != "ITEM_REMOVE" ==> r == inventory
    decreases |items|
  {
    if items == [] then inventory
    else PairEffect(PairsEffect(inventory, action, items[..|items| - 1]), action, items[|items| - 1])
  }

  /** The mentions one event contributes: one per item pair, in order, stamped with the event time. */
  function MentionsOf(ts: int, items: seq<ItemPair>): seq<Mention> {
    seq(|items|, k requires 0 <= k < |items| => Mention(items[k].item, ts))
  }

  /** The number of mentions of `item`. */
  function Occurrences(mentions: seq<Mention>, item: int): nat {
    if mentions == [] then 0
    else Occurrences(mentions[..|mentions| - 1], item) + if mentions[|mentions| - 1].item == item then 1 else 0
  }

  /** The histogram agrees with the mention list: every key counts its mentions, and no key counts zero. */
  ghost predicate StatsAgree(s: ReplayState) {
    Positive(s.itemStats) && forall item :: Get(s.itemStats, item) == Occurrences(s.mentions, item)
  }

  /** Create the player on first sight, then widen its seen range (main.py:133-137). */
  function Touch(s: ReplayState, nameOf: int -> string, id: int, ts: int): (r: ReplayState)
    ensures id in r.players
    ensures r.itemStats == s.itemStats && r.mentions == s.mentions
  {
    var p := if id in s.players then s.players[id] else NewPlayer(id, nameOf(id));
    s.(players := s.players[id := p.(seen := SeenStep(p.seen, ts))])
  }

  /** One iteration of the item loop (main.py:138-145). */
  function ItemStep(s: ReplayState, id: int, action: string, ts: int, pair: ItemPair): ReplayState
    requires id in s.players
  {
    var p := s.players[id];
    ReplayState(
      s.players[id := p.(inventory := PairEffect(p.inventory, action, pair))],
      s.itemStats[pair.item := Get(s.itemStats, pair.item) + 1],
      s.mentions + [Mention(pair.item, ts)])
  }

  /** The item loop over all pairs of one event. */
  function ApplyItems(s: ReplayState, id: int, action: string, ts: int, items: seq<ItemPair>): (r: ReplayState)
    requires id in s.players
    ensures id in r.players
    decreases |items|
  {
    if items == [] then s
    else ItemStep(ApplyItems(s, id, action, ts, items[..|items| - 1]), id, action, ts, items[|items| - 1])
  }

  /** One parsed inventory event (main.py:130-145). */
  function ApplyInventoryEvent(s: ReplayState, nameOf: int -> string, e: InventoryEvent): ReplayState {
    ApplyItems(Touch(s, nameOf, e.player, e.ts), e.player, e.action, e.ts, e.items)
  }

  /** The inventory pass: every event in file order. */
  function ReplayInventory(s: ReplayState, nameOf: int -> string, events: seq<InventoryEvent>): ReplayState
    decreases |events|
  {
    if events == [] then s
    else ApplyInventoryEvent(ReplayInventory(s, nameOf, events[..|events| - 1]), nameOf, events[|events| - 1])
  }

  // ---------------------------------------------------------------------------
  // One money event
  // ---------------------------------------------------------------------------

  /** The signed effect of one money event on the balance: credit, debit, or nothing for another action. */
  function MoneyDelta(e: MoneyEvent): int {
    if e.action == "MONEY_ADD" then e.amount
    else if e.action == "MONEY_REMOVE" then -e.amount
    else 0
  }

  /** One parsed money event (main.py:153-164). */
  function ApplyMoneyEvent(s: ReplayState, nameOf: int -> string, e: MoneyEvent): (r: ReplayState)
    ensures r.itemStats == s.itemStats && r.mentions == s.mentions
  {
    var t := Touch(s, nameOf, e.player, e.ts);
    var p := t.players[e.player];
    t.(players := t.players[e.player := p.(money := p.money + MoneyDelta(e))])
  }

  /** The money pass: every event in file order. It leaves the histogram and the mentions alone. */
  function ReplayMoney(s: ReplayState, nameOf: int -> string, events: seq<MoneyEvent>): (r: ReplayState)
    ensures r.itemStats == s.itemStats && r.mentions == s.mentions
    decreases |events|
  {
    if events == [] then s
    else ApplyMoneyEvent(ReplayMoney(s, nameOf, events[..|events| - 1]), nameOf, events[|events| - 1])
  }

  /** The effect of one raw inventory line: its event applied, or nothing when it has none. */
  function InventoryLineEffect(s: ReplayState, nameOf: int -> string, raw: string): ReplayState {
    match ReadInventoryLine(raw)
    case Some(e) => ApplyInventoryEvent(s, nameOf, e)
    case None => s
  }

  /** The effect of one raw money line. */
  function MoneyLineEffect(s: ReplayState, nameOf: int -> string, raw: string): ReplayState {
    match ReadMoneyLine(raw)
    case Some(e) => ApplyMoneyEvent(s, nameOf, e)
    case None => s
  }

  /** Replaying the events of one more line is applying that line to the replay of the lines before it. */
  lemma ReplayInventoryLine(s: ReplayState, nameOf: int -> string, lines: seq<string>, i: nat)
    requires i < |lines|
    ensures ReplayInventory(s, nameOf, InventoryEvents(lines[..i + 1])) ==
      InventoryLineEffect(ReplayInventory(s, nameOf, InventoryEvents(lines[..i])), nameOf, lines[i])
  {
    assert lines[..i + 1][..i] == lines[..i];
    var events := InventoryEvents(lines[..i]);
    match ReadInventoryLine(lines[i])
    case Some(e) =>
      assert InventoryEvents(lines[..i + 1]) == events + [e];
      assert (events + [e])[..|events|] == events;
    case None =>
  }

  lemma ReplayMoneyLine(s: ReplayState, nameOf: int -> string, lines: seq<string>, i: nat)
    requires i < |lines|
    ensures ReplayMoney(s, nameOf, MoneyEvents(lines[..i + 1])) ==
      MoneyLineEffect(ReplayMoney(s, nameOf, MoneyEvents(lines[..i])), nameOf, lines[i])
  {
    assert lines[..i + 1][..i] == lines[..i];
    var events := MoneyEvents(lines[..i]);
    match ReadMoneyLine(lines[i])
    case Some(e) =>
      assert MoneyEvents(lines[..i + 1]) == events + [e];
      assert (events + [e])[..|events|] == events;
    case None =>
  }

  /** The whole replay: the inventory log, then the money log. */
  function Replayed(inventoryLines: seq<string>, moneyLines: seq<string>, names: map<int, string>): ReplayState {
    ReplayMoney(ReplayInventory(Start, NameOf(names), InventoryEvents(inventoryLines)), NameOf(names), MoneyEvents(moneyLines))
  }

  // ---------------------------------------------------------------------------
  // Per-player reference definitions
  // ---------------------------------------------------------------------------

  /** The timestamps of the inventory events of player `id`, in file order. */
  function InventoryTimes(events: seq<InventoryEvent>, id: int): seq<int> {
    if events == [] then []
    else
      var e := events[|events| - 1];
      InventoryTimes(events[..|events| - 1], id) + if e.player == id then [e.ts] else []
  }

  /** The timestamps of the money events of player `id`, in file order. */
  function MoneyTimes(events: seq<MoneyEvent>, id: int): seq<int> {
    if events == [] then []
    else
      var e := events[|events| - 1];
      MoneyTimes(events[..|events| - 1], id) + if e.player == id then [e.ts] else []
  }

  /** The inventory of player `id` after its own events, starting from `inventory`. */
  function InventoryAfter(inventory: map<int, int>, events: seq<InventoryEvent>, id: int): (r: map<int, int>)
    ensures Positive(inventory) ==> Positive(r)
  {
    if events == [] then inventory
    else
      var e := events[|events| - 1];
      var before := InventoryAfter(inventory, events[..|events| - 1], id);
      if e.player == id then PairsEffect(before, e.action, e.items) else before
  }

  /** The amount one event credits to player `id`. */
  function Credit(e: MoneyEvent, id: int): int {
    if e.player == id && e.action == "MONEY_ADD" then e.amount else 0
  }

  /** The amount one event debits from player `id`. */
  function Debit(e: MoneyEvent, id: int): int {
    if e.player == id && e.action == "MONEY_REMOVE" then e.amount else 0
  }

  /** The balance change of player `id` over `events`, event by event as the replay applies them. */
  function MoneyNet(events: seq<MoneyEvent>, id: int): int {
    if events == [] then 0
    else
      var e := events[|events| - 1];
      MoneyNet(events[..|events| - 1], id) + if e.player == id then MoneyDelta(e) else 0
  }

  /** The sum of the amounts of the `MONEY_ADD` events of player `id`. */
  function MoneyAdded(events: seq<MoneyEvent>, id: int): int {
    if events == [] then 0
    else MoneyAdded(events[..|events| - 1], id) + Credit(events[|events| - 1], id)
  }

  /** The sum of the amounts of the `MONEY_REMOVE` events of player `id`. */
  function MoneyRemoved(events: seq<MoneyEvent>, id: int): int {
    if events == [] then 0
    else MoneyRemoved(events[..|events| - 1], id) + Debit(events[|events| - 1], id)
  }

  /** Every mention of every event, flattened in file order. */
  function AllMentions(events: seq<InventoryEvent>): seq<Mention> {
    if events == [] then []
    else
      var e := events[|events| - 1];
      AllMentions(events[..|events| - 1]) + MentionsOf(e.ts, e.items)
  }

  /** The total number of item pairs over all events. */
  function PairCount(events: seq<InventoryEvent>): nat {
    if events == [] then 0 else PairCount(events[..|events| - 1]) + |events[|events| - 1].items|
  }

  /** The player `id` as the state holds it, if any. */
  function Lookup(s: ReplayState, id: int): Option<PlayerView> {
    if id in s.players then Some(s.players[id]) else None
  }

  /** The record the next event of `id` starts from: the stored one, or a fresh one. */
  function Base(s: ReplayState, nameOf: int -> string, id: int): PlayerView {
    if id in s.players then s.players[id] else NewPlayer(id, nameOf(id))
  }

  // ---------------------------------------------------------------------------
  // Lemmas: histogram and mentions
  // ---------------------------------------------------------------------------

  lemma {:induction false} OccurrencesAppend(a: seq<Mention>, b: seq<Mention>, item: int)
    ensures Occurrences(a + b, item) == Occurrences(a, item) + Occurrences(b, item)
    decreases |b|
  {
    if b != [] {
      var b' := b[..|b| - 1];
      OccurrencesAppend(a, b', item);
      assert (a + b)[..|a + b| - 1] == a + b';
    } else {
      assert a + b == a;
    }
  }

  /** One item pair keeps the histogram in agreement with the mentions, and appends one mention. */
  lemma ItemStepStats(s: ReplayState, id: int, action: string, ts: int, pair: ItemPair)
    requires id in s.players && StatsAgree(s)
    ensures StatsAgree(ItemStep(s, id, action, ts, pair))
  {
    var r := ItemStep(s, id, action, ts, pair);
    forall item
      ensures Get(r.itemStats, item) == Occurrences(r.mentions, item)
    {
      OccurrencesAppend(s.mentions, [Mention(pair.item, ts)], item);
      assert [Mention(pair.item, ts)][..0] == [];
    }
  }

  /** One more pair is one more `ItemStep`. */
  lemma ApplyItemsSnoc(s: ReplayState, id: int, action: string, ts: int, items: seq<ItemPair>, j: nat)
    requires id in s.players && j < |items|
    ensures ApplyItems(s, id, action, ts, items[..j + 1]) ==
      ItemStep(ApplyItems(s, id, action, ts, items[..j]), id, action, ts, items[j])
  {
    assert items[..j + 1][..j] == items[..j];
  }

  /**
   * The item loop of one event appends exactly that event's mentions, keeps the
   * histogram in agreement with them, and changes only the acting player's inventory.
   */
  lemma {:induction false} ApplyItemsEffect(s: ReplayState, id: int, action: string, ts: int, items: seq<ItemPair>)
    requires id in s.players
    ensures var r := ApplyItems(s, id, action, ts, items);
      r.mentions == s.mentions + MentionsOf(ts, items) &&
      (StatsAgree(s) ==> StatsAgree(r)) &&
      r.players == s.players[id := s.players[id].(inventory := PairsEffect(s.players[id].inventory, action, items))]
    decreases |items|
  {
    if items != [] {
      var init := items[..|items| - 1];
      ApplyItemsEffect(s, id, action, ts, init);
      var r' := ApplyItems(s, id, action, ts, init);
      if StatsAgree(s) {
        ItemStepStats(r', id, action, ts, items[|items| - 1]);
      }
      assert MentionsOf(ts, items) == MentionsOf(ts, init) + [Mention(items[|items| - 1].item, ts)];
    }
  }

  lemma {:induction false} ReplayInventoryStats(s: ReplayState, nameOf: int -> string, events: seq<InventoryEvent>)
    requires StatsAgree(s)
    ensures var r := ReplayInventory(s, nameOf, events);
      StatsAgree(r) && r.mentions == s.mentions + AllMentions(events)
    decreases |events|
  {
    if events != [] {
      var e := events[|events| - 1];
      ReplayInventoryStats(s, nameOf, events[..|events| - 1]);
      var t := Touch(ReplayInventory(s, nameOf, events[..|events| - 1]), nameOf, e.player, e.ts);
      ApplyItemsEffect(t, e.player, e.action, e.ts, e.items);
    }
  }

  lemma {:induction false} AllMentionsCount(events: seq<InventoryEvent>)
    ensures |AllMentions(events)| == PairCount(events)
    decreases |events|
  {
    if events != [] {
      AllMentionsCount(events[..|events| - 1]);
    }
  }

  /**
   * After the replay, the mentions are those of every item pair of the
   * inventory log in file order, one per pair, and the histogram counts them:
   * `item_stats[item]` is the number of mentions of `item`, and an item is a
   * key exactly when it is mentioned.
   */
  lemma ReplayStats(inventoryLines: seq<string>, moneyLines: seq<string>, names: map<int, string>)
    ensures var r := Replayed(inventoryLines, moneyLines, names);
      var events := InventoryEvents(inventoryLines);
      r.mentions == AllMentions(events) &&
      |r.mentions| == PairCount(events) &&
      Positive(r.itemStats) &&
      forall item :: Get(r.itemStats, item) == Occurrences(r.mentions, item)
  {
    var events := InventoryEvents(inventoryLines);
    ReplayInventoryStats(Start, NameOf(names), events);
    AllMentionsCount(events);
  }

  // ---------------------------------------------------------------------------
  // Lemmas: the players
  // ---------------------------------------------------------------------------

  lemma {:induction false} SeenAfterAppend(seen: SeenRange, a: seq<int>, b: seq<int>)
    ensures SeenAfter(seen, a + b) == SeenAfter(SeenAfter(seen, a), b)
    decreases |b|
  {
    if b != [] {
      SeenAfterAppend(seen, a, b[..|b| - 1]);
      assert (a + b)[..|a + b| - 1] == a + b[..|b| - 1];
    } else {
      assert a + b == a;
    }
  }

  lemma SeenAfterSnoc(seen: SeenRange, a: seq<int>, t: int)
    ensures SeenAfter(seen, a + [t]) == SeenStep(SeenAfter(seen, a), t)
  {
    assert (a + [t])[..|a|] == a;
  }

  /** A player with no inventory event keeps its inventory. */
  lemma {:induction false} InventoryUntouched(inventory: map<int, int>, events: seq<InventoryEvent>, id: int)
    requires InventoryTimes(events, id) == []
    ensures InventoryAfter(inventory, events, id) == inventory
    decreases |events|
  {
    if events != [] {
      InventoryUntouched(inventory, events[..|events| - 1], id);
    }
  }

  /** A player with no money event has neither credits nor debits. */
  lemma {:induction false} MoneyUntouched(events: seq<MoneyEvent>, id: int)
    requires MoneyTimes(events, id) == []
    ensures MoneyNet(events, id) == 0
    decreases |events|
  {
    if events != [] {
      MoneyUntouched(events[..|events| - 1], id);
    }
  }

  /** One inventory event changes only its own player: seen range widened, then the pairs applied. */
  lemma InventoryEventPlayer(s: ReplayState, nameOf: int -> string, e: InventoryEvent, id: int)
    ensures var b := Base(s, nameOf, e.player);
      Lookup(ApplyInventoryEvent(s, nameOf, e), id) ==
        if id != e.player then Lookup(s, id)
        else Some(b.(seen := SeenStep(b.seen, e.ts), inventory := PairsEffect(b.inventory, e.action, e.items)))
  {
    ApplyItemsEffect(Touch(s, nameOf, e.player, e.ts), e.player, e.action, e.ts, e.items);
  }

  /** The inventory and seen range player `id` is expected to have after the inventory `events`. */
  function InventoryExpected(s: ReplayState, nameOf: int -> string, events: seq<InventoryEvent>, id: int): Option<PlayerView> {
    var b := Base(s, nameOf, id);
    var times := InventoryTimes(events, id);
    if id in s.players || times != [] then
      Some(b.(inventory := InventoryAfter(b.inventory, events, id), seen := SeenAfter(b.seen, times)))
    else None
  }

  /**
   * The inventory pass, seen from one player: untouched when it has no event;
   * otherwise created if needed, its seen range widened by its timestamps and
   * its inventory the result of its own events in order.
   */
  lemma {:induction false} ReplayInventoryPlayer(s: ReplayState, nameOf: int -> string, events: seq<InventoryEvent>, id: int)
    ensures Lookup(ReplayInventory(s, nameOf, events), id) == InventoryExpected(s, nameOf, events, id)
    decreases |events|
  {
    if events != [] {
      var init := events[..|events| - 1];
      var e := events[|events| - 1];
      ReplayInventoryPlayer(s, nameOf, init, id);
      InventoryPlayerStep(s, nameOf, events, id, ReplayInventory(s, nameOf, init));
    }
  }

  /** One more inventory event keeps the replayed player equal to the expected one. */
  lemma InventoryPlayerStep(s: ReplayState, nameOf: int -> string, events: seq<InventoryEvent>, id: int, s1: ReplayState)
    requires events != []
    requires Lookup(s1, id) == InventoryExpected(s, nameOf, events[..|events| - 1], id)
    ensures Lookup(ApplyInventoryEvent(s1, nameOf, events[|events| - 1]), id) == InventoryExpected(s, nameOf, events, id)
  {
    var init := events[..|events| - 1];
    var e := events[|events| - 1];
    var b := Base(s, nameOf, id);
    var times := InventoryTimes(init, id);
    if !(id in s.players || times != []) {
      InventoryUntouched(b.inventory, init, id);
    }
    var p := b.(inventory := InventoryAfter(b.inventory, init, id), seen := SeenAfter(b.seen, times));
    assert Base(s1, nameOf, id) == p;
    InventoryEventPlayer(s1, nameOf, e, id);
    if e.player == id {
      SeenAfterSnoc(b.seen, times, e.ts);
      assert InventoryTimes(events, id) == times + [e.ts];
      assert InventoryAfter(b.inventory, events, id) == PairsEffect(p.inventory, e.action, e.items);
      assert Lookup(ApplyInventoryEvent(s1, nameOf, e), id) ==
        Some(p.(seen := SeenStep(p.seen, e.ts), inventory := PairsEffect(p.inventory, e.action, e.items)));
    } else {
      assert InventoryTimes(events, id) == times by {
        assert InventoryTimes(events, id) == times + [];
      }
      assert InventoryAfter(b.inventory, events, id) == p.inventory;
      assert Lookup(ApplyInventoryEvent(s1, nameOf, e), id) == Lookup(s1, id);
    }
  }

  /** The balance change of a player is its credits minus its debits. */
  lemma {:induction false} NetIsAddedMinusRemoved(events: seq<MoneyEvent>, id: int)
    ensures MoneyNet(events, id) == MoneyAdded(events, id) - MoneyRemoved(events, id)
    decreases |events|
  {
    if events != [] {
      NetIsAddedMinusRemoved(events[..|events| - 1], id);
      assert |"MONEY_ADD"| != |"MONEY_REMOVE"|;
    }
  }

  /** One money event changes only its own player: seen range widened, balance moved. */
  lemma MoneyEventPlayer(s: ReplayState, nameOf: int -> string, e: MoneyEvent, id: int)
    ensures var b := Base(s, nameOf, e.player);
      Lookup(ApplyMoneyEvent(s, nameOf, e), id) ==
        if id != e.player then Lookup(s, id)
        else Some(b.(seen := SeenStep(b.seen, e.ts), money := b.money + MoneyDelta(e)))
  {
  }

  /** The balance and seen range player `id` is expected to have after the money `events`. */
  function MoneyExpected(s: ReplayState, nameOf: int -> string, events: seq<MoneyEvent>, id: int): Option<PlayerView> {
    var b := Base(s, nameOf, id);
    var times := MoneyTimes(events, id);
    if id in s.players || times != [] then
      Some(b.(money := b.money + MoneyNet(events, id), seen := SeenAfter(b.seen, times)))
    else None
  }

  /** The money pass, seen from one player. */
  lemma {:induction false} ReplayMoneyPlayer(s: ReplayState, nameOf: int -> string, events: seq<MoneyEvent>, id: int)
    ensures Lookup(ReplayMoney(s, nameOf, events), id) == MoneyExpected(s, nameOf, events, id)
    decreases |events|
  {
    if events != [] {
      var init := events[..|events| - 1];
      var e := events[|events| - 1];
      ReplayMoneyPlayer(s, nameOf, init, id);
      MoneyPlayerStep(s, nameOf, events, id, ReplayMoney(s, nameOf, init));
    }
  }

  /** One more money event keeps the replayed player equal to the expected one. */
  lemma MoneyPlayerStep(s: ReplayState, nameOf: int -> string, events: seq<MoneyEvent>, id: int, s1: ReplayState)
    requires events != []
    requires Lookup(s1, id) == MoneyExpected(s, nameOf, events[..|events| - 1], id)
    ensures Lookup(ApplyMoneyEvent(s1, nameOf, events[|events| - 1]), id) == MoneyExpected(s, nameOf, events, id)
  {
    if events[|events| - 1].player == id {
      MoneyOwnPlayerStep(s, nameOf, events, id, s1);
    } else {
      MoneyOtherPlayerStep(s, nameOf, events, id, s1);
    }
  }

  /** `MoneyPlayerStep` for the player's own event. */
  lemma MoneyOwnPlayerStep(s: ReplayState, nameOf: int -> string, events: seq<MoneyEvent>, id: int, s1: ReplayState)
    requires events != [] && events[|events| - 1].player == id
    requires Lookup(s1, id) == MoneyExpected(s, nameOf, events[..|events| - 1], id)
    ensures Lookup(ApplyMoneyEvent(s1, nameOf, events[|events| - 1]), id) == MoneyExpected(s, nameOf, events, id)
  {
    MoneyEventPlayer(s1, nameOf, events[|events| - 1], id);
    MoneyOwnStep(s, nameOf, events, id, s1);
  }

  /** `MoneyPlayerStep` for another player's event. */
  lemma MoneyOtherPlayerStep(s: ReplayState, nameOf: int -> string, events: seq<MoneyEvent>, id: int, s1: ReplayState)
    requires events != [] && events[|events| - 1].player != id
    requires Lookup(s1, id) == MoneyExpected(s, nameOf, events[..|events| - 1], id)
    ensures Lookup(ApplyMoneyEvent(s1, nameOf, events[|events| - 1]), id) == MoneyExpected(s, nameOf, events, id)
  {
    MoneyEventPlayer(s1, nameOf, events[|events| - 1], id);
    MoneyOtherEvent(events, id);
  }

  /** Another player's money event leaves the times and the balance change of `id` as they were. */
  lemma MoneyOtherEvent(events: seq<MoneyEvent>, id: int)
    requires events != [] && events[|events| - 1].player != id
    ensures MoneyTimes(events, id) == MoneyTimes(events[..|events| - 1], id)
    ensures MoneyNet(events, id) == MoneyNet(events[..|events| - 1], id)
  {
    assert MoneyTimes(events, id) == MoneyTimes(events[..|events| - 1], id) + [];
  }

  /** The player's own money event adds its time and its signed amount. */
  lemma MoneyOwnEvent(events: seq<MoneyEvent>, id: int)
    requires events != [] && events[|events| - 1].player == id
    ensures MoneyTimes(events, id) == MoneyTimes(events[..|events| - 1], id) + [events[|events| - 1].ts]
    ensures MoneyNet(events, id) == MoneyNet(events[..|events| - 1], id) + MoneyDelta(events[|events| - 1])
  {
  }

  /** The record the replay holds for `id` after the money `init`, created afresh when there is none. */
  lemma MoneyBase(s: ReplayState, nameOf: int -> string, init: seq<MoneyEvent>, id: int, s1: ReplayState)
    requires Lookup(s1, id) == MoneyExpected(s, nameOf, init, id)
    ensures var b := Base(s, nameOf, id);
      Base(s1, nameOf, id) == b.(money := b.money + MoneyNet(init, id), seen := SeenAfter(b.seen, MoneyTimes(init, id)))
  {
    if !(id in s.players || MoneyTimes(init, id) != []) {
      MoneyUntouched(init, id);
    }
  }

  /** The step of `MoneyPlayerStep` when the event is the player's own. */
  lemma MoneyOwnStep(s: ReplayState, nameOf: int -> string, events: seq<MoneyEvent>, id: int, s1: ReplayState)
    requires events != [] && events[|events| - 1].player == id
    requires Lookup(s1, id) == MoneyExpected(s, nameOf, events[..|events| - 1], id)
    ensures var e := events[|events| - 1];
      var p := Base(s1, nameOf, id);
      MoneyExpected(s, nameOf, events, id) == Some(p.(seen := SeenStep(p.seen, e.ts), money := p.money + MoneyDelta(e)))
  {
    MoneyBase(s, nameOf, events[..|events| - 1], id, s1);
    MoneyExpectedSnoc(s, nameOf, events, id);
  }

  /** The expected record after the player's own event, in terms of the events before it. */
  lemma MoneyExpectedSnoc(s: ReplayState, nameOf: int -> string, events: seq<MoneyEvent>, id: int)
    requires events != [] && events[|events| - 1].player == id
    ensures var init := events[..|events| - 1];
      var e := events[|events| - 1];
      var b := Base(s, nameOf, id);
      MoneyExpected(s, nameOf, events, id) ==
        Some(b.(money := b.money + MoneyNet(init, id) + MoneyDelta(e),
                seen := SeenStep(SeenAfter(b.seen, MoneyTimes(init, id)), e.ts)))
  {
    var init := events[..|events| - 1];
    var e := events[|events| - 1];
    var b := Base(s, nameOf, id);
    MoneyOwnEvent(events, id);
    SeenAfterSnoc(b.seen, MoneyTimes(init, id), e.ts);
  }

  /**
   * The replay, seen from one player: it exists exactly when it has an event
   * in either log, and then it carries its loaded or default name, a balance
   * equal to its credits minus its debits, the inventory its own inventory
   * events build from empty, and the seen range of all its timestamps,
   * inventory events first.
   */
  lemma ReplayPlayer(inventoryLines: seq<string>, moneyLines: seq<string>, names: map<int, string>, id: int)
    ensures var r := Replayed(inventoryLines, moneyLines, names);
      var inv := InventoryEvents(inventoryLines);
      var money := MoneyEvents(moneyLines);
      var times := InventoryTimes(inv, id) + MoneyTimes(money, id);
      (id in r.players <==> times != []) &&
      (id in r.players ==>
        r.players[id] == PlayerView(id, PlayerName(names, id),
          MoneyAdded(money, id) - MoneyRemoved(money, id),
          InventoryAfter(map[], inv, id),
          SeenAfter(SeenRange(None, None), times)))
  {
    var inv := InventoryEvents(inventoryLines);
    var money := MoneyEvents(moneyLines);
    ReplayEventsPlayer(NameOf(names), inv, money, id);
    NetIsAddedMinusRemoved(money, id);
  }

  /** `ReplayPlayer`, stated on the parsed events. */
  lemma ReplayEventsPlayer(nameOf: int -> string, inv: seq<InventoryEvent>, money: seq<MoneyEvent>, id: int)
    ensures var b := NewPlayer(id, nameOf(id));
      var times := InventoryTimes(inv, id) + MoneyTimes(money, id);
      Lookup(ReplayMoney(ReplayInventory(Start, nameOf, inv), nameOf, money), id) ==
        if times == [] then None
        else Some(b.(money := MoneyNet(money, id), inventory := InventoryAfter(map[], inv, id),
                     seen := SeenAfter(SeenRange(None, None), times)))
  {
    var b := NewPlayer(id, nameOf(id));
    var s1 := ReplayInventory(Start, nameOf, inv);
    ReplayInventoryPlayer(Start, nameOf, inv, id);
    ReplayMoneyPlayer(s1, nameOf, money, id);
    var invTimes := InventoryTimes(inv, id);
    if invTimes == [] {
      InventoryUntouched(map[], inv, id);
    }
    assert Base(s1, nameOf, id) == b.(inventory := InventoryAfter(map[], inv, id), seen := SeenAfter(b.seen, invTimes));
    SeenAfterAppend(b.seen, invTimes, MoneyTimes(money, id));
    assert invTimes + MoneyTimes(money, id) == [] <==> invTimes == [] && MoneyTimes(money, id) == [];
  }

  /**
   * Consequences for the report: every stored quantity is positive, and
   * `first_seen`/`last_seen` are the earliest and latest of the player's
   * timestamps over both logs.
   */
  lemma ReplayPlayerSummary(inventoryLines: seq<string>, moneyLines: seq<string>, names: map<int, string>, id: int)
    requires id in Replayed(inventoryLines, moneyLines, names).players
    ensures var p := Replayed(inventoryLines, moneyLines, names).players[id];
      var times := InventoryTimes(InventoryEvents(inventoryLines), id) + MoneyTimes(MoneyEvents(moneyLines), id);
      times != [] && Positive(p.inventory) && p.seen == SeenRange(Some(Min(times)), Some(Max(times)))
  {
    ReplayPlayer(inventoryLines, moneyLines, names, id);
    SeenIsRange(InventoryTimes(InventoryEvents(inventoryLines), id) + MoneyTimes(MoneyEvents(moneyLines), id));
  }

  /**
   * An inventory event whose action is neither `ITEM_ADD` nor `ITEM_REMOVE`
   * still creates the player, widens its seen range and records its mentions,
   * but changes no inventory and no balance.
   */
  lemma InventoryOtherAction(s: ReplayState, nameOf: int -> string, e: InventoryEvent)
    requires e.action != "ITEM_ADD" && e.action != "ITEM_REMOVE"
    ensures ApplyInventoryEvent(s, nameOf, e).players == Touch(s, nameOf, e.player, e.ts).players
  {
    ApplyItemsEffect(Touch(s, nameOf, e.player, e.ts), e.player, e.action, e.ts, e.items);
  }

  /** A money event whose action is neither `MONEY_ADD` nor `MONEY_REMOVE` only creates the player and widens its seen range. */
  lemma MoneyOtherAction(s: ReplayState, nameOf: int -> string, e: MoneyEvent)
    requires e.action != "MONEY_ADD" && e.action != "MONEY_REMOVE"
    ensures ApplyMoneyEvent(s, nameOf, e) == Touch(s, nameOf, e.player, e.ts)
  {
  }
}

/**
 * The per-player record of main.py:9-32: money, a sparse inventory and the
 * first/last time the player was seen. `Player` is the mutable object the
 * replay updates in place; `PlayerView` is its value, used by the
 * specification of the replay.
 */
module Players {
  import opened Wrappers

  /** The first and last timestamp seen, both `None` before the first event. */
  datatype SeenRange = SeenRange(first: Option<int>, last: Option<int>)

  /** The value of a `Player` object. */
  datatype PlayerView = PlayerView(id: int, name: string, money: int, inventory: map<int, int>, seen: SeenRange)

  /** A fresh record: no money, an empty inventory, never seen (main.py:10-16). */
  function NewPlayer(id: int, name: string): PlayerView {
    PlayerView(id, name, 0, map[], SeenRange(None, None))
  }

  /** The sparse-representation invariant: every stored quantity is strictly positive. */
  predicate Positive(inventory: map<int, int>) {
    forall item :: item in inventory ==> inventory[item] > 0
  }

  /** Both ends set together, and the first no later than the last. */
  predicate Ordered(seen: SeenRange) {
    (seen.first.Some? <==> seen.last.Some?) &&
    (seen.first.Some? ==> seen.first.value <= seen.last.value)
  }

  /** `d.get(key, 0)`: the value stored under `key`, or 0 when it is absent. */
  function Get(d: map<int, int>, key: int): int {
    if key in d then d[key] else 0
  }

  /**
   * The update shared by `add_item` and `remove_item` (main.py:24-32): the
   * quantity of `item` moves by `delta` and the key is deleted when the result
   * is not positive. It keeps the inventory positive and touches no other key.
   */
  function Adjust(inventory: map<int, int>, item: int, delta: int): (r: map<int, int>)
    ensures Positive(inventory) ==> Positive(r)
    ensures item in r <==> Get(inventory, item) + delta > 0
    ensures Get(r, item) == if Get(inventory, item) + delta > 0 then Get(inventory, item) + delta else 0
    ensures forall k :: k != item ==> (k in r <==> k in inventory) && Get(r, k) == Get(inventory, k)
  {
    var q := Get(inventory, item) + delta;
    if q <= 0 then inventory - {item} else inventory[item := q]
  }

  /** One `update_seen(t)` step (main.py:18-22). */
  function SeenStep(seen: SeenRange, t: int): (r: SeenRange)
    ensures Ordered(seen) ==> Ordered(r)
    ensures r.first.Some? && r.last.Some?
    ensures r.first.value <= t <= r.last.value
  {
    SeenRange(
      if seen.first.None? || t < seen.first.value then Some(t) else seen.first,
      if seen.last.None? || t > seen.last.value then Some(t) else seen.last)
  }

  /** `update_seen` called on each timestamp of `ts` in turn, starting from `seen`. */
  function SeenAfter(seen: SeenRange, ts: seq<int>): SeenRange {
    if ts == [] then seen else SeenStep(SeenAfter(seen, ts[..|ts| - 1]), ts[|ts| - 1])
  }

  function Min(ts: seq<int>): (m: int)
    requires ts != []
    ensures m in ts && forall i :: 0 <= i < |ts| ==> m <= ts[i]
  {
    if |ts| == 1 then ts[0]
    else
      var m := Min(ts[..|ts| - 1]);
      if ts[|ts| - 1] < m then ts[|ts| - 1] else m
  }

  function Max(ts: seq<int>): (m: int)
    requires ts != []
    ensures m in ts && forall i :: 0 <= i < |ts| ==> ts[i] <= m
  {
    if |ts| == 1 then ts[0]
    else
      var m := Max(ts[..|ts| - 1]);
      if ts[|ts| - 1] > m then ts[|ts| - 1] else m
  }

  /**
   * After `update_seen` on every timestamp of `ts`, starting from a record
   * never seen, `first_seen` is their minimum and `last_seen` their maximum;
   * both stay `None` only when `ts` is empty.
   */
  lemma {:induction false} SeenIsRange(ts: seq<int>)
    ensures SeenAfter(SeenRange(None, None), ts) ==
      if ts == [] then SeenRange(None, None) else SeenRange(Some(Min(ts)), Some(Max(ts)))
  {
    if |ts| > 1 {
      var init := ts[..|ts| - 1];
      SeenIsRange(init);
      assert ts == init + [ts[|ts| - 1]];
    }
  }

  /** Hence `first_seen <= last_seen` whatever the order of the timestamps. */
  lemma SeenOrdered(ts: seq<int>)
    ensures Ordered(SeenAfter(SeenRange(None, None), ts))
  {
    SeenIsRange(ts);
    if ts != [] {
      assert Min(ts) <= ts[0] <= Max(ts);
    }
  }

  /** The mutable record of main.py:9-32. */
  class Player {
    const id: int
    const name: string
    var money: int
    var inventory: map<int, int>
    var firstSeen: Option<int>
    var lastSeen: Option<int>

    ghost predicate Valid()
      reads this
    {
      Positive(inventory) && Ordered(SeenRange(firstSeen, lastSeen))
    }

    function View(): PlayerView
      reads this
    {
      PlayerView(id, name, money, inventory, SeenRange(firstSeen, lastSeen))
    }

    constructor (playerId: int, playerName: string)
      ensures Valid() && View() == NewPlayer(playerId, playerName)
    {
      id := playerId;
      name := playerName;
      money := 0;
      inventory := map[];
      firstSeen := None;
      lastSeen := None;
    }

    /** `update_seen`: widen the seen range to cover `t`. */
    method UpdateSeen(t: int)
      requires Valid()
      modifies this
      ensures Valid()
      ensures View() == old(View()).(seen := SeenStep(old(View()).seen, t))
    {
      if firstSeen.None? || t < firstSeen.value {
        firstSeen := Some(t);
      }
      if lastSeen.None? || t > lastSeen.value {
        lastSeen := Some(t);
      }
    }

    /** `add_item`: raise the quantity of `item`, deleting the key if the result is not positive. */
    method AddItem(item: int, amount: int)
      requires Valid()
      modifies this
      ensures Valid()
      ensures View() == old(View()).(inventory := Adjust(old(inventory), item, amount))
    {
      inventory := inventory[item := Get(inventory, item) + amount];
      if inventory[item] <= 0 {
        inventory := inventory - {item};
      }
    }

    /** `remove_item`: lower the quantity of `item`, deleting the key if the result is not positive. */
    method RemoveItem(item: int, amount: int)
      requires Valid()
      modifies this
      ensures Valid()
      ensures View() == old(View()).(inventory := Adjust(old(inventory), item, -amount))
    {
      inventory := inventory[item := Get(inventory, item) - amount];
      if inventory[item] <= 0 {
        inventory := inventory - {item};
      }
    }
  }
}

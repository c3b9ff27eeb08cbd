/**
 * The selections behind output.txt and the item query (main.py:190-260):
 * the ten most mentioned items, the ten richest players, the first and last
 * ten distinct items mentioned, and the per-item totals of the query. The
 * rendering of lines and timestamps is not part of this model.
 */
module Report {
  import opened Text
  import opened Players
  import opened Replay
  import opened Ranking

  // ---------------------------------------------------------------------------
  // Names (main.py:195, 219, 233, 261)
  // ---------------------------------------------------------------------------

  /** `item_names.get(id, "Item {id}")`, as the report prints it. */
  function ItemLabel(names: map<int, string>, id: int): string {
    if id in names then names[id] else "Item " + IntToString(id)
  }

  /** `item_names.get(id, str(id))`, as the query prints it. */
  function QueryLabel(names: map<int, string>, id: int): string {
    if id in names then names[id] else IntToString(id)
  }

  /** The default labels never confuse two unnamed items. */
  lemma DefaultLabelsDistinct(names: map<int, string>, a: int, b: int)
    requires a !in names && b !in names && a != b
    ensures ItemLabel(names, a) != ItemLabel(names, b)
    ensures QueryLabel(names, a) != QueryLabel(names, b)
  {
    ParseIntRoundTrip(a);
    ParseIntRoundTrip(b);
    var prefix := "Item ";
    assert (prefix + IntToString(a))[|prefix|..] == IntToString(a);
    assert (prefix + IntToString(b))[|prefix|..] == IntToString(b);
  }

  // ---------------------------------------------------------------------------
  // Top ten items and players (main.py:192, 203)
  // ---------------------------------------------------------------------------

  /**
   * `order` is the order in which the dictionary `m` yields its keys: every
   * key exactly once. Python does not fix it, so it is a parameter.
   */
  ghost predicate ListsKeys<V>(order: seq<int>, m: map<int, V>) {
    (forall k :: 0 <= k < |order| ==> order[k] in m) &&
    (forall key :: key in m ==> key in order) &&
    (forall i, j :: 0 <= i < j < |order| ==> order[i] != order[j])
  }

  /**
   * The ids of `sorted(item_stats.items(), key=count, reverse=True)[:10]`.
   * Sorting the items by count or their ids by the same count gives the
   * same order, since each id appears once and the sort is stable.
   */
  function TopItemIds(itemStats: map<int, int>, order: seq<int>): seq<int> {
    Top10(order, CountOf(itemStats))
  }

  /** The sort key of the items: the count, `item_stats.get(id, 0)`. */
  function CountOf(itemStats: map<int, int>): int -> int {
    (id: int) => Get(itemStats, id)
  }

  /** The top-items table: each of those ids with its count. */
  function TopItems(itemStats: map<int, int>, order: seq<int>): seq<(int, int)> {
    var ids := TopItemIds(itemStats, order);
    seq(|ids|, k requires 0 <= k < |ids| => (ids[k], Get(itemStats, ids[k])))
  }

  /** The sort key of the players: their money. */
  function MoneyOf(players: map<int, PlayerView>): int -> int {
    (id: int) => if id in players then players[id].money else 0
  }

  /** The ids of `sorted(players.values(), key=money, reverse=True)[:10]`. */
  function TopPlayers(players: map<int, PlayerView>, order: seq<int>): seq<int> {
    Top10(order, MoneyOf(players))
  }

  /** A subsequence, in the multiset sense, of a duplicate-free sequence is duplicate-free. */
  lemma NoDuplicatesBelow<T>(r: seq<T>, s: seq<T>)
    requires forall i, j :: 0 <= i < j < |s| ==> s[i] != s[j]
    requires multiset(r) <= multiset(s)
    ensures forall i, j :: 0 <= i < j < |r| ==> r[i] != r[j]
  {
    forall i, j | 0 <= i < j < |r|
      ensures r[i] != r[j]
    {
      AtMostOnce(s, r[i]);
      if r[i] == r[j] {
        Twice(r, i, j);
      }
    }
  }

  lemma {:induction false} AtMostOnce<T>(s: seq<T>, x: T)
    requires forall i, j :: 0 <= i < j < |s| ==> s[i] != s[j]
    ensures multiset(s)[x] <= 1
  {
    if s != [] {
      var init := s[..|s| - 1];
      AtMostOnce(init, x);
      assert s == init + [s[|s| - 1]];
      if s[|s| - 1] == x {
        assert x !in init;
      }
    }
  }

  lemma Twice<T>(r: seq<T>, i: nat, j: nat)
    requires i < j < |r| && r[i] == r[j]
    ensures multiset(r)[r[i]] >= 2
  {
    var x := r[i];
    assert r == r[..j] + [x] + r[j + 1..];
    assert r[..j][i] == x;
  }

  /**
   * Ten keys of a map by a score: at most ten, all keys, none twice, best
   * first, and no key left out scores more than one taken.
   */
  lemma TopKeys<V>(m: map<int, V>, order: seq<int>, score: int -> int)
    requires ListsKeys(order, m)
    ensures |Top10(order, score)| == if |order| <= 10 then |order| else 10
    ensures forall k :: 0 <= k < |Top10(order, score)| ==> Top10(order, score)[k] in m
    ensures forall i, j :: 0 <= i < j < |Top10(order, score)| ==>
      Top10(order, score)[i] != Top10(order, score)[j] && score(Top10(order, score)[i]) >= score(Top10(order, score)[j])
    ensures forall id, k :: id in m && id !in Top10(order, score) && 0 <= k < |Top10(order, score)| ==>
      score(Top10(order, score)[k]) >= score(id)
  {
    var top := Top10(order, score);
    TopSelects(order, score);
    NoDuplicatesBelow(top, order);
    forall id, k | id in m && id !in top && 0 <= k < |top|
      ensures score(top[k]) >= score(id)
    {
      assert top[k] in top;
    }
  }

  /**
   * The top-items table: at most ten items, each with its count, no item
   * twice, most mentioned first, and no item left out that is mentioned
   * more often than one listed.
   */
  lemma TopItemsSelect(itemStats: map<int, int>, order: seq<int>)
    requires ListsKeys(order, itemStats)
    ensures |TopItems(itemStats, order)| == if |order| <= 10 then |order| else 10
    ensures forall k :: 0 <= k < |TopItems(itemStats, order)| ==>
      TopItems(itemStats, order)[k].0 in itemStats &&
      TopItems(itemStats, order)[k].1 == itemStats[TopItems(itemStats, order)[k].0]
    ensures forall i, j :: 0 <= i < j < |TopItems(itemStats, order)| ==>
      TopItems(itemStats, order)[i].0 != TopItems(itemStats, order)[j].0 &&
      TopItems(itemStats, order)[i].1 >= TopItems(itemStats, order)[j].1
    ensures forall id, k ::
      id in itemStats && id !in TopItemIds(itemStats, order) && 0 <= k < |TopItems(itemStats, order)|
      ==> TopItems(itemStats, order)[k].1 >= itemStats[id]
  {
    var ids := TopItemIds(itemStats, order);
    var top := TopItems(itemStats, order);
    var count := CountOf(itemStats);
    TopKeys(itemStats, order, count);
    forall k | 0 <= k < |top|
      ensures top[k].0 in itemStats && top[k].1 == itemStats[top[k].0]
    {
      assert top[k] == (ids[k], Get(itemStats, ids[k]));
    }
    forall i, j | 0 <= i < j < |top|
      ensures top[i].0 != top[j].0 && top[i].1 >= top[j].1
    {
      assert count(ids[i]) >= count(ids[j]);
    }
    forall id, k | id in itemStats && id !in ids && 0 <= k < |top|
      ensures top[k].1 >= itemStats[id]
    {
      assert count(ids[k]) >= count(id);
    }
  }

  /**
   * The top-players table: at most ten players, none twice, richest first,
   * and no player left out who has more money than one listed.
   */
  lemma TopPlayersSelect(players: map<int, PlayerView>, order: seq<int>)
    requires ListsKeys(order, players)
    ensures |TopPlayers(players, order)| == if |order| <= 10 then |order| else 10
    ensures forall k :: 0 <= k < |TopPlayers(players, order)| ==> TopPlayers(players, order)[k] in players
    ensures forall i, j :: 0 <= i < j < |TopPlayers(players, order)| ==>
      TopPlayers(players, order)[i] != TopPlayers(players, order)[j] &&
      players[TopPlayers(players, order)[i]].money >= players[TopPlayers(players, order)[j]].money
    ensures forall id, k ::
      id in players && id !in TopPlayers(players, order) && 0 <= k < |TopPlayers(players, order)|
      ==> players[TopPlayers(players, order)[k]].money >= players[id].money
  {
    TopKeys(players, order, MoneyOf(players));
  }

  // ---------------------------------------------------------------------------
  // The item query (main.py:255-260)
  // ---------------------------------------------------------------------------

  /** `p.inventory.get(item, 0)` for the player with id `id`. */
  function Held(players: map<int, PlayerView>, item: int, id: int): int {
    if id in players then Get(players[id].inventory, item) else 0
  }

  /** The sort key of the holders: how much of `item` they hold. */
  function HeldOf(players: map<int, PlayerView>, item: int): int -> int {
    (id: int) => Held(players, item, id)
  }

  /** `sum(p.inventory.get(item, 0) for p in players.values())`. */
  function TotalHeld(players: map<int, PlayerView>, order: seq<int>, item: int): int {
    if order == [] then 0
    else Held(players, item, order[0]) + TotalHeld(players, order[1..], item)
  }

  /** `sum(1 for p in players.values() if item in p.inventory)`. */
  function OwnerCount(players: map<int, PlayerView>, order: seq<int>, item: int): (r: nat)
    ensures r <= |order|
  {
    if order == [] then 0
    else (if order[0] in players && item in players[order[0]].inventory then 1 else 0) + OwnerCount(players, order[1..], item)
  }

  /** The players of `[(p, p.inventory[item]) for p in players.values() if item in p.inventory]`, by id. */
  function Owners(players: map<int, PlayerView>, order: seq<int>, item: int): seq<int> {
    if order == [] then []
    else (if order[0] in players && item in players[order[0]].inventory then [order[0]] else []) + Owners(players, order[1..], item)
  }

  /** The ten largest holders of `item`, largest first (the query's `top`). */
  function TopHolders(players: map<int, PlayerView>, order: seq<int>, item: int): seq<int> {
    Top10(Owners(players, order, item), HeldOf(players, item))
  }

  predicate AllPositive(players: map<int, PlayerView>) {
    forall id :: id in players ==> Positive(players[id].inventory)
  }

  /**
   * The owners are exactly the players of the listing that hold the item,
   * in listing order, one per owner counted.
   */
  lemma {:induction false} OwnersExact(players: map<int, PlayerView>, order: seq<int>, item: int)
    ensures |Owners(players, order, item)| == OwnerCount(players, order, item)
    ensures forall id :: id in Owners(players, order, item) <==> id in order && id in players && item in players[id].inventory
  {
    if order != [] {
      var id := order[0];
      var rest := Owners(players, order[1..], item);
      OwnersExact(players, order[1..], item);
      if id in players && item in players[id].inventory {
        assert Owners(players, order, item) == [id] + rest;
      } else {
        assert Owners(players, order, item) == rest;
      }
      assert order == [id] + order[1..];
    }
  }

  /**
   * The numbers of the query agree: since every stored quantity is
   * positive, there are never more owners than items held, and the total is
   * zero exactly when nobody owns the item.
   */
  lemma {:induction false} QueryAgrees(players: map<int, PlayerView>, order: seq<int>, item: int)
    requires AllPositive(players)
    ensures OwnerCount(players, order, item) <= TotalHeld(players, order, item)
    ensures TotalHeld(players, order, item) == 0 <==> OwnerCount(players, order, item) == 0
  {
    if order != [] {
      var id := order[0];
      QueryAgrees(players, order[1..], item);
      if id in players && item in players[id].inventory {
        assert Positive(players[id].inventory);
      }
    }
  }

  /**
   * The query's top ten: at most ten players, each holding the item,
   * largest holding first, and no owner left out holds more than one
   * listed.
   */
  lemma TopHoldersSelect(players: map<int, PlayerView>, order: seq<int>, item: int)
    ensures |TopHolders(players, order, item)| == if OwnerCount(players, order, item) <= 10 then OwnerCount(players, order, item) else 10
    ensures forall k :: 0 <= k < |TopHolders(players, order, item)| ==>
      TopHolders(players, order, item)[k] in players && item in players[TopHolders(players, order, item)[k]].inventory
    ensures Descending(TopHolders(players, order, item), HeldOf(players, item))
    ensures forall x, y ::
      x in TopHolders(players, order, item) && y in Owners(players, order, item) && y !in TopHolders(players, order, item)
      ==> HeldOf(players, item)(x) >= HeldOf(players, item)(y)
  {
    var owners := Owners(players, order, item);
    var top := TopHolders(players, order, item);
    OwnersExact(players, order, item);
    TopSelects(owners, HeldOf(players, item));
  }

  // ---------------------------------------------------------------------------
  // First and last ten distinct items (main.py:214-235)
  // ---------------------------------------------------------------------------

  /** The ids mentioned in `ms`. */
  function ItemsOf(ms: seq<Mention>): set<int> {
    set k | 0 <= k < |ms| :: ms[k].item
  }

  /** Mention `i` is the first of its item. */
  predicate IsFirst(m: seq<Mention>, i: nat)
    requires i < |m|
  {
    forall j :: 0 <= j < i ==> m[j].item != m[i].item
  }

  /** Mention `i` is the last of its item. */
  predicate IsLast(m: seq<Mention>, i: nat)
    requires i < |m|
  {
    forall j :: i < j < |m| ==> m[j].item != m[i].item
  }

  /** The positions below `k` that are first mentions, in increasing order. */
  function FirstIndices(m: seq<Mention>, k: nat): (r: seq<nat>)
    requires k <= |m|
    ensures forall t :: 0 <= t < |r| ==> r[t] < k
  {
    if k == 0 then []
    else FirstIndices(m, k - 1) + if IsFirst(m, k - 1) then [k - 1] else []
  }

  /** The positions from `k` on that are last mentions, in decreasing order (the order of `reversed`). */
  function LastIndices(m: seq<Mention>, k: nat): (r: seq<nat>)
    requires k <= |m|
    ensures forall t :: 0 <= t < |r| ==> k <= r[t] < |m|
    decreases |m| - k
  {
    if k == |m| then []
    else LastIndices(m, k + 1) + if IsLast(m, k) then [k] else []
  }

  function Pick(m: seq<Mention>, positions: seq<nat>): seq<Mention>
    requires forall t :: 0 <= t < |positions| ==> positions[t] < |m|
  {
    seq(|positions|, t requires 0 <= t < |positions| => m[positions[t]])
  }

  function Reverse<T>(s: seq<T>): (r: seq<T>)
    ensures |r| == |s|
  {
    if s == [] then [] else Reverse(s[1..]) + [s[0]]
  }

  /** `Reverse` reads `s` from the end. */
  lemma {:induction false} ReverseAt<T>(s: seq<T>)
    ensures forall k :: 0 <= k < |s| ==> Reverse(s)[k] == s[|s| - 1 - k]
  {
    if s != [] {
      ReverseAt(s[1..]);
    }
  }

  /** Where the entries of `first_items` come from: the first ten first mentions. */
  function FirstPositions(m: seq<Mention>): seq<nat> {
    Take(FirstIndices(m, |m|), 10)
  }

  /** Where the entries of `last_items` come from, in source order: the last ten last mentions. */
  function LastPositions(m: seq<Mention>): seq<nat> {
    Reverse(Take(LastIndices(m, 0), 10))
  }

  function FirstItems(m: seq<Mention>): seq<Mention> {
    Pick(m, FirstPositions(m))
  }

  /** The last ten last mentions, found walking backwards and then put back in source order. */
  function LastItems(m: seq<Mention>): seq<Mention> {
    Reverse(Pick(m, Take(LastIndices(m, 0), 10)))
  }

  /** `FirstIndices` lists exactly the first mentions, in increasing order. */
  lemma {:induction false} FirstIndicesExact(m: seq<Mention>, k: nat)
    requires k <= |m|
    ensures forall s, t :: 0 <= s < t < |FirstIndices(m, k)| ==> FirstIndices(m, k)[s] < FirstIndices(m, k)[t]
    ensures forall t :: 0 <= t < |FirstIndices(m, k)| ==> IsFirst(m, FirstIndices(m, k)[t])
    ensures forall i :: 0 <= i < k ==> (IsFirst(m, i) <==> i in FirstIndices(m, k))
  {
    if k > 0 {
      FirstIndicesExact(m, k - 1);
    }
  }

  /** `LastIndices` lists exactly the last mentions, in decreasing order. */
  lemma {:induction false} LastIndicesExact(m: seq<Mention>, k: nat)
    requires k <= |m|
    ensures forall s, t :: 0 <= s < t < |LastIndices(m, k)| ==> LastIndices(m, k)[s] > LastIndices(m, k)[t]
    ensures forall t :: 0 <= t < |LastIndices(m, k)| ==> IsLast(m, LastIndices(m, k)[t])
    ensures forall i :: k <= i < |m| ==> (IsLast(m, i) <==> i in LastIndices(m, k))
    decreases |m| - k
  {
    if k < |m| {
      LastIndicesExact(m, k + 1);
    }
  }

  /**
   * `first_items`: at most ten mentions with pairwise distinct ids, each the
   * first mention of its id, in source order, and no first mention is
   * skipped before the last one listed.
   */
  lemma FirstItemsSelect(m: seq<Mention>)
    ensures |FirstItems(m)| <= 10 && |FirstItems(m)| == |FirstPositions(m)|
    ensures forall t :: 0 <= t < |FirstPositions(m)| ==>
      FirstPositions(m)[t] < |m| && IsFirst(m, FirstPositions(m)[t]) && FirstItems(m)[t] == m[FirstPositions(m)[t]]
    ensures forall s, t :: 0 <= s < t < |FirstPositions(m)| ==> FirstPositions(m)[s] < FirstPositions(m)[t]
    ensures forall s, t :: 0 <= s < t < |FirstItems(m)| ==> FirstItems(m)[s].item != FirstItems(m)[t].item
    ensures forall i, t :: 0 <= t < |FirstPositions(m)| && 0 <= i < FirstPositions(m)[t] && IsFirst(m, i) ==> i in FirstPositions(m)
  {
    var all := FirstIndices(m, |m|);
    var pos := FirstPositions(m);
    FirstIndicesExact(m, |m|);
    FirstNoneSkipped(m, all, pos);
    forall s, t | 0 <= s < t < |pos|
      ensures m[pos[s]].item != m[pos[t]].item
    {
      assert IsFirst(m, pos[t]);
    }
  }

  /** With fewer than ten `first_items`, every id mentioned is among them. */
  lemma FirstItemsComplete(m: seq<Mention>)
    ensures |FirstItems(m)| < 10 ==> forall j :: 0 <= j < |m| ==> m[j].item in ItemsOf(FirstItems(m))
  {
    FirstCover(m, |m|);
  }

  /** Below the last position taken, every first mention is taken. */
  lemma FirstNoneSkipped(m: seq<Mention>, all: seq<nat>, pos: seq<nat>)
    requires forall s, t :: 0 <= s < t < |all| ==> all[s] < all[t]
    requires forall t :: 0 <= t < |all| ==> all[t] < |m|
    requires forall i :: 0 <= i < |m| ==> (IsFirst(m, i) <==> i in all)
    requires pos == Take(all, 10)
    ensures forall i, t :: 0 <= t < |pos| && 0 <= i < pos[t] && IsFirst(m, i) ==> i in pos
  {
    forall i, t | 0 <= t < |pos| && 0 <= i < pos[t] && IsFirst(m, i)
      ensures i in pos
    {
      var u :| 0 <= u < |all| && all[u] == i;
      assert u < t;
      assert pos[u] == i;
    }
  }

  /**
   * `last_items`: at most ten mentions with pairwise distinct ids, each the
   * last mention of its id, in source order, and no last mention is skipped
   * after the first one listed.
   */
  lemma LastItemsSelect(m: seq<Mention>)
    ensures |LastItems(m)| <= 10 && |LastItems(m)| == |LastPositions(m)|
    ensures forall t :: 0 <= t < |LastPositions(m)| ==>
      LastPositions(m)[t] < |m| && IsLast(m, LastPositions(m)[t]) && LastItems(m)[t] == m[LastPositions(m)[t]]
    ensures forall s, t :: 0 <= s < t < |LastPositions(m)| ==> LastPositions(m)[s] < LastPositions(m)[t]
    ensures forall s, t :: 0 <= s < t < |LastItems(m)| ==> LastItems(m)[s].item != LastItems(m)[t].item
    ensures forall i, t :: 0 <= t < |LastPositions(m)| && LastPositions(m)[t] < i < |m| && IsLast(m, i) ==> i in LastPositions(m)
  {
    var all := LastIndices(m, 0);
    var taken := Take(all, 10);
    var pos := LastPositions(m);
    PickReverse(m, taken);
    LastIndicesExact(m, 0);
    ReverseAt(taken);
    LastTakenReversed(m, taken, pos);
    LastNoneSkipped(m, all, taken, pos);
    forall s, t | 0 <= s < t < |pos|
      ensures m[pos[s]].item != m[pos[t]].item
    {
      assert IsLast(m, pos[s]);
    }
  }

  /** With fewer than ten `last_items`, every id mentioned is among them. */
  lemma LastItemsComplete(m: seq<Mention>)
    ensures |LastItems(m)| < 10 ==> forall j :: 0 <= j < |m| ==> m[j].item in ItemsOf(LastItems(m))
  {
    var taken := Take(LastIndices(m, 0), 10);
    if |taken| < 10 {
      PickReverse(m, taken);
      ReverseAt(taken);
      LastCover(m, 0);
      LastCoverReversed(m, taken, LastPositions(m));
    }
  }

  /** Picking then reversing is reversing the positions then picking. */
  lemma PickReverse(m: seq<Mention>, taken: seq<nat>)
    requires forall t :: 0 <= t < |taken| ==> taken[t] < |m|
    ensures (forall t :: 0 <= t < |Reverse<nat>(taken)| ==> Reverse<nat>(taken)[t] < |m|) &&
      Reverse(Pick(m, taken)) == Pick(m, Reverse<nat>(taken))
  {
    ReverseAt(taken);
    ReverseAt(Pick(m, taken));
  }

  lemma LastTakenReversed(m: seq<Mention>, taken: seq<nat>, pos: seq<nat>)
    requires forall s, t :: 0 <= s < t < |taken| ==> taken[s] > taken[t]
    requires forall t :: 0 <= t < |taken| ==> taken[t] < |m| && IsLast(m, taken[t])
    requires |pos| == |taken| && forall k :: 0 <= k < |taken| ==> pos[k] == taken[|taken| - 1 - k]
    ensures forall t :: 0 <= t < |pos| ==> pos[t] < |m| && IsLast(m, pos[t])
    ensures forall s, t :: 0 <= s < t < |pos| ==> pos[s] < pos[t]
  {
    forall t | 0 <= t < |pos|
      ensures pos[t] < |m| && IsLast(m, pos[t])
    {
      assert pos[t] == taken[|taken| - 1 - t];
    }
    forall s, t | 0 <= s < t < |pos|
      ensures pos[s] < pos[t]
    {
      assert pos[s] == taken[|taken| - 1 - s] && pos[t] == taken[|taken| - 1 - t];
    }
  }

  /** Above the first position taken, every last mention is taken. */
  lemma LastNoneSkipped(m: seq<Mention>, all: seq<nat>, taken: seq<nat>, pos: seq<nat>)
    requires forall s, t :: 0 <= s < t < |all| ==> all[s] > all[t]
    requires forall i :: 0 <= i < |m| ==> (IsLast(m, i) <==> i in all)
    requires taken == Take(all, 10)
    requires |pos| == |taken| && forall k :: 0 <= k < |taken| ==> pos[k] == taken[|taken| - 1 - k]
    ensures forall i, t :: 0 <= t < |pos| && pos[t] < i < |m| && IsLast(m, i) ==> i in pos
  {
    forall i, t | 0 <= t < |pos| && pos[t] < i < |m| && IsLast(m, i)
      ensures i in pos
    {
      var u :| 0 <= u < |all| && all[u] == i;
      assert pos[t] == taken[|taken| - 1 - t];
      assert u < |taken| - 1 - t;
      assert pos[|taken| - 1 - u] == i;
    }
  }

  /** The ids of the reversed selection are those of the selection. */
  lemma LastCoverReversed(m: seq<Mention>, taken: seq<nat>, pos: seq<nat>)
    requires forall t :: 0 <= t < |taken| ==> taken[t] < |m|
    requires forall j :: 0 <= j < |m| ==> m[j].item in ItemsOf(Pick(m, taken))
    requires |pos| == |taken| && forall k :: 0 <= k < |taken| ==> pos[k] == taken[|taken| - 1 - k]
    ensures forall j :: 0 <= j < |m| ==> m[j].item in ItemsOf(Pick(m, pos))
  {
    var back := Pick(m, pos);
    forall j | 0 <= j < |m|
      ensures m[j].item in ItemsOf(back)
    {
      var u :| 0 <= u < |taken| && m[taken[u]].item == m[j].item;
      assert back[|taken| - 1 - u] == m[taken[u]];
    }
  }

  /** Every id mentioned below `k` is the id of a first mention below `k`. */
  lemma {:induction false} FirstCover(m: seq<Mention>, k: nat)
    requires k <= |m|
    ensures forall j :: 0 <= j < k ==> m[j].item in ItemsOf(Pick(m, FirstIndices(m, k)))
  {
    if k > 0 {
      FirstCover(m, k - 1);
      var before := Pick(m, FirstIndices(m, k - 1));
      var now := Pick(m, FirstIndices(m, k));
      assert forall t :: 0 <= t < |before| ==> now[t] == before[t];
      forall j | 0 <= j < k
        ensures m[j].item in ItemsOf(now)
      {
        var j' := j;
        if j == k - 1 {
          if IsFirst(m, k - 1) {
            assert now[|before|] == m[k - 1];
          } else {
            j' :| 0 <= j' < k - 1 && m[j'].item == m[k - 1].item;
          }
        }
        if j' < k - 1 {
          var t :| 0 <= t < |before| && before[t].item == m[j'].item;
          assert now[t] == before[t];
        }
      }
    }
  }

  /** Every id mentioned from `k` on is the id of a last mention from `k` on. */
  lemma {:induction false} LastCover(m: seq<Mention>, k: nat)
    requires k <= |m|
    ensures forall j :: k <= j < |m| ==> m[j].item in ItemsOf(Pick(m, LastIndices(m, k)))
    decreases |m| - k
  {
    if k < |m| {
      LastCover(m, k + 1);
      var before := Pick(m, LastIndices(m, k + 1));
      var now := Pick(m, LastIndices(m, k));
      assert forall t :: 0 <= t < |before| ==> now[t] == before[t];
      forall j | k <= j < |m|
        ensures m[j].item in ItemsOf(now)
      {
        var j' := j;
        if j == k {
          if IsLast(m, k) {
            assert now[|before|] == m[k];
          } else {
            j' :| k < j' < |m| && m[j'].item == m[k].item;
          }
        }
        if j' > k {
          var t :| 0 <= t < |before| && before[t].item == m[j'].item;
          assert now[t] == before[t];
        }
      }
    }
  }

  lemma ItemsOfSnoc(ms: seq<Mention>, x: Mention)
    ensures ItemsOf(ms + [x]) == ItemsOf(ms) + {x.item}
  {
    forall y | y in ItemsOf(ms)
      ensures y in ItemsOf(ms + [x])
    {
      var u :| 0 <= u < |ms| && ms[u].item == y;
      assert (ms + [x])[u] == ms[u];
    }
    assert (ms + [x])[|ms|] == x;
  }

  /**
   * One step of the `first_items` loop: mention `i` is taken exactly when
   * its id has not been taken yet and fewer than ten have been.
   */
  lemma FirstStep(m: seq<Mention>, i: nat)
    requires i < |m|
    ensures Pick(m, Take(FirstIndices(m, i + 1), 10)) ==
      var before := Pick(m, Take(FirstIndices(m, i), 10));
      if m[i].item !in ItemsOf(before) && |before| < 10 then before + [m[i]] else before
  {
    var all := FirstIndices(m, i);
    var before := Pick(m, Take(all, 10));
    var after := Pick(m, Take(FirstIndices(m, i + 1), 10));
    if |all| >= 10 {
      assert Take(FirstIndices(m, i + 1), 10) == Take(all, 10);
    } else if IsFirst(m, i) {
      assert m[i].item !in ItemsOf(before) by {
        forall t | 0 <= t < |before|
          ensures before[t].item != m[i].item
        {
          assert before[t] == m[all[t]];
        }
      }
      assert Take(FirstIndices(m, i + 1), 10) == all + [i];
      assert after == before + [m[i]];
    } else {
      FirstCover(m, i);
      var j :| 0 <= j < i && m[j].item == m[i].item;
      assert Take(FirstIndices(m, i + 1), 10) == all;
    }
  }

  /** One step of the `last_items` loop, which walks the mentions backwards. */
  lemma LastStep(m: seq<Mention>, i: nat)
    requires i < |m|
    ensures Pick(m, Take(LastIndices(m, i), 10)) ==
      var before := Pick(m, Take(LastIndices(m, i + 1), 10));
      if m[i].item !in ItemsOf(before) && |before| < 10 then before + [m[i]] else before
  {
    var all := LastIndices(m, i + 1);
    var before := Pick(m, Take(all, 10));
    var after := Pick(m, Take(LastIndices(m, i), 10));
    if |all| >= 10 {
      assert Take(LastIndices(m, i), 10) == Take(all, 10);
    } else if IsLast(m, i) {
      assert m[i].item !in ItemsOf(before) by {
        forall t | 0 <= t < |before|
          ensures before[t].item != m[i].item
        {
          assert before[t] == m[all[t]];
        }
      }
      assert Take(LastIndices(m, i), 10) == all + [i];
      assert after == before + [m[i]];
    } else {
      LastCover(m, i + 1);
      var j :| i < j < |m| && m[j].item == m[i].item;
      assert Take(LastIndices(m, i), 10) == all;
    }
  }

  /** The `first_items` loop (main.py:214-219). */
  method SelectFirstItems(mentions: seq<Mention>) returns (firstItems: seq<Mention>)
    ensures firstItems == FirstItems(mentions)
  {
    var seen: set<int> := {};
    firstItems := [];
    var i := 0;
    while i < |mentions|
      invariant 0 <= i <= |mentions|
      invariant firstItems == Pick(mentions, Take(FirstIndices(mentions, i), 10))
      invariant seen == ItemsOf(firstItems)
    {
      FirstStep(mentions, i);
      var mention := mentions[i];
      if mention.item !in seen && |firstItems| < 10 {
        ItemsOfSnoc(firstItems, mention);
        seen := seen + {mention.item};
        firstItems := firstItems + [mention];
      }
      i := i + 1;
    }
  }

  /** The `last_items` loop (main.py:227-233): walk backwards, then reverse. */
  method SelectLastItems(mentions: seq<Mention>) returns (lastItems: seq<Mention>)
    ensures lastItems == LastItems(mentions)
  {
    var seen: set<int> := {};
    var picked: seq<Mention> := [];
    var i := |mentions|;
    while i > 0
      invariant 0 <= i <= |mentions|
      invariant picked == Pick(mentions, Take(LastIndices(mentions, i), 10))
      invariant seen == ItemsOf(picked)
    {
      i := i - 1;
      LastStep(mentions, i);
      var mention := mentions[i];
      if mention.item !in seen && |picked| < 10 {
        ItemsOfSnoc(picked, mention);
        seen := seen + {mention.item};
        picked := picked + [mention];
      }
    }
    lastItems := Reverse(picked);
  }
}

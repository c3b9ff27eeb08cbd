/**
 * The two tolerant line parsers of the log analyser (main.py:63-109).
 * Each one returns a decoded event or `None`; as Dafny functions they are
 * total, which is the model of "never raises".
 */
module Parsers {
  import opened Wrappers
  import opened Text

  /** One (item type id, amount) pair of an inventory line. */
  datatype ItemPair = ItemPair(item: int, amount: int)

  /** A decoded inventory-log line: `(timestamp, action_type, player_id, items)`. */
  datatype InventoryEvent = InventoryEvent(ts: int, action: string, player: int, items: seq<ItemPair>)

  /** A decoded money-log line: `(timestamp, action_type, player_id, amount, reason)`. */
  datatype MoneyEvent = MoneyEvent(ts: int, action: string, player: int, amount: int, reason: string)

  /** Python's `line[1:end]`: empty when `end` is 0. */
  function TimestampText(line: string, end: nat): string
    requires end <= |line|
  {
    if end >= 1 then line[1..end] else []
  }

  /** Drops one layer of `(`...`)` when the text both starts and ends with them. */
  function Unparen(s: string): (r: string)
    ensures |s| >= 2 && s[0] == '(' && s[|s| - 1] == ')' ==> s == "(" + r + ")"
    ensures !(|s| >= 2 && s[0] == '(' && s[|s| - 1] == ')') ==> r == s
  {
    if |s| >= 1 && s[0] == '(' && s[|s| - 1] == ')' then s[1..|s| - 1] else s
  }

  /** The pair read from tokens `2k` and `2k+1`, or `None` when either is not an integer. */
  function PairAt(tokens: seq<string>, k: nat): Option<ItemPair>
    requires 2 * k + 1 < |tokens|
  {
    match (ParseInt(Strip(tokens[2 * k])), ParseInt(Strip(tokens[2 * k + 1])))
    case (Some(item), Some(amount)) => Some(ItemPair(item, amount))
    case _ => None
  }

  /**
   * The item loop of main.py:83-90: tokens are taken two at a time, a pair
   * with a non-integer token is skipped on its own, an odd last token is ignored.
   */
  function ParsePairs(tokens: seq<string>): (r: seq<ItemPair>)
    ensures |r| <= |tokens| / 2
  {
    if |tokens| < 2 then []
    else
      var rest := ParsePairs(tokens[2..]);
      match PairAt(tokens, 0)
      case Some(p) => [p] + rest
      case None => rest
  }

  /** `parse_inventory_log`: `[<ts>]<action>|<player>,(<item>, <amount>, ...)`. */
  function ParseInventoryLog(line: string): (r: Option<InventoryEvent>)
    ensures r.Some? ==> ']' in line && '|' in line
  {
    if ']' !in line || '|' !in line then None
    else
      var close := Find(line, ']');
      match ParseInt(TimestampText(line, close))
      case None => None
      case Some(ts) => ParseActionAndItems(ts, Strip(line[close + 1..]))
  }

  /** main.py:70-77: the text after `]` is cut at its first `|` into the action and the player-and-items text. */
  function ParseActionAndItems(ts: int, rest: string): Option<InventoryEvent> {
    var parts := SplitN(rest, '|', 1);
    if |parts| < 2 then None else ParsePlayerAndItems(ts, Strip(parts[0]), Strip(parts[1]))
  }

  /** main.py:75-91: the player id before the first `,`, the item list after it. */
  function ParsePlayerAndItems(ts: int, action: string, playerAndItems: string): Option<InventoryEvent> {
    var comma := Find(playerAndItems, ',');
    if comma == -1 then None
    else
      match ParseInt(Strip(playerAndItems[..comma]))
      case None => None
      case Some(player) =>
        var itemsText := Unparen(Strip(playerAndItems[comma + 1..]));
        Some(InventoryEvent(ts, action, player, ParsePairs(Split(itemsText, ','))))
  }

  /** `parse_money_log`: `<ts>|<player>|<action>,<amount>[,<reason>]`. */
  function ParseMoneyLog(line: string): (r: Option<MoneyEvent>)
    ensures r.Some? ==> |Split(Strip(line), '|')| >= 3
  {
    var parts := Split(Strip(line), '|');
    if |parts| < 3 then None else ParseMoneyFields(parts[0], parts[1], parts[2])
  }

  /** main.py:101-107: the first three `|` fields; the third is cut at its first two commas. */
  function ParseMoneyFields(tsText: string, playerText: string, actionText: string): Option<MoneyEvent> {
    match (ParseInt(tsText), ParseInt(playerText))
    case (Some(ts), Some(player)) =>
      var actionParts := SplitN(actionText, ',', 2);
      if |actionParts| < 2 then None
      else
        (match ParseInt(actionParts[1])
         case None => None
         case Some(amount) =>
           var reason := if |actionParts| > 2 then actionParts[2] else "";
           Some(MoneyEvent(ts, Strip(actionParts[0]), player, amount, reason)))
    case _ => None
  }

  // ---------------------------------------------------------------------------
  // The item loop against an index-based reference definition
  // ---------------------------------------------------------------------------

  /** The values of the `Some` entries, in order. */
  function Somes<T>(s: seq<Option<T>>): (r: seq<T>)
    ensures |r| <= |s|
  {
    if s == [] then []
    else (if s[0].Some? then [s[0].value] else []) + Somes(s[1..])
  }

  /** One slot per complete pair of tokens: slot `k` is the pair read from tokens `2k` and `2k+1`. */
  function PairSlots(tokens: seq<string>): (r: seq<Option<ItemPair>>)
    ensures |r| == |tokens| / 2
    ensures forall k :: 0 <= k < |r| ==> r[k] == PairAt(tokens, k)
  {
    seq(|tokens| / 2, k requires 0 <= k < |tokens| / 2 => PairAt(tokens, k))
  }

  /** Python's `range(start, stop, 2)`. */
  function RangeStep2(start: nat, stop: int): seq<nat>
    decreases stop - start
  {
    if start >= stop then [] else [start] + RangeStep2(start + 2, stop)
  }

  lemma {:induction false} RangeStep2Shape(start: nat, stop: int)
    ensures |RangeStep2(start, stop)| == if start >= stop then 0 else (stop - start + 1) / 2
    ensures forall k :: 0 <= k < |RangeStep2(start, stop)| ==> RangeStep2(start, stop)[k] == start + 2 * k
    decreases stop - start
  {
    if start < stop {
      var tail := RangeStep2(start + 2, stop);
      RangeStep2Shape(start + 2, stop);
      assert RangeStep2(start, stop) == [start] + tail;
    }
  }

  /**
   * The loop indices of `range(0, len(parts) - 1, 2)` are exactly `2k` for
   * the slots `k`: one index per complete pair, an odd last token left over.
   */
  lemma PairSlotsRange(tokens: seq<string>)
    ensures |RangeStep2(0, |tokens| - 1)| == |PairSlots(tokens)|
    ensures forall k :: 0 <= k < |PairSlots(tokens)| ==> RangeStep2(0, |tokens| - 1)[k] == 2 * k
  {
    RangeStep2Shape(0, |tokens| - 1);
  }

  /**
   * The recursive item loop keeps exactly the well-formed pairs, in source
   * order: each kept pair is the one read from tokens 2k and 2k+1.
   */
  lemma {:induction false} ParsePairsBySlots(tokens: seq<string>)
    ensures ParsePairs(tokens) == Somes(PairSlots(tokens))
  {
    if |tokens| >= 2 {
      ParsePairsBySlots(tokens[2..]);
      PairSlotsCons(tokens);
    }
  }

  lemma PairSlotsCons(tokens: seq<string>)
    requires |tokens| >= 2
    ensures PairSlots(tokens)[0] == PairAt(tokens, 0)
    ensures PairSlots(tokens)[1..] == PairSlots(tokens[2..])
  {
    var slots, tail := PairSlots(tokens), tokens[2..];
    var tailSlots := PairSlots(tail);
    assert |slots[1..]| == |tailSlots|;
    forall k | 0 <= k < |tailSlots|
      ensures slots[1..][k] == tailSlots[k]
    {
      assert tail[2 * k] == tokens[2 * (k + 1)];
      assert tail[2 * k + 1] == tokens[2 * (k + 1) + 1];
      assert PairAt(tail, k) == PairAt(tokens, k + 1);
    }
  }

  /** When every pair is well-formed, every pair is kept. */
  lemma {:induction false} ParsePairsAll(tokens: seq<string>, items: seq<ItemPair>)
    requires |tokens| == 2 * |items|
    requires forall k :: 0 <= k < |items| ==> PairAt(tokens, k) == Some(items[k])
    ensures ParsePairs(tokens) == items
  {
    if items != [] {
      var tail := tokens[2..];
      forall k | 0 <= k < |items| - 1
        ensures PairAt(tail, k) == Some(items[1..][k])
      {
        assert tail[2 * k] == tokens[2 * (k + 1)];
        assert tail[2 * k + 1] == tokens[2 * (k + 1) + 1];
        assert PairAt(tail, k) == PairAt(tokens, k + 1);
      }
      ParsePairsAll(tail, items[1..]);
      assert PairAt(tokens, 0) == Some(items[0]);
      assert [items[0]] + items[1..] == items;
    }
  }

  // ---------------------------------------------------------------------------
  // The inventory grammar, piece by piece
  // ---------------------------------------------------------------------------

  /** The timestamp is the text between the marker character and the first `]`. */
  lemma InventoryHeader(marker: char, tsText: string, rest: string)
    requires marker != ']' && ']' !in tsText && '|' in rest
    ensures ParseInventoryLog([marker] + tsText + "]" + rest) ==
      match ParseInt(tsText)
      case None => None
      case Some(ts) => ParseActionAndItems(ts, Strip(rest))
  {
    var line := [marker] + tsText + "]" + rest;
    assert line == ([marker] + tsText) + [']'] + rest;
    FindFirst([marker] + tsText, ']', rest);
    assert TimestampText(line, |tsText| + 1) == tsText;
    assert line[|tsText| + 2..] == rest;
  }

  /** The action is everything before the first `|`, stripped. */
  lemma InventoryAction(ts: int, action: string, tail: string)
    requires '|' !in action
    ensures ParseActionAndItems(ts, Strip(action + "|" + tail)) ==
      ParsePlayerAndItems(ts, Strip(action), Strip(tail))
  {
    var left := TrimLeft(action);
    var right := TrimRight(tail);
    StripAround(action, '|', tail);
    StripInside(action, '|');
    SplitNCons(left, '|', right, 0);
    var parts := SplitN(left + "|" + right, '|', 1);
    assert parts == [left, right];
    assert Strip(left) == Strip(action);
    StripTrimRight(tail);
  }

  /** The player id is everything before the first `,`; the items are the rest, stripped and unparenthesised. */
  lemma InventoryPlayer(ts: int, action: string, playerText: string, itemsText: string)
    requires ',' !in playerText
    ensures ParsePlayerAndItems(ts, action, Strip(playerText + "," + itemsText)) ==
      match ParseInt(playerText)
      case None => None
      case Some(player) => Some(InventoryEvent(ts, action, player, ParsePairs(Split(Unparen(Strip(itemsText)), ','))))
  {
    StripAround(playerText, ',', itemsText);
    StripInside(playerText, ',');
    var left := TrimLeft(playerText);
    var pai := left + [','] + TrimRight(itemsText);
    FindFirst(left, ',', TrimRight(itemsText));
    assert pai[..|left|] == left;
    assert pai[|left| + 1..] == TrimRight(itemsText);
    ParseIntStripped(left);
    ParseIntStripped(playerText);
    StripTrimRight(itemsText);
  }

  /**
   * How `parse_inventory_log` reads a line made of a marker character, the
   * timestamp text, `]`, the action, `|`, the player text, `,` and the item
   * text: the line is accepted exactly when both numbers read as integers,
   * and then the action is stripped and the items come from the item text
   * with one layer of parentheses removed.
   */
  lemma InventoryLineShape(marker: char, tsText: string, action: string, playerText: string, itemsText: string)
    requires marker != ']' && ']' !in tsText && '|' !in action && ',' !in playerText
    ensures ParseInventoryLog([marker] + tsText + "]" + action + "|" + playerText + "," + itemsText) ==
      match (ParseInt(tsText), ParseInt(playerText))
      case (Some(ts), Some(player)) =>
        Some(InventoryEvent(ts, Strip(action), player, ParsePairs(Split(Unparen(Strip(itemsText)), ','))))
      case _ => None
  {
    var tail := playerText + "," + itemsText;
    var rest := action + "|" + tail;
    assert [marker] + tsText + "]" + action + "|" + playerText + "," + itemsText == [marker] + tsText + "]" + rest;
    assert rest[|action|] == '|';
    InventoryHeader(marker, tsText, rest);
    match ParseInt(tsText)
    case None =>
    case Some(ts) =>
      InventoryAction(ts, action, tail);
      InventoryPlayer(ts, Strip(action), playerText, itemsText);
  }

  /** A line whose text after the first `]` holds no `|` is rejected. */
  lemma InventoryRejectsNoBar(marker: char, tsText: string, rest: string)
    requires marker != ']' && ']' !in tsText && '|' !in rest
    ensures ParseInventoryLog([marker] + tsText + "]" + rest) == None
  {
    var line := [marker] + tsText + "]" + rest;
    assert line == ([marker] + tsText) + [']'] + rest;
    FindFirst([marker] + tsText, ']', rest);
    assert line[|tsText| + 2..] == rest;
    StripInside(rest, '|');
  }

  /** A line whose timestamp text is not an integer is rejected. */
  lemma InventoryRejectsTimestamp(marker: char, tsText: string, rest: string)
    requires marker != ']' && ']' !in tsText && ParseInt(tsText) == None
    ensures ParseInventoryLog([marker] + tsText + "]" + rest) == None
  {
    var line := [marker] + tsText + "]" + rest;
    assert line == ([marker] + tsText) + [']'] + rest;
    FindFirst([marker] + tsText, ']', rest);
    assert TimestampText(line, |tsText| + 1) == tsText;
  }

  /** A line that starts with `]` has an empty timestamp text, which is no integer, and is rejected. */
  lemma InventoryRejectsEmptyTimestamp(rest: string)
    ensures ParseInventoryLog("]" + rest) == None
  {
    var line := "]" + rest;
    assert Find(line, ']') == 0;
    assert TimestampText(line, 0) == [];
    assert ParseInt([]) == None;
  }

  /** A line whose player-and-items text holds no `,` is rejected. */
  lemma InventoryRejectsNoComma(marker: char, tsText: string, action: string, tail: string)
    requires marker != ']' && ']' !in tsText && '|' !in action && ',' !in tail
    ensures ParseInventoryLog([marker] + tsText + "]" + action + "|" + tail) == None
  {
    var rest := action + "|" + tail;
    assert [marker] + tsText + "]" + action + "|" + tail == [marker] + tsText + "]" + rest;
    assert rest[|action|] == '|';
    InventoryHeader(marker, tsText, rest);
    match ParseInt(tsText)
    case None =>
    case Some(ts) =>
      InventoryAction(ts, action, tail);
      StripInside(tail, ',');
  }

  // ---------------------------------------------------------------------------
  // Round trips: a line written in the log grammar reads back as its event
  // ---------------------------------------------------------------------------

  /** Two tokens per element, in order: `render(x, first)` gives the tokens of `x`. */
  function FlatPairs<T>(xs: seq<T>, render: (T, bool) -> (string, string)): (r: seq<string>)
    ensures |r| == 2 * |xs|
    decreases |xs|
  {
    if xs == [] then []
    else
      var n := |xs| - 1;
      FlatPairs(xs[..n], render) + [render(xs[n], n == 0).0, render(xs[n], n == 0).1]
  }

  /** The tokens of element `k` sit at positions `2k` and `2k + 1`. */
  lemma {:induction false} FlatPairsAt<T>(xs: seq<T>, render: (T, bool) -> (string, string), k: nat)
    requires k < |xs|
    ensures FlatPairs(xs, render)[2 * k] == render(xs[k], k == 0).0
    ensures FlatPairs(xs, render)[2 * k + 1] == render(xs[k], k == 0).1
    decreases |xs|
  {
    var n := |xs| - 1;
    var init := FlatPairs(xs[..n], render);
    assert FlatPairs(xs, render) == init + [render(xs[n], n == 0).0, render(xs[n], n == 0).1];
    if k < n {
      assert xs[..n][k] == xs[k];
      FlatPairsAt(xs[..n], render, k);
    }
  }

  /** When no element's tokens hold `c`, no token does. */
  lemma {:induction false} FlatPairsFree<T>(xs: seq<T>, render: (T, bool) -> (string, string), c: char)
    requires forall k :: 0 <= k < |xs| ==> c !in render(xs[k], k == 0).0 && c !in render(xs[k], k == 0).1
    ensures forall j :: 0 <= j < |FlatPairs(xs, render)| ==> c !in FlatPairs(xs, render)[j]
    decreases |xs|
  {
    if xs != [] {
      var n := |xs| - 1;
      var init := FlatPairs(xs[..n], render);
      forall k | 0 <= k < n
        ensures c !in render(xs[..n][k], k == 0).0 && c !in render(xs[..n][k], k == 0).1
      {
        assert xs[..n][k] == xs[k];
      }
      FlatPairsFree(xs[..n], render, c);
      assert FlatPairs(xs, render) == init + [render(xs[n], n == 0).0, render(xs[n], n == 0).1];
    }
  }

  /** The two tokens of one pair: the item, led by a space unless it is the first, and the amount, led by a space. */
  function PairTokens(pair: ItemPair, first: bool): (string, string) {
    ((if first then "" else " ") + IntToString(pair.item), " " + IntToString(pair.amount))
  }

  /** The flat token list `item, amount, item, amount, ...`, each after the first led by a space. */
  function ItemTokens(items: seq<ItemPair>): (r: seq<string>)
    ensures |r| == 2 * |items|
  {
    FlatPairs(items, PairTokens)
  }

  /** The item list as the log writes it, e.g. `42, 3, 17, 1`. */
  function ItemsText(items: seq<ItemPair>): string {
    if items == [] then "" else Join(ItemTokens(items), ',')
  }

  /** The parenthesised item list, e.g. `(42, 3)`. */
  function ItemsBlock(items: seq<ItemPair>): string {
    "(" + ItemsText(items) + ")"
  }

  /** An inventory line in the log grammar, e.g. `[1700000000]ITEM_ADD|7,(42, 3)`. */
  function FormatInventoryLine(e: InventoryEvent): string {
    "[" + IntToString(e.ts) + "]" + e.action + "|" + IntToString(e.player) + "," + ItemsBlock(e.items)
  }

  /** Actions the inventory grammar can carry: no `|`, no surrounding whitespace. */
  predicate InventoryActionWritable(action: string) {
    '|' !in action && Trimmed(action)
  }

  lemma ItemTokensSplit(items: seq<ItemPair>)
    requires items != []
    ensures Split(ItemsText(items), ',') == ItemTokens(items)
  {
    TokensCommaFree(items);
    SplitJoin(ItemTokens(items), ',');
  }

  /** The tokens of pair `k` sit at positions `2k` and `2k + 1`. */
  lemma TokensAt(items: seq<ItemPair>, k: nat)
    requires k < |items|
    ensures ItemTokens(items)[2 * k] == (if k == 0 then "" else " ") + IntToString(items[k].item)
    ensures ItemTokens(items)[2 * k + 1] == " " + IntToString(items[k].amount)
  {
    FlatPairsAt(items, PairTokens, k);
  }

  /** No token holds a comma, so the commas of the joined text are exactly the separators. */
  lemma TokensCommaFree(items: seq<ItemPair>)
    ensures forall j :: 0 <= j < |ItemTokens(items)| ==> ',' !in ItemTokens(items)[j]
  {
    forall k | 0 <= k < |items|
      ensures ',' !in PairTokens(items[k], k == 0).0 && ',' !in PairTokens(items[k], k == 0).1
    {
      IntToStringShape(items[k].item);
      IntToStringShape(items[k].amount);
    }
    FlatPairsFree(items, PairTokens, ',');
  }

  /** The item text the log writes reads back as the same pairs. */
  lemma ItemTokensRead(items: seq<ItemPair>)
    ensures ParsePairs(Split(ItemsText(items), ',')) == items
  {
    if items == [] {
      assert Split("", ',') == [""];
    } else {
      var tokens := ItemTokens(items);
      ItemTokensSplit(items);
      forall k | 0 <= k < |items|
        ensures PairAt(tokens, k) == Some(items[k])
      {
        PairRead(items, k);
      }
      ParsePairsAll(tokens, items);
    }
  }

  lemma PairRead(items: seq<ItemPair>, k: nat)
    requires k < |items|
    ensures PairAt(ItemTokens(items), k) == Some(items[k])
  {
    var tokens := ItemTokens(items);
    TokensAt(items, k);
    TokenRead(tokens[2 * k], items[k].item);
    TokenRead(tokens[2 * k + 1], items[k].amount);
  }

  lemma TokenRead(token: string, n: int)
    requires token == IntToString(n) || token == " " + IntToString(n)
    ensures ParseInt(Strip(token)) == Some(n)
  {
    ParseIntRoundTrip(n);
    if token != IntToString(n) {
      ParseIntSpaced(n);
    }
  }

  /** Writing an inventory event in the log grammar and parsing it gives the event back. */
  lemma InventoryRoundTrip(e: InventoryEvent)
    requires InventoryActionWritable(e.action)
    ensures ParseInventoryLog(FormatInventoryLine(e)) == Some(e)
  {
    var block := ItemsBlock(e.items);
    IntToStringShape(e.ts);
    IntToStringShape(e.player);
    InventoryLineShape('[', IntToString(e.ts), e.action, IntToString(e.player), block);
    ParseIntRoundTrip(e.ts);
    ParseIntRoundTrip(e.player);
    BlockRead(e.items);
  }

  lemma BlockRead(items: seq<ItemPair>)
    ensures ParsePairs(Split(Unparen(Strip(ItemsBlock(items))), ',')) == items
  {
    var block := ItemsBlock(items);
    assert Trimmed(block);
    assert Unparen(block) == ItemsText(items);
    ItemTokensRead(items);
  }

  // ---------------------------------------------------------------------------
  // The money grammar
  // ---------------------------------------------------------------------------

  /** The first `|` field of `<blob><extra>`, where `extra` is empty or starts a second field. */
  lemma FirstField(blob: string, extra: string)
    requires '|' !in blob
    requires extra == [] || extra[0] == '|'
    ensures Split(blob + extra, '|')[0] == blob
  {
    if extra == [] {
      assert blob + extra == blob;
      assert Find(blob, '|') == -1;
    } else {
      assert blob + extra == blob + "|" + extra[1..];
      SplitCons(blob, '|', extra[1..]);
    }
  }

  /** The first three `|` fields of `<ts>|<player>|<blob><extra>`, where `extra` is empty or starts a fourth field. */
  lemma MoneyFields(tsText: string, playerText: string, blob: string, extra: string)
    requires '|' !in tsText && '|' !in playerText && '|' !in blob
    requires extra == [] || extra[0] == '|'
    ensures var parts := Split(tsText + "|" + (playerText + "|" + (blob + extra)), '|');
      |parts| >= 3 && parts[0] == tsText && parts[1] == playerText && parts[2] == blob
  {
    var rest := blob + extra;
    var third := Split(rest, '|');
    FirstField(blob, extra);
    SplitCons(playerText, '|', rest);
    var second := Split(playerText + "|" + rest, '|');
    assert second == [playerText] + third;
    SplitCons(tsText, '|', playerText + "|" + rest);
    var parts := Split(tsText + "|" + (playerText + "|" + rest), '|');
    assert parts == [tsText] + second;
  }

  /**
   * The action text `<action>,<amount>,<reason>` is cut at its first two
   * commas only; the line is accepted exactly when the timestamp, the player
   * and the amount read as integers.
   */
  lemma MoneyAction(tsText: string, playerText: string, action: string, amountText: string, reason: string)
    requires ',' !in action && ',' !in amountText
    ensures ParseMoneyFields(tsText, playerText, action + "," + (amountText + "," + reason)) ==
      match (ParseInt(tsText), ParseInt(playerText), ParseInt(amountText))
      case (Some(ts), Some(player), Some(amount)) => Some(MoneyEvent(ts, Strip(action), player, amount, reason))
      case _ => None
  {
    ActionParts(action, amountText, reason);
  }

  lemma ActionParts(action: string, amountText: string, reason: string)
    requires ',' !in action && ',' !in amountText
    ensures SplitN(action + "," + (amountText + "," + reason), ',', 2) == [action, amountText, reason]
  {
    var rest := amountText + "," + reason;
    SplitNCons(action, ',', rest, 1);
    SplitNCons(amountText, ',', reason, 0);
    assert SplitN(rest, ',', 1) == [amountText, reason];
  }

  /** With a single comma, `<action>,<amount>` has no reason field and the reason is empty. */
  lemma MoneyNoReason(tsText: string, playerText: string, action: string, amountText: string)
    requires ',' !in action && ',' !in amountText
    ensures ParseMoneyFields(tsText, playerText, action + "," + amountText) ==
      match (ParseInt(tsText), ParseInt(playerText), ParseInt(amountText))
      case (Some(ts), Some(player), Some(amount)) => Some(MoneyEvent(ts, Strip(action), player, amount, ""))
      case _ => None
  {
    SplitNCons(action, ',', amountText, 1);
    SplitNNone(amountText, ',', 1);
    var parts := SplitN(action + "," + amountText, ',', 2);
    assert parts == [action, amountText];
  }

  /**
   * How `parse_money_log` reads a stripped line `<ts>|<player>|<action>,<amount>,<reason>`
   * followed by any further `|` fields: the reason is everything after the
   * second comma, commas included and not stripped; further fields are ignored.
   */
  lemma MoneyLineShape(tsText: string, playerText: string, blob: string, extra: string)
    requires '|' !in tsText && '|' !in playerText && '|' !in blob
    requires extra == [] || extra[0] == '|'
    requires Trimmed(tsText + "|" + (playerText + "|" + (blob + extra)))
    ensures ParseMoneyLog(tsText + "|" + (playerText + "|" + (blob + extra))) ==
      ParseMoneyFields(tsText, playerText, blob)
  {
    var line := tsText + "|" + (playerText + "|" + (blob + extra));
    assert Strip(line) == line;
    MoneyFields(tsText, playerText, blob, extra);
  }

  /** `parse_money_log` strips the line itself, so stripping it first changes nothing. */
  lemma MoneyStripped(line: string)
    ensures ParseMoneyLog(Strip(line)) == ParseMoneyLog(line)
  {
  }

  /** A money line in the log grammar, e.g. `1700000000|7|MONEY_ADD,500,bonus`. */
  function FormatMoneyLine(e: MoneyEvent): string {
    IntToString(e.ts) + "|" + IntToString(e.player) + "|" + e.action + "," + IntToString(e.amount) + "," + e.reason
  }

  /** Events the money grammar can carry: no `|` anywhere, no `,` in the action, nothing stripped away. */
  predicate MoneyEventWritable(e: MoneyEvent) {
    '|' !in e.action && ',' !in e.action && Trimmed(e.action) &&
    '|' !in e.reason && (e.reason == [] || !IsSpace(e.reason[|e.reason| - 1]))
  }

  /** Writing a money event in the log grammar and parsing it gives the event back. */
  lemma MoneyRoundTrip(e: MoneyEvent)
    requires MoneyEventWritable(e)
    ensures ParseMoneyLog(FormatMoneyLine(e)) == Some(e)
  {
    var tsText, playerText := IntToString(e.ts), IntToString(e.player);
    var blob := e.action + "," + (IntToString(e.amount) + "," + e.reason);
    var line := tsText + "|" + (playerText + "|" + (blob + []));
    IntToStringShape(e.ts);
    IntToStringShape(e.player);
    IntToStringShape(e.amount);
    MoneyLineWritten(e);
    MoneyLineShape(tsText, playerText, blob, []);
    MoneyAction(tsText, playerText, e.action, IntToString(e.amount), e.reason);
    ParseIntRoundTrip(e.ts);
    ParseIntRoundTrip(e.player);
    ParseIntRoundTrip(e.amount);
  }

  lemma MoneyLineWritten(e: MoneyEvent)
    requires MoneyEventWritable(e)
    ensures '|' !in e.action + "," + (IntToString(e.amount) + "," + e.reason)
    ensures FormatMoneyLine(e) == IntToString(e.ts) + "|" + (IntToString(e.player) + "|" +
      (e.action + "," + (IntToString(e.amount) + "," + e.reason) + []))
    ensures Trimmed(FormatMoneyLine(e))
  {
    var line := FormatMoneyLine(e);
    IntToStringShape(e.ts);
    IntToStringShape(e.player);
    IntToStringShape(e.amount);
    assert line[0] == IntToString(e.ts)[0];
    assert line[|line| - 1] == (IntToString(e.amount) + "," + e.reason)[|IntToString(e.amount) + "," + e.reason| - 1];
  }

  /** A money line whose third field has no `,` has no amount and is rejected. */
  lemma MoneyRejectsMissingAmount(tsText: string, playerText: string, blob: string)
    requires '|' !in tsText && '|' !in playerText && '|' !in blob && ',' !in blob
    requires Trimmed(tsText + "|" + (playerText + "|" + blob))
    ensures ParseMoneyLog(tsText + "|" + (playerText + "|" + blob)) == None
  {
    assert blob + [] == blob;
    MoneyLineShape(tsText, playerText, blob, []);
    SplitNNone(blob, ',', 2);
  }
}

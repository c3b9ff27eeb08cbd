/**
 * The chronological merge of main.py:166-184: every parsable line of both
 * logs becomes an entry tagged with its timestamp and a rank (0 for the
 * inventory log, 1 for the money log), and the list is sorted in place,
 * stably, on the key (timestamp, rank).
 */
module Merge {
  import opened Wrappers
  import opened Text
  import opened Parsers
  import opened Replay

  /**
   * One line of the combined log. `text` is the line without its rendered
   * timestamp prefix, which `strftime` produces.
   */
  datatype Entry = Entry(ts: int, rank: int, text: string)

  /** One item pair as the combined log prints it, e.g. `(42, 3)`. */
  function PairText(pair: ItemPair): string {
    "(" + IntToString(pair.item) + ", " + IntToString(pair.amount) + ")"
  }

  /** The pairs joined by single spaces (main.py:174). */
  function PairsText(items: seq<ItemPair>): string {
    if items == [] then "" else Join(seq(|items|, k requires 0 <= k < |items| => PairText(items[k])), ' ')
  }

  /** The entry of an inventory event (main.py:175): rank 0. */
  function InventoryEntry(e: InventoryEvent): (r: Entry)
    ensures r.ts == e.ts && r.rank == 0
  {
    Entry(e.ts, 0, IntToString(e.player) + " | " + e.action + " " + PairsText(e.items))
  }

  /** The entry of a money event (main.py:183): rank 1. */
  function MoneyEntry(e: MoneyEvent): (r: Entry)
    ensures r.ts == e.ts && r.rank == 1
  {
    Entry(e.ts, 1, IntToString(e.player) + " | " + e.action + " | " + IntToString(e.amount) + " | " + e.reason)
  }

  function InventoryEntries(events: seq<InventoryEvent>): seq<Entry> {
    if events == [] then [] else InventoryEntries(events[..|events| - 1]) + [InventoryEntry(events[|events| - 1])]
  }

  function MoneyEntries(events: seq<MoneyEvent>): seq<Entry> {
    if events == [] then [] else MoneyEntries(events[..|events| - 1]) + [MoneyEntry(events[|events| - 1])]
  }

  /** The entries before sorting: the inventory log's, then the money log's, each in file order. */
  function Unsorted(inventoryLines: seq<string>, moneyLines: seq<string>): seq<Entry> {
    InventoryEntries(InventoryEvents(inventoryLines)) + MoneyEntries(MoneyEvents(moneyLines))
  }

  // ---------------------------------------------------------------------------
  // The sort key and what a stable sort promises
  // ---------------------------------------------------------------------------

  /** `(x.ts, x.rank) <= (y.ts, y.rank)`, compared as Python compares tuples. */
  predicate Precedes(x: Entry, y: Entry) {
    x.ts < y.ts || (x.ts == y.ts && x.rank <= y.rank)
  }

  predicate Sorted(s: seq<Entry>) {
    forall i, j :: 0 <= i < j < |s| ==> Precedes(s[i], s[j])
  }

  /** The entries of `s` whose key is `(ts, rank)`, in their order in `s`. */
  function WithKey(s: seq<Entry>, ts: int, rank: int): (r: seq<Entry>)
    ensures |r| <= |s|
  {
    if s == [] then []
    else
      var last := s[|s| - 1];
      WithKey(s[..|s| - 1], ts, rank) + if last.ts == ts && last.rank == rank then [last] else []
  }

  /** Every key has the same entries, in the same order, in `s` and in `t`. */
  ghost predicate SameRuns(s: seq<Entry>, t: seq<Entry>) {
    forall ts, rank :: WithKey(s, ts, rank) == WithKey(t, ts, rank)
  }

  // ---------------------------------------------------------------------------
  // Building the list (main.py:166-183)
  // ---------------------------------------------------------------------------

  /**
   * The two reading loops of main.py:166-183. Unlike the replay, they parse
   * `line.strip()` without skipping blank lines first; a blank line does not
   * parse either, so the events are the replay's.
   */
  method CollectEntries(inventoryLines: seq<string>, moneyLines: seq<string>) returns (log: seq<Entry>)
    ensures log == Unsorted(inventoryLines, moneyLines)
  {
    var inventoryEntries := ReadInventoryEntries(inventoryLines);
    var moneyEntries := ReadMoneyEntries(moneyLines);
    log := inventoryEntries + moneyEntries;
  }

  /** The inventory loop (main.py:167-175): one entry per parsable line, appended in file order. */
  method ReadInventoryEntries(lines: seq<string>) returns (r: seq<Entry>)
    ensures r == InventoryEntries(InventoryEvents(lines))
  {
    r := [];
    var i := 0;
    while i < |lines|
      invariant 0 <= i <= |lines|
      invariant r == InventoryEntries(InventoryEvents(lines[..i]))
    {
      InventoryEntriesStep(lines, i);
      var more := InventoryLineEntry(lines[i]);
      r := r + more;
      i := i + 1;
    }
    assert lines[..i] == lines;
  }

  /** The body of the inventory loop: the entry of one line, if it parses. */
  method InventoryLineEntry(raw: string) returns (r: seq<Entry>)
    ensures r == InventoryLineEntries(raw)
  {
    BlankUnparsed(raw);
    var parsed := ParseInventoryLog(Strip(raw));
    if parsed.Some? {
      r := [InventoryEntry(parsed.value)];
    } else {
      r := [];
    }
  }

  /** The money loop (main.py:176-183). */
  method ReadMoneyEntries(lines: seq<string>) returns (r: seq<Entry>)
    ensures r == MoneyEntries(MoneyEvents(lines))
  {
    r := [];
    var i := 0;
    while i < |lines|
      invariant 0 <= i <= |lines|
      invariant r == MoneyEntries(MoneyEvents(lines[..i]))
    {
      MoneyEntriesStep(lines, i);
      var more := MoneyLineEntry(lines[i]);
      r := r + more;
      i := i + 1;
    }
    assert lines[..i] == lines;
  }

  /** The body of the money loop. */
  method MoneyLineEntry(raw: string) returns (r: seq<Entry>)
    ensures r == MoneyLineEntries(raw)
  {
    BlankUnparsed(raw);
    var parsed := ParseMoneyLog(Strip(raw));
    if parsed.Some? {
      r := [MoneyEntry(parsed.value)];
    } else {
      r := [];
    }
  }

  /** The entries one inventory line contributes: one if it parses, none otherwise. */
  function InventoryLineEntries(raw: string): seq<Entry> {
    match ReadInventoryLine(raw)
    case Some(e) => [InventoryEntry(e)]
    case None => []
  }

  function MoneyLineEntries(raw: string): seq<Entry> {
    match ReadMoneyLine(raw)
    case Some(e) => [MoneyEntry(e)]
    case None => []
  }

  /** The merge's reading of a line agrees with the replay's: a blank line does not parse. */
  lemma BlankUnparsed(raw: string)
    ensures ParseInventoryLog(Strip(raw)) == ReadInventoryLine(raw)
    ensures ParseMoneyLog(Strip(raw)) == ReadMoneyLine(raw)
  {
    if Strip(raw) == [] {
      assert Split([], '|') == [[]];
    }
  }

  /** One more inventory line adds the entry of its event, if it has one. */
  lemma InventoryEntriesStep(lines: seq<string>, i: nat)
    requires i < |lines|
    ensures InventoryEntries(InventoryEvents(lines[..i + 1])) ==
      InventoryEntries(InventoryEvents(lines[..i])) + InventoryLineEntries(lines[i])
  {
    assert lines[..i + 1][..i] == lines[..i];
    var events := InventoryEvents(lines[..i]);
    match ReadInventoryLine(lines[i])
    case Some(e) =>
      assert (events + [e])[..|events|] == events;
    case None =>
      assert InventoryEntries(events) + [] == InventoryEntries(events);
  }

  lemma MoneyEntriesStep(lines: seq<string>, i: nat)
    requires i < |lines|
    ensures MoneyEntries(MoneyEvents(lines[..i + 1])) ==
      MoneyEntries(MoneyEvents(lines[..i])) + MoneyLineEntries(lines[i])
  {
    assert lines[..i + 1][..i] == lines[..i];
    var events := MoneyEvents(lines[..i]);
    match ReadMoneyLine(lines[i])
    case Some(e) =>
      assert (events + [e])[..|events|] == events;
    case None =>
      assert MoneyEntries(events) + [] == MoneyEntries(events);
  }

  // ---------------------------------------------------------------------------
  // Sorting in place (main.py:184)
  // ---------------------------------------------------------------------------

  /**
   * `combined_log.sort(key=lambda x: (x[0], x[1]))`: sorted on the key, a
   * permutation of the list it started from, and stable.
   */
  method SortLog(a: array<Entry>)
    modifies a
    ensures Sorted(a[..])
    ensures multiset(a[..]) == multiset(old(a[..]))
    ensures SameRuns(a[..], old(a[..]))
  {
    var i := 0;
    while i < a.Length
      invariant 0 <= i <= a.Length
      invariant Sorted(a[..i])
      invariant SameRuns(a[..], old(a[..]))
    {
      Sink(a, i);
      i := i + 1;
    }
    assert a[..i] == a[..];
    RunsPermutation(a[..], old(a[..]));
  }

  /**
   * Halfway through sinking `s[i]` to position `j`: the entries before it are
   * sorted, it and the entries it has passed are sorted, and the entry before
   * it precedes the one it last passed.
   */
  ghost predicate Sinking(s: seq<Entry>, i: nat, j: nat) {
    j <= i < |s| && Sorted(s[..j]) && Sorted(s[j..i + 1]) && (0 < j < i ==> Precedes(s[j - 1], s[j + 1]))
  }

  /** Move `a[i]` left past every entry with a larger key: one step of a stable insertion sort. */
  method Sink(a: array<Entry>, i: nat)
    requires i < a.Length && Sorted(a[..i])
    modifies a
    ensures Sorted(a[..i + 1])
    ensures SameRuns(a[..], old(a[..]))
  {
    var j: nat := i;
    assert a[i..i + 1] == [a[i]];
    while j > 0 && !Precedes(a[j - 1], a[j])
      invariant Sinking(a[..], i, j)
      invariant SameRuns(a[..], old(a[..]))
    {
      ghost var before := a[..];
      a[j - 1], a[j] := a[j], a[j - 1];
      assert a[..] == before[j - 1 := before[j]][j := before[j - 1]];
      SwapRuns(before, j);
      RunsTransitive(a[..], before, old(a[..]));
      SwapSorted(before, i, j);
      j := j - 1;
    }
    SortedJoin(a[..], i, j);
  }

  lemma RunsTransitive(s: seq<Entry>, t: seq<Entry>, u: seq<Entry>)
    requires SameRuns(s, t) && SameRuns(t, u)
    ensures SameRuns(s, u)
  {
  }

  /** The swap moves the sinking entry one place left and keeps both sorted parts sorted. */
  lemma SwapSorted(s: seq<Entry>, i: nat, j: nat)
    requires 0 < j && Sinking(s, i, j) && !Precedes(s[j - 1], s[j])
    ensures Sinking(s[j - 1 := s[j]][j := s[j - 1]], i, j - 1)
  {
    var t := s[j - 1 := s[j]][j := s[j - 1]];
    var v := s[j..i + 1];
    var u := t[j - 1..i + 1];
    assert |u| == |v| + 1;
    assert u[0] == s[j] == v[0] && u[1] == s[j - 1];
    assert forall x :: 2 <= x < |u| ==> u[x] == s[j - 1 + x] == v[x - 1];
    forall x, y | 0 <= x < y < |u|
      ensures Precedes(u[x], u[y])
    {
      if x == 0 {
        if y > 1 {
          assert u[y] == v[y - 1];
        }
      } else if x == 1 {
        assert u[y] == v[y - 1] && v[1] == s[j + 1];
        if y > 2 {
          assert Precedes(v[1], v[y - 1]);
        }
      } else {
        assert u[x] == v[x - 1] && u[y] == v[y - 1];
      }
    }
    var w := s[..j];
    assert t[..j - 1] == w[..j - 1];
    if 1 < j {
      assert t[j - 2] == w[j - 2] && t[j] == w[j - 1];
    }
  }

  lemma WithKeyAppend(s: seq<Entry>, t: seq<Entry>, ts: int, rank: int)
    ensures WithKey(s + t, ts, rank) == WithKey(s, ts, rank) + WithKey(t, ts, rank)
    decreases |t|
  {
    if t == [] {
      assert s + t == s;
    } else {
      assert (s + t)[..|s + t| - 1] == s + t[..|t| - 1];
      WithKeyAppend(s, t[..|t| - 1], ts, rank);
    }
  }

  /** Swapping two neighbours with different keys leaves every key's run alone. */
  lemma SwapRuns(s: seq<Entry>, j: nat)
    requires 0 < j < |s| && !Precedes(s[j - 1], s[j])
    ensures SameRuns(s[j - 1 := s[j]][j := s[j - 1]], s)
  {
    var t := s[j - 1 := s[j]][j := s[j - 1]];
    var pre, post := s[..j - 1], s[j + 1..];
    assert s == pre + [s[j - 1], s[j]] + post;
    assert t == pre + [s[j], s[j - 1]] + post;
    forall ts, rank
      ensures WithKey(t, ts, rank) == WithKey(s, ts, rank)
    {
      SwapRunsKey(pre, s[j - 1], s[j], post, ts, rank);
    }
  }

  /** One key's run of `pre + [x, y] + post` and of `pre + [y, x] + post`, when `x` and `y` have different keys. */
  lemma SwapRunsKey(pre: seq<Entry>, x: Entry, y: Entry, post: seq<Entry>, ts: int, rank: int)
    requires x.ts != y.ts || x.rank != y.rank
    ensures WithKey(pre + [y, x] + post, ts, rank) == WithKey(pre + [x, y] + post, ts, rank)
  {
    WithKeyAppend(pre + [x, y], post, ts, rank);
    WithKeyAppend(pre, [x, y], ts, rank);
    WithKeyAppend(pre + [y, x], post, ts, rank);
    WithKeyAppend(pre, [y, x], ts, rank);
    assert [x, y][..1] == [x];
    assert [y, x][..1] == [y];
  }

  /** A sorted prefix and a sorted suffix whose seam is in order make a sorted whole. */
  lemma SortedJoin(s: seq<Entry>, i: nat, j: nat)
    requires Sinking(s, i, j)
    requires j > 0 ==> Precedes(s[j - 1], s[j])
    ensures Sorted(s[..i + 1])
  {
    forall x, y | 0 <= x < y <= i
      ensures Precedes(s[x], s[y])
    {
      if y < j {
        assert s[..j][x] == s[x] && s[..j][y] == s[y];
      } else if j <= x {
        assert s[j..i + 1][x - j] == s[x] && s[j..i + 1][y - j] == s[y];
      } else {
        assert s[..j][x] == s[x] && s[..j][j - 1] == s[j - 1];
        assert s[j..i + 1][y - j] == s[y] && s[j..i + 1][0] == s[j];
      }
    }
  }

  // ---------------------------------------------------------------------------
  // The whole merge
  // ---------------------------------------------------------------------------

  /**
   * main.py:166-184: the entries of both logs, sorted stably on
   * (timestamp, rank). At equal timestamps every inventory entry comes
   * before every money entry, and entries with equal keys keep their file
   * order.
   */
  method CombinedLog(inventoryLines: seq<string>, moneyLines: seq<string>) returns (log: array<Entry>)
    ensures fresh(log)
    ensures Sorted(log[..])
    ensures multiset(log[..]) == multiset(Unsorted(inventoryLines, moneyLines))
    ensures SameRuns(log[..], Unsorted(inventoryLines, moneyLines))
  {
    var entries := CollectEntries(inventoryLines, moneyLines);
    log := new Entry[|entries|](k requires 0 <= k < |entries| => entries[k]);
    assert log[..] == entries;
    SortLog(log);
  }

  /**
   * Sortedness and stability fix the result: two sorted lists with the same
   * entries for every key are equal. So any stable sort on this key, the
   * one in the model or Python's own, gives the same combined log.
   */
  lemma {:induction false} SortedRunsUnique(s: seq<Entry>, t: seq<Entry>)
    requires Sorted(s) && Sorted(t) && SameRuns(s, t)
    ensures s == t
    decreases |s| + |t|
  {
    if s == [] && t == [] {
    } else if s == [] {
      NonEmptyRun(t);
      assert false;
    } else if t == [] {
      NonEmptyRun(s);
      assert false;
    } else {
      var x, y := s[|s| - 1], t[|t| - 1];
      var s0, t0 := s[..|s| - 1], t[..|t| - 1];
      assert s == s0 + [x] && t == t0 + [y];
      LastIsMax(s, t, x.ts, x.rank);
      LastIsMax(t, s, y.ts, y.rank);
      assert x.ts == y.ts && x.rank == y.rank;
      SameLast(s, t);
      DropLastRuns(s, t);
      assert Sorted(s0) && Sorted(t0);
      SortedRunsUnique(s0, t0);
    }
  }

  /** When the last entries share a key, the agreement of the runs makes them the same entry. */
  lemma SameLast(s: seq<Entry>, t: seq<Entry>)
    requires s != [] && t != [] && SameRuns(s, t)
    requires s[|s| - 1].ts == t[|t| - 1].ts && s[|s| - 1].rank == t[|t| - 1].rank
    ensures s[|s| - 1] == t[|t| - 1]
  {
    var x, y := s[|s| - 1], t[|t| - 1];
    var a, b := WithKey(s[..|s| - 1], x.ts, x.rank), WithKey(t[..|t| - 1], x.ts, x.rank);
    assert WithKey(s, x.ts, x.rank) == a + [x];
    assert WithKey(t, x.ts, x.rank) == b + [y];
    assert a + [x] == b + [y];
    assert x == (a + [x])[|a|] == (b + [y])[|b|] == y;
  }

  /** Dropping the same last entry from both keeps the runs in agreement. */
  lemma DropLastRuns(s: seq<Entry>, t: seq<Entry>)
    requires s != [] && t != [] && SameRuns(s, t) && s[|s| - 1] == t[|t| - 1]
    ensures SameRuns(s[..|s| - 1], t[..|t| - 1])
  {
    var x, s0, t0 := s[|s| - 1], s[..|s| - 1], t[..|t| - 1];
    forall ts, rank
      ensures WithKey(s0, ts, rank) == WithKey(t0, ts, rank)
    {
      var u, v := WithKey(s0, ts, rank), WithKey(t0, ts, rank);
      assert WithKey(s, ts, rank) == WithKey(t, ts, rank);
      if ts == x.ts && rank == x.rank {
        assert u + [x] == v + [x];
        assert u == (u + [x])[..|u|] == (v + [x])[..|v|] == v;
      } else {
        assert u + [] == u && v + [] == v;
      }
    }
  }

  /** Lists that agree on every key's run are permutations of each other. */
  lemma RunsPermutation(s: seq<Entry>, t: seq<Entry>)
    requires SameRuns(s, t)
    ensures multiset(s) == multiset(t)
  {
    forall x
      ensures multiset(s)[x] == multiset(t)[x]
    {
      CountInRun(s, x);
      CountInRun(t, x);
      assert WithKey(s, x.ts, x.rank) == WithKey(t, x.ts, x.rank);
    }
  }

  /** Every copy of `x` in `s` sits in the run of `x`'s own key. */
  lemma {:induction false} CountInRun(s: seq<Entry>, x: Entry)
    ensures multiset(s)[x] == multiset(WithKey(s, x.ts, x.rank))[x]
    decreases |s|
  {
    if s != [] {
      var s0 := s[..|s| - 1];
      assert s == s0 + [s[|s| - 1]];
      CountInRun(s0, x);
    }
  }

  /** An entry's own key has a non-empty run. */
  lemma {:induction false} NonEmptyRun(s: seq<Entry>)
    requires s != []
    ensures WithKey(s, s[0].ts, s[0].rank) != []
    decreases |s|
  {
    if |s| > 1 {
      var s0 := s[..|s| - 1];
      assert s0[0] == s[0];
      NonEmptyRun(s0);
    }
  }

  /** Some entry of `s` has key `(ts, rank)` when that key's run is non-empty. */
  lemma {:induction false} RunMember(s: seq<Entry>, ts: int, rank: int) returns (i: nat)
    requires WithKey(s, ts, rank) != []
    ensures i < |s| && s[i].ts == ts && s[i].rank == rank
    decreases |s|
  {
    var last := s[|s| - 1];
    if last.ts == ts && last.rank == rank {
      i := |s| - 1;
    } else {
      assert WithKey(s, ts, rank) == WithKey(s[..|s| - 1], ts, rank) + [];
      i := RunMember(s[..|s| - 1], ts, rank);
    }
  }

  /** The key of the last entry of a sorted `s` is no smaller than any key occurring in `t` when the runs agree. */
  lemma LastIsMax(s: seq<Entry>, t: seq<Entry>, ts: int, rank: int)
    requires s != [] && t != [] && Sorted(s) && SameRuns(s, t)
    requires ts == s[|s| - 1].ts && rank == s[|s| - 1].rank
    ensures Precedes(t[|t| - 1], s[|s| - 1])
  {
    var y := t[|t| - 1];
    NonEmptyRun(t[|t| - 1..]);
    WithKeyAppend(t[..|t| - 1], t[|t| - 1..], y.ts, y.rank);
    assert t == t[..|t| - 1] + t[|t| - 1..];
    assert WithKey(s, y.ts, y.rank) == WithKey(t, y.ts, y.rank);
    var i := RunMember(s, y.ts, y.rank);
    if i < |s| - 1 {
      assert Precedes(s[i], s[|s| - 1]);
    }
  }
}

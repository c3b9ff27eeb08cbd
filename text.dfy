/**
 * The string primitives the log parsers are built from, as Python's
 * `str.strip`, `str.find`, `str.split` and `int` behave on them.
 */
module Text {
  import opened Wrappers

  /** The characters Python's `str.strip()` and `int()` treat as whitespace. */
  predicate IsSpace(c: char) {
    c == ' ' || c == '\t' || c == '\n' || c == '\r' || c == '\U{B}' || c == '\U{C}'
  }

  /** No whitespace at either end: `Strip` leaves such a string alone. */
  predicate Trimmed(s: string) {
    s == [] || (!IsSpace(s[0]) && !IsSpace(s[|s| - 1]))
  }

  function TrimLeft(s: string): (r: string)
    ensures |r| <= |s|
    ensures r == [] || !IsSpace(r[0])
    ensures s == [] || !IsSpace(s[0]) ==> r == s
  {
    if s == [] || !IsSpace(s[0]) then s else TrimLeft(s[1..])
  }

  function TrimRight(s: string): (r: string)
    ensures |r| <= |s|
    ensures r == [] || !IsSpace(r[|r| - 1])
    ensures s == [] || !IsSpace(s[|s| - 1]) ==> r == s
  {
    if s == [] || !IsSpace(s[|s| - 1]) then s else TrimRight(s[..|s| - 1])
  }

  /** Python's `s.strip()`. */
  function Strip(s: string): (r: string)
    ensures |r| <= |s|
    ensures Trimmed(r)
    ensures Trimmed(s) ==> r == s
  {
    TrimRightPrefix(TrimLeft(s));
    TrimRight(TrimLeft(s))
  }

  /** Python's `s.find(c)`: the first index of `c`, or -1 when it does not occur. */
  function Find(s: string, c: char): (r: int)
    ensures r == -1 <==> c !in s
    ensures r != -1 ==> 0 <= r < |s| && s[r] == c && c !in s[..r]
  {
    if s == [] then -1
    else if s[0] == c then 0
    else
      var k := Find(s[1..], c);
      assert s[1..][..if k == -1 then 0 else k] == s[1..if k == -1 then 1 else k + 1];
      if k == -1 then -1 else k + 1
  }

  /**
   * Python's `s.split(c, maxsplit)`: cut at the first `maxsplit` occurrences
   * of `c`; the last piece keeps any further occurrences.
   */
  function SplitN(s: string, c: char, maxsplit: nat): (r: seq<string>)
    ensures 1 <= |r| <= maxsplit + 1
    decreases |s|
  {
    var k := Find(s, c);
    if maxsplit == 0 || k == -1 then [s] else [s[..k]] + SplitN(s[k + 1..], c, maxsplit - 1)
  }

  /** Python's `s.split(c)`: cut at every occurrence of `c`. */
  function Split(s: string, c: char): (r: seq<string>)
    ensures |r| >= 1
    decreases |s|
  {
    var k := Find(s, c);
    if k == -1 then [s] else [s[..k]] + Split(s[k + 1..], c)
  }

  /** The inverse of `Split` on pieces that do not hold the separator. */
  function Join(parts: seq<string>, c: char): (r: string)
    requires |parts| >= 1
    decreases |parts|
  {
    if |parts| == 1 then parts[0] else parts[0] + [c] + Join(parts[1..], c)
  }

  predicate IsDigit(c: char) {
    '0' <= c <= '9'
  }

  predicate AllDigits(s: string) {
    forall i :: 0 <= i < |s| ==> IsDigit(s[i])
  }

  function DigitValue(c: char): nat {
    if IsDigit(c) then c as int - '0' as int else 0
  }

  /** The value of a run of decimal digits, most significant first. */
  function DigitsValue(s: string): nat {
    if s == [] then 0 else DigitsValue(s[..|s| - 1]) * 10 + DigitValue(s[|s| - 1])
  }

  /**
   * A sign-and-digits token with no surrounding whitespace. Whitespace between
   * the sign and the digits is skipped, as Python 2's `int` skips it.
   */
  function ParseSigned(t: string): Option<int> {
    var signed := |t| > 0 && (t[0] == '-' || t[0] == '+');
    var digits := if signed then TrimLeft(t[1..]) else t;
    if digits == [] || !AllDigits(digits) then None
    else
      var v: int := DigitsValue(digits);
      Some(if signed && t[0] == '-' then -v else v)
  }

  /**
   * Python's `int(s)` on base-10 text: surrounding whitespace, an optional
   * sign, whitespace after the sign and at least one decimal digit; anything else is `None`
   * (the `ValueError` the callers catch).
   */
  function ParseInt(s: string): Option<int> {
    ParseSigned(Strip(s))
  }

  function DigitChar(d: nat): (c: char)
    requires d < 10
    ensures IsDigit(c) && DigitValue(c) == d
  {
    (d + '0' as int) as char
  }

  /** Python's `str(n)` / `"{}".format(n)` for a natural number. */
  function NatToString(n: nat): (r: string)
    ensures |r| >= 1
  {
    if n < 10 then [DigitChar(n)] else NatToString(n / 10) + [DigitChar(n % 10)]
  }

  /** Python's `str(n)` for any integer: a minus sign before the digits of a negative number. */
  function IntToString(n: int): (r: string)
    ensures |r| >= 1
  {
    var digits := NatToString(if n < 0 then -n else n);
    if n < 0 then "-" + digits else digits
  }

  /** `str(n)` of a natural number is made of decimal digits only. */
  lemma {:induction false} NatToStringDigits(n: nat)
    ensures AllDigits(NatToString(n))
  {
    if n >= 10 {
      NatToStringDigits(n / 10);
      var s := NatToString(n);
      assert s[..|s| - 1] == NatToString(n / 10);
    }
  }

  /**
   * `str(n)` has no surrounding whitespace and none of the separators of the
   * log grammars, so it reads back as one field.
   */
  lemma IntToStringShape(n: int)
    ensures Trimmed(IntToString(n))
    ensures ',' !in IntToString(n) && '|' !in IntToString(n) && ']' !in IntToString(n) && '(' !in IntToString(n)
  {
    var digits := NatToString(if n < 0 then -n else n);
    NatToStringDigits(if n < 0 then -n else n);
    assert forall i :: 0 <= i < |digits| ==> IsDigit(digits[i]);
  }

  lemma {:induction false} NatToStringValue(n: nat)
    ensures DigitsValue(NatToString(n)) == n
  {
    if n >= 10 {
      NatToStringValue(n / 10);
      var s := NatToString(n);
      assert s[..|s| - 1] == NatToString(n / 10);
    }
  }

  lemma ParseIntNegative(d: string)
    requires d != [] && AllDigits(d)
    ensures ParseInt("-" + d) == Some(-(DigitsValue(d) as int))
  {
    var s := "-" + d;
    assert IsDigit(d[0]) && IsDigit(d[|d| - 1]);
    assert s[|s| - 1] == d[|d| - 1];
    assert Trimmed(s);
    assert s[1..] == d;
    assert TrimLeft(d) == d;
  }

  lemma ParseIntNonNegative(d: string)
    requires d != [] && AllDigits(d)
    ensures ParseInt(d) == Some(DigitsValue(d) as int)
  {
    assert IsDigit(d[0]) && IsDigit(d[|d| - 1]);
    assert Strip(d) == d;
    assert !(d[0] == '-' || d[0] == '+');
  }

  /** Whitespace between the sign and the digits is skipped: `int('- 5') == -5`. */
  lemma ParseIntSignSpace(d: string)
    requires d != [] && AllDigits(d)
    ensures ParseInt("- " + d) == Some(-(DigitsValue(d) as int))
  {
    var s := "- " + d;
    assert s[|s| - 1] == d[|d| - 1];
    assert Trimmed(s);
    assert s[1..] == " " + d;
    SpaceDigits(d);
  }

  lemma SpaceDigits(d: string)
    requires d != [] && AllDigits(d)
    ensures TrimLeft(" " + d) == d
  {
    assert (" " + d)[1..] == d;
    assert IsDigit(d[0]);
  }

  /** `int(str(n)) == n`: rendering an integer and reading it back is the identity. */
  lemma ParseIntRoundTrip(n: int)
    ensures ParseInt(IntToString(n)) == Some(n)
  {
    var m: nat := if n < 0 then -n else n;
    NatToStringValue(m);
    NatToStringDigits(m);
    if n < 0 {
      ParseIntNegative(NatToString(m));
    } else {
      ParseIntNonNegative(NatToString(m));
    }
  }

  /** A space before the digits does not change what `int` reads. */
  lemma ParseIntSpaced(n: int)
    ensures ParseInt(" " + IntToString(n)) == Some(n)
    ensures Strip(" " + IntToString(n)) == IntToString(n)
  {
    var s := IntToString(n);
    IntToStringShape(n);
    assert (" " + s)[1..] == s;
    assert TrimLeft(" " + s) == TrimLeft(s);
    assert Strip(" " + s) == Strip(s);
    ParseIntRoundTrip(n);
  }

  /** `find` stops at the first separator. */
  lemma {:induction false} FindFirst(a: string, c: char, b: string)
    requires c !in a
    ensures Find(a + [c] + b, c) == |a|
  {
    if a != [] {
      assert (a + [c] + b)[1..] == a[1..] + [c] + b;
      FindFirst(a[1..], c, b);
    }
  }

  /** Peeling one separator-free piece off the front of a split. */
  lemma SplitNCons(a: string, c: char, b: string, maxsplit: nat)
    requires c !in a
    ensures SplitN(a + [c] + b, c, maxsplit + 1) == [a] + SplitN(b, c, maxsplit)
  {
    var s := a + [c] + b;
    FindFirst(a, c, b);
    assert s[..|a|] == a;
    assert s[|a| + 1..] == b;
  }

  lemma SplitNNone(s: string, c: char, maxsplit: nat)
    requires c !in s
    ensures SplitN(s, c, maxsplit) == [s]
  {
  }

  /** `Split` undoes `Join` when no piece holds the separator. */
  lemma {:induction false} SplitJoin(parts: seq<string>, c: char)
    requires |parts| >= 1
    requires forall k :: 0 <= k < |parts| ==> c !in parts[k]
    ensures Split(Join(parts, c), c) == parts
    decreases |parts|
  {
    if |parts| == 1 {
      assert Join(parts, c) == parts[0];
      assert Find(parts[0], c) == -1;
      assert [parts[0]] == parts;
    } else {
      var tail := parts[1..];
      assert forall k :: 0 <= k < |tail| ==> tail[k] == parts[k + 1];
      SplitJoin(tail, c);
      assert Join(parts, c) == parts[0] + [c] + Join(tail, c);
      SplitCons(parts[0], c, Join(tail, c));
      assert [parts[0]] + tail == parts;
    }
  }

  /** `Join` undoes `Split`: splitting loses no character. */
  lemma {:induction false} JoinSplit(s: string, c: char)
    ensures Join(Split(s, c), c) == s
    decreases |s|
  {
    var k := Find(s, c);
    if k != -1 {
      var rest := s[k + 1..];
      var tail := Split(rest, c);
      JoinSplit(rest, c);
      assert Split(s, c) == [s[..k]] + tail;
      assert Join(Split(s, c), c) == s[..k] + [c] + Join(tail, c);
      assert s == s[..k] + [c] + rest;
    }
  }

  /** No piece of `Split(s, c)` holds the separator. */
  lemma {:induction false} SplitPiecesFree(s: string, c: char)
    ensures forall k :: 0 <= k < |Split(s, c)| ==> c !in Split(s, c)[k]
    decreases |s|
  {
    var k := Find(s, c);
    if k != -1 {
      var tail := Split(s[k + 1..], c);
      SplitPiecesFree(s[k + 1..], c);
      assert Split(s, c) == [s[..k]] + tail;
    }
  }

  /** Leading whitespace stops at the first non-space character. */
  lemma {:induction false} TrimLeftKeep(a: string, b: string)
    requires b != [] && !IsSpace(b[0])
    ensures TrimLeft(a + b) == TrimLeft(a) + b
  {
    if a != [] && IsSpace(a[0]) {
      assert (a + b)[1..] == a[1..] + b;
      TrimLeftKeep(a[1..], b);
    }
  }

  /** Trailing whitespace stops at the last non-space character. */
  lemma {:induction false} TrimRightKeep(a: string, b: string)
    requires a != [] && !IsSpace(a[|a| - 1])
    ensures TrimRight(a + b) == a + TrimRight(b)
  {
    if b != [] && IsSpace(b[|b| - 1]) {
      assert (a + b)[..|a + b| - 1] == a + b[..|b| - 1];
      TrimRightKeep(a, b[..|b| - 1]);
    }
  }

  lemma {:induction false} TrimRightCons(x: char, t: string)
    ensures TrimRight([x] + t) ==
      if TrimRight(t) == [] then (if IsSpace(x) then [] else [x]) else [x] + TrimRight(t)
    decreases |t|
  {
    var s := [x] + t;
    if t == [] {
      assert s == [x];
      if IsSpace(x) {
        assert s[..0] == [];
      }
    } else if !IsSpace(t[|t| - 1]) {
      assert s[|s| - 1] == t[|t| - 1];
    } else {
      var init := t[..|t| - 1];
      assert s[|s| - 1] == t[|t| - 1];
      assert s[..|s| - 1] == [x] + init;
      TrimRightCons(x, init);
    }
  }

  /** Stripping the two ends can be done in either order. */
  lemma {:induction false} TrimCommute(s: string)
    ensures TrimLeft(TrimRight(s)) == TrimRight(TrimLeft(s))
  {
    if s != [] {
      TrimRightCons(s[0], s[1..]);
      assert [s[0]] + s[1..] == s;
      if IsSpace(s[0]) {
        TrimCommute(s[1..]);
        if TrimRight(s[1..]) != [] {
          assert ([s[0]] + TrimRight(s[1..]))[1..] == TrimRight(s[1..]);
        }
      }
    }
  }

  /** Stripping a string already stripped at its right end. */
  lemma StripTrimRight(s: string)
    ensures Strip(TrimRight(s)) == Strip(s)
  {
    TrimCommute(TrimRight(s));
    TrimCommute(s);
  }

  /** `int` strips its argument itself, so stripping first changes nothing. */
  lemma ParseIntStripped(s: string)
    ensures ParseInt(Strip(s)) == ParseInt(s)
    ensures ParseInt(TrimLeft(s)) == ParseInt(s)
  {
    assert Strip(TrimLeft(s)) == Strip(s);
  }
  lemma {:induction false} TrimLeftSuffix(s: string)
    ensures TrimLeft(s) == s[|s| - |TrimLeft(s)|..]
    ensures forall k :: 0 <= k < |s| - |TrimLeft(s)| ==> IsSpace(s[k])
  {
    if s != [] && IsSpace(s[0]) {
      TrimLeftSuffix(s[1..]);
    }
  }

  lemma {:induction false} TrimRightPrefix(s: string)
    ensures TrimRight(s) == s[..|TrimRight(s)|]
    ensures forall k :: |TrimRight(s)| <= k < |s| ==> IsSpace(s[k])
  {
    if s != [] && IsSpace(s[|s| - 1]) {
      TrimRightPrefix(s[..|s| - 1]);
    }
  }

  /**
   * `strip()` removes exactly the whitespace at both ends: the result is the
   * slice `s[i..j]`, every character before `i` and from `j` on is
   * whitespace, and the slice neither starts nor ends with whitespace.
   */
  lemma StripCuts(s: string)
    ensures var i := |s| - |TrimLeft(s)|;
      var j := i + |Strip(s)|;
      j <= |s| && Strip(s) == s[i..j] &&
      (forall k :: 0 <= k < i ==> IsSpace(s[k])) &&
      (forall k :: j <= k < |s| ==> IsSpace(s[k]))
  {
    var left := TrimLeft(s);
    var r := TrimRight(left);
    assert Strip(s) == r;
    var i := |s| - |left|;
    var j := i + |r|;
    TrimLeftSuffix(s);
    TrimRightPrefix(left);
    assert left == s[i..];
    assert r == left[..|r|];
    assert r == s[i..j];
    forall k | j <= k < |s|
      ensures IsSpace(s[k])
    {
      assert s[k] == left[k - i];
    }
  }

  /** Stripping only removes characters. */
  lemma StripInside(s: string, c: char)
    requires c !in s
    ensures c !in Strip(s) && c !in TrimLeft(s) && c !in TrimRight(s)
  {
    TrimLeftSuffix(s);
    TrimRightPrefix(TrimLeft(s));
    TrimRightPrefix(s);
  }

  /**
   * Stripping `<left><c><right>` for a non-space separator `c` strips the
   * left piece on its left end and the right piece on its right end only.
   */
  lemma StripAround(left: string, c: char, right: string)
    requires !IsSpace(c)
    ensures Strip(left + [c] + right) == TrimLeft(left) + [c] + TrimRight(right)
  {
    var whole := left + [c] + right;
    assert whole == left + ([c] + right);
    TrimLeftKeep(left, [c] + right);
    var m := TrimLeft(left) + [c];
    assert TrimLeft(whole) == m + right;
    TrimRightKeep(m, right);
    calc {
      Strip(whole);
      TrimRight(TrimLeft(whole));
      TrimRight(m + right);
      m + TrimRight(right);
    }
  }
  /** Peeling one separator-free piece off the front of a full split. */
  lemma SplitCons(a: string, c: char, b: string)
    requires c !in a
    ensures Split(a + [c] + b, c) == [a] + Split(b, c)
  {
    var s := a + [c] + b;
    FindFirst(a, c, b);
    assert s[..|a|] == a;
    assert s[|a| + 1..] == b;
  }
}

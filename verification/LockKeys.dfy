/**
 Advisory lock keys (src/database/database.service.ts, acquireAdvisoryLocks and
 uuidToLockKey): ids are sorted as strings, and the key of an id is the number
 written by the first 15 hex digits left once the dashes are gone.
 */
module LockKeys {

  /** The order of Array.prototype.sort without a comparator on ASCII strings. */
  predicate AtMost(a: string, b: string) {
    |a| == 0 || (|b| > 0 && (a[0] < b[0] || (a[0] == b[0] && AtMost(a[1..], b[1..]))))
  }

  predicate IsDigit(c: char) {
    '0' <= c <= '9'
  }

  predicate IsLowerHex(c: char) {
    IsDigit(c) || 'a' <= c <= 'f'
  }

  function HexValue(c: char): (v: nat)
    ensures v < 16
  {
    if IsDigit(c) then c as int - '0' as int
    else if 'a' <= c <= 'f' then c as int - 'a' as int + 10
    else if 'A' <= c <= 'F' then c as int - 'A' as int + 10
    else 0
  }

  function WithoutDashes(s: string): string {
    if |s| == 0 then ""
    else if s[0] == '-' then WithoutDashes(s[1..])
    else [s[0]] + WithoutDashes(s[1..])
  }

  function Pow16(n: nat): (p: nat)
    ensures p >= 1
  {
    if n == 0 then 1 else 16 * Pow16(n - 1)
  }

  /** BigInt(`0x${hex}`). */
  function HexNumber(s: string): (n: nat)
    ensures n < Pow16(|s|)
  {
    if |s| == 0 then 0
    else
      assert HexValue(s[0]) * Pow16(|s| - 1) <= 15 * Pow16(|s| - 1);
      HexValue(s[0]) * Pow16(|s| - 1) + HexNumber(s[1..])
  }

  function First15(s: string): string {
    if |s| <= 15 then s else s[..15]
  }

  function LockKey(uuid: string): nat {
    HexNumber(First15(WithoutDashes(uuid)))
  }

  /** 8-4-4-4-12 lower-case hex digits: the text PostgreSQL gives for a uuid column. */
  predicate IsCanonical(uuid: string) {
    && |uuid| == 36
    && forall k :: 0 <= k < 36 ==>
         if k == 8 || k == 13 || k == 18 || k == 23 then uuid[k] == '-' else IsLowerHex(uuid[k])
  }

  // ---- Sorting by string order sorts the keys -------------------------------

  lemma {:induction false} AtMostTotal(a: string, b: string)
    ensures AtMost(a, b) || AtMost(b, a)
  {
    if |a| > 0 && |b| > 0 && a[0] == b[0] {
      AtMostTotal(a[1..], b[1..]);
    }
  }

  lemma {:induction false} AtMostTransitive(a: string, b: string, c: string)
    requires AtMost(a, b) && AtMost(b, c)
    ensures AtMost(a, c)
  {
    if |a| > 0 && a[0] == b[0] && b[0] == c[0] {
      AtMostTransitive(a[1..], b[1..], c[1..]);
    }
  }

  /** The two ids carry their dashes at the same places. */
  ghost predicate SameShape(a: string, b: string) {
    |a| == |b| && forall k :: 0 <= k < |a| ==>
      (a[k] == '-' <==> b[k] == '-') && (a[k] != '-' ==> IsLowerHex(a[k]) && IsLowerHex(b[k]))
  }

  lemma {:induction false} DroppingDashesKeepsOrder(a: string, b: string)
    requires SameShape(a, b) && AtMost(a, b)
    ensures AtMost(WithoutDashes(a), WithoutDashes(b))
    ensures |WithoutDashes(a)| == |WithoutDashes(b)|
    ensures forall c :: c in WithoutDashes(a) || c in WithoutDashes(b) ==> IsLowerHex(c)
  {
    if |a| > 0 {
      assert SameShape(a[1..], b[1..]) by {
        forall k | 0 <= k < |a| - 1
          ensures a[1..][k] == a[k + 1] && b[1..][k] == b[k + 1]
        {
        }
      }
      if a[0] == b[0] {
        DroppingDashesKeepsOrder(a[1..], b[1..]);
      } else {
        DroppingDashesKeepsShape(a[1..], b[1..]);
      }
    }
  }

  lemma {:induction false} DroppingDashesKeepsShape(a: string, b: string)
    requires SameShape(a, b)
    ensures |WithoutDashes(a)| == |WithoutDashes(b)|
    ensures forall c :: c in WithoutDashes(a) || c in WithoutDashes(b) ==> IsLowerHex(c)
  {
    if |a| > 0 {
      assert SameShape(a[1..], b[1..]) by {
        forall k | 0 <= k < |a| - 1
          ensures a[1..][k] == a[k + 1] && b[1..][k] == b[k + 1]
        {
        }
      }
      DroppingDashesKeepsShape(a[1..], b[1..]);
    }
  }

  lemma {:induction false} PrefixKeepsOrder(a: string, b: string, n: nat)
    requires AtMost(a, b) && n <= |a| == |b|
    ensures AtMost(a[..n], b[..n])
  {
    if n > 0 {
      if a[0] == b[0] {
        PrefixKeepsOrder(a[1..], b[1..], n - 1);
        assert a[..n][1..] == a[1..][..n - 1] && b[..n][1..] == b[1..][..n - 1];
      }
    }
  }

  lemma NextMultiple(v: nat, w: nat, p: nat)
    requires v < w
    ensures v * p + p <= w * p
  {
    var d: nat := w - v - 1;
    assert d * p >= 0;
    assert w * p == (v + 1 + d) * p == v * p + p + d * p;
  }

  /** The first digit decides between which multiples of 16^(n-1) a number lies. */
  lemma LeadingDigit(a: string, v: nat, p: nat)
    requires |a| > 0 && v == HexValue(a[0]) && p == Pow16(|a| - 1)
    ensures v * p <= HexNumber(a) < v * p + p
  {
    assert HexNumber(a) == v * p + HexNumber(a[1..]);
  }

  lemma SameLeadingDigit(a: string, b: string)
    requires |a| == |b| > 0 && a[0] == b[0]
    requires HexNumber(a[1..]) <= HexNumber(b[1..])
    ensures HexNumber(a) <= HexNumber(b)
  {
  }

  lemma SmallerLeadingDigit(a: string, b: string)
    requires |a| == |b| > 0 && HexValue(a[0]) < HexValue(b[0])
    ensures HexNumber(a) <= HexNumber(b)
  {
    var v, w, p := HexValue(a[0]), HexValue(b[0]), Pow16(|a| - 1);
    LeadingDigit(a, v, p);
    LeadingDigit(b, w, p);
    NextMultiple(v, w, p);
  }

  lemma {:induction false} HexOrder(a: string, b: string)
    requires |a| == |b| && AtMost(a, b)
    requires forall c :: c in a || c in b ==> IsLowerHex(c)
    ensures HexNumber(a) <= HexNumber(b)
  {
    if |a| > 0 {
      if a[0] == b[0] {
        HexOrder(a[1..], b[1..]);
        SameLeadingDigit(a, b);
      } else {
        assert IsLowerHex(a[0]) && IsLowerHex(b[0]);
        SmallerLeadingDigit(a, b);
      }
    }
  }

  /** Ids in string order have keys in numeric order. */
  lemma StringOrderIsKeyOrder(a: string, b: string)
    requires IsCanonical(a) && IsCanonical(b) && AtMost(a, b)
    ensures LockKey(a) <= LockKey(b)
  {
    DroppingDashesKeepsOrder(a, b);
    var x, y := WithoutDashes(a), WithoutDashes(b);
    var n := if |x| <= 15 then |x| else 15;
    PrefixKeepsOrder(x, y, n);
    assert First15(x) == x[..n] && First15(y) == y[..n];
    HexOrder(x[..n], y[..n]);
  }

  /**
   What the canonical lower-case form is needed for: with an upper-case id the
   string order and the key order disagree. The code never sorts such an id with
   another one, because lists of several ids come from uuid columns, and an id
   typed by a user (of a transaction to reverse) is locked alone.
   */
  lemma UpperCaseBreaksTheOrder(tail: string)
    ensures AtMost("B" + tail, "a" + tail)
    ensures LockKey("B" + tail) > LockKey("a" + tail)
  {
    var upper, lower := "B" + tail, "a" + tail;
    assert upper[1..] == tail && lower[1..] == tail;
    var rest := WithoutDashes(tail);
    var t := First15("B" + rest)[1..];
    assert First15("B" + rest) == "B" + t && First15("a" + rest) == "a" + t;
    assert ("B" + t)[1..] == t && ("a" + t)[1..] == t;
    var p := Pow16(|t|);
    assert HexNumber("B" + t) == 11 * p + HexNumber(t);
    assert HexNumber("a" + t) == 10 * p + HexNumber(t);
  }

  // ---- Which ids share a key -------------------------------------------------

  lemma {:induction false} DashesDrop(s: string, t: string)
    ensures WithoutDashes(s + t) == WithoutDashes(s) + WithoutDashes(t)
  {
    if |s| == 0 {
      assert s + t == t;
    } else {
      assert (s + t)[1..] == s[1..] + t;
      DashesDrop(s[1..], t);
    }
  }

  lemma {:induction false} NoDashes(s: string)
    requires forall k :: 0 <= k < |s| ==> s[k] != '-'
    ensures WithoutDashes(s) == s
  {
    if |s| > 0 {
      NoDashes(s[1..]);
    }
  }

  /** The digits of the key are the first fifteen of the uuid. */
  lemma KeyDigits(uuid: string)
    requires IsCanonical(uuid)
    ensures First15(WithoutDashes(uuid)) == uuid[..8] + uuid[9..13] + uuid[14..17]
  {
    var a, b, c, rest := uuid[..8], uuid[9..13], uuid[14..17], uuid[17..];
    assert uuid == a + ("-" + (b + ("-" + (c + rest))));
    assert WithoutDashes("-") == "";
    hide WithoutDashes;
    DashesDrop(a, "-" + (b + ("-" + (c + rest))));
    DashesDrop("-", b + ("-" + (c + rest)));
    DashesDrop(b, "-" + (c + rest));
    DashesDrop("-", c + rest);
    DashesDrop(c, rest);
    NoDashes(a);
    NoDashes(b);
    NoDashes(c);
    FifteenOf(a, b, c, WithoutDashes(rest));
  }

  lemma FifteenOf(a: string, b: string, c: string, rest: string)
    requires |a| == 8 && |b| == 4 && |c| == 3
    ensures First15(a + ("" + (b + ("" + (c + rest))))) == a + b + c
  {
    assert a + ("" + (b + ("" + (c + rest)))) == a + b + c + rest;
    assert (a + b + c + rest)[..15] == a + b + c;
  }

  lemma {:induction false} HexInjective(a: string, b: string)
    requires |a| == |b| && HexNumber(a) == HexNumber(b)
    requires forall c :: c in a || c in b ==> IsLowerHex(c)
    ensures a == b
  {
    if |a| > 0 {
      var p := Pow16(|a| - 1);
      LeadingDigit(a, HexValue(a[0]), p);
      LeadingDigit(b, HexValue(b[0]), p);
      if HexValue(a[0]) < HexValue(b[0]) {
        NextMultiple(HexValue(a[0]), HexValue(b[0]), p);
      } else if HexValue(b[0]) < HexValue(a[0]) {
        NextMultiple(HexValue(b[0]), HexValue(a[0]), p);
      }
      assert IsLowerHex(a[0]) && IsLowerHex(b[0]) && a[0] == b[0];
      HexInjective(a[1..], b[1..]);
    }
  }

  /** Two canonical uuids share a key exactly if they agree up to their first fifteen digits; a key fits a bigint. */
  lemma KeysCollideIff(a: string, b: string)
    requires IsCanonical(a) && IsCanonical(b)
    ensures LockKey(a) == LockKey(b) <==> a[..17] == b[..17]
    ensures LockKey(a) <= 9_223_372_036_854_775_807
  {
    hide HexNumber, First15, WithoutDashes;
    KeyDigits(a);
    KeyDigits(b);
    var x, y := a[..8] + a[9..13] + a[14..17], b[..8] + b[9..13] + b[14..17];
    if HexNumber(x) == HexNumber(y) {
      HexInjective(x, y);
      forall k | 0 <= k < 17 ensures a[k] == b[k] {
        var at := if k < 8 then k else if k < 13 then k - 1 else k - 2;
        if k != 8 && k != 13 {
          assert x[at] == a[k] && y[at] == b[k];
        }
      }
    } else {
      assert a[..17] == b[..17] ==> x == y;
    }
    FifteenDigitsFit();
  }

  lemma FifteenDigitsFit()
    ensures Pow16(15) <= 9_223_372_036_854_775_807
  {
    assert Pow16(3) == 4096;
    assert Pow16(6) == 4096 * 4096;
    assert Pow16(9) == 4096 * 4096 * 4096;
    assert Pow16(12) == 4096 * 4096 * 4096 * 4096;
  }

  // ---- The list of keys one transaction takes -------------------------------

  ghost predicate Sorted(ids: seq<string>) {
    forall j, k :: 0 <= j < k < |ids| ==> AtMost(ids[j], ids[k])
  }

  /** `[...new Set([...left, ...right])]`: first occurrences, in order. */
  function Distinct(ids: seq<string>): (r: seq<string>)
    ensures forall id :: id in r <==> id in ids
    ensures forall j, k :: 0 <= j < k < |r| ==> r[j] != r[k]
  {
    if |ids| == 0 then []
    else
      var front, id := ids[..|ids| - 1], ids[|ids| - 1];
      assert ids == front + [id];
      if id in front then Distinct(front) else Distinct(front) + [id]
  }

  lemma InFront(id: string, ids: seq<string>)
    requires Sorted(ids) && (|ids| > 0 ==> AtMost(id, ids[0]))
    ensures Sorted([id] + ids)
  {
    hide AtMost;
    forall k | 0 <= k < |ids| ensures AtMost(id, ids[k]) {
      if k > 0 {
        AtMostTransitive(id, ids[0], ids[k]);
      }
    }
  }

  lemma FrontStays(front: string, ids: seq<string>, id: string, rest: seq<string>)
    requires Sorted([front] + ids) && !AtMost(id, front)
    requires Sorted(rest) && multiset(rest) == multiset(ids) + multiset{id}
    ensures Sorted([front] + rest)
  {
    hide AtMost;
    AtMostTotal(id, front);
    forall k | 0 <= k < |rest| ensures AtMost(front, rest[k]) {
      assert rest[k] in multiset(rest);
      assert rest[k] in ids || rest[k] == id;
      if rest[k] in ids {
        var j :| 0 <= j < |ids| && ids[j] == rest[k];
        assert ([front] + ids)[0] == front && ([front] + ids)[j + 1] == rest[k];
      }
    }
  }

  function Insert(id: string, ids: seq<string>): (r: seq<string>)
    requires Sorted(ids)
    ensures Sorted(r) && multiset(r) == multiset(ids) + multiset{id}
  {
    if |ids| == 0 then [id]
    else
      assert ids == [ids[0]] + ids[1..];
      if AtMost(id, ids[0]) then
        InFront(id, ids);
        [id] + ids
      else
        var rest := Insert(id, ids[1..]);
        FrontStays(ids[0], ids[1..], id, rest);
        [ids[0]] + rest
  }

  /** The built-in sort: an ascending rearrangement of the ids. */
  function Sort(ids: seq<string>): (r: seq<string>)
    ensures Sorted(r) && multiset(r) == multiset(ids)
  {
    if |ids| == 0 then []
    else
      assert ids == ids[..|ids| - 1] + [ids[|ids| - 1]];
      Insert(ids[|ids| - 1], Sort(ids[..|ids| - 1]))
  }

  /** The keys acquireAdvisoryLocks asks for, one statement after another. */
  function KeysToLock(ids: seq<string>): (keys: seq<nat>)
    ensures |keys| == |ids|
  {
    var sorted := Sort(ids);
    assert |multiset(sorted)| == |multiset(ids)|;
    seq(|sorted|, k requires 0 <= k < |sorted| => LockKey(sorted[k]))
  }

  lemma KeysAscend(ids: seq<string>)
    requires |ids| > 1 ==> forall id :: id in ids ==> IsCanonical(id)
    ensures forall j, k :: 0 <= j < k < |KeysToLock(ids)| ==> KeysToLock(ids)[j] <= KeysToLock(ids)[k]
  {
    var sorted := Sort(ids);
    forall j, k | 0 <= j < k < |KeysToLock(ids)|
      ensures KeysToLock(ids)[j] <= KeysToLock(ids)[k]
    {
      assert sorted[j] in multiset(sorted) && sorted[k] in multiset(sorted);
      assert sorted[j] in ids && sorted[k] in ids;
      StringOrderIsKeyOrder(sorted[j], sorted[k]);
    }
  }

  lemma EveryIdIsLocked(ids: seq<string>, id: string)
    requires id in ids
    ensures exists k :: 0 <= k < |KeysToLock(ids)| && KeysToLock(ids)[k] == LockKey(id)
  {
    var sorted := Sort(ids);
    assert id in multiset(sorted);
    var k :| 0 <= k < |sorted| && sorted[k] == id;
    assert KeysToLock(ids)[k] == LockKey(id);
  }
}

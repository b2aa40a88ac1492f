/**
 * How the rating engine orders its input: the distinct years in ascending
 * order, the matches of one year in input order, and those matches sorted by
 * the integer value of their date with a stable sort (Python's `list.sort`
 * with a key function).
 */
module Ordering {
  import opened Wrappers
  import opened Text
  import opened Records

  predicate StrictlyAscending(ys: seq<int>) {
    forall i, j :: 0 <= i < j < |ys| ==> ys[i] < ys[j]
  }

  /** Adds `y` to an ascending sequence of distinct years, unless it is already there. */
  function InsertYear(ys: seq<int>, y: int): (r: seq<int>)
    requires StrictlyAscending(ys)
    ensures StrictlyAscending(r)
    ensures forall z :: z in r <==> z in ys || z == y
  {
    if ys == [] then [y]
    else if y < ys[0] then
      assert forall j :: 0 <= j < |ys| ==> y < ys[j];
      [y] + ys
    else if y == ys[0] then ys
    else
      var tail := ys[1..];
      assert StrictlyAscending(tail);
      var rest := InsertYear(tail, y);
      assert forall z :: z in ys <==> z == ys[0] || z in tail;
      assert forall j :: 0 <= j < |tail| ==> ys[0] < tail[j];
      assert forall j :: 0 <= j < |rest| ==> ys[0] < rest[j] by {
        forall j | 0 <= j < |rest| ensures ys[0] < rest[j] {
          assert rest[j] in rest;
        }
      }
      [ys[0]] + rest
  }

  /** `sorted({o['year'] for o in data})`: every year of the input once, ascending. */
  function Years(data: seq<MatchRecord>): (ys: seq<int>)
    ensures StrictlyAscending(ys)
    ensures forall y :: y in ys <==> exists i :: 0 <= i < |data| && data[i].year == y
  {
    if data == [] then []
    else
      var init := data[..|data| - 1];
      var ys := InsertYear(Years(init), data[|data| - 1].year);
      assert forall i :: 0 <= i < |init| ==> init[i] == data[i];
      ys
  }

  /** `[o for o in data if o['year'] == year]`. */
  function MatchesOfYear(data: seq<MatchRecord>, year: int): (ms: seq<MatchRecord>)
    ensures |ms| <= |data|
  {
    if data == [] then []
    else
      var last := data[|data| - 1];
      MatchesOfYear(data[..|data| - 1], year) + (if last.year == year then [last] else [])
  }

  /** A record is selected exactly when it is in the input with that year. */
  lemma {:induction false} MatchesOfYearMembers(data: seq<MatchRecord>, year: int)
    ensures forall m :: m in MatchesOfYear(data, year) <==> m in data && m.year == year
  {
    if data != [] {
      var init := data[..|data| - 1];
      var last := data[|data| - 1];
      assert data == init + [last];
      MatchesOfYearMembers(init, year);
    }
  }

  /** Filtering works piece by piece, so the selected matches keep their input order and multiplicity. */
  lemma {:induction false} MatchesOfYearAppend(a: seq<MatchRecord>, b: seq<MatchRecord>, year: int)
    ensures MatchesOfYear(a + b, year) == MatchesOfYear(a, year) + MatchesOfYear(b, year)
    decreases |b|
  {
    if b == [] {
      assert a + b == a;
    } else {
      var b', x := b[..|b| - 1], b[|b| - 1];
      assert b == b' + [x];
      assert a + b == (a + b') + [x];
      MatchesOfYearAppend(a, b', year);
      MatchesOfYearLast(a + b', x, year);
      MatchesOfYearLast(b', x, year);
    }
  }

  lemma MatchesOfYearLast(s: seq<MatchRecord>, x: MatchRecord, year: int)
    ensures MatchesOfYear(s + [x], year) == MatchesOfYear(s, year) + (if x.year == year then [x] else [])
  {
    assert (s + [x])[..|s|] == s;
  }

  /** `int(date)` does not raise for this match. */
  predicate DateParses(m: MatchRecord) {
    ParseInt(m.date).Some?
  }

  /** A match paired with its sort key `int(date)`. */
  datatype Keyed = Keyed(key: int, rec: MatchRecord)

  /**
   * The sort keys of the matches, in input order; the key function is applied
   * to every element before sorting, so the first date `int` rejects aborts
   * the sort, and its text is the failure.
   */
  function DateKeys(ms: seq<MatchRecord>): (r: Result<seq<Keyed>, string>)
    ensures r.Success? ==> |r.value| == |ms|
  {
    if ms == [] then Success([])
    else
      var last := ms[|ms| - 1];
      match DateKeys(ms[..|ms| - 1])
      case Failure(date) => Failure(date)
      case Success(keys) =>
        match ParseInt(last.date)
        case None => Failure(last.date)
        case Some(k) => Success(keys + [Keyed(k, last)])
  }

  /** Keying succeeds exactly when every date of the year is accepted by `int`. */
  lemma {:induction false} DateKeysSucceed(ms: seq<MatchRecord>)
    ensures DateKeys(ms).Success? <==> forall i :: 0 <= i < |ms| ==> DateParses(ms[i])
  {
    if ms != [] {
      var init := ms[..|ms| - 1];
      DateKeysSucceed(init);
      assert forall i :: 0 <= i < |init| ==> ms[i] == init[i];
    }
  }

  /** On success the k-th key is the k-th match with its parsed date. */
  lemma {:induction false} DateKeysAt(ms: seq<MatchRecord>, k: nat)
    requires DateKeys(ms).Success? && k < |ms|
    ensures DateKeys(ms).value[k].rec == ms[k]
    ensures ParseInt(ms[k].date) == Some(DateKeys(ms).value[k].key)
  {
    var init := ms[..|ms| - 1];
    var last := ms[|ms| - 1];
    var keys := DateKeys(init).value;
    assert DateKeys(ms) == Success(keys + [Keyed(ParseInt(last.date).value, last)]);
    if k < |init| {
      DateKeysAt(init, k);
      assert ms[k] == init[k];
    }
  }

  predicate SortedByKey(s: seq<Keyed>) {
    forall i, j :: 0 <= i < j < |s| ==> s[i].key <= s[j].key
  }

  /** Places `x` after every element whose key is not greater than its own. */
  function InsertByKey(s: seq<Keyed>, x: Keyed): (r: seq<Keyed>)
    requires SortedByKey(s)
    ensures SortedByKey(r)
    ensures multiset(r) == multiset(s) + multiset{x}
  {
    if s == [] || s[|s| - 1].key <= x.key then s + [x]
    else
      var init := s[..|s| - 1];
      var last := s[|s| - 1];
      assert s == init + [last];
      var r := InsertByKey(init, x);
      KeysBelow(r, init + [x], last.key);
      r + [last]
  }

  /** Rearranging elements keeps every key under a common bound. */
  lemma KeysBelow(r: seq<Keyed>, s: seq<Keyed>, bound: int)
    requires multiset(r) == multiset(s)
    requires forall i :: 0 <= i < |s| ==> s[i].key <= bound
    ensures forall i :: 0 <= i < |r| ==> r[i].key <= bound
  {
    forall i | 0 <= i < |r| ensures r[i].key <= bound {
      assert r[i] in multiset(s);
    }
  }

  /** A stable insertion sort by key: the order `list.sort(key=...)` produces. */
  function StableSort(s: seq<Keyed>): (r: seq<Keyed>)
    ensures SortedByKey(r)
    ensures multiset(r) == multiset(s)
  {
    if s == [] then []
    else
      assert s == s[..|s| - 1] + [s[|s| - 1]];
      InsertByKey(StableSort(s[..|s| - 1]), s[|s| - 1])
  }

  /** The elements of `s` whose key is `k`, in their order in `s`. */
  function WithKey(s: seq<Keyed>, k: int): seq<Keyed> {
    if s == [] then []
    else WithKey(s[..|s| - 1], k) + (if s[|s| - 1].key == k then [s[|s| - 1]] else [])
  }

  lemma {:induction false} WithKeyAppend(a: seq<Keyed>, b: seq<Keyed>, k: int)
    ensures WithKey(a + b, k) == WithKey(a, k) + WithKey(b, k)
    decreases |b|
  {
    if b == [] {
      assert a + b == a;
    } else {
      WithKeyAppend(a, b[..|b| - 1], k);
      assert (a + b)[..|a + b| - 1] == a + b[..|b| - 1];
    }
  }

  lemma {:induction false} InsertByKeyStable(s: seq<Keyed>, x: Keyed, k: int)
    requires SortedByKey(s)
    ensures WithKey(InsertByKey(s, x), k) == WithKey(s, k) + (if x.key == k then [x] else [])
    decreases |s|
  {
    if s == [] || s[|s| - 1].key <= x.key {
      WithKeyAppend(s, [x], k);
      WithKeyOne(x, k);
    } else {
      var init := s[..|s| - 1];
      var last := s[|s| - 1];
      assert s == init + [last];
      var r := InsertByKey(init, x);
      assert InsertByKey(s, x) == r + [last];
      InsertByKeyStable(init, x, k);
      AppendBoth(r, init, last, x, k);
    }
  }

  /** Appending the same element to two sequences whose k-elements differ by a trailing x of smaller key. */
  lemma AppendBoth(r: seq<Keyed>, init: seq<Keyed>, last: Keyed, x: Keyed, k: int)
    requires x.key < last.key
    requires WithKey(r, k) == WithKey(init, k) + (if x.key == k then [x] else [])
    ensures WithKey(r + [last], k) == WithKey(init + [last], k) + (if x.key == k then [x] else [])
  {
    WithKeyAppend(r, [last], k);
    WithKeyAppend(init, [last], k);
    WithKeyOne(last, k);
  }

  lemma WithKeyOne(x: Keyed, k: int)
    ensures WithKey([x], k) == if x.key == k then [x] else []
  {
    assert [x][..0] == [];
  }

  /** Stability: for every key, the matches with that key keep their input order. */
  lemma {:induction false} StableSortIsStable(s: seq<Keyed>, k: int)
    ensures WithKey(StableSort(s), k) == WithKey(s, k)
  {
    if s != [] {
      var init, last := s[..|s| - 1], s[|s| - 1];
      var sorted := StableSort(init);
      assert StableSort(s) == InsertByKey(sorted, last);
      StableSortIsStable(init, k);
      InsertByKeyStable(sorted, last, k);
      AppendLast(init, last, k);
    }
  }

  lemma AppendLast(init: seq<Keyed>, last: Keyed, k: int)
    ensures WithKey(init + [last], k) == WithKey(init, k) + (if last.key == k then [last] else [])
  {
    WithKeyAppend(init, [last], k);
    WithKeyOne(last, k);
  }

  /**
   * The sorted season holds the year's matches and nothing else, each with
   * its parsed date as key, in non-decreasing order of that key.
   */
  lemma SortedMatches(ms: seq<MatchRecord>)
    requires DateKeys(ms).Success?
    ensures var order := StableSort(DateKeys(ms).value);
      && |order| == |ms|
      && (forall i, j :: 0 <= i < j < |order| ==> order[i].key <= order[j].key)
      && (forall i :: 0 <= i < |order| ==> order[i].rec in ms && ParseInt(order[i].rec.date) == Some(order[i].key))
      && (forall m :: m in ms ==> exists i :: 0 <= i < |order| && order[i].rec == m)
  {
    var keys := DateKeys(ms).value;
    PermutedKeys(ms, keys, StableSort(keys));
  }

  lemma PermutedKeys(ms: seq<MatchRecord>, keys: seq<Keyed>, order: seq<Keyed>)
    requires DateKeys(ms).Success? && keys == DateKeys(ms).value
    requires multiset(order) == multiset(keys)
    ensures |order| == |ms|
    ensures forall i :: 0 <= i < |order| ==> order[i].rec in ms && ParseInt(order[i].rec.date) == Some(order[i].key)
    ensures forall m :: m in ms ==> exists i :: 0 <= i < |order| && order[i].rec == m
  {
    assert |multiset(order)| == |order|;
    forall i | 0 <= i < |order|
      ensures order[i].rec in ms && ParseInt(order[i].rec.date) == Some(order[i].key)
    {
      assert order[i] in multiset(keys);
      KeyedMember(ms, order[i]);
    }
    forall m | m in ms ensures exists i :: 0 <= i < |order| && order[i].rec == m {
      var x := MemberKeyed(ms, m);
      assert x in multiset(order);
    }
  }

  lemma KeyedMember(ms: seq<MatchRecord>, x: Keyed)
    requires DateKeys(ms).Success? && x in DateKeys(ms).value
    ensures x.rec in ms && ParseInt(x.rec.date) == Some(x.key)
  {
    var j :| 0 <= j < |DateKeys(ms).value| && DateKeys(ms).value[j] == x;
    DateKeysAt(ms, j);
  }

  lemma MemberKeyed(ms: seq<MatchRecord>, m: MatchRecord) returns (x: Keyed)
    requires DateKeys(ms).Success? && m in ms
    ensures x in DateKeys(ms).value && x.rec == m
  {
    var j :| 0 <= j < |ms| && ms[j] == m;
    DateKeysAt(ms, j);
    x := DateKeys(ms).value[j];
  }

  // ---------------------------------------------------------------------
  // Ties keep their input order

  /** The matched records, in order. */
  function Recs(s: seq<Keyed>): (r: seq<MatchRecord>)
    ensures |r| == |s|
  {
    if s == [] then [] else Recs(s[..|s| - 1]) + [s[|s| - 1].rec]
  }

  /** The matches of `year` whose date `int` reads as `key`, in input order. */
  function SameDate(data: seq<MatchRecord>, year: int, key: int): seq<MatchRecord> {
    if data == [] then []
    else
      var last := data[|data| - 1];
      SameDate(data[..|data| - 1], year, key)
        + (if last.year == year && ParseInt(last.date) == Some(key) then [last] else [])
  }

  lemma RecsLast(s: seq<Keyed>, x: Keyed)
    ensures Recs(s + [x]) == Recs(s) + [x.rec]
  {
    assert (s + [x])[..|s|] == s;
  }

  lemma DateKeysLast(ms: seq<MatchRecord>, x: MatchRecord)
    requires DateKeys(ms + [x]).Success?
    ensures DateKeys(ms).Success? && ParseInt(x.date).Some?
    ensures DateKeys(ms + [x]).value == DateKeys(ms).value + [Keyed(ParseInt(x.date).value, x)]
  {
    assert (ms + [x])[..|ms|] == ms;
  }

  /** Before sorting, the keyed matches with key `key` are that year's matches of that date, in input order. */
  lemma {:induction false} KeyedSameDate(data: seq<MatchRecord>, year: int, key: int)
    requires DateKeys(MatchesOfYear(data, year)).Success?
    ensures Recs(WithKey(DateKeys(MatchesOfYear(data, year)).value, key)) == SameDate(data, year, key)
  {
    if data != [] {
      var init, last := data[..|data| - 1], data[|data| - 1];
      assert data == init + [last];
      MatchesOfYearLast(init, last, year);
      var ms0 := MatchesOfYear(init, year);
      if last.year == year {
        assert MatchesOfYear(data, year) == ms0 + [last];
        DateKeysLast(ms0, last);
        KeyedSameDate(init, year, key);
        var x := Keyed(ParseInt(last.date).value, last);
        var keys0 := DateKeys(ms0).value;
        AppendLast(keys0, x, key);
        var same := SameDate(init, year, key);
        if x.key == key {
          RecsLast(WithKey(keys0, key), x);
          assert SameDate(data, year, key) == same + [last];
        } else {
          assert WithKey(keys0 + [x], key) == WithKey(keys0, key);
          assert SameDate(data, year, key) == same;
        }
      } else {
        assert MatchesOfYear(data, year) == ms0;
        KeyedSameDate(init, year, key);
      }
    }
  }

  /**
   * Stability for the engine's input: the matches of one year whose dates
   * read as the same integer are played in the order they have in the input.
   */
  lemma TiesInInputOrder(data: seq<MatchRecord>, year: int, key: int)
    requires DateKeys(MatchesOfYear(data, year)).Success?
    ensures Recs(WithKey(StableSort(DateKeys(MatchesOfYear(data, year)).value), key)) == SameDate(data, year, key)
  {
    StableSortIsStable(DateKeys(MatchesOfYear(data, year)).value, key);
    KeyedSameDate(data, year, key);
  }
}

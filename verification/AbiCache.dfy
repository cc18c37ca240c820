/** The bounded cache of verified contract ABIs (internal/provider/abi_cache.go). */
module AbiCache {
  import opened Common
  import opened Positional
  import opened Text

  const MAX_ENTRIES: nat := 500

  datatype Entry = Entry(abi: string, matchLevel: string, source: string, address: string,
                         chainID: int, fetchedAt: int)

  function CacheKey(chainID: int, address: string): string {
    Decimal(chainID) + ":" + Lower(address)
  }

  /** How a key looks. */
  lemma KeyExample()
    ensures CacheKey(1, "0xAb") == "1:0xab"
  {
    assert Digits(Ten, 1) == [1];
    assert Natural(Ten, 1) == "1";
    assert "1" + ":" + Lower("0xAb") == "1:0xab";
  }

  /** Two keys are the same exactly for the same chain and the same address up to case. */
  lemma CacheKeyInjective(c: int, a: string, c': int, a': string)
    ensures CacheKey(c, a) == CacheKey(c', a') <==> c == c' && Lower(a) == Lower(a')
  {
    if CacheKey(c, a) == CacheKey(c', a') {
      DecimalHasNoOther(c, ':');
      DecimalHasNoOther(c', ':');
      SeparatorInjective(Decimal(c), Decimal(c'), ':', Lower(a), Lower(a'));
      ParseOfDecimal(c);
      ParseOfDecimal(c');
    }
  }

  type Entries = map<string, Entry>

  /** Every entry sits under its own key. */
  ghost predicate WellKeyed(m: Entries) {
    forall k :: k in m ==> k == CacheKey(m[k].chainID, m[k].address)
  }

  /** after is before cut down to the limit, keeping the most recently fetched. */
  ghost predicate TrimmedTo(before: Entries, after: Entries) {
    |after| == (if |before| <= MAX_ENTRIES then |before| else MAX_ENTRIES) &&
    (forall k :: k in after ==> k in before && after[k] == before[k]) &&
    (forall k, k' :: k in before && k !in after && k' in after ==> before[k].fetchedAt <= after[k'].fetchedAt)
  }

  /** Trimming a map that is small enough leaves it alone. */
  lemma TrimOfSmall(before: Entries, after: Entries)
    requires TrimmedTo(before, after) && |before| <= MAX_ENTRIES
    ensures after == before
  {
    assert after.Keys <= before.Keys;
    SubsetOfSameSize(after.Keys, before.Keys);
  }

  lemma SubsetOfSameSize(a: set<string>, b: set<string>)
    requires a <= b && |a| == |b|
    ensures a == b
  {
    assert b == a + (b - a);
    assert |b - a| == 0;
  }

  /** The new entry can be read back, unless it was itself among the oldest. */
  lemma SetThenGet(before: Entries, e: Entry, after: Entries)
    requires TrimmedTo(before[CacheKey(e.chainID, e.address) := e], after)
    ensures var k := CacheKey(e.chainID, e.address);
            (k in after && after[k] == e) ||
            (k !in after && |after| == MAX_ENTRIES && forall k' :: k' in after ==> e.fetchedAt <= after[k'].fetchedAt)
  {
    var full := before[CacheKey(e.chainID, e.address) := e];
    if CacheKey(e.chainID, e.address) !in after && |full| <= MAX_ENTRIES {
      TrimOfSmall(full, after);
    }
  }

  // ----- sorting by age (sort.Slice)

  datatype Aged = Aged(key: string, at: int)

  ghost predicate Ascending(s: seq<Aged>) {
    forall i, j :: 0 <= i < j < |s| ==> s[i].at <= s[j].at
  }

  ghost predicate DistinctKeys(s: seq<Aged>) {
    forall i, j :: 0 <= i < j < |s| ==> s[i].key != s[j].key
  }

  /** Some arrangement in ascending order; ties may come in any order. */
  method SortByAge(all: seq<Aged>) returns (r: seq<Aged>)
    requires DistinctKeys(all)
    ensures |r| == |all| && Ascending(r) && DistinctKeys(r)
    ensures forall x :: x in r <==> x in all
  {
    r := [];
    for i := 0 to |all|
      invariant |r| == i && Ascending(r) && DistinctKeys(r)
      invariant forall x :: x in r <==> x in all[..i]
    {
      assert all[..i + 1] == all[..i] + [all[i]];
      r := InsertByAge(r, all[i]);
    }
    assert all[..|all|] == all;
  }

  method InsertByAge(s: seq<Aged>, x: Aged) returns (r: seq<Aged>)
    requires Ascending(s) && DistinctKeys(s) && forall y :: y in s ==> y.key != x.key
    ensures |r| == |s| + 1 && Ascending(r) && DistinctKeys(r)
    ensures forall y :: y in r <==> y in s || y == x
  {
    var i := 0;
    while i < |s| && s[i].at <= x.at
      invariant i <= |s| && forall k :: 0 <= k < i ==> s[k].at <= x.at
    {
      i := i + 1;
    }
    r := s[..i] + [x] + s[i..];
    hide Ascending, DistinctKeys;
    InsertAscending(s, i, x);
    InsertDistinct(s, i, x);
    InsertMembers(s, i, x);
  }

  lemma InsertAscending(s: seq<Aged>, i: nat, x: Aged)
    requires i <= |s| && Ascending(s)
    requires (forall k :: 0 <= k < i ==> s[k].at <= x.at) && (i < |s| ==> x.at <= s[i].at)
    ensures Ascending(s[..i] + [x] + s[i..])
  {
  }

  lemma InsertDistinct(s: seq<Aged>, i: nat, x: Aged)
    requires i <= |s| && DistinctKeys(s) && forall y :: y in s ==> y.key != x.key
    ensures DistinctKeys(s[..i] + [x] + s[i..])
  {
  }

  lemma InsertMembers(s: seq<Aged>, i: nat, x: Aged)
    requires i <= |s|
    ensures forall y :: y in s[..i] + [x] + s[i..] <==> y in s || y == x
  {
    assert s == s[..i] + s[i..];
  }

  ghost predicate ListsAges(all: seq<Aged>, m: Entries) {
    |all| == |m| && DistinctKeys(all) && forall x :: x in all <==> x.key in m && x.at == m[x.key].fetchedAt
  }

  ghost predicate Gone(sorted: seq<Aged>, n: nat, k: string) {
    exists j :: 0 <= j < n && j < |sorted| && sorted[j].key == k
  }

  /** after is before without the first n listed keys. */
  ghost predicate Dropped(before: Entries, sorted: seq<Aged>, n: nat, after: Entries) {
    forall k :: (k in after <==> k in before && !Gone(sorted, n, k)) && (k in after ==> after[k] == before[k])
  }

  lemma NoneDropped(m: Entries, sorted: seq<Aged>)
    ensures Dropped(m, sorted, 0, m)
  {
  }

  lemma RemoveOne(m: Entries, k: string)
    requires k in m
    ensures |m - {k}| == |m| - 1
  {
    assert m.Keys == (m - {k}).Keys + {k};
  }

  lemma DropOne(before: Entries, sorted: seq<Aged>, i: nat, m: Entries)
    requires i < |sorted| && ListsAges(sorted, before) && Dropped(before, sorted, i, m)
    ensures sorted[i].key in m && Dropped(before, sorted, i + 1, m - {sorted[i].key})
  {
    var k := sorted[i].key;
    assert sorted[i] in sorted;
    assert !Gone(sorted, i, k);
    forall k' ensures Gone(sorted, i + 1, k') <==> Gone(sorted, i, k') || k' == k {
      if k' == k {
        assert sorted[i].key == k';
      }
    }
  }

  lemma DroppedIsTrimmed(before: Entries, sorted: seq<Aged>, after: Entries)
    requires ListsAges(sorted, before) && Ascending(sorted) && |before| > MAX_ENTRIES && |after| == MAX_ENTRIES
    requires Dropped(before, sorted, |sorted| - MAX_ENTRIES, after)
    ensures TrimmedTo(before, after)
  {
    var n := |sorted| - MAX_ENTRIES;
    forall k, k' | k in before && k !in after && k' in after
      ensures before[k].fetchedAt <= after[k'].fetchedAt
    {
      OldestGone(before, sorted, n, k, k');
    }
  }

  lemma OldestGone(before: Entries, sorted: seq<Aged>, n: nat, k: string, k': string)
    requires ListsAges(sorted, before) && Ascending(sorted) && n <= |sorted|
    requires k in before && k' in before && Gone(sorted, n, k) && !Gone(sorted, n, k')
    ensures before[k].fetchedAt <= before[k'].fetchedAt
  {
    var j :| 0 <= j < n && sorted[j].key == k;
    assert Aged(k', before[k'].fetchedAt) in sorted;
    var j' :| 0 <= j' < |sorted| && sorted[j'] == Aged(k', before[k'].fetchedAt);
    assert sorted[j] in sorted;
  }

  // ----- the store

  class AbiCacheStore {
    var entries: Entries
    var file: Option<Entries>

    /** A missing or unreadable file starts an empty cache. */
    constructor (file: Option<Entries>)
      ensures entries == (if file.None? then map[] else file.value) && this.file == file
    {
      entries := if file.None? then map[] else file.value;
      this.file := file;
    }

    /** The entry's own chain and address are checked again; while every entry
        sits under its own key, the check never rejects one that is there. */
    method Get(chainID: int, address: string) returns (r: Option<Entry>)
      ensures r.Some? ==> CacheKey(chainID, address) in entries && r.value == entries[CacheKey(chainID, address)] &&
                          r.value.chainID == chainID && Lower(r.value.address) == Lower(address)
      ensures WellKeyed(entries) ==> (r.Some? <==> CacheKey(chainID, address) in entries)
    {
      var key := CacheKey(chainID, address);
      if key !in entries {
        return None;
      }
      var e := entries[key];
      CacheKeyInjective(e.chainID, e.address, chainID, address);
      if e.chainID != chainID || Lower(e.address) != Lower(address) {
        return None;
      }
      return Some(e);
    }

    /** A failed save leaves the file behind the memory. */
    method Set(e: Entry, saved: bool)
      modifies this
      ensures TrimmedTo(old(entries)[CacheKey(e.chainID, e.address) := e], entries)
      ensures var full := old(entries)[CacheKey(e.chainID, e.address) := e];
              |entries| == if |full| <= 500 then |full| else 500
      ensures old(WellKeyed(entries)) ==> WellKeyed(entries)
      ensures file == if saved then Some(entries) else old(file)
    {
      entries := entries[CacheKey(e.chainID, e.address) := e];
      EvictIfNeeded();
      if saved {
        file := Some(entries);
      }
    }

    method EvictIfNeeded()
      modifies `entries
      ensures TrimmedTo(old(entries), entries)
    {
      if |entries| <= MAX_ENTRIES {
        return;
      }
      var all := ListAges();
      var sorted := SortByAge(all);
      ghost var before := entries;
      hide Ascending, DistinctKeys, Dropped;
      assert Dropped(before, sorted, 0, entries) by { NoneDropped(before, sorted); }
      var excess := |sorted| - MAX_ENTRIES;
      for i := 0 to excess
        invariant |entries| == |before| - i && Dropped(before, sorted, i, entries)
      {
        DropOne(before, sorted, i, entries);
        RemoveOne(entries, sorted[i].key);
        entries := entries - {sorted[i].key};
      }
      DroppedIsTrimmed(before, sorted, entries);
    }

    /** The (key, age) list, in the map's iteration order. */
    method ListAges() returns (all: seq<Aged>)
      ensures ListsAges(all, entries)
    {
      all := [];
      var todo := entries.Keys;
      while todo != {}
        invariant todo <= entries.Keys && |all| + |todo| == |entries| && DistinctKeys(all)
        invariant forall x :: x in all <==> x.key in entries.Keys - todo && x.at == entries[x.key].fetchedAt
        decreases |todo|
      {
        var k :| k in todo;
        all := all + [Aged(k, entries[k].fetchedAt)];
        todo := todo - {k};
      }
    }

    /** Empties the memory; removing the file can fail. */
    method Clear(removed: bool)
      modifies this
      ensures entries == map[] && WellKeyed(entries)
      ensures file == if removed then None else old(file)
    {
      entries := map[];
      if removed {
        file := None;
      }
    }
  }
}

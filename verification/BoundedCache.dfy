/** The bounded caches: files in a directory, or keys in Redis with an index of write times
    (FileCache and RedisCache). */
module BoundedCache {
  import opened Options

  /** More entries than the maximum are tolerated, so that not every write deletes. */
  const BUFFER_SIZE := 5

  // ---- which entries go: the oldest, in the order of a sorted listing ----

  function Elements(s: seq<string>): set<string> {
    set x | x in s
  }

  /** No element twice. */
  predicate Distinct(s: seq<string>) {
    |Elements(s)| == |s|
  }

  lemma ElementsAppend(s: seq<string>, k: string)
    ensures Elements(s + [k]) == Elements(s) + {k}
  {
  }

  /** A directory listing, or the keys of a hash, in any order. */
  predicate Lists(listing: seq<string>, times: map<string, int>) {
    Distinct(listing) && Elements(listing) == times.Keys
  }

  predicate Covered(s: seq<string>, times: map<string, int>) {
    forall i :: 0 <= i < |s| ==> s[i] in times
  }

  predicate Ordered(s: seq<string>, times: map<string, int>)
    requires Covered(s, times)
  {
    forall i, j :: 0 <= i < j < |s| ==> times[s[i]] <= times[s[j]]
  }

  function InsertByTime(s: seq<string>, k: string, times: map<string, int>): (r: seq<string>)
    requires Covered(s, times) && k in times
    ensures Covered(r, times) && |r| == |s| + 1 && Elements(r) == Elements(s) + {k}
  {
    if s == [] then [k]
    else
      var before, last := s[..|s| - 1], s[|s| - 1];
      assert before + [last] == s;
      ElementsAppend(before, last);
      ElementsAppend(s, k);
      if times[last] <= times[k] then s + [k]
      else
        var r := InsertByTime(before, k, times);
        ElementsAppend(r, last);
        r + [last]
  }

  /** A stable sort by time. */
  function SortByTime(listing: seq<string>, times: map<string, int>): (r: seq<string>)
    requires Covered(listing, times)
    ensures Covered(r, times) && |r| == |listing| && Elements(r) == Elements(listing)
  {
    if listing == [] then []
    else
      var before, last := listing[..|listing| - 1], listing[|listing| - 1];
      assert before + [last] == listing;
      ElementsAppend(before, last);
      InsertByTime(SortByTime(before, times), last, times)
  }

  lemma {:induction false} InsertKeepsOrder(s: seq<string>, k: string, times: map<string, int>)
    requires Covered(s, times) && k in times && Ordered(s, times)
    ensures Ordered(InsertByTime(s, k, times), times)
  {
    if s != [] && times[s[|s| - 1]] > times[k] {
      var last, before := s[|s| - 1], s[..|s| - 1];
      InsertKeepsOrder(before, k, times);
      var r := InsertByTime(before, k, times);
      forall i | 0 <= i < |r|
        ensures times[r[i]] <= times[last]
      {
        assert r[i] in Elements(before) + {k};
      }
    }
  }

  lemma {:induction false} SortIsSorted(listing: seq<string>, times: map<string, int>)
    requires Covered(listing, times)
    ensures Ordered(SortByTime(listing, times), times)
  {
    if listing != [] {
      var before, last := listing[..|listing| - 1], listing[|listing| - 1];
      SortIsSorted(before, times);
      InsertKeepsOrder(SortByTime(before, times), last, times);
    }
  }

  /** x stands somewhere before y. */
  predicate Precedes(s: seq<string>, x: string, y: string) {
    exists a, b :: 0 <= a < b < |s| && s[a] == x && s[b] == y
  }

  lemma PrecedesAppend(s: seq<string>, x: string, y: string, last: string)
    ensures Precedes(s, x, y) ==> Precedes(s + [last], x, y)
    ensures x in s ==> Precedes(s + [last], x, last)
  {
    var r := s + [last];
    if Precedes(s, x, y) {
      var a, b :| 0 <= a < b < |s| && s[a] == x && s[b] == y;
      assert r[a] == x && r[b] == y;
    }
    if x in s {
      var a :| 0 <= a < |s| && s[a] == x;
      assert r[a] == x && r[|s|] == last;
    }
  }

  lemma {:induction false} InsertedAfter(s: seq<string>, k: string, times: map<string, int>, x: string)
    requires Covered(s, times) && k in times && x in s && times[x] <= times[k]
    ensures Precedes(InsertByTime(s, k, times), x, k)
  {
    var before, last := s[..|s| - 1], s[|s| - 1];
    if times[last] <= times[k] {
      PrecedesAppend(s, x, k, k);
    } else {
      InsertedAfter(before, k, times, x);
      PrecedesAppend(InsertByTime(before, k, times), x, k, last);
    }
  }

  lemma {:induction false} InsertKeepsPrecedes(s: seq<string>, k: string, times: map<string, int>, x: string, y: string)
    requires Covered(s, times) && k in times && Precedes(s, x, y)
    ensures Precedes(InsertByTime(s, k, times), x, y)
  {
    var before, last := s[..|s| - 1], s[|s| - 1];
    if times[last] <= times[k] {
      PrecedesAppend(s, x, y, k);
    } else {
      var a, b :| 0 <= a < b < |s| && s[a] == x && s[b] == y;
      var r := InsertByTime(before, k, times);
      if b < |s| - 1 {
        assert before[a] == x && before[b] == y;
        InsertKeepsPrecedes(before, k, times, x, y);
        PrecedesAppend(r, x, y, last);
      } else {
        assert before[a] == x;
        assert x in Elements(before) && x in Elements(r);
        PrecedesAppend(r, x, y, last);
      }
    }
  }

  /** Of two entries written at the same time, the one listed first comes first, and so is deleted first. */
  lemma {:induction false} EqualTimesKeepOrder(listing: seq<string>, times: map<string, int>, i: nat, j: nat)
    requires Covered(listing, times) && i < j < |listing| && times[listing[i]] == times[listing[j]]
    ensures Precedes(SortByTime(listing, times), listing[i], listing[j])
  {
    var n := |listing| - 1;
    var before, last := listing[..n], listing[n];
    if j < n {
      EqualTimesKeepOrder(before, times, i, j);
      InsertKeepsPrecedes(SortByTime(before, times), last, times, listing[i], listing[j]);
    } else {
      assert before[i] == listing[i];
      assert listing[i] in Elements(before);
      InsertedAfter(SortByTime(before, times), last, times, listing[i]);
    }
  }

  lemma {:induction false} ElementsAtMost(s: seq<string>)
    ensures |Elements(s)| <= |s|
  {
    if s != [] {
      ElementsAtMost(s[..|s| - 1]);
      assert s[..|s| - 1] + [s[|s| - 1]] == s;
      ElementsAppend(s[..|s| - 1], s[|s| - 1]);
    }
  }

  lemma PrefixIsDistinct(s: seq<string>, n: nat)
    requires Distinct(s) && n <= |s|
    ensures Distinct(s[..n])
  {
    ElementsAtMost(s[..n]);
    ElementsAtMost(s[n..]);
    assert s[..n] + s[n..] == s;
    assert Elements(s) == Elements(s[..n]) + Elements(s[n..]);
  }

  lemma FirstAreOldest(sorted: seq<string>, times: map<string, int>, n: nat, gone: set<string>)
    requires Covered(sorted, times) && Ordered(sorted, times) && Distinct(sorted) && Elements(sorted) == times.Keys
    requires n <= |sorted| && gone == Elements(sorted[..n])
    ensures gone <= times.Keys && |times.Keys - gone| == |sorted| - n
    ensures forall k, g :: k in times.Keys - gone && g in gone ==> times[g] <= times[k]
  {
    PrefixIsDistinct(sorted, n);
    assert gone <= Elements(sorted);
    forall k, g | k in times.Keys - gone && g in gone
      ensures times[g] <= times[k]
    {
      assert k in Elements(sorted);
      var i :| 0 <= i < |sorted| && sorted[i] == k;
      var j :| 0 <= j < n && sorted[..n][j] == g;
      assert i >= n;
    }
  }

  /** At most the maximum and the buffer are left; if anything is gone, exactly the maximum is left, and nothing
      that is left is older than anything that is gone. */
  ghost predicate KeepsTheMostRecent(times: map<string, int>, gone: set<string>, maxSize: Option<nat>) {
    && gone <= times.Keys
    && (maxSize.None? ==> gone == {})
    && (maxSize.Some? && |times.Keys| <= maxSize.value + BUFFER_SIZE ==> gone == {})
    && (maxSize.Some? && |times.Keys| > maxSize.value + BUFFER_SIZE ==> |times.Keys - gone| == maxSize.value)
    && NoneOlder(times, gone)
  }

  ghost predicate NoneOlder(times: map<string, int>, gone: set<string>)
    requires gone <= times.Keys
  {
    forall k, g :: k in times.Keys - gone && g in gone ==> times[g] <= times[k]
  }

  function Oldest(listing: seq<string>, times: map<string, int>, n: nat): seq<string>
    requires Covered(listing, times) && n <= |listing|
  {
    SortByTime(listing, times)[..n]
  }

  lemma ListingCovers(listing: seq<string>, times: map<string, int>)
    requires Lists(listing, times)
    ensures Covered(listing, times) && |times.Keys| == |listing|
  {
    assert forall i :: 0 <= i < |listing| ==> listing[i] in Elements(listing);
  }

  lemma OldestMayGo(listing: seq<string>, times: map<string, int>, maxSize: Option<nat>, gone: seq<string>)
    requires Lists(listing, times) && Covered(listing, times) && maxSize.Some? && |listing| > maxSize.value + BUFFER_SIZE
    requires gone == Oldest(listing, times, |listing| - maxSize.value)
    ensures KeepsTheMostRecent(times, Elements(gone), maxSize)
  {
    ListingCovers(listing, times);
    SortIsSorted(listing, times);
    FirstAreOldest(SortByTime(listing, times), times, |listing| - maxSize.value, Elements(gone));
  }

  lemma NothingMayGo(listing: seq<string>, times: map<string, int>, maxSize: Option<nat>)
    requires Lists(listing, times) && (maxSize.None? || |listing| <= maxSize.value + BUFFER_SIZE)
    ensures KeepsTheMostRecent(times, Elements([]), maxSize)
  {
    ListingCovers(listing, times);
    assert Elements([]) == {};
  }

  /** What is deleted: nothing while the cache fits, else the oldest entries beyond the maximum. */
  function Evicted(listing: seq<string>, times: map<string, int>, maxSize: Option<nat>): (gone: seq<string>)
    requires Lists(listing, times)
  {
    ListingCovers(listing, times);
    if maxSize.None? || |listing| <= maxSize.value + BUFFER_SIZE then []
    else Oldest(listing, times, |listing| - maxSize.value)
  }

  method OldestEntries(listing: seq<string>, times: map<string, int>, maxSize: Option<nat>) returns (oldest: seq<string>)
    requires Lists(listing, times)
    ensures oldest == Evicted(listing, times, maxSize)
    ensures KeepsTheMostRecent(times, Elements(oldest), maxSize)
    ensures maxSize.Some? ==> |times.Keys - Elements(oldest)| <= maxSize.value + BUFFER_SIZE
    ensures |oldest| == if maxSize.Some? && |listing| > maxSize.value + 5 then |listing| - maxSize.value else 0
  {
    ListingCovers(listing, times);
    oldest := Evicted(listing, times, maxSize);
    if maxSize.None? || |listing| <= maxSize.value + BUFFER_SIZE {
      NothingMayGo(listing, times, maxSize);
    } else {
      OldestMayGo(listing, times, maxSize, oldest);
    }
    WhatIsLeftFits(times, Elements(oldest), maxSize);
  }

  lemma WhatIsLeftFits(times: map<string, int>, gone: set<string>, maxSize: Option<nat>)
    requires KeepsTheMostRecent(times, gone, maxSize)
    ensures maxSize.Some? ==> |times.Keys - gone| <= maxSize.value + BUFFER_SIZE
  {
    if gone == {} {
      assert times.Keys - gone == times.Keys;
    }
  }

  predicate Older(times: map<string, int>, now: int) {
    forall k :: k in times ==> times[k] < now
  }

  /** The entry written last is not deleted when it is really the newest and the cache may hold anything. */
  lemma NewestSurvives(before: map<string, int>, newest: string, now: int, gone: set<string>, maxSize: Option<nat>)
    requires KeepsTheMostRecent(before[newest := now], gone, maxSize)
    ensures (maxSize.Some? ==> maxSize.value >= 1) && Older(before, now) ==> newest !in gone
  {
    var times := before[newest := now];
    if maxSize.Some? && maxSize.value >= 1 && |times.Keys| > maxSize.value + BUFFER_SIZE {
      assert |times.Keys - gone| >= 1;
      var k :| k in times.Keys - gone;
    }
  }

  // ---- files ----

  datatype Entry<+V> = Entry(value: V, time: int)

  function Times<V>(files: map<string, Entry<V>>): (r: map<string, int>)
    ensures r.Keys == files.Keys
  {
    map f | f in files :: files[f].time
  }

  predicate IsPlain(c: char) {
    'a' <= c <= 'z' || 'A' <= c <= 'Z' || '0' <= c <= '9' || c == '_' || c == '-' || c == '.'
  }

  /** The file of a key: other characters become underscores. */
  function FileName(name: string): string {
    seq(|name|, i requires 0 <= i < |name| => if IsPlain(name[i]) then name[i] else '_')
  }

  /** A name of letters, digits, `_`, `-` and `.` is its own file name, so plain names never share a file; of any
      other name each other character is replaced, and nothing is lost or added. */
  lemma PlainNamesStayApart(a: string, b: string)
    ensures |FileName(a)| == |a|
    ensures forall i :: 0 <= i < |a| ==> FileName(a)[i] == if IsPlain(a[i]) then a[i] else '_'
    ensures FileName(a) == a <==> forall i :: 0 <= i < |a| ==> IsPlain(a[i])
    ensures FileName(a) == a && FileName(b) == b && a != b ==> FileName(a) != FileName(b)
  {
    if forall i :: 0 <= i < |a| ==> IsPlain(a[i]) {
      assert FileName(a) == a;
    } else {
      var i :| 0 <= i < |a| && !IsPlain(a[i]);
      assert FileName(a)[i] != a[i];
    }
  }

  /** A concrete name: what is not plain becomes an underscore. */
  lemma TableInBackticks()
    ensures FileName("`aA0/zZ9`.-_ x") == "_aA0_zZ9_.-__x"
  {
    assert forall i :: 0 <= i < 14 ==> FileName("`aA0/zZ9`.-_ x")[i] == "_aA0_zZ9_.-__x"[i];
  }

  function Values<V>(files: map<string, Entry<V>>): map<string, V> {
    map f | f in files :: files[f].value
  }

  lemma TimesWritten<V>(files: map<string, Entry<V>>, path: string, e: Entry<V>)
    ensures Times(files[path := e]) == Times(files)[path := e.time]
  {
  }

  lemma ValuesWritten<V>(files: map<string, Entry<V>>, path: string, e: Entry<V>, gone: set<string>)
    ensures Values(files[path := e] - gone) == Values(files)[path := e.value] - gone
  {
  }

  /** Every value is the last one written under its key. */
  ghost predicate UpToDate<V>(values: map<string, V>, last: map<string, V>) {
    forall k :: k in values ==> k in last && values[k] == last[k]
  }

  lemma WrittenIsUpToDate<V>(values: map<string, V>, last: map<string, V>, key: string, value: V, gone: set<string>)
    requires UpToDate(values, last)
    ensures UpToDate(values[key := value] - gone, last[key := value])
  {
  }

  class FileCache<V> {
    const maxSize: Option<nat>
    var files: map<string, Entry<V>>
    /** The last value ever written to each file. */
    ghost var last: map<string, V>

    ghost predicate Valid()
      reads this
    {
      UpToDate(Values(files), last)
    }

    constructor (size: Option<nat>)
      ensures Valid() && maxSize == size && files == map[] && last == map[]
    {
      maxSize := size;
      files := map[];
      last := map[];
    }

    /** now is the time of the write, listing the directory as it is read for the clean-up. */
    method Set(name: string, value: V, now: int, listing: seq<string>) returns (ghost gone: set<string>)
      requires Valid() && Lists(listing, Times(files[FileName(name) := Entry(value, now)]))
      modifies this
      ensures Valid()
      ensures last == old(last)[FileName(name) := value]
      ensures files == old(files)[FileName(name) := Entry(value, now)] - gone
      ensures KeepsTheMostRecent(Times(old(files)[FileName(name) := Entry(value, now)]), gone, maxSize)
      ensures maxSize.Some? ==> |files| <= maxSize.value + BUFFER_SIZE
      ensures (maxSize.Some? ==> maxSize.value >= 1) && Older(Times(old(files)), now) ==>
        FileName(name) in files && files[FileName(name)].value == value
    {
      var path := FileName(name);
      files := files[path := Entry(value, now)];
      last := last[path := value];
      hide FileName, Elements, NoneOlder, UpToDate, KeepsTheMostRecent, Older, Times, Values;
      TimesWritten(old(files), path, Entry(value, now));
      gone := ClearOldCache(listing);
      NewestSurvives(Times(old(files)), path, now, gone, maxSize);
      WrittenIsUpToDate(Values(old(files)), old(last), path, value, gone);
      ValuesWritten(old(files), path, Entry(value, now), gone);
    }

    method ClearOldCache(listing: seq<string>) returns (ghost gone: set<string>)
      requires Lists(listing, Times(files))
      modifies this`files
      ensures KeepsTheMostRecent(Times(old(files)), gone, maxSize) && files == old(files) - gone
      ensures maxSize.Some? ==> |files| <= maxSize.value + BUFFER_SIZE
    {
      ghost var times := Times(files);
      var oldest := OldestEntries(listing, Times(files), maxSize);
      gone := Elements(oldest);
      DeleteFiles(oldest);
      assert files.Keys == times.Keys - gone;
    }

    method DeleteFiles(paths: seq<string>)
      modifies this`files
      ensures files == old(files) - Elements(paths)
    {
      for i := 0 to |paths|
        invariant files == old(files) - Elements(paths[..i])
      {
        files := files - {paths[i]};
        assert paths[..i + 1] == paths[..i] + [paths[i]];
        ElementsAppend(paths[..i], paths[i]);
      }
      assert paths[..|paths|] == paths;
    }

    /** The last value written under a name with the same file, or nothing. */
    method Get(name: string) returns (r: Option<V>)
      requires Valid()
      ensures r.Some? <==> FileName(name) in files
      ensures r.Some? ==> FileName(name) in last && r.value == last[FileName(name)]
    {
      var path := FileName(name);
      r := if path in files then Some(files[path].value) else None;
      assert r.Some? ==> path in Values(files);
    }

    /** Deleting a file that is not there is an error. */
    method Delete(name: string) returns (ok: bool)
      requires Valid()
      modifies this`files
      ensures Valid() && (ok <==> FileName(name) in old(files)) && files == old(files) - {FileName(name)}
    {
      ok := FileName(name) in files;
      files := files - {FileName(name)};
      assert forall f :: f in Values(files) ==> f in Values(old(files)) && Values(files)[f] == Values(old(files))[f];
    }
  }

  // ---- Redis ----

  class RedisCache<V> {
    const category: string
    const maxSize: Option<nat>
    var values: map<string, V>
    /** The hash named after the category: the write time of every key. */
    var index: map<string, int>
    ghost var last: map<string, V>

    /** Values and index have the same keys. */
    ghost predicate Valid()
      reads this
    {
      values.Keys == index.Keys && UpToDate(values, last)
    }

    constructor (name: string, size: Option<nat>)
      ensures Valid() && category == name && maxSize == size && values == map[] && last == map[]
    {
      category := name;
      maxSize := size;
      values := map[];
      index := map[];
      last := map[];
    }

    function RedisKey(name: string): string {
      category + "_" + name
    }

    /** Different names have different keys, and the category comes first. */
    lemma NamesStayApart(a: string, b: string)
      ensures RedisKey(a) == RedisKey(b) <==> a == b
      ensures category < RedisKey(a)
    {
      assert RedisKey(a)[|category| + 1..] == a && RedisKey(b)[|category| + 1..] == b;
    }

    /** keys are the keys of the hash, in the order in which the server lists them. */
    method Set(name: string, value: V, now: int, keys: seq<string>) returns (ghost gone: set<string>)
      requires Valid() && Lists(keys, index[RedisKey(name) := now])
      modifies this
      ensures Valid()
      ensures last == old(last)[RedisKey(name) := value]
      ensures values == old(values)[RedisKey(name) := value] - gone && index == old(index)[RedisKey(name) := now] - gone
      ensures KeepsTheMostRecent(old(index)[RedisKey(name) := now], gone, maxSize)
      ensures maxSize.Some? ==> |values| <= maxSize.value + BUFFER_SIZE
      ensures (maxSize.Some? ==> maxSize.value >= 1) && Older(old(index), now) ==>
        RedisKey(name) in values && values[RedisKey(name)] == value
    {
      var key := RedisKey(name);
      hide RedisKey, Elements, NoneOlder, UpToDate, KeepsTheMostRecent;
      values := values[key := value];
      index := index[key := now];
      last := last[key := value];
      gone := ClearOldCache(keys);
      NewestSurvives(old(index), key, now, gone, maxSize);
      WrittenIsUpToDate(old(values), old(last), key, value, gone);
    }

    method ClearOldCache(keys: seq<string>) returns (ghost gone: set<string>)
      requires values.Keys == index.Keys && Lists(keys, index)
      modifies this`values, this`index
      ensures KeepsTheMostRecent(old(index), gone, maxSize) && values == old(values) - gone && index == old(index) - gone
      ensures maxSize.Some? ==> |values| <= maxSize.value + BUFFER_SIZE
    {
      ghost var times := index;
      var oldest := OldestEntries(keys, index, maxSize);
      gone := Elements(oldest);
      DeleteKeys(oldest);
      assert values.Keys == times.Keys - gone;
    }

    method DeleteKeys(keys: seq<string>)
      modifies this`values, this`index
      ensures values == old(values) - Elements(keys) && index == old(index) - Elements(keys)
    {
      for i := 0 to |keys|
        invariant values == old(values) - Elements(keys[..i]) && index == old(index) - Elements(keys[..i])
      {
        values := values - {keys[i]};
        index := index - {keys[i]};
        assert keys[..i + 1] == keys[..i] + [keys[i]];
        ElementsAppend(keys[..i], keys[i]);
      }
      assert keys[..|keys|] == keys;
    }

    method Get(name: string) returns (r: Option<V>)
      requires Valid()
      ensures r.Some? <==> RedisKey(name) in values
      ensures r.Some? ==> RedisKey(name) in last && r.value == last[RedisKey(name)]
    {
      var key := RedisKey(name);
      r := if key in values then Some(values[key]) else None;
    }

    method Delete(name: string)
      requires Valid()
      modifies this`values, this`index
      ensures Valid() && values == old(values) - {RedisKey(name)} && index == old(index) - {RedisKey(name)}
    {
      values := values - {RedisKey(name)};
      index := index - {RedisKey(name)};
    }
  }
}

/** The `CachedData` table: JSON payloads stored under a key until an expiry
    time. A unique index on `CacheKey` allows one row per key. */
module Caching {
  import opened Wrappers
  import opened Requests

  const SecondsPerHour := 3600

  datatype CachedData = CachedData(cacheKey: string, jsonData: string, cachedAt: int, expiresAt: int)

  /** The unique index on `CacheKey`. */
  predicate UniqueKeys(rows: seq<CachedData>) {
    forall i, j :: 0 <= i < j < |rows| ==> rows[i].cacheKey != rows[j].cacheKey
  }

  /** The first row with the key whose expiry lies strictly after `now`. */
  function Lookup(rows: seq<CachedData>, key: string, now: int): (r: Option<CachedData>)
    ensures r.Some? ==> r.value in rows && r.value.cacheKey == key && r.value.expiresAt > now
    ensures r.None? <==> forall c :: c in rows ==> c.cacheKey != key || c.expiresAt <= now
  {
    match FirstWhere(rows, (c: CachedData) => c.cacheKey == key && c.expiresAt > now)
    case None => None
    case Some(i) => Some(rows[i])
  }

  /** The table without the first row stored under `key`. */
  function RemoveKey(rows: seq<CachedData>, key: string): (r: seq<CachedData>)
    ensures forall c :: c in r ==> c in rows
    ensures forall c :: c in rows && c.cacheKey != key ==> c in r
  {
    match FirstWhere(rows, (c: CachedData) => c.cacheKey == key)
    case None => rows
    case Some(i) =>
      assert forall c :: c in rows[..i] + rows[i + 1..] ==> c in rows;
      assert forall j :: 0 <= j < |rows| && j != i ==> rows[j] in rows[..i] + rows[i + 1..] by {
        forall j | 0 <= j < |rows| && j != i
          ensures rows[j] in rows[..i] + rows[i + 1..]
        {
          if j < i { assert rows[j] == (rows[..i] + rows[i + 1..])[j]; }
          else { assert rows[j] == (rows[..i] + rows[i + 1..])[j - 1]; }
        }
      }
      rows[..i] + rows[i + 1..]
  }

  /** What storing `jsonData` under `key` for `hours` hours leaves: the old
      row for the key removed and a fresh one added. */
  function Store(rows: seq<CachedData>, key: string, jsonData: string, hours: int, now: int): (r: seq<CachedData>)
    ensures CachedData(key, jsonData, now, now + hours * SecondsPerHour) in r
    ensures forall c :: c in rows && c.cacheKey != key ==> c in r
    ensures forall c :: c in r ==> c in rows || c == CachedData(key, jsonData, now, now + hours * SecondsPerHour)
  {
    RemoveKey(rows, key) + [CachedData(key, jsonData, now, now + hours * SecondsPerHour)]
  }

  /** With the unique index, no row for the key survives `RemoveKey`. */
  lemma RemoveKeyUnique(rows: seq<CachedData>, key: string)
    requires UniqueKeys(rows)
    ensures forall c :: c in RemoveKey(rows, key) ==> c.cacheKey != key
    ensures UniqueKeys(RemoveKey(rows, key))
  {
    match FirstWhere(rows, (c: CachedData) => c.cacheKey == key)
    case None =>
    case Some(i) =>
      var r := rows[..i] + rows[i + 1..];
      forall p | 0 <= p < |r|
        ensures r[p] == rows[if p < i then p else p + 1]
      {
      }
  }

  /** Storing keeps one row per key. */
  lemma StoreUnique(rows: seq<CachedData>, key: string, jsonData: string, hours: int, now: int)
    requires UniqueKeys(rows)
    ensures UniqueKeys(Store(rows, key, jsonData, hours, now))
  {
    RemoveKeyUnique(rows, key);
  }

  /** Right after storing for a positive number of hours, the lookup at the
      same instant returns the new payload. */
  lemma StoreThenLookup(rows: seq<CachedData>, key: string, jsonData: string, hours: int, now: int)
    requires UniqueKeys(rows) && hours > 0
    ensures Lookup(Store(rows, key, jsonData, hours, now), key, now) ==
      Some(CachedData(key, jsonData, now, now + hours * SecondsPerHour))
  {
    RemoveKeyUnique(rows, key);
    var r := RemoveKey(rows, key);
    var s := Store(rows, key, jsonData, hours, now);
    var i := FirstWhere(s, (c: CachedData) => c.cacheKey == key && c.expiresAt > now);
    assert s[|r|].cacheKey == key;
    assert forall j :: 0 <= j < |r| ==> s[j] in r;
  }

  /** Under the unique index, the lookup returns the one unexpired row
      stored under the key. */
  lemma LookupUnique(rows: seq<CachedData>, key: string, now: int, c: CachedData)
    requires UniqueKeys(rows) && c in rows && c.cacheKey == key && c.expiresAt > now
    ensures Lookup(rows, key, now) == Some(c)
  {
    var d := Lookup(rows, key, now).value;
    var i :| 0 <= i < |rows| && rows[i] == c;
    var j :| 0 <= j < |rows| && rows[j] == d;
    assert i == j;
  }

  /** Storing under one key leaves every row of every other key as it was,
      and so every lookup of another key. */
  lemma StoreOtherKeys(rows: seq<CachedData>, key: string, jsonData: string, hours: int, now: int, other: string, t: int)
    requires UniqueKeys(rows) && other != key
    ensures forall c: CachedData :: c.cacheKey == other ==> (c in Store(rows, key, jsonData, hours, now) <==> c in rows)
    ensures Lookup(Store(rows, key, jsonData, hours, now), other, t) == Lookup(rows, other, t)
  {
    StoreUnique(rows, key, jsonData, hours, now);
    var s := Store(rows, key, jsonData, hours, now);
    match Lookup(rows, other, t)
    case None =>
    case Some(c) => LookupUnique(s, other, t, c);
  }

  /** Storing for zero or fewer hours stores a row that no lookup returns. */
  lemma StoreExpired(rows: seq<CachedData>, key: string, jsonData: string, hours: int, now: int)
    requires UniqueKeys(rows) && hours <= 0
    ensures Lookup(Store(rows, key, jsonData, hours, now), key, now).None?
  {
    RemoveKeyUnique(rows, key);
  }

  /** The cache over the `CachedData` table. */
  class CacheTable {
    var rows: seq<CachedData>

    ghost predicate Valid()
      reads this
    {
      UniqueKeys(rows)
    }

    constructor(rows0: seq<CachedData>)
      requires UniqueKeys(rows0)
      ensures Valid() && rows == rows0
    {
      rows := rows0;
    }

    /** The unexpired payload under the key, if any; the table is unchanged. */
    method GetCachedData(cacheKey: string, now: int) returns (r: Option<CachedData>)
      ensures r == Lookup(rows, cacheKey, now)
    {
      r := Lookup(rows, cacheKey, now);
    }

    /** Replace whatever is stored under the key with a new payload. */
    method CacheData(cacheKey: string, jsonData: string, hours: int, now: int)
      requires Valid()
      modifies this
      ensures Valid()
      ensures rows == Store(old(rows), cacheKey, jsonData, hours, now)
    {
      StoreUnique(rows, cacheKey, jsonData, hours, now);
      rows := RemoveKey(rows, cacheKey);
      rows := rows + [CachedData(cacheKey, jsonData, now, now + hours * SecondsPerHour)];
    }
  }
}

/** The distributed cache in front of the ReplayCache service's storage
    (`IDistributedCache`): byte arrays by key, each with an absolute expiry.
    Time is a count of ticks supplied by the caller. */
module DistributedCache {
  import opened Wrappers
  import opened Numbers

  /** `TimeSpan.FromDays(1)` in ticks: the lifetime of every entry the service sets. */
  const ONE_DAY: int := 864_000_000_000

  datatype Entry = Entry(value: seq<byte>, expiresAt: int)

  /** What a read of `key` at time `now` sees: the entry's bytes until it expires. */
  function Live(entries: map<string, Entry>, key: string, now: int): Option<seq<byte>> {
    if key in entries && now < entries[key].expiresAt then Some(entries[key].value) else None
  }

  class Cache {
    var entries: map<string, Entry>

    constructor(existing: map<string, Entry>)
      ensures entries == existing
    {
      entries := existing;
    }

    /** `GetAsync`: the live bytes under `key`, or nothing. */
    method Get(key: string, now: int) returns (r: Option<seq<byte>>)
      ensures r == Live(entries, key, now)
    {
      if key in entries && now < entries[key].expiresAt {
        return Some(entries[key].value);
      }
      return None;
    }

    /** `SetAsync` with `AbsoluteExpirationRelativeToNow` of one day: the
        entry is replaced whatever was there. */
    method Set(key: string, value: seq<byte>, now: int)
      modifies this
      ensures entries == old(entries)[key := Entry(value, now + ONE_DAY)]
    {
      entries := entries[key := Entry(value, now + ONE_DAY)];
    }

    /** `RemoveAsync`: silent when the key is absent. */
    method Remove(key: string)
      modifies this
      ensures entries == old(entries) - {key}
    {
      entries := entries - {key};
    }
  }

  /** A set entry is read back unchanged for one day from the write, and not after. */
  lemma SetThenGet(entries: map<string, Entry>, key: string, value: seq<byte>, now: int, later: int)
    requires now <= later
    ensures Live(entries[key := Entry(value, now + ONE_DAY)], key, later) ==
            if later < now + ONE_DAY then Some(value) else None
  {
  }

  /** Setting or removing one key leaves what every other key reads. */
  lemma OtherKeysUnaffected(entries: map<string, Entry>, key: string, other: string, value: seq<byte>, now: int, later: int)
    requires other != key
    ensures Live(entries[key := Entry(value, now + ONE_DAY)], other, later) == Live(entries, other, later)
    ensures Live(entries - {key}, other, later) == Live(entries, other, later)
  {
  }

  /** After a removal nothing is read under the key, at any time. */
  lemma RemoveThenGet(entries: map<string, Entry>, key: string, later: int)
    ensures Live(entries - {key}, key, later) == None
  {
  }

  /** Once expired, an entry stays expired. */
  lemma ExpiryIsFinal(entries: map<string, Entry>, key: string, t1: int, t2: int)
    requires t1 <= t2 && Live(entries, key, t1).None?
    ensures Live(entries, key, t2).None?
  {
  }
}

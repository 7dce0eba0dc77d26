// A key-value store whose entries expire, with the few atomic commands the callers use.
module TtlStore {
  import opened Prelude

  // An entry is gone from `expiresAt` on.
  datatype Entry<V> = Entry(value: V, expiresAt: Time)

  // The live part of a store's contents at `now`: what any command can observe.
  function LiveEntries<V>(entries: map<string, Entry<V>>, now: Time): map<string, Entry<V>> {
    map k | k in entries && now < entries[k].expiresAt :: entries[k]
  }

  lemma LiveExactly<V>(entries: map<string, Entry<V>>, now: Time, key: string)
    ensures key in LiveEntries(entries, now) <==> key in entries && now < entries[key].expiresAt
    ensures key in LiveEntries(entries, now) ==> LiveEntries(entries, now)[key] == entries[key]
  {
  }

  function After(now: Time, ttl: int): Time {
    if now + ttl >= 0 then now + ttl else 0
  }

  class Store<V(==)> {
    var entries: map<string, Entry<V>>
    var now: Time

    constructor ()
      ensures entries == map[] && now == 0
    {
      entries, now := map[], 0;
    }

    function Live(): map<string, Entry<V>>
      reads this
    {
      LiveEntries(entries, now)
    }

    method Get(key: string) returns (value: Option<V>)
      ensures value == if key in Live() then Some(Live()[key].value) else None
    {
      value := if key in entries && now < entries[key].expiresAt then Some(entries[key].value) else None;
    }

    method Set(key: string, value: V, ttl: nat)
      modifies `entries
      ensures ttl > 0 ==> Live() == old(Live())[key := Entry(value, now + ttl)]
      ensures ttl == 0 ==> Live() == old(Live()) - {key}
    {
      entries := entries[key := Entry(value, now + ttl)];
    }

    method Del(key: string)
      modifies `entries
      ensures Live() == old(Live()) - {key}
    {
      entries := entries - {key};
    }

    // SET key value PX ttl NX; a time to live that is not positive is an error.
    method SetIfAbsent(key: string, value: V, ttl: int) returns (r: Result<bool, string>)
      modifies `entries
      ensures ttl <= 0 ==> r.Err? && Live() == old(Live())
      ensures ttl > 0 ==> r == Ok(key !in old(Live()))
      ensures ttl > 0 ==> Live() == if key in old(Live()) then old(Live()) else old(Live())[key := Entry(value, now + ttl)]
    {
      if ttl <= 0 {
        return Err("invalid expire time");
      }
      var existing := Get(key);
      if existing.None? {
        entries := entries[key := Entry(value, now + ttl)];
      }
      r := Ok(existing.None?);
    }

    // The release script: delete only what still holds the given value.
    method CompareAndDelete(key: string, value: V) returns (deleted: bool)
      modifies `entries
      ensures deleted <==> key in old(Live()) && old(Live())[key].value == value
      ensures Live() == if deleted then old(Live()) - {key} else old(Live())
    {
      var existing := Get(key);
      deleted := existing == Some(value);
      if deleted {
        Del(key);
      }
    }

    // The extend script: PEXPIRE only what still holds the given value; PEXPIRE with a time
    // that is not positive deletes the key.
    method CompareAndExpire(key: string, value: V, ttl: int) returns (extended: bool)
      modifies `entries
      ensures extended <==> key in old(Live()) && old(Live())[key].value == value
      ensures !extended ==> Live() == old(Live())
      ensures extended && ttl > 0 ==> Live() == old(Live())[key := Entry(value, now + ttl)]
      ensures extended && ttl <= 0 ==> Live() == old(Live()) - {key}
    {
      var existing := Get(key);
      extended := existing == Some(value);
      if extended {
        entries := entries[key := Entry(value, After(now, ttl))];
      }
    }
  }
}

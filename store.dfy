/**
  The key-value store the service is built on: Redis, seen as an atomic map of
  string values and an atomic map of string lists. Each key holds one type of
  value, and Redis never keeps an empty list.
 */
module KeyValueStore {
  import opened Common

  /** True when `key` holds a value of either type. */
  predicate Present(strings: map<string, string>, lists: map<string, seq<string>>, key: string)
  {
    key in strings || key in lists
  }

  class RedisStore {
    var strings: map<string, string>
    var lists: map<string, seq<string>>

    ghost predicate Valid()
      reads this
    {
      && strings.Keys !! lists.Keys
      && forall key :: key in lists ==> lists[key] != []
    }

    constructor ()
      ensures Valid()
      ensures strings == map[] && lists == map[]
    {
      strings := map[];
      lists := map[];
    }

    /** EXISTS key */
    function HasKey(key: string): bool
      reads this
    {
      Present(strings, lists, key)
    }

    /** GET key; a key that holds no string reads as absent (null). */
    function Get(key: string): Option<string>
      reads this
    {
      if key in strings then Some(strings[key]) else None
    }

    /** LRANGE key 0 -1; an absent key reads as the empty list. */
    function Range(key: string): seq<string>
      reads this
    {
      if key in lists then lists[key] else []
    }

    /** SETNX key value: stores `value` only when `key` is absent, and says whether it did. */
    method SetIfAbsent(key: string, value: string) returns (stored: bool)
      requires Valid()
      modifies this
      ensures Valid()
      ensures stored <==> !old(HasKey(key))
      ensures strings == if stored then old(strings)[key := value] else old(strings)
      ensures lists == old(lists)
    {
      stored := !HasKey(key);
      if stored {
        strings := strings[key := value];
      }
    }

    /** RPUSH key value, on a key that does not hold a string. */
    method RightPush(key: string, value: string)
      requires Valid()
      requires key !in strings
      modifies this
      ensures Valid()
      ensures strings == old(strings)
      ensures lists == old(lists)[key := old(Range(key)) + [value]]
    {
      lists := lists[key := Range(key) + [value]];
    }

    /** DEL key: removes whatever the key holds; deleting an absent key does nothing. */
    method Delete(key: string)
      requires Valid()
      modifies this
      ensures Valid()
      ensures strings == old(strings) - {key}
      ensures lists == old(lists) - {key}
      ensures !HasKey(key)
    {
      strings := strings - {key};
      lists := lists - {key};
    }
  }
}

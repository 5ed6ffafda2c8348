// cache/cache.go: a map from addresses to geo ids that a timer empties every 48 hours.
module Cache {
  const CLEAR_PERIOD := 48 * 3600 * 1_000_000_000 // in nanoseconds

  class Cache {
    var cm: map<string, int>

    constructor ()
      ensures cm == map[]
    {
      cm := map[];
    }

    method Set(key: string, data: int)
      modifies this
      ensures cm == old(cm)[key := data]
    {
      cm := cm[key := data];
    }

    // Two atomic operations on the underlying map, taken together here.
    method Get(key: string) returns (data: int, ok: bool)
      ensures ok <==> key in cm
      ensures data == if key in cm then cm[key] else 0
    {
      if key in cm {
        return cm[key], true;
      }
      return 0, false;
    }

    method Delete(key: string)
      modifies this
      ensures cm == old(cm) - {key}
    {
      cm := cm - {key};
    }

    // Remove the keys of a snapshot, one by one.
    method Clear()
      modifies this
      ensures cm == map[]
    {
      var keys := cm.Keys;
      while keys != {}
        invariant cm.Keys == keys
        decreases |keys|
      {
        var key :| key in keys;
        keys := keys - {key};
        Delete(key);
      }
    }
  }
}

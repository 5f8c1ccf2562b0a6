/** Live objects per client (`src/metrics.rs`). */
module Census {
  type Key = nat

  /** The objects `name` owns. */
  function Owned(owner: map<Key, string>, name: string): set<Key> {
    set k | k in owner && owner[k] == name
  }

  /** What the counts must be: a row for every client with an object, and no other. */
  ghost predicate Agrees(counts: map<string, nat>, owner: map<Key, string>) {
    forall name :: (name in counts <==> Owned(owner, name) != {})
      && (name in counts ==> counts[name] == |Owned(owner, name)|)
  }

  /** `decrement`, for a name that has a row. */
  function Decremented(counts: map<string, nat>, name: string): map<string, nat>
    requires name in counts && counts[name] > 0
  {
    if counts[name] == 1 then counts - {name} else counts[name := counts[name] - 1]
  }

  function Incremented(counts: map<string, nat>, name: string): map<string, nat> {
    counts[name := (if name in counts then counts[name] else 0) + 1]
  }

  lemma RemovalAgrees(counts: map<string, nat>, owner: map<Key, string>, key: Key)
    requires Agrees(counts, owner) && key in owner
    ensures owner[key] in counts && counts[owner[key]] > 0
    ensures Agrees(Decremented(counts, owner[key]), owner - {key})
  {
    var prev := owner[key];
    assert key in Owned(owner, prev);
    forall name ensures Owned(owner - {key}, name) == if name == prev then Owned(owner, name) - {key}
      else Owned(owner, name) {
    }
    assert |Owned(owner, prev)| == |Owned(owner - {key}, prev)| + 1;
    assert Owned(owner - {key}, prev) == {} <==> counts[prev] == 1;
  }

  lemma CreationAgrees(counts: map<string, nat>, owner: map<Key, string>, key: Key, name: string)
    requires Agrees(counts, owner) && key !in owner
    ensures Agrees(Incremented(counts, name), owner[key := name])
  {
    var now := owner[key := name];
    forall other ensures Owned(now, other) == if other == name then Owned(owner, other) + {key}
      else Owned(owner, other) {
    }
  }

  class ResourceCensus {
    var counts: map<string, nat>
    var owner: map<Key, string>

    constructor ()
      ensures Valid() && owner == map[] && counts == map[]
    {
      counts, owner := map[], map[];
    }

    ghost predicate Valid()
      reads this
    {
      Agrees(counts, owner)
    }

    method Decrement(name: string)
      requires name in counts ==> counts[name] > 0
      modifies this`counts
      ensures counts == if name in old(counts) then Decremented(old(counts), name) else old(counts)
    {
      if name in counts {
        counts := counts[name := counts[name] - 1];
        if counts[name] == 0 {
          counts := counts - {name};
        }
      }
    }

    /** A duplicate creation replaces the old owner. */
    method Insert(key: Key, name: string)
      requires Valid()
      modifies this
      ensures Valid() && owner == old(owner)[key := name]
    {
      var known := key in owner;
      var prev := if known then owner[key] else "";
      ghost var rest := owner - {key};
      if known {
        RemovalAgrees(counts, owner, key);
      } else {
        assert rest == owner;
      }
      owner := owner[key := name];
      if known {
        Decrement(prev);
      }
      CreationAgrees(counts, rest, key, name);
      assert rest[key := name] == owner;
      counts := Incremented(counts, name);
    }

    /** An object never seen is ignored. */
    method Remove(key: Key)
      requires Valid()
      modifies this
      ensures Valid() && owner == old(owner) - {key}
    {
      if key in owner {
        var prev := owner[key];
        RemovalAgrees(counts, owner, key);
        owner := owner - {key};
        Decrement(prev);
      } else {
        assert owner - {key} == owner;
      }
    }
  }
}

/** The table of connections, operation by operation: every entry, every timer, and what becomes of the
    bufferevents. */
module ConnectLaws {
  import opened ConnectBev
  import opened Options

  function Without<V>(m: map<string, V>, key: string): map<string, V> {
    map k | k in m && k != key :: m[k]
  }

  /** A free key gets the bufferevent; a taken key is refused and nothing changes. */
  lemma AddedExactly(c: Conns, key: string, bev: Bev)
    ensures key in c.table ==> AddBev(c, key, bev) == (c, 1)
    ensures key !in c.table ==>
              AddBev(c, key, bev)
              == (Conns(c.table[key := bev], c.readTimers, c.writeTimers, c.handed + {bev}, c.freed, c.lost), 0)
  {}

  /** An accepted connection without a name is not stored; one whose key is taken is lost. */
  lemma AcceptedExactly(c: Conns, key: string, bev: Bev)
    ensures NewAccepted(c, "", bev) == (c, "")
    ensures key != "" && key !in c.table ==>
              NewAccepted(c, key, bev)
              == (Conns(c.table[key := bev], c.readTimers, c.writeTimers, c.handed + {bev}, c.freed, c.lost), key)
    ensures key != "" && key in c.table ==>
              NewAccepted(c, key, bev)
              == (Conns(c.table, c.readTimers, c.writeTimers, c.handed + {bev}, c.freed, c.lost + {bev}), key)
  {}

  /** A dialled connection is stored under its key, one that fails is freed, and a name that does not
      resolve leaves nothing. */
  lemma DialledExactly(c: Conns, key: string, bev: Bev)
    ensures NewDialled(c, Unresolved) == (c, "")
    ensures NewDialled(c, Failed(bev))
         == (Conns(c.table, c.readTimers, c.writeTimers, c.handed + {bev}, c.freed + [bev], c.lost), "")
    ensures key !in c.table ==>
              NewDialled(c, Dialled(key, bev))
              == (Conns(c.table[key := bev], c.readTimers, c.writeTimers, c.handed + {bev}, c.freed, c.lost), key)
    ensures key in c.table ==>
              NewDialled(c, Dialled(key, bev))
              == (Conns(c.table, c.readTimers, c.writeTimers, c.handed + {bev}, c.freed, c.lost + {bev}), key)
  {}

  /** Looking up finds the stored bufferevent and nothing else. */
  lemma FoundExactly(c: Conns, key: string, bev: Bev)
    ensures GetBev(c, key) == Some(bev) <==> key in c.table && c.table[key] == bev
    ensures GetBev(c, key) == None <==> key !in c.table
  {}

  /** Timers are only set and removed for a stored key, both at once, and for no other key. */
  lemma TimersExactly(c: Conns, key: string, readSecs: int, writeSecs: int)
    ensures key !in c.table ==> SetTimer(c, key, readSecs, writeSecs) == c && DelTimer(c, key) == c
    ensures key in c.table ==>
              && SetTimer(c, key, readSecs, writeSecs)
              == Conns(c.table, c.readTimers[key := readSecs], c.writeTimers[key := writeSecs], c.handed, c.freed, c.lost)
              && DelTimer(c, key)
              == Conns(c.table, Without(c.readTimers, key), Without(c.writeTimers, key), c.handed, c.freed, c.lost)
  {
    assert Without(c.readTimers, key) == c.readTimers - {key};
    assert Without(c.writeTimers, key) == c.writeTimers - {key};
  }

  /** Deleting a stored key takes its entry and both timers away and frees the bufferevent. */
  lemma DeletedExactly(c: Conns, key: string)
    ensures key !in c.table ==> DelBev(c, key) == c
    ensures key in c.table ==>
              DelBev(c, key) == Conns(Without(c.table, key), Without(c.readTimers, key), Without(c.writeTimers, key),
                                      c.handed, c.freed + [c.table[key]], c.lost)
  {
    TimersExactly(c, key, 0, 0);
    assert Without(c.table, key) == c.table - {key};
  }

  /** Renaming moves the entry and leaves the timers behind; onto a taken key it loses the bufferevent. */
  lemma RenamedExactly(c: Conns, oldKey: string, newKey: string)
    ensures oldKey !in c.table ==> SetKey(c, oldKey, newKey) == c
    ensures oldKey in c.table && newKey !in c.table ==>
              SetKey(c, oldKey, newKey)
              == Conns(Without(c.table, oldKey)[newKey := c.table[oldKey]], c.readTimers, c.writeTimers, c.handed, c.freed, c.lost)
    ensures oldKey in c.table && newKey in c.table ==>
              SetKey(c, oldKey, newKey)
              == Conns(Without(c.table, oldKey), c.readTimers, c.writeTimers, c.handed, c.freed, c.lost + {c.table[oldKey]})
  {
    assert Without(c.table, oldKey) == c.table - {oldKey};
    if oldKey in c.table && newKey !in c.table {
      assert c.table[newKey := c.table[oldKey]] - {oldKey} == Without(c.table, oldKey)[newKey := c.table[oldKey]];
    }
  }

  /** A stored connection whose socket has another name is renamed to it, and that is its key from now on. */
  lemma RecalculatedExactly(c: Conns, oldKey: string, named: string)
    ensures oldKey in c.table && named != "" && named != oldKey ==>
              RecalculateKey(c, oldKey, named) == (SetKey(c, oldKey, named), named)
    ensures oldKey !in c.table || named == "" || named == oldKey ==> RecalculateKey(c, oldKey, named) == (c, oldKey)
  {}
}

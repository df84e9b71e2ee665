/**
 * The pool's bookkeeping table, `connections`: a map from each origin to the
 * set of connections the pool holds for it.  The functions here are the
 * table edits the pool performs under its lock; the lemmas say what each
 * edit does to the set of connections the pool tracks.
 */
module PoolTable {
  import opened Connections

  type Table = map<Origin, set<Connection>>

  /**
   * The table's invariant: no origin is stored with an empty set, and every
   * connection is stored under its own origin (hence under one origin only).
   */
  ghost predicate WellFormed(t: Table)
  {
    forall o :: o in t ==> t[o] != {} && forall c :: c in t[o] ==> c.origin == o
  }

  /** The set stored for `o`, or the empty set when `o` has no entry. */
  function Members(t: Table, o: Origin): (r: set<Connection>)
  {
    if o in t then t[o] else {}
  }

  /** Every connection the table holds, across all origins. */
  function Stored(t: Table): (r: set<Connection>)
  {
    set o, c | o in t && c in t[o] :: c
  }

  /**
   * Removes `gone` from the set stored for `o` and deletes the entry for `o`
   * when its set becomes empty; an origin without an entry is left alone.
   * Used by acquisition (the dropped connections) and by release (the one
   * closed connection).
   */
  function Discard(t: Table, o: Origin, gone: set<Connection>): (r: Table)
    ensures forall o' :: o' in t && o' != o ==> o' in r && r[o'] == t[o']
    ensures r.Keys <= t.Keys
    ensures o in r <==> Members(t, o) - gone != {}
    ensures Members(r, o) == Members(t, o) - gone
    ensures WellFormed(t) ==> WellFormed(r)
  {
    if o !in t then t
    else if t[o] - gone == {} then t - {o}
    else t[o := t[o] - gone]
  }

  /**
   * `setdefault(o, set())` followed by `add(c)`: adds `c` to the set stored
   * for `o`, creating the entry when it is missing.
   */
  function Insert(t: Table, o: Origin, c: Connection): (r: Table)
    ensures forall o' :: o' in t && o' != o ==> o' in r && r[o'] == t[o']
    ensures r.Keys == t.Keys + {o}
    ensures r[o] == Members(t, o) + {c}
    ensures WellFormed(t) && c.origin == o ==> WellFormed(r)
  {
    t[o := Members(t, o) + {c}]
  }

  /**
   * In a well-formed table a connection is tracked exactly when it is in the
   * set stored under its own origin.
   */
  lemma StoredByOrigin(t: Table, c: Connection)
    requires WellFormed(t)
    ensures c in Stored(t) <==> c in Members(t, c.origin)
  {
  }

  /** Discarding members of one origin's set stops tracking exactly those. */
  lemma StoredAfterDiscard(t: Table, o: Origin, gone: set<Connection>)
    requires WellFormed(t)
    requires gone <= Members(t, o)
    ensures Stored(Discard(t, o, gone)) == Stored(t) - gone
  {
    var r := Discard(t, o, gone);
    forall c | c in Stored(r) ensures c in Stored(t) - gone {
      var o' :| o' in r && c in r[o'];
      if o' == o {
        assert c in Members(r, o);
      } else {
        assert c in t[o'];
        assert c.origin == o';
        assert c !in gone;
      }
    }
    forall c | c in Stored(t) - gone ensures c in Stored(r) {
      var o' :| o' in t && c in t[o'];
      if o' == o {
        assert c in Members(r, o);
      } else {
        assert c in r[o'];
      }
    }
  }

  /** Inserting a connection starts tracking it and nothing else. */
  lemma StoredAfterInsert(t: Table, o: Origin, c: Connection)
    ensures Stored(Insert(t, o, c)) == Stored(t) + {c}
  {
  }
}

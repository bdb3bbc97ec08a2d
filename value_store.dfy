/** The Q-value store: an in-memory cache in front of a durable table keyed by state. The
    table is modelled as a second map; the SQL that keeps it is not part of this model. */
module ValueStore {

  /** `GetValueOrDefault(state, 0.0)`. */
  function Lookup(m: map<string, real>, state: string): (v: real)
  {
    if state in m then m[state] else 0.0
  }

  /** Upserting every entry of updates (later entries of the map win, and a map has one
      entry per key). */
  function Merge(m: map<string, real>, updates: map<string, real>): (r: map<string, real>)
  {
    m + updates
  }

  /** A lookup after an upsert sees the new value, and only that key changes. */
  lemma LookupAfterUpsert(m: map<string, real>, state: string, v: real, other: string)
    ensures Lookup(m[state := v], state) == v
    ensures other != state ==> Lookup(m[state := v], other) == Lookup(m, other)
  {
  }

  /** After a batch upsert every key of the batch has its batch value and every other key
      keeps its old one. */
  lemma LookupAfterMerge(m: map<string, real>, updates: map<string, real>, state: string)
    ensures state in updates ==> Lookup(Merge(m, updates), state) == updates[state]
    ensures state !in updates ==> Lookup(Merge(m, updates), state) == Lookup(m, state)
  {
  }

  /** The empty cache answers 0.0 everywhere. */
  lemma LookupEmpty(state: string)
    ensures Lookup(map[], state) == 0.0
  {
  }

  /** An upsert of a new key adds one to the count; overwriting a key leaves it. */
  lemma UpsertCount(m: map<string, real>, state: string, v: real)
    ensures |m[state := v]| == if state in m then |m| else |m| + 1
  {
    if state in m {
      assert m[state := v].Keys == m.Keys;
    } else {
      assert m[state := v].Keys == m.Keys + {state};
    }
  }

  /** Rows of the table keyed by their state: the primary key makes the states distinct. */
  predicate DistinctStates(rows: seq<(string, real)>)
  {
    forall i, j :: 0 <= i < j < |rows| ==> rows[i].0 != rows[j].0
  }

  /** The map the rows describe. */
  function RowsMap(rows: seq<(string, real)>): (m: map<string, real>)
    ensures m.Keys == set i | 0 <= i < |rows| :: rows[i].0
  {
    if rows == [] then map[]
    else
      var init := rows[..|rows| - 1];
      assert (set i | 0 <= i < |rows| :: rows[i].0) ==
        (set i | 0 <= i < |init| :: init[i].0) + {rows[|rows| - 1].0};
      RowsMap(init)[rows[|rows| - 1].0 := rows[|rows| - 1].1]
  }

  /** With distinct states each row is found under its own state. */
  lemma {:induction false} RowsMapAt(rows: seq<(string, real)>, i: int)
    requires DistinctStates(rows) && 0 <= i < |rows|
    ensures RowsMap(rows)[rows[i].0] == rows[i].1
  {
    if i < |rows| - 1 {
      RowsMapAt(rows[..|rows| - 1], i);
    }
  }

  lemma RowsMapCount(rows: seq<(string, real)>)
    requires DistinctStates(rows)
    ensures |RowsMap(rows)| == |rows|
  {
    if rows != [] {
      var init := rows[..|rows| - 1];
      RowsMapCount(init);
      assert rows[|rows| - 1].0 !in RowsMap(init);
      UpsertCount(RowsMap(init), rows[|rows| - 1].0, rows[|rows| - 1].1);
    }
  }

  /** The entries of m whose keys are in ks. */
  function Restrict(m: map<string, real>, ks: set<string>): map<string, real>
  {
    map k | k in m && k in ks :: m[k]
  }

  /** One more entry of the batch written over the cache. */
  lemma MergeStep(base: map<string, real>, updates: map<string, real>, written: set<string>, state: string)
    requires state in updates
    ensures (base + Restrict(updates, written))[state := updates[state]] ==
      base + Restrict(updates, written + {state})
  {
  }

  class QValueRepository {
    /** `_cache`. */
    var cache: map<string, real>
    /** The durable table, state -> value. */
    var table: map<string, real>

    /** Opens the store over the rows the table holds and loads them into the cache. */
    constructor (rows: seq<(string, real)>)
      requires DistinctStates(rows)
      ensures table == RowsMap(rows) && cache == table
    {
      cache := map[];
      table := RowsMap(rows);
      new;
      LoadToCache(rows);
    }

    /** The reader loop of LoadToCache: one cache entry per row read. */
    method LoadToCache(rows: seq<(string, real)>)
      modifies this
      ensures cache == old(cache) + RowsMap(rows) && table == old(table)
    {
      for k := 0 to |rows|
        invariant cache == old(cache) + RowsMap(rows[..k]) && table == old(table)
      {
        ghost var read := RowsMap(rows[..k]);
        assert rows[..k + 1][..k] == rows[..k];
        assert RowsMap(rows[..k + 1]) == read[rows[k].0 := rows[k].1];
        assert (old(cache) + read)[rows[k].0 := rows[k].1] == old(cache) + read[rows[k].0 := rows[k].1];
        cache := cache[rows[k].0 := rows[k].1];
      }
      assert rows[..|rows|] == rows;
    }

    function GetValue(state: string): (v: real)
      reads this
      ensures v == Lookup(cache, state)
    {
      if state in cache then cache[state] else 0.0
    }

    /** Writes the value to the cache and then to the table. When the table write fails
        (dbOk false) the failure is reported, but the cache keeps the new value. */
    method UpdateValue(state: string, value: real, dbOk: bool) returns (written: bool)
      modifies this
      ensures cache == old(cache)[state := value]
      ensures table == if dbOk then old(table)[state := value] else old(table)
      ensures written == dbOk
    {
      cache := cache[state := value];
      if dbOk {
        table := table[state := value];
      }
      written := dbOk;
    }

    /** Writes every update to the cache, then to the table inside one transaction. When the
        transaction fails (dbOk false) the table is rolled back and the failure is reported,
        but the cache keeps the new values. */
    method BatchUpdate(updates: map<string, real>, dbOk: bool) returns (committed: bool)
      modifies this
      ensures cache == Merge(old(cache), updates)
      ensures table == if dbOk then Merge(old(table), updates) else old(table)
      ensures committed == dbOk
    {
      var pending := updates.Keys;
      while pending != {}
        invariant pending <= updates.Keys
        invariant cache == old(cache) + Restrict(updates, updates.Keys - pending)
        invariant table == old(table)
        decreases |pending|
      {
        var state :| state in pending;
        MergeStep(old(cache), updates, updates.Keys - pending, state);
        assert updates.Keys - (pending - {state}) == (updates.Keys - pending) + {state};
        cache := cache[state := updates[state]];
        pending := pending - {state};
      }
      assert Restrict(updates, updates.Keys - pending) == updates;
      if dbOk {
        table := Merge(table, updates);
      }
      committed := dbOk;
    }

    /** The number of cached values. */
    function Count(): (n: nat)
      reads this
      ensures n == |cache.Keys|
    {
      |cache|
    }

    /** Empties the cache and recreates the table empty. */
    method ClearDatabase()
      modifies this
      ensures cache == map[] && table == map[]
      ensures Count() == 0 && forall state :: GetValue(state) == 0.0
    {
      cache := map[];
      table := map[];
    }
  }
}

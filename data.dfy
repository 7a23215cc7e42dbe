/**
 * The records the connector exchanges with the estimator and the GUI
 * (dataCenter). Floating-point time fields are not part of the model.
 */
module DataCenter {
  import opened Util

  datatype RowState = INCLUDED | EXCLUDED | PARTIAL

  /** dataCenter::data, one row of the region table. */
  datatype RegionRow = RegionRow(included: bool, key: int, typeName: string, maxBuf: int, visits: nat,
                                 region: string, mangledName: string)

  /** dataCenter::groupData, one row of the group table. */
  datatype GroupRow = GroupRow(state: RowState, key: int, typeName: string, maxBuf: int, visits: nat,
                               region: string)

  /** dataCenter::buffer */
  datatype Buffer = Buffer(numberOfVisits: nat, bytesPerVisit: nat)

  /** dataCenter::sizes */
  datatype Sizes = Sizes(traceSize: nat, maxBuf: nat, totalMemory: nat)

  /** The per-process hash of one region: duplicate-free (process, buffer) pairs. */
  type ProcessBuffers = seq<(nat, Buffer)>

  /** The region-name hash: duplicate-free (name, per-process buffers) pairs. */
  type BufferData = seq<(string, ProcessBuffers)>

  function Bytes(b: Buffer): nat
  {
    b.numberOfVisits * b.bytesPerVisit
  }

  // ---------------------------------------------------------------------------
  // QHash as an association list. Iteration order is one fixed order; every
  // use in the model only sums or maximises over the entries.

  /** QHash::value / contains: the value stored under a key, if any. */
  function Lookup<K(==), V(==)>(h: seq<(K, V)>, k: K): (r: Option<V>)
    ensures r.None? <==> forall i :: 0 <= i < |h| ==> h[i].0 != k
  {
    if |h| == 0 then None
    else if h[0].0 == k then Some(h[0].1)
    else Lookup(h[1..], k)
  }

  ghost predicate DistinctKeys<K, V>(h: seq<(K, V)>)
  {
    forall i, j :: 0 <= i < j < |h| ==> h[i].0 != h[j].0
  }

  /**
   * QHash::insert: replaces the value of a present key in place, and adds
   * an absent key at the end.
   */
  function Insert<K(==), V(==)>(h: seq<(K, V)>, k: K, v: V): (r: seq<(K, V)>)
    ensures forall i :: 0 <= i < |r| ==> r[i].0 == k || (i < |h| && r[i] == h[i])
  {
    if |h| == 0 then [(k, v)]
    else if h[0].0 == k then [(k, v)] + h[1..]
    else [h[0]] + Insert(h[1..], k, v)
  }

  /** After inserting, the key finds the new value and every other key what it found before. */
  lemma {:induction false} InsertLookup<K, V>(h: seq<(K, V)>, k: K, v: V, k': K)
    ensures Lookup(Insert(h, k, v), k') == if k' == k then Some(v) else Lookup(h, k')
  {
    if |h| > 0 && h[0].0 != k {
      InsertLookup(h[1..], k, v, k');
    }
  }

  /** An absent key is added at the end. */
  lemma {:induction false} InsertAbsent<K, V>(h: seq<(K, V)>, k: K, v: V)
    requires Lookup(h, k).None?
    ensures Insert(h, k, v) == h + [(k, v)]
  {
    if |h| > 0 {
      InsertAbsent(h[1..], k, v);
      assert h == [h[0]] + h[1..];
    }
  }

  /** Inserting keeps the keys duplicate-free. */
  lemma {:induction false} InsertKeepsDistinct<K, V>(h: seq<(K, V)>, k: K, v: V)
    requires DistinctKeys(h)
    ensures DistinctKeys(Insert(h, k, v))
  {
    if |h| > 0 && h[0].0 != k {
      InsertKeepsDistinct(h[1..], k, v);
      var rest := Insert(h[1..], k, v);
      forall j | 0 <= j < |rest|
        ensures rest[j].0 != h[0].0
      {
      }
    }
  }

  /** Looking up in a hash extended at the end. */
  lemma {:induction false} LookupAppend<K, V>(h: seq<(K, V)>, k: K, v: V, k': K)
    ensures Lookup(h + [(k, v)], k') == if Lookup(h, k').Some? then Lookup(h, k') else if k' == k then Some(v) else None
  {
    if |h| > 0 {
      assert (h + [(k, v)])[1..] == h[1..] + [(k, v)];
      LookupAppend(h[1..], k, v, k');
    }
  }
}

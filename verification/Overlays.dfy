/** Transactions: a write overlay over the store, turned into one commit. */
module Overlays {
  import opened ByteStrings
  import opened Orders
  import opened Storage
  import opened Listing
  import opened Refinement

  function Lookup(m: Store, key: Bytes): Option<Bytes> {
    if key in m then Some(m[key]) else None
  }

  function PendingOp(p: Patch, k: Bytes): BatchOp
    requires k in p
  {
    match p[k]
    case Some(v) => Put(k, v)
    case None => Delete(k)
  }

  function Restrict(p: Patch, keys: seq<Bytes>): Patch {
    map k | k in p && k in keys :: p[k]
  }

  lemma {:induction false} RestrictSnoc(m: Store, p: Patch, keys: seq<Bytes>, k: Bytes)
    requires k in p
    ensures Patched(m, Restrict(p, keys + [k])) == ApplyOp(Patched(m, Restrict(p, keys)), PendingOp(p, k))
  {
    PatchedOp(m, Restrict(p, keys), PendingOp(p, k));
    assert Restrict(p, keys + [k]) == PatchOp(Restrict(p, keys), PendingOp(p, k));
  }

  /** The store part of a scan with the pending writes under the prefix applied. */
  ghost predicate Overlaid(m: Store, p: Patch, prefix: Bytes, part: Store) {
    && (forall k :: k in part <==> k in Patched(m, p) && StartsWith(k, prefix))
    && (forall k | k in part :: part[k] == Patched(m, p)[k])
  }

  lemma {:induction false} OverlaidSnoc(m: Store, p: Patch, prefix: Bytes, keys: seq<Bytes>, k: Bytes, part: Store)
    requires k in p && Overlaid(m, Restrict(p, keys), prefix, part)
    ensures Overlaid(m, Restrict(p, keys + [k]), prefix,
                     if StartsWith(k, prefix) then ApplyOp(part, PendingOp(p, k)) else part)
  {
    hide StartsWith, Patched, Restrict;
    RestrictSnoc(m, p, keys, k);
  }

  class Overlay {
    const store: MemoryStorage
    /** `None` means deleted. */
    var pending: Patch

    /** What the store would hold after the commit. */
    ghost function View(): Store
      reads this, store
    {
      Patched(store.data, pending)
    }

    constructor (store: MemoryStorage)
      ensures this.store == store && pending == map[] && View() == store.data
    {
      this.store := store;
      pending := map[];
      new;
      assert Patched(store.data, map[]) == store.data;
    }

    method Get(key: Bytes) returns (r: Option<Bytes>)
      ensures r == Lookup(View(), key)
    {
      if key in pending {
        return pending[key];
      }
      r := store.Get(key);
    }

    method Put(key: Bytes, value: Bytes)
      modifies this
      ensures View() == old(View())[key := value]
    {
      PatchedOp(store.data, pending, BatchOp.Put(key, value));
      pending := pending[key := Some(value)];
    }

    method Delete(key: Bytes)
      modifies this
      ensures View() == old(View()) - {key}
    {
      PatchedOp(store.data, pending, BatchOp.Delete(key));
      pending := pending[key := None];
    }

    method ScanPrefix(prefix: Bytes) returns (out: seq<Row>)
      ensures out == Scan(View(), prefix)
    {
      hide StartsWith, Scan, Patched, Overlaid;
      var rows := store.ScanPrefix(prefix);
      var part := CollectRows(rows, prefix, store.data);
      part := MergePending(part, pending, prefix, store.data);
      OverlaidScan(store.data, pending, prefix, part);
      out := InOrder(part);
    }

    /** Committing the batch gives exactly the view. */
    method IntoBatch() returns (batch: seq<BatchOp>)
      ensures ApplyOps(store.data, batch) == View()
      ensures |batch| == |pending|
    {
      batch := PendingBatch(pending, store.data);
    }
  }

  method CollectRows(rows: seq<Row>, prefix: Bytes, ghost m: Store) returns (part: Store)
    requires rows == Scan(m, prefix)
    ensures forall k :: k in part <==> k in m && StartsWith(k, prefix)
    ensures forall k | k in part :: part[k] == m[k]
  {
    hide StartsWith, Scan;
    RowsCovered(m, prefix);
    part := map[];
    for i := 0 to |rows|
      invariant forall k | k in part :: k in m && StartsWith(k, prefix) && part[k] == m[k]
      invariant forall j | 0 <= j < i :: rows[j].0 in part
    {
      assert rows[i] in rows;
      part := part[rows[i].0 := rows[i].1];
    }
    forall k | k in m && StartsWith(k, prefix)
      ensures k in part
    {
      assert (k, m[k]) in rows;
    }
  }

  lemma {:induction false} RowsCovered(m: Store, prefix: Bytes)
    ensures forall r | r in Scan(m, prefix) :: r.0 in m && StartsWith(r.0, prefix) && r.1 == m[r.0]
    ensures forall k | k in m && StartsWith(k, prefix) :: (k, m[k]) in Scan(m, prefix)
  {
    ScanKeys(m, prefix);
  }

  /** Each pending write under the prefix replaces or removes its row. */
  method MergePending(rows: Store, p: Patch, prefix: Bytes, ghost m: Store) returns (part: Store)
    requires forall k :: k in rows <==> k in m && StartsWith(k, prefix)
    requires forall k | k in rows :: rows[k] == m[k]
    ensures Overlaid(m, p, prefix, part)
  {
    NothingPending(m, p, prefix, rows);
    hide StartsWith, Patched, Restrict, Overlaid, ApplyOp, PendingOp, Ascending;
    var keys := KeysInOrder(p.Keys);
    part := rows;
    assert keys[..0] == [];
    for i := 0 to |keys|
      invariant Overlaid(m, Restrict(p, keys[..i]), prefix, part)
    {
      SortedKeyIn(p.Keys, i);
      assert keys[..i] + [keys[i]] == keys[..i + 1];
      OverlaidSnoc(m, p, prefix, keys[..i], keys[i], part);
      if StartsWith(keys[i], prefix) {
        part := ApplyOp(part, PendingOp(p, keys[i]));
      }
    }
    assert keys[..|keys|] == keys;
    RestrictAll(p);
  }

  method PendingBatch(p: Patch, ghost m: Store) returns (batch: seq<BatchOp>)
    ensures ApplyOps(m, batch) == Patched(m, p) && |batch| == |p|
  {
    hide Patched, Restrict, ApplyOps, PendingOp, ApplyOp, Ascending;
    var keys := KeysInOrder(p.Keys);
    SortedKeysCard(p.Keys);
    batch := [];
    EmptyRestrict(m, p);
    NoOps(m);
    assert keys[..0] == [];
    for i := 0 to |keys|
      invariant |batch| == i
      invariant ApplyOps(m, batch) == Patched(m, Restrict(p, keys[..i]))
    {
      SortedKeyIn(p.Keys, i);
      assert keys[..i] + [keys[i]] == keys[..i + 1];
      RestrictSnoc(m, p, keys[..i], keys[i]);
      ApplyOpsConcat(m, batch, [PendingOp(p, keys[i])]);
      Apply1(ApplyOps(m, batch), PendingOp(p, keys[i]));
      batch := batch + [PendingOp(p, keys[i])];
    }
    assert keys[..|keys|] == keys;
    RestrictAll(p);
  }

  lemma {:induction false} NoOps(m: Store)
    ensures ApplyOps(m, []) == m
  {
  }

  lemma {:induction false} EmptyRestrict(m: Store, p: Patch)
    ensures Patched(m, Restrict(p, [])) == m
  {
  }

  lemma {:induction false} NothingPending(m: Store, p: Patch, prefix: Bytes, part: Store)
    requires forall k :: k in part <==> k in m && StartsWith(k, prefix)
    requires forall k | k in part :: part[k] == m[k]
    ensures Overlaid(m, Restrict(p, []), prefix, part)
  {
    hide StartsWith;
    EmptyRestrict(m, p);
  }

  lemma {:induction false} RestrictAll(p: Patch)
    ensures Restrict(p, SortedKeys(p.Keys)) == p
  {
    SortedKeysSpec(p.Keys);
  }

  lemma {:induction false} SortedKeyIn(s: set<Bytes>, i: nat)
    requires i < |SortedKeys(s)|
    ensures SortedKeys(s)[i] in s
  {
    SortedKeysSpec(s);
    assert SortedKeys(s)[i] in SortedKeys(s);
  }

  lemma {:induction false} OverlaidScan(m: Store, p: Patch, prefix: Bytes, part: Store)
    requires Overlaid(m, p, prefix, part)
    ensures Rows(part) == Scan(Patched(m, p), prefix)
  {
    hide Patched, StartsWith;
    ScanIsRows(Patched(m, p), prefix, part);
  }
}

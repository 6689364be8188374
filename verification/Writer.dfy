/** RocksDB as an ordered byte map, and the two writers of `database/src/writer.rs`: one changes the
    database at once, the other appends to a batch that a later commit replays in order. */
module Writer {
  import opened KeySpace

  type Kv = map<Bytes, Bytes>

  datatype Op = Put(key: Bytes, value: Bytes) | Delete(key: Bytes) | DeleteRange(from: Bytes, to: Bytes) {

    predicate Touches(x: Bytes) {
      match this
      case Put(k, _) => k == x
      case Delete(k) => k == x
      case DeleteRange(from, to) => InRange(x, from, to)
    }

    /** What a touched key holds afterwards. */
    function Effect(): Option<Bytes> {
      if Put? then Some(value) else None
    }
  }

  function Get(kv: Kv, x: Bytes): Option<Bytes> {
    if x in kv then Some(kv[x]) else None
  }

  function Apply(kv: Kv, op: Op): Kv {
    match op
    case Put(k, v) => kv[k := v]
    case Delete(k) => kv - {k}
    case DeleteRange(from, to) => map x | x in kv && !InRange(x, from, to) :: kv[x]
  }

  /** Committing a batch: its operations in order. */
  function Replay(kv: Kv, ops: seq<Op>): Kv {
    if ops == [] then kv else Apply(Replay(kv, ops[..|ops| - 1]), ops[|ops| - 1])
  }

  lemma ReplayOne(kv: Kv, op: Op)
    ensures Replay(kv, [op]) == Apply(kv, op)
  {
    assert [op][..0] == [];
  }

  lemma ReplaySnoc(kv: Kv, ops: seq<Op>, op: Op)
    ensures Replay(kv, ops + [op]) == Apply(Replay(kv, ops), op)
  {
    assert (ops + [op])[..|ops|] == ops;
  }

  /** One operation has gone out, to the database or into the batch. */
  ghost predicate SentOne(kv: Kv, pending: seq<Op>, direct: bool, op: Op, kv': Kv, pending': seq<Op>) {
    if direct then kv' == Apply(kv, op) && pending' == pending else kv' == kv && pending' == pending + [op]
  }

  /** All of `ops` have. */
  ghost predicate Sent(kv: Kv, pending: seq<Op>, direct: bool, ops: seq<Op>, kv': Kv, pending': seq<Op>) {
    if direct then kv' == Replay(kv, ops) && pending' == pending else kv' == kv && pending' == pending + ops
  }

  lemma SendMore(kv: Kv, pending: seq<Op>, direct: bool, ops: seq<Op>, kv1: Kv, pending1: seq<Op>, op: Op, kv2: Kv, pending2: seq<Op>)
    requires Sent(kv, pending, direct, ops, kv1, pending1) && SentOne(kv1, pending1, direct, op, kv2, pending2)
    ensures Sent(kv, pending, direct, ops + [op], kv2, pending2)
  {
    if direct {
      ReplaySnoc(kv, ops, op);
    } else {
      Assoc(pending, ops, [op]);
    }
  }

  lemma SendBoth(kv: Kv, pending: seq<Op>, direct: bool, a: seq<Op>, kv1: Kv, pending1: seq<Op>, b: seq<Op>, kv2: Kv, pending2: seq<Op>)
    requires Sent(kv, pending, direct, a, kv1, pending1) && Sent(kv1, pending1, direct, b, kv2, pending2)
    ensures Sent(kv, pending, direct, a + b, kv2, pending2)
  {
    if direct {
      ReplayConcat(kv, a, b);
    } else {
      Assoc(pending, a, b);
    }
  }

  lemma Assoc(x: seq<Op>, y: seq<Op>, z: seq<Op>)
    ensures x + y + z == x + (y + z)
  {
  }

  lemma {:induction false} ReplayConcat(kv: Kv, a: seq<Op>, b: seq<Op>)
    ensures Replay(kv, a + b) == Replay(Replay(kv, a), b)
  {
    if b == [] {
      assert a + b == a;
    } else {
      var n := |b| - 1;
      ReplayConcat(kv, a, b[..n]);
      assert (a + b)[..|a + b| - 1] == a + b[..n];
    }
  }

  ghost predicate Staged(ops: seq<Op>, x: Bytes) {
    exists i :: 0 <= i < |ops| && ops[i].Touches(x)
  }

  /** What `x` would hold if `ops` were committed now, found by looking for the newest operation on `x`. */
  function Lookup(kv: Kv, ops: seq<Op>, x: Bytes): Option<Bytes> {
    if ops == [] then Get(kv, x)
    else if ops[|ops| - 1].Touches(x) then ops[|ops| - 1].Effect()
    else Lookup(kv, ops[..|ops| - 1], x)
  }

  lemma {:induction false} LookupIsReplay(kv: Kv, ops: seq<Op>, x: Bytes)
    ensures Lookup(kv, ops, x) == Get(Replay(kv, ops), x)
  {
    if ops != [] {
      LookupIsReplay(kv, ops[..|ops| - 1], x);
    }
  }

  /** Operations appended to a batch decide the keys they touch and leave the rest to what came before. */
  lemma {:induction false} LookupAppend(kv: Kv, pending: seq<Op>, ops: seq<Op>, x: Bytes)
    ensures Lookup(kv, pending + ops, x) ==
            if Staged(ops, x) then Lookup(map[], ops, x) else Lookup(kv, pending, x)
  {
    if ops == [] {
      assert pending + ops == pending;
    } else {
      var n := |ops| - 1;
      var all := pending + ops;
      assert all[|all| - 1] == ops[n] && all[..|all| - 1] == pending + ops[..n];
      LookupAppend(kv, pending, ops[..n], x);
      StagedByLast(ops, x);
    }
  }

  lemma StagedByLast(ops: seq<Op>, x: Bytes)
    requires ops != []
    ensures Staged(ops, x) <==> ops[|ops| - 1].Touches(x) || Staged(ops[..|ops| - 1], x)
  {
    var n := |ops| - 1;
    if Staged(ops[..n], x) {
      var i :| 0 <= i < n && ops[..n][i].Touches(x);
      assert ops[i].Touches(x);
    }
    if Staged(ops, x) && !ops[n].Touches(x) {
      var i :| 0 <= i < |ops| && ops[i].Touches(x);
      assert ops[..n][i].Touches(x);
    }
  }

  lemma UnstagedIsStored(kv: Kv, ops: seq<Op>, x: Bytes)
    requires !Staged(ops, x)
    ensures Lookup(kv, ops, x) == Get(kv, x)
  {
    LookupAppend(kv, [], ops, x);
    assert [] + ops == ops;
  }

  /** Writing to the database under an open batch: where the batch has an operation, it still wins. */
  lemma LookupUnderBatch(kv: Kv, pending: seq<Op>, ops: seq<Op>, x: Bytes)
    ensures Lookup(Replay(kv, ops), pending, x) ==
            if Staged(pending, x) then Lookup(kv, pending, x) else Lookup(kv, ops, x)
  {
    assert [] + pending == pending;
    LookupAppend(kv, [], pending, x);
    LookupAppend(Replay(kv, ops), [], pending, x);
    LookupIsReplay(kv, ops, x);
  }

  function DeletePrefix(prefix: Bytes): Op
    requires RangeEnd(prefix).Some?
  {
    DeleteRange(prefix, RangeEnd(prefix).value)
  }

  /** A range delete on a prefix removes the keys that extend it and nothing else. */
  lemma DeletePrefixExact(kv: Kv, prefix: Bytes)
    requires RangeEnd(prefix).Some?
    ensures Apply(kv, DeletePrefix(prefix)) == map x | x in kv && !Under(prefix, x) :: kv[x]
  {
    forall x | x in kv
      ensures InRange(x, prefix, RangeEnd(prefix).value) <==> Under(prefix, x)
    {
      RangeIsExtensions(prefix, x);
    }
  }

  /** Range-deleting `p` can never lose a key under `q`. */
  ghost predicate Spares(p: Bytes, q: Bytes)
    requires RangeEnd(p).Some?
  {
    forall kv: Kv, x :: x in kv && Under(q, x) ==> x in Apply(kv, DeletePrefix(p))
  }

  /** Stores are separated by their prefixes exactly when neither prefix extends the other. */
  lemma SparesIffIncomparable(p: Bytes, q: Bytes)
    requires RangeEnd(p).Some?
    ensures Spares(p, q) <==> !Comparable(p, q)
  {
    ShareExtension(p, q);
    if Comparable(p, q) {
      var x :| Under(p, x) && Under(q, x);
      var kv: Kv := map[x := []];
      DeletePrefixExact(kv, p);
      assert x in kv && x !in Apply(kv, DeletePrefix(p));
    } else {
      forall kv: Kv, x | x in kv && Under(q, x)
        ensures x in Apply(kv, DeletePrefix(p))
      {
        DeletePrefixExact(kv, p);
      }
    }
  }

  /** Deleting one bucket of a store with keys of one width spares every other bucket, and only those. */
  lemma BucketDeleteSparesOthers(prefix: Bytes, b1: Bytes, b2: Bytes)
    requires prefix != [] && prefix[0] != SEPARATOR && |b1| == |b2|
    ensures RangeEnd(prefix + b1).Some?
    ensures Spares(prefix + b1, prefix + b2) <==> b1 != b2
  {
    StorePrefixHasEnd(prefix, b1);
    SparesIffIncomparable(prefix + b1, prefix + b2);
    FixedWidthBuckets(prefix, b1, b2);
  }

  class Db {
    var kv: Kv

    constructor ()
      ensures kv == map[]
    {
      kv := map[];
    }

    /** `DB::write`: commits a batch and uses it up. */
    method Commit(batch: WriteBatch)
      modifies this, batch
      ensures kv == Replay(old(kv), old(batch.ops)) && batch.ops == []
    {
      var ops, i := batch.ops, 0;
      while i < |ops|
        invariant 0 <= i <= |ops|
        invariant kv == Replay(old(kv), ops[..i])
      {
        assert ops[..i + 1][..i] == ops[..i];
        kv := Apply(kv, ops[i]);
        i := i + 1;
      }
      assert ops[..i] == ops;
      batch.ops := [];
    }
  }

  class WriteBatch {
    var ops: seq<Op>

    constructor ()
      ensures ops == []
    {
      ops := [];
    }
  }

  /** `DirectDbWriter` and `BatchDbWriter`. */
  datatype DbWriter = Direct(db: Db) | Batched(batch: WriteBatch) {

    ghost function Target(): object {
      match this
      case Direct(db) => db
      case Batched(batch) => batch
    }

    /** It writes to this database, or to the batch that is open. */
    ghost predicate Fits(db: Db, open: WriteBatch) {
      match this
      case Direct(d) => d == db
      case Batched(b) => b == open
    }

    method Put(key: Bytes, value: Bytes)
      modifies Target()
      ensures Direct? ==> db.kv == Apply(old(db.kv), Op.Put(key, value))
      ensures Batched? ==> batch.ops == old(batch.ops) + [Op.Put(key, value)]
    {
      match this
      case Direct(db) =>
        db.kv := db.kv[key := value];
      case Batched(batch) =>
        batch.ops := batch.ops + [Op.Put(key, value)];
    }

    method Delete(key: Bytes)
      modifies Target()
      ensures Direct? ==> db.kv == Apply(old(db.kv), Op.Delete(key))
      ensures Batched? ==> batch.ops == old(batch.ops) + [Op.Delete(key)]
    {
      match this
      case Direct(db) =>
        db.kv := db.kv - {key};
      case Batched(batch) =>
        batch.ops := batch.ops + [Op.Delete(key)];
    }

    /** The direct writer wraps the range delete in a batch of its own. */
    method DeleteRange(from: Bytes, to: Bytes)
      modifies Target()
      ensures Direct? ==> db.kv == Apply(old(db.kv), Op.DeleteRange(from, to))
      ensures Batched? ==> batch.ops == old(batch.ops) + [Op.DeleteRange(from, to)]
    {
      match this
      case Direct(db) =>
        var own := new WriteBatch();
        own.ops := own.ops + [Op.DeleteRange(from, to)];
        db.Commit(own);
      case Batched(batch) =>
        batch.ops := batch.ops + [Op.DeleteRange(from, to)];
    }
  }
}

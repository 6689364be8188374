/** `DbSetAccess` and `CachedDbSetAccess` of `database/src/set_access.rs`: a set per bucket, one database
    key per member, and a cache of shared sets that writes change in place. */
module SetAccess {
  import opened KeySpace
  import opened Writer
  import C = Cache
  import opened SharedSets

  /** Buckets have keys of one width; a member is stored as prefix, bucket and serialized member. */
  datatype SetStore<!T> = SetStore(prefix: Bytes, width: nat, codec: Codec<T>) {

    function KeyOf(bucket: Bytes, t: T): Bytes {
      prefix + bucket + codec.enc(t)
    }

    ghost predicate Valid()
    {
      prefix != [] && prefix[0] != SEPARATOR
    }
  }

  ghost predicate IsMember<T(!new)>(st: SetStore<T>, x: Bytes) {
    exists b, t :: |b| == st.width && x == st.KeyOf(b, t)
  }

  /** Under the store's prefix there is nothing but members. */
  ghost predicate OnlyMembers<T(!new)>(st: SetStore<T>, kv: Kv) {
    forall x :: x in kv && Under(st.prefix, x) ==> IsMember(st, x)
  }

  ghost predicate OnlyMemberPuts<T(!new)>(st: SetStore<T>, ops: seq<Op>) {
    forall i :: 0 <= i < |ops| && ops[i].Put? && Under(st.prefix, ops[i].key) ==> IsMember(st, ops[i].key)
  }

  /** `t` belongs to `bucket` once the batch is committed. */
  predicate InBucket<T>(st: SetStore<T>, kv: Kv, pending: seq<Op>, bucket: Bytes, t: T) {
    Lookup(kv, pending, st.KeyOf(bucket, t)).Some?
  }

  /** `bucket_iterator` collected: the members under the bucket's prefix, or an error if one does not decode. */
  function Scan<T>(st: SetStore<T>, kv: Kv, bucket: Bytes): Option<set<T>> {
    var p := st.prefix + bucket;
    if forall x :: x in kv && Under(p, x) ==> st.codec.dec(x[|p|..]).Some? then
      Some(set x | x in kv && Under(p, x) :: st.codec.dec(x[|p|..]).value)
    else
      None
  }

  lemma MemberOfBucket<T(!new)>(st: SetStore<T>, bucket: Bytes, x: Bytes)
    requires IsMember(st, x) && |bucket| == st.width && Under(st.prefix + bucket, x)
    ensures exists t :: x == st.KeyOf(bucket, t)
  {
    var b, t :| |b| == st.width && x == st.KeyOf(b, t);
    var p, q := st.prefix + bucket, st.prefix + b;
    assert x[..|p|] == p && x[..|q|] == q;
    assert bucket == p[|st.prefix|..] && b == q[|st.prefix|..];
  }

  /** A scan of a bucket returns exactly the members stored in it. */
  lemma ScanExact<T(!new)>(st: SetStore<T>, kv: Kv, bucket: Bytes)
    requires RoundTrips(st.codec) && OnlyMembers(st, kv) && |bucket| == st.width
    ensures Scan(st, kv, bucket).Some?
    ensures forall t :: t in Scan(st, kv, bucket).value <==> st.KeyOf(bucket, t) in kv
  {
    var p := st.prefix + bucket;
    forall x | x in kv && Under(p, x)
      ensures exists t :: x == st.KeyOf(bucket, t) && st.codec.dec(x[|p|..]) == Some(t)
    {
      assert Under(st.prefix, x);
      MemberOfBucket(st, bucket, x);
      var t :| x == st.KeyOf(bucket, t);
      assert x[|p|..] == st.codec.enc(t);
    }
    forall t
      ensures t in Scan(st, kv, bucket).value <==> st.KeyOf(bucket, t) in kv
    {
      var x := st.KeyOf(bucket, t);
      assert Under(p, x) && x[|p|..] == st.codec.enc(t);
    }
  }

  lemma KeysDiffer<T(!new)>(st: SetStore<T>, b1: Bytes, t1: T, b2: Bytes, t2: T)
    requires RoundTrips(st.codec) && |b1| == |b2|
    ensures st.KeyOf(b1, t1) == st.KeyOf(b2, t2) <==> b1 == b2 && t1 == t2
  {
    var x, y, n := st.KeyOf(b1, t1), st.KeyOf(b2, t2), |st.prefix|;
    assert x[n..n + |b1|] == b1 && y[n..n + |b1|] == b2;
    assert x[n + |b1|..] == st.codec.enc(t1) && y[n + |b1|..] == st.codec.enc(t2);
    assert st.codec.dec(st.codec.enc(t1)) == Some(t1) && st.codec.dec(st.codec.enc(t2)) == Some(t2);
  }

  /** A bucket's range holds the members of that bucket and of no other. */
  lemma BucketRange<T(!new)>(st: SetStore<T>, bucket: Bytes, b: Bytes, t: T)
    requires st.Valid() && |bucket| == |b|
    ensures RangeEnd(st.prefix + bucket).Some?
    ensures DeletePrefix(st.prefix + bucket).Touches(st.KeyOf(b, t)) <==> b == bucket
  {
    StorePrefixHasEnd(st.prefix, bucket);
    var x, p, q := st.KeyOf(b, t), st.prefix + bucket, st.prefix + b;
    RangeIsExtensions(p, x);
    assert Under(q, x);
    FixedWidthBuckets(st.prefix, bucket, b);
    ShareExtension(p, q);
  }

  /** How one operation, written either way, changes membership. */
  lemma MembershipAfter<T>(st: SetStore<T>, kv: Kv, pending: seq<Op>, op: Op, b: Bytes, t: T)
    ensures InBucket(st, kv, pending + [op], b, t) <==>
            if op.Touches(st.KeyOf(b, t)) then op.Put? else InBucket(st, kv, pending, b, t)
    ensures (op.Touches(st.KeyOf(b, t)) ==> !Staged(pending, st.KeyOf(b, t))) ==>
            (InBucket(st, Apply(kv, op), pending, b, t) <==>
             if op.Touches(st.KeyOf(b, t)) then op.Put? else InBucket(st, kv, pending, b, t))
  {
    var x := st.KeyOf(b, t);
    LookupAppend(kv, pending, [op], x);
    StagedByLast([op], x);
    ReplaySnoc(kv, [], op);
    assert [] + [op] == [op];
    LookupUnderBatch(kv, pending, [op], x);
    if !Staged(pending, x) {
      UnstagedIsStored(kv, pending, x);
    }
  }

  // ---- the cached sets, as values ----

  /** Database, open batch and the contents of the cached sets. */
  datatype View<T> = View(kv: Kv, pending: seq<Op>, sets: map<Bytes, set<T>>)

  /** Every cached set is its bucket in the database overlaid with the batch. */
  ghost predicate Coherent<T(!new)>(st: SetStore<T>, v: View<T>) {
    && OnlyMembers(st, v.kv) && OnlyMemberPuts(st, v.pending)
    && (forall k :: k in v.sets ==> |k| == st.width)
    && forall k, t :: k in v.sets ==> (t in v.sets[k] <==> InBucket(st, v.kv, v.pending, k, t))
  }

  ghost predicate Unstaged<T(!new)>(st: SetStore<T>, pending: seq<Op>, bucket: Bytes) {
    forall t :: !Staged(pending, st.KeyOf(bucket, t))
  }

  /** `op` was written to the database or to the batch. */
  ghost predicate Written<T>(v: View<T>, direct: bool, op: Op, v': View<T>) {
    SentOne(v.kv, v.pending, direct, op, v'.kv, v'.pending)
  }

  /** What one operation on this store may do: a put of a member, a delete of a member, a bucket's range. */
  ghost predicate OwnOp<T(!new)>(st: SetStore<T>, op: Op, key: Bytes) {
    && |key| == st.width
    && match op
       case Put(x, _) => exists t :: x == st.KeyOf(key, t)
       case Delete(x) => exists t :: x == st.KeyOf(key, t)
       case DeleteRange(_, _) => RangeEnd(st.prefix + key).Some? && op == DeletePrefix(st.prefix + key)
  }

  /** Writing an operation and bringing the one cached set it concerns up to date keeps the cache right. */
  lemma OwnOpKeepsCoherent<T(!new)>(st: SetStore<T>, v: View<T>, direct: bool, op: Op, key: Bytes, v': View<T>)
    requires st.Valid() && RoundTrips(st.codec) && Coherent(st, v) && OwnOp(st, op, key)
    requires Written(v, direct, op, v')
    requires direct ==> forall t :: op.Touches(st.KeyOf(key, t)) ==> !Staged(v.pending, st.KeyOf(key, t))
    requires v'.sets.Keys <= v.sets.Keys
    requires forall k :: k in v'.sets && k != key ==> v'.sets[k] == v.sets[k]
    requires key in v'.sets ==> forall t :: t in v'.sets[key] <==>
               if op.Touches(st.KeyOf(key, t)) then op.Put? else t in v.sets[key]
    ensures Coherent(st, v')
    ensures forall k, t :: |k| == st.width ==>
              (InBucket(st, v'.kv, v'.pending, k, t) <==>
               if k == key && op.Touches(st.KeyOf(k, t)) then op.Put? else InBucket(st, v.kv, v.pending, k, t))
  {
    forall k, t | |k| == st.width
      ensures InBucket(st, v'.kv, v'.pending, k, t) <==>
              if k == key && op.Touches(st.KeyOf(k, t)) then op.Put? else InBucket(st, v.kv, v.pending, k, t)
    {
      OwnOpOtherBucket(st, op, key, k, t);
      MembershipAfter(st, v.kv, v.pending, op, k, t);
    }
    if op.Put? {
      var t :| op.key == st.KeyOf(key, t);
      assert IsMember(st, op.key);
    }
  }

  lemma OwnOpOtherBucket<T(!new)>(st: SetStore<T>, op: Op, key: Bytes, k: Bytes, t: T)
    requires st.Valid() && RoundTrips(st.codec) && OwnOp(st, op, key) && |k| == st.width
    ensures op.Touches(st.KeyOf(k, t)) ==> k == key
  {
    if op.DeleteRange? {
      BucketRange(st, key, k, t);
    } else {
      var u :| op.key == st.KeyOf(key, u);
      KeysDiffer(st, key, u, k, t);
    }
  }

  /** Within a bucket, one member's key is no other member's key. */
  lemma MemberKeys<T(!new)>(st: SetStore<T>, key: Bytes, data: T)
    requires RoundTrips(st.codec)
    ensures forall t :: st.KeyOf(key, t) == st.KeyOf(key, data) <==> t == data
  {
    forall t ensures st.KeyOf(key, t) == st.KeyOf(key, data) <==> t == data {
      KeysDiffer(st, key, t, key, data);
    }
  }

  lemma WriteKeeps<T(!new)>(st: SetStore<T>, v: View<T>, direct: bool, key: Bytes, data: T, v': View<T>)
    requires st.Valid() && RoundTrips(st.codec) && Coherent(st, v) && |key| == st.width
    requires Written(v, direct, Put(st.KeyOf(key, data), []), v')
    requires direct ==> !Staged(v.pending, st.KeyOf(key, data))
    requires C.Submap(v'.sets, if key in v.sets then v.sets[key := v.sets[key] + {data}] else v.sets)
    ensures Coherent(st, v')
    ensures forall k, t :: |k| == st.width ==>
              (InBucket(st, v'.kv, v'.pending, k, t) <==> (k == key && t == data) || InBucket(st, v.kv, v.pending, k, t))
  {
    MemberKeys(st, key, data);
    OwnOpKeepsCoherent(st, v, direct, Put(st.KeyOf(key, data), []), key, v');
  }

  lemma DeleteKeeps<T(!new)>(st: SetStore<T>, v: View<T>, direct: bool, key: Bytes, data: T, v': View<T>)
    requires st.Valid() && RoundTrips(st.codec) && Coherent(st, v) && |key| == st.width
    requires Written(v, direct, Op.Delete(st.KeyOf(key, data)), v')
    requires direct ==> !Staged(v.pending, st.KeyOf(key, data))
    requires C.Submap(v'.sets, if key in v.sets then v.sets[key := v.sets[key] - {data}] else v.sets)
    ensures Coherent(st, v')
    ensures forall k, t :: |k| == st.width ==>
              (InBucket(st, v'.kv, v'.pending, k, t) <==> !(k == key && t == data) && InBucket(st, v.kv, v.pending, k, t))
  {
    MemberKeys(st, key, data);
    OwnOpKeepsCoherent(st, v, direct, Op.Delete(st.KeyOf(key, data)), key, v');
  }

  lemma DeleteBucketKeeps<T(!new)>(st: SetStore<T>, v: View<T>, direct: bool, key: Bytes, v': View<T>)
    requires st.Valid() && RoundTrips(st.codec) && Coherent(st, v) && |key| == st.width
    requires RangeEnd(st.prefix + key).Some? && Written(v, direct, DeletePrefix(st.prefix + key), v')
    requires direct ==> Unstaged(st, v.pending, key)
    requires C.Submap(v'.sets, v.sets - {key})
    ensures Coherent(st, v')
    ensures forall k, t :: |k| == st.width ==>
              (InBucket(st, v'.kv, v'.pending, k, t) <==> k != key && InBucket(st, v.kv, v.pending, k, t))
  {
    var op := DeletePrefix(st.prefix + key);
    forall t ensures op.Touches(st.KeyOf(key, t)) {
      BucketRange(st, key, key, t);
    }
    OwnOpKeepsCoherent(st, v, direct, op, key, v');
  }

  // ---- whole runs ----

  datatype SetCall<T> =
    | Read(key: Bytes)
    | Write(direct: bool, key: Bytes, data: T)
    | Delete(direct: bool, key: Bytes, data: T)
    | DeleteBucket(direct: bool, key: Bytes)
    | Other(direct: bool, op: Op)
    | Commit

  function AddTo<T>(sets: map<Bytes, set<T>>, k: Bytes, t: T): map<Bytes, set<T>> {
    if k in sets then sets[k := sets[k] + {t}] else sets
  }

  function RemoveFrom<T>(sets: map<Bytes, set<T>>, k: Bytes, t: T): map<Bytes, set<T>> {
    if k in sets then sets[k := sets[k] - {t}] else sets
  }

  /** One call of the cached access; any cached set may be evicted at any time. */
  ghost predicate SetStep<T(!new)>(st: SetStore<T>, v: View<T>, call: SetCall<T>, v': View<T>, reply: Option<set<T>>) {
    match call
    case Read(k) =>
      && v'.kv == v.kv && v'.pending == v.pending
      && (if k in v.sets then
            reply == Some(v.sets[k]) && C.Submap(v'.sets, v.sets)
          else
            reply == Scan(st, v.kv, k) && C.Submap(v'.sets, if reply.Some? then v.sets[k := reply.value] else v.sets))
    case Write(direct, k, t) =>
      && Written(v, direct, Op.Put(st.KeyOf(k, t), []), v')
      && C.Submap(v'.sets, AddTo(v.sets, k, t))
    case Delete(direct, k, t) =>
      && Written(v, direct, Op.Delete(st.KeyOf(k, t)), v')
      && C.Submap(v'.sets, RemoveFrom(v.sets, k, t))
    case DeleteBucket(direct, k) =>
      && RangeEnd(st.prefix + k).Some? && Written(v, direct, DeletePrefix(st.prefix + k), v')
      && C.Submap(v'.sets, v.sets - {k})
    case Other(direct, op) =>
      Written(v, direct, op, v') && C.Submap(v'.sets, v.sets)
    case Commit =>
      v'.kv == Replay(v.kv, v.pending) && v'.pending == [] && C.Submap(v'.sets, v.sets)
  }

  ghost predicate Grown<T>(policy: C.Policy, sets: map<Bytes, set<T>>, k: Bytes, t: T, sets': map<Bytes, set<T>>) {
    && (!policy.tracked || C.WithinPolicy(policy, AddTo(sets, k, t), SizeOf<T>) ==> sets' == AddTo(sets, k, t))
    && (policy.tracked ==> C.JustEnough(policy, SizeOf<T>, AddTo(sets, k, t), sets'))
  }

  /** What the policy lets a call leave cached; only an insertion and a growing set can evict. */
  ghost predicate SetCaches<T>(policy: C.Policy, sets: map<Bytes, set<T>>, call: SetCall<T>, reply: Option<set<T>>, sets': map<Bytes, set<T>>) {
    match call
    case Read(k) =>
      if k in sets || reply.None? then sets' == sets
      else
        && (C.Room(policy, SizeOf<T>, sets, k, reply.value) ==> sets' == sets[k := reply.value])
        && (!policy.tracked && policy.maxSize > 0 ==> k in sets')
        && (policy.tracked && policy.maxSize > 0 ==> C.JustEnough(policy, SizeOf<T>, sets[k := reply.value], sets'))
    case Write(_, k, t) => Grown(policy, sets, k, t, sets')
    case Delete(_, k, t) => sets' == RemoveFrom(sets, k, t)
    case DeleteBucket(_, k) => sets' == sets - {k}
    case Other(_, _) => sets' == sets
    case Commit => sets' == sets
  }

  /** A set that loses a member never makes the cache too large. */
  lemma ShrunkFits<T>(policy: C.Policy, sets: map<Bytes, set<T>>, k: Bytes, t: T)
    requires C.WithinPolicy(policy, sets, SizeOf<T>)
    ensures C.WithinPolicy(policy, RemoveFrom(sets, k, t), SizeOf<T>)
  {
    if k in sets {
      UnitsUpdate(sets, k, sets[k] - {t});
      SubsetCount(sets[k] - {t}, sets[k]);
      C.CardUpdate(sets, k, sets[k] - {t});
    }
  }

  ghost predicate SameStore<T>(v: View<T>, u: View<T>) {
    v.kv == u.kv && v.pending == u.pending
  }

  lemma WriteIsStep<T(!new)>(
    st: SetStore<T>, v: View<T>, u: View<T>, direct: bool, k: Bytes, t: T, u': View<T>, v': View<T>)
    requires SameStore(v, u) && Written(u, direct, Op.Put(st.KeyOf(k, t), []), u') && SameStore(v', u')
    requires C.Submap(v'.sets, AddTo(v.sets, k, t))
    ensures SetStep(st, v, SetCall.Write(direct, k, t), v', None)
  {
  }

  lemma DeleteIsStep<T(!new)>(
    st: SetStore<T>, v: View<T>, u: View<T>, direct: bool, k: Bytes, t: T, u': View<T>, v': View<T>)
    requires SameStore(v, u) && Written(u, direct, Op.Delete(st.KeyOf(k, t)), u') && SameStore(v', u')
    requires C.Submap(v'.sets, RemoveFrom(v.sets, k, t))
    ensures SetStep(st, v, SetCall.Delete(direct, k, t), v', None)
  {
  }

  lemma BucketIsStep<T(!new)>(
    st: SetStore<T>, v: View<T>, u: View<T>, direct: bool, k: Bytes, u': View<T>, v': View<T>)
    requires RangeEnd(st.prefix + k).Some?
    requires SameStore(v, u) && Written(u, direct, DeletePrefix(st.prefix + k), u') && SameStore(v', u')
    requires v'.sets == v.sets - {k}
    ensures SetStep(st, v, SetCall.DeleteBucket(direct, k), v', None)
  {
  }

  /** Another store's operation keeps out of this one's key space. */
  ghost predicate Foreign<T>(st: SetStore<T>, op: Op) {
    forall x :: Under(st.prefix, x) ==> !op.Touches(x)
  }

  /** The caller's side. With direct writes only, `pending` stays empty and nothing is asked; see `DirectRunScans`. */
  ghost predicate SetDisciplined<T(!new)>(st: SetStore<T>, v: View<T>, call: SetCall<T>) {
    match call
    case Read(k) => |k| == st.width && (k in v.sets || Unstaged(st, v.pending, k))
    case Write(direct, k, t) => |k| == st.width && (direct ==> !Staged(v.pending, st.KeyOf(k, t)))
    case Delete(direct, k, t) => |k| == st.width && (direct ==> !Staged(v.pending, st.KeyOf(k, t)))
    case DeleteBucket(direct, k) => |k| == st.width && (direct ==> Unstaged(st, v.pending, k))
    case Other(_, op) => Foreign(st, op)
    case Commit => true
  }

  /** The reference: a map of sets, absent meaning empty. */
  function At<T>(m: map<Bytes, set<T>>, k: Bytes): set<T> {
    if k in m then m[k] else {}
  }

  function PlainSets<T>(m: map<Bytes, set<T>>, call: SetCall<T>): map<Bytes, set<T>> {
    match call
    case Write(_, k, t) => m[k := At(m, k) + {t}]
    case Delete(_, k, t) => m[k := At(m, k) - {t}]
    case DeleteBucket(_, k) => m - {k}
    case Read(_) => m
    case Other(_, _) => m
    case Commit => m
  }

  ghost predicate SetAgrees<T(!new)>(st: SetStore<T>, v: View<T>, m: map<Bytes, set<T>>) {
    forall k, t :: |k| == st.width ==> (InBucket(st, v.kv, v.pending, k, t) <==> t in At(m, k))
  }

  lemma SetStepAgrees<T(!new)>(st: SetStore<T>, v: View<T>, call: SetCall<T>, v': View<T>, reply: Option<set<T>>, m: map<Bytes, set<T>>)
    requires st.Valid() && RoundTrips(st.codec) && SetStep(st, v, call, v', reply) && SetDisciplined(st, v, call)
    requires Coherent(st, v) && SetAgrees(st, v, m)
    ensures Coherent(st, v') && SetAgrees(st, v', PlainSets(m, call))
    ensures call.Read? ==> reply == Some(At(m, call.key))
    ensures call.Read? && v.pending == [] ==> reply == Scan(st, v.kv, call.key)
  {
    match call
    case Commit => CommitKeeps(st, v, v');
    case Other(direct, op) => ForeignKeeps(st, v, direct, op, v');
    case Read(k) =>
      ReadKeeps(st, v, k, v', reply);
      assert reply.value == At(m, k);
    case _ => SetWriteAgrees(st, v, call, v', reply, m);
  }

  lemma SetWriteAgrees<T(!new)>(st: SetStore<T>, v: View<T>, call: SetCall<T>, v': View<T>, reply: Option<set<T>>, m: map<Bytes, set<T>>)
    requires st.Valid() && RoundTrips(st.codec) && SetStep(st, v, call, v', reply) && SetDisciplined(st, v, call)
    requires !call.Read? && !call.Other? && !call.Commit? && Coherent(st, v) && SetAgrees(st, v, m)
    ensures Coherent(st, v') && SetAgrees(st, v', PlainSets(m, call))
  {
    match call {
      case Write(direct, k, t) => WriteKeeps(st, v, direct, k, t, v');
      case Delete(direct, k, t) => DeleteKeeps(st, v, direct, k, t, v');
      case DeleteBucket(direct, k) => DeleteBucketKeeps(st, v, direct, k, v');
    }
    forall k, t | |k| == st.width
      ensures InBucket(st, v'.kv, v'.pending, k, t) <==> t in At(PlainSets(m, call), k)
    {
      assert InBucket(st, v.kv, v.pending, k, t) <==> t in At(m, k);
    }
  }

  /** A disciplined read returns the bucket; with nothing staged that is what an uncached scan returns. */
  lemma ReadKeeps<T(!new)>(st: SetStore<T>, v: View<T>, k: Bytes, v': View<T>, reply: Option<set<T>>)
    requires RoundTrips(st.codec) && SetStep(st, v, Read(k), v', reply) && SetDisciplined(st, v, Read(k)) && Coherent(st, v)
    ensures Coherent(st, v')
    ensures reply.Some? && forall t :: t in reply.value <==> InBucket(st, v.kv, v.pending, k, t)
    ensures v.pending == [] ==> reply == Scan(st, v.kv, k)
  {
    ScanExact(st, v.kv, k);
    if k !in v.sets {
      forall t ensures InBucket(st, v.kv, v.pending, k, t) <==> t in reply.value {
        UnstagedIsStored(v.kv, v.pending, st.KeyOf(k, t));
      }
    } else if v.pending == [] {
      assert reply.value == Scan(st, v.kv, k).value;
    }
  }

  lemma CommitKeeps<T(!new)>(st: SetStore<T>, v: View<T>, v': View<T>)
    requires Coherent(st, v) && v'.kv == Replay(v.kv, v.pending) && v'.pending == [] && C.Submap(v'.sets, v.sets)
    ensures Coherent(st, v')
    ensures forall k, t :: InBucket(st, v'.kv, v'.pending, k, t) <==> InBucket(st, v.kv, v.pending, k, t)
  {
    forall x ensures Lookup(v'.kv, v'.pending, x) == Lookup(v.kv, v.pending, x) {
      LookupIsReplay(v.kv, v.pending, x);
    }
    ReplayOnlyMembers(st, v.kv, v.pending);
  }

  lemma ForeignKeeps<T(!new)>(st: SetStore<T>, v: View<T>, direct: bool, op: Op, v': View<T>)
    requires Coherent(st, v) && Foreign(st, op) && Written(v, direct, op, v') && C.Submap(v'.sets, v.sets)
    ensures Coherent(st, v')
    ensures forall k, t :: InBucket(st, v'.kv, v'.pending, k, t) <==> InBucket(st, v.kv, v.pending, k, t)
  {
    forall k, t
      ensures InBucket(st, v'.kv, v'.pending, k, t) <==> InBucket(st, v.kv, v.pending, k, t)
    {
      assert Under(st.prefix, st.KeyOf(k, t));
      MembershipAfter(st, v.kv, v.pending, op, k, t);
    }
    if op.Put? && Under(st.prefix, op.key) {
      assert op.Touches(op.key);
    }
  }

  lemma {:induction false} ReplayOnlyMembers<T(!new)>(st: SetStore<T>, kv: Kv, ops: seq<Op>)
    requires OnlyMembers(st, kv) && OnlyMemberPuts(st, ops)
    ensures OnlyMembers(st, Replay(kv, ops))
  {
    if ops != [] {
      var n := |ops| - 1;
      assert forall i :: 0 <= i < n ==> ops[..n][i] == ops[i];
      ReplayOnlyMembers(st, kv, ops[..n]);
    }
  }

  ghost predicate SetRun<T(!new)>(st: SetStore<T>, vs: seq<View<T>>, calls: seq<SetCall<T>>, replies: seq<Option<set<T>>>) {
    && |vs| == |calls| + 1 && |replies| == |calls|
    && forall i :: 0 <= i < |calls| ==> SetFollows(st, vs, calls, replies, i)
  }

  ghost predicate SetFollows<T(!new)>(
    st: SetStore<T>, vs: seq<View<T>>, calls: seq<SetCall<T>>, replies: seq<Option<set<T>>>, i: nat)
    requires |vs| == |calls| + 1 && |replies| == |calls| && i < |calls|
  {
    SetStep(st, vs[i], calls[i], vs[i + 1], replies[i]) && SetDisciplined(st, vs[i], calls[i])
  }

  function PlainSetsAfter<T>(m: map<Bytes, set<T>>, calls: seq<SetCall<T>>): map<Bytes, set<T>> {
    if calls == [] then m else PlainSets(PlainSetsAfter(m, calls[..|calls| - 1]), calls[|calls| - 1])
  }

  /** On every disciplined run every read returns exactly the set a plain map of sets holds. */
  lemma {:induction false} SetRunAgrees<T(!new)>(
    st: SetStore<T>, vs: seq<View<T>>, calls: seq<SetCall<T>>, replies: seq<Option<set<T>>>, m: map<Bytes, set<T>>, i: nat)
    requires st.Valid() && RoundTrips(st.codec) && SetRun(st, vs, calls, replies) && i <= |calls|
    requires Coherent(st, vs[0]) && SetAgrees(st, vs[0], m)
    ensures Coherent(st, vs[i]) && SetAgrees(st, vs[i], PlainSetsAfter(m, calls[..i]))
    ensures i < |calls| && calls[i].Read? ==> replies[i] == Some(At(PlainSetsAfter(m, calls[..i]), calls[i].key))
  {
    if i > 0 {
      SetRunAgrees(st, vs, calls, replies, m, i - 1);
      assert SetFollows(st, vs, calls, replies, i - 1);
      SetStepAgrees(st, vs[i - 1], calls[i - 1], vs[i], replies[i - 1], PlainSetsAfter(m, calls[..i - 1]));
      PlainSetsMore(m, calls, i - 1);
    }
    if i < |calls| {
      assert SetFollows(st, vs, calls, replies, i);
      SetStepAgrees(st, vs[i], calls[i], vs[i + 1], replies[i], PlainSetsAfter(m, calls[..i]));
    }
  }

  /** A run of direct writes only: nothing is asked but keys of the store's width. */
  ghost predicate DirectRun<T(!new)>(st: SetStore<T>, vs: seq<View<T>>, calls: seq<SetCall<T>>, replies: seq<Option<set<T>>>) {
    && |vs| == |calls| + 1 && |replies| == |calls| && vs[0].pending == []
    && forall i :: 0 <= i < |calls| ==> DirectFollows(st, vs, calls, replies, i)
  }

  ghost predicate DirectFollows<T(!new)>(
    st: SetStore<T>, vs: seq<View<T>>, calls: seq<SetCall<T>>, replies: seq<Option<set<T>>>, i: nat)
    requires |vs| == |calls| + 1 && |replies| == |calls| && i < |calls|
  {
    SetStep(st, vs[i], calls[i], vs[i + 1], replies[i]) && IsDirect(st, calls[i])
  }

  lemma PlainSetsMore<T>(m: map<Bytes, set<T>>, calls: seq<SetCall<T>>, i: nat)
    requires i < |calls|
    ensures PlainSetsAfter(m, calls[..i + 1]) == PlainSets(PlainSetsAfter(m, calls[..i]), calls[i])
  {
    assert calls[..i + 1][..i] == calls[..i];
  }

  ghost predicate IsDirect<T>(st: SetStore<T>, call: SetCall<T>) {
    match call
    case Read(k) => |k| == st.width
    case Write(direct, k, _) => direct && |k| == st.width
    case Delete(direct, k, _) => direct && |k| == st.width
    case DeleteBucket(direct, k) => direct && |k| == st.width
    case Other(direct, op) => direct && Foreign(st, op)
    case Commit => true
  }

  lemma DirectStepKeeps<T(!new)>(st: SetStore<T>, v: View<T>, call: SetCall<T>, v': View<T>, reply: Option<set<T>>, m: map<Bytes, set<T>>)
    requires st.Valid() && RoundTrips(st.codec) && SetStep(st, v, call, v', reply) && IsDirect(st, call)
    requires v.pending == [] && Coherent(st, v) && SetAgrees(st, v, m)
    ensures v'.pending == [] && Coherent(st, v') && SetAgrees(st, v', PlainSets(m, call))
    ensures call.Read? ==> reply == Scan(st, v.kv, call.key) == Some(At(m, call.key))
  {
    assert SetDisciplined(st, v, call);
    SetStepAgrees(st, v, call, v', reply, m);
  }

  lemma {:induction false} DirectRunKeeps<T(!new)>(
    st: SetStore<T>, vs: seq<View<T>>, calls: seq<SetCall<T>>, replies: seq<Option<set<T>>>, m: map<Bytes, set<T>>, i: nat)
    requires st.Valid() && RoundTrips(st.codec) && DirectRun(st, vs, calls, replies) && i <= |calls|
    requires Coherent(st, vs[0]) && SetAgrees(st, vs[0], m)
    ensures vs[i].pending == [] && Coherent(st, vs[i]) && SetAgrees(st, vs[i], PlainSetsAfter(m, calls[..i]))
  {
    if i > 0 {
      DirectRunKeeps(st, vs, calls, replies, m, i - 1);
      assert DirectFollows(st, vs, calls, replies, i - 1);
      DirectStepKeeps(st, vs[i - 1], calls[i - 1], vs[i], replies[i - 1], PlainSetsAfter(m, calls[..i - 1]));
      PlainSetsMore(m, calls, i - 1);
    }
  }

  /** Under direct writes every read returns exactly what an uncached scan of the bucket would, which is what a plain map
      of sets holds, whatever is evicted and however cached sets are shared. */
  lemma {:induction false} DirectRunScans<T(!new)>(
    st: SetStore<T>, vs: seq<View<T>>, calls: seq<SetCall<T>>, replies: seq<Option<set<T>>>, m: map<Bytes, set<T>>, i: nat)
    requires st.Valid() && RoundTrips(st.codec) && DirectRun(st, vs, calls, replies)
    requires Coherent(st, vs[0]) && SetAgrees(st, vs[0], m) && i < |calls| && calls[i].Read?
    ensures replies[i] == Scan(st, vs[i].kv, calls[i].key) == Some(At(PlainSetsAfter(m, calls[..i]), calls[i].key))
  {
    DirectRunKeeps(st, vs, calls, replies, m, i);
    assert DirectFollows(st, vs, calls, replies, i);
    DirectStepKeeps(st, vs[i], calls[i], vs[i + 1], replies[i], PlainSetsAfter(m, calls[..i]));
  }

  // ---- what the discipline buys ----

  /** The database holds for this bucket what the batch will leave there. */
  ghost predicate BucketStored<T(!new)>(st: SetStore<T>, v: View<T>, k: Bytes) {
    forall t :: st.KeyOf(k, t) in v.kv <==> InBucket(st, v.kv, v.pending, k, t)
  }

  /** A read of a bucket with staged members, exactly: it answers right if and only if the bucket is cached or the
      database already holds what the batch will leave there, and (when its set is not evicted at once) exactly then it
      keeps the cache right. */
  lemma {:induction false} SetReadExactlyWhen<T(!new)>(
    st: SetStore<T>, v: View<T>, k: Bytes, v': View<T>, reply: Option<set<T>>, m: map<Bytes, set<T>>)
    requires RoundTrips(st.codec) && SetStep(st, v, Read(k), v', reply) && |k| == st.width
    requires Coherent(st, v) && SetAgrees(st, v, m)
    ensures reply == Some(At(m, k)) <==> k in v.sets || BucketStored(st, v, k)
    ensures k in v'.sets ==> (Coherent(st, v') <==> k in v.sets || BucketStored(st, v, k))
  {
    ScanExact(st, v.kv, k);
    if k in v.sets {
      assert v.sets[k] == At(m, k);
    } else {
      var scanned := Scan(st, v.kv, k).value;
      if BucketStored(st, v, k) {
        assert scanned == At(m, k);
      } else {
        var t :| !(st.KeyOf(k, t) in v.kv <==> InBucket(st, v.kv, v.pending, k, t));
        assert !(t in scanned <==> t in At(m, k));
      }
    }
  }

  /** A direct write under an open batch, exactly: it takes effect as on the plain sets if and only if it changes nothing
      for the bucket's members that have a staged operation. */
  lemma {:induction false} SetDirectExactlyWhen<T(!new)>(
    st: SetStore<T>, v: View<T>, call: SetCall<T>, v': View<T>, reply: Option<set<T>>, m: map<Bytes, set<T>>)
    requires st.Valid() && RoundTrips(st.codec) && SetStep(st, v, call, v', reply) && SetAgrees(st, v, m)
    requires (call.Write? || call.Delete? || call.DeleteBucket?) && call.direct && |call.key| == st.width
    ensures SetAgrees(st, v', PlainSets(m, call)) <==>
            forall t :: Staged(v.pending, st.KeyOf(call.key, t)) ==> (t in At(PlainSets(m, call), call.key) <==> t in At(m, call.key))
  {
    forall k, t | |k| == st.width
      ensures (InBucket(st, v'.kv, v'.pending, k, t) <==> t in At(PlainSets(m, call), k)) <==>
              (k == call.key && Staged(v.pending, st.KeyOf(k, t)) ==> (t in At(PlainSets(m, call), k) <==> t in At(m, k)))
    {
      SetDirectAt(st, v, call, v', reply, m, k, t);
    }
  }

  function DirectOp<T>(st: SetStore<T>, call: SetCall<T>): Op
    requires call.Write? || call.Delete? || (call.DeleteBucket? && RangeEnd(st.prefix + call.key).Some?)
  {
    match call
    case Write(_, k, t) => Op.Put(st.KeyOf(k, t), [])
    case Delete(_, k, t) => Op.Delete(st.KeyOf(k, t))
    case DeleteBucket(_, k) => DeletePrefix(st.prefix + k)
  }

  lemma {:induction false} SetDirectAt<T(!new)>(
    st: SetStore<T>, v: View<T>, call: SetCall<T>, v': View<T>, reply: Option<set<T>>, m: map<Bytes, set<T>>, k: Bytes, t: T)
    requires st.Valid() && RoundTrips(st.codec) && SetStep(st, v, call, v', reply) && SetAgrees(st, v, m)
    requires (call.Write? || call.Delete? || call.DeleteBucket?) && call.direct && |call.key| == st.width && |k| == st.width
    ensures (InBucket(st, v'.kv, v'.pending, k, t) <==> t in At(PlainSets(m, call), k)) <==>
            (k == call.key && Staged(v.pending, st.KeyOf(k, t)) ==> (t in At(PlainSets(m, call), k) <==> t in At(m, k)))
  {
    var op, x := DirectOp(st, call), st.KeyOf(k, t);
    assert InBucket(st, v.kv, v.pending, k, t) <==> t in At(m, k);
    OwnOpOtherBucket(st, op, call.key, k, t);
    if k == call.key && call.DeleteBucket? {
      BucketRange(st, k, k, t);
    } else if k == call.key {
      KeysDiffer(st, k, call.data, k, t);
    }
    if Staged(v.pending, x) {
      ReplaySnoc(v.kv, [], op);
      assert [] + [op] == [op];
      LookupUnderBatch(v.kv, v.pending, [op], x);
    } else {
      MembershipAfter(st, v.kv, v.pending, op, k, t);
    }
  }

  lemma {:induction false} ScanOf<T(!new)>(st: SetStore<T>, kv: Kv, k: Bytes, members: set<T>)
    requires RoundTrips(st.codec) && |k| == st.width && OnlyMembers(st, kv)
    requires forall t :: t in members <==> st.KeyOf(k, t) in kv
    ensures Scan(st, kv, k) == Some(members)
  {
    ScanExact(st, kv, k);
    assert Scan(st, kv, k).value == members;
  }

  /** A run in which a staged member is lost to readers for good: for every store, bucket and two members. Only its read
      through a miss is outside the discipline. */
  lemma {:induction false} SetStaleReadSurvivesCommit<T(!new)>(st: SetStore<T>, k: Bytes, a: T, b: T)
    returns (vs: seq<View<T>>, calls: seq<SetCall<T>>, replies: seq<Option<set<T>>>)
    requires st.Valid() && RoundTrips(st.codec) && |k| == st.width && a != b
    ensures |calls| == 5 && |vs| == 6 && |replies| == 5 && vs[0] == View(map[], [], map[])
    ensures forall i :: 0 <= i < 5 ==> SetStep(st, vs[i], calls[i], vs[i + 1], replies[i])
    ensures forall i :: 0 <= i < 5 && i != 2 ==> SetDisciplined(st, vs[i], calls[i])
    ensures calls[4] == Read(k) && vs[4].pending == [] && replies[4] == Some({a})
    ensures At(PlainSetsAfter(map[], calls[..4]), k) == {a, b}
  {
    var x, y := st.KeyOf(k, a), st.KeyOf(k, b);
    var early, late := map[x := []], map[x := [], y := []];
    vs := [View(map[], [], map[]), View(early, [], map[]), View(early, [Put(y, [])], map[]),
           View(early, [Put(y, [])], map[k := {a}]), View(late, [], map[k := {a}]), View(late, [], map[k := {a}])];
    calls := [Write(true, k, a), Write(false, k, b), Read(k), Commit, Read(k)];
    replies := [None, None, Some({a}), None, Some({a})];
    MemberKeys(st, k, a);
    assert IsMember(st, x);
    ScanOf(st, early, k, {a});
    assert Replay(early, [Put(y, [])]) == late;
    TwoWritesPlain(k, a, b, calls[..4]);
  }

  lemma {:induction false} PlainSnoc<T>(m: map<Bytes, set<T>>, calls: seq<SetCall<T>>, call: SetCall<T>)
    ensures PlainSetsAfter(m, calls + [call]) == PlainSets(PlainSetsAfter(m, calls), call)
  {
    assert (calls + [call])[..|calls|] == calls;
  }

  lemma {:induction false} TwoWritesPlain<T>(k: Bytes, a: T, b: T, calls: seq<SetCall<T>>)
    requires calls == [Write(true, k, a), Write(false, k, b), Read(k), Commit]
    ensures At(PlainSetsAfter(map[], calls), k) == {a, b}
  {
    var none: seq<SetCall<T>> := [];
    var one := none + [Write(true, k, a)];
    var two := one + [Write(false, k, b)];
    var three := two + [Read(k)];
    PlainSnoc(map[], none, Write(true, k, a));
    PlainSnoc(map[], one, Write(false, k, b));
    PlainSnoc(map[], two, Read(k));
    PlainSnoc(map[], three, Commit);
    assert three + [Commit] == calls;
    assert At(PlainSetsAfter(map[], one), k) == {a};
    assert {a} + {b} == {a, b};
  }

  /** A run in which a direct write is lost to an older staged removal: for every store, bucket and member. */
  lemma {:induction false} SetDirectWriteCanBeLost<T(!new)>(st: SetStore<T>, k: Bytes, a: T)
    returns (vs: seq<View<T>>, calls: seq<SetCall<T>>, replies: seq<Option<set<T>>>)
    requires st.Valid() && RoundTrips(st.codec) && |k| == st.width
    ensures |calls| == 4 && |vs| == 5 && |replies| == 4 && vs[0] == View(map[], [], map[])
    ensures forall i :: 0 <= i < 4 ==> SetStep(st, vs[i], calls[i], vs[i + 1], replies[i])
    ensures forall i :: 0 <= i < 4 && i != 1 ==> SetDisciplined(st, vs[i], calls[i])
    ensures calls[3] == Read(k) && vs[3].pending == [] && replies[3] == Some({})
    ensures At(PlainSetsAfter(map[], calls[..3]), k) == {a}
  {
    var x := st.KeyOf(k, a);
    var none: Kv := map[];
    vs := [View(none, [], map[]), View(none, [Op.Delete(x)], map[]), View(map[x := []], [Op.Delete(x)], map[]),
           View(none, [], map[]), View(none, [], map[k := {}])];
    calls := [SetCall.Delete(false, k, a), Write(true, k, a), Commit, Read(k)];
    replies := [None, None, None, Some({})];
    ScanOf(st, none, k, {});
    assert Replay(map[x := []], [Op.Delete(x)]) == none;
    WrittenAfterDelete(calls, k, a);
  }

  lemma {:induction false} WrittenAfterDelete<T(!new)>(calls: seq<SetCall<T>>, k: Bytes, a: T)
    requires |calls| > 3 && calls[0] == SetCall.Delete(false, k, a) && calls[1] == Write(true, k, a) && calls[2] == Commit
    ensures At(PlainSetsAfter(map[], calls[..3]), k) == {a}
  {
    PlainSetsMore(map[], calls, 2);
    PlainSetsMore(map[], calls, 1);
    PlainSetsMore(map[], calls, 0);
    assert calls[..0] == [];
  }

  /** The uncached access: one database key per member. */
  class DbSetAccess<T(==, !new)> {
    const db: Db
    const st: SetStore<T>

    constructor (db: Db, st: SetStore<T>)
      ensures this.db == db && this.st == st
    {
      this.db := db;
      this.st := st;
    }

    ghost function Abs(open: WriteBatch): View<T>
      reads db, open
    {
      View(db.kv, open.ops, map[])
    }

    method Write(w: DbWriter, key: Bytes, data: T, ghost open: WriteBatch)
      requires w.Fits(db, open)
      modifies db, open
      ensures Written(old(Abs(open)), w.Direct?, Op.Put(st.KeyOf(key, data), []), Abs(open))
    {
      w.Put(st.KeyOf(key, data), []);
    }

    method Delete(w: DbWriter, key: Bytes, data: T, ghost open: WriteBatch)
      requires w.Fits(db, open)
      modifies db, open
      ensures Written(old(Abs(open)), w.Direct?, Op.Delete(st.KeyOf(key, data)), Abs(open))
    {
      w.Delete(st.KeyOf(key, data));
    }

    method DeleteBucket(w: DbWriter, key: Bytes, ghost open: WriteBatch)
      requires w.Fits(db, open) && st.Valid()
      modifies db, open
      ensures RangeEnd(st.prefix + key).Some?
      ensures Written(old(Abs(open)), w.Direct?, DeletePrefix(st.prefix + key), Abs(open))
    {
      StorePrefixHasEnd(st.prefix, key);
      var dbKey := NewWithBucket(st.prefix, key, []);
      assert dbKey.path == st.prefix + key;
      w.DeleteRange(dbKey.path, RangeEnd(dbKey.path).value);
    }
  }

  class CachedDbSetAccess<T(==, !new)> {
    const inner: DbSetAccess<T>
    const cache: SetCache<Bytes, T>

    /** The state this store is in while `open` is the batch being filled. */
    ghost function Abs(open: WriteBatch): View<T>
      reads cache, inner.db, open
    {
      View(inner.db.kv, open.ops, cache.sets)
    }

    /** The shared sets are in order. That they are the right sets is `SetRunAgrees`. */
    ghost predicate Valid()
      reads cache, cache.entries.Values
    {
      inner.st.Valid() && cache.Valid()
    }

    constructor (db: Db, policy: C.Policy, st: SetStore<T>)
      requires st.Valid()
      ensures Valid() && cache.entries == map[] && cache.sets == map[] && fresh(cache)
      ensures inner.db == db && inner.st == st && cache.policy == policy
    {
      inner := new DbSetAccess(db, st);
      cache := new SetCache(policy);
    }

    /** Returns the shared set: the very object that is cached, or a new one holding what the scan found. */
    method Read(key: Bytes, ghost open: WriteBatch) returns (r: Option<LockedSet<Bytes, T>>)
      requires Valid()
      modifies cache
      ensures Valid()
      ensures SetStep(inner.st, old(Abs(open)), SetCall.Read(key), Abs(open), if r.Some? then Some(r.value.items) else None)
      ensures if key in old(cache.entries) then r == Some(old(cache.entries)[key]) && unchanged(cache)
              else r.Some? ==> fresh(r.value)
      ensures r.Some? && key in cache.entries ==> cache.entries[key] == r.value
      ensures SetCaches(cache.policy, old(cache.sets), SetCall.Read(key), if r.Some? then Some(r.value.items) else None, cache.sets)
    {
      if key in cache.entries {
        return Some(cache.entries[key]);
      }
      match Scan(inner.st, inner.db.kv, key)
      case None => return None;
      case Some(items) =>
        var entry := new LockedSet(items, key);
        cache.Insert(key, entry);
        return Some(entry);
    }

    /** Changes the cached set in place, if there is one. */
    method AddCached(key: Bytes, data: T, ghost open: WriteBatch)
      requires Valid()
      modifies cache, if key in cache.entries then {cache.entries[key]} else {}
      ensures Valid()
      ensures SameStore(old(Abs(open)), Abs(open)) && C.Submap(cache.sets, AddTo(old(cache.sets), key, data))
      ensures key in old(cache.entries) ==> old(cache.entries)[key].items == old(cache.entries[key].items) + {data}
      ensures C.Submap(cache.entries, old(cache.entries))
      ensures Grown(cache.policy, old(cache.sets), key, data, cache.sets)
    {
      cache.UpdateIfEntryExists(key, s => s + {data});
    }

    method RemoveCached(key: Bytes, data: T, ghost open: WriteBatch)
      requires Valid()
      modifies cache, if key in cache.entries then {cache.entries[key]} else {}
      ensures Valid()
      ensures SameStore(old(Abs(open)), Abs(open)) && C.Submap(cache.sets, RemoveFrom(old(cache.sets), key, data))
      ensures key in old(cache.entries) ==> old(cache.entries)[key].items == old(cache.entries[key].items) - {data}
      ensures C.Submap(cache.entries, old(cache.entries)) && cache.sets == RemoveFrom(old(cache.sets), key, data)
    {
      cache.SizesFit();
      ShrunkFits(cache.policy, cache.sets, key, data);
      cache.UpdateIfEntryExists(key, s => s - {data});
    }

    /** A writer does not touch the cache. */
    twostate lemma StillValid()
      requires old(Valid()) && unchanged(cache) && forall s :: s in cache.entries.Values ==> unchanged(s)
      ensures Valid()
    {
    }

    method PutMember(w: DbWriter, key: Bytes, data: T, ghost open: WriteBatch)
      requires Valid() && w.Fits(inner.db, open)
      modifies inner.db, open
      ensures Valid() && Written(old(inner.Abs(open)), w.Direct?, Op.Put(inner.st.KeyOf(key, data), []), inner.Abs(open))
    {
      inner.Write(w, key, data, open);
      StillValid();
    }

    method DeleteMember(w: DbWriter, key: Bytes, data: T, ghost open: WriteBatch)
      requires Valid() && w.Fits(inner.db, open)
      modifies inner.db, open
      ensures Valid() && Written(old(inner.Abs(open)), w.Direct?, Op.Delete(inner.st.KeyOf(key, data)), inner.Abs(open))
    {
      inner.Delete(w, key, data, open);
      StillValid();
    }

    method Write(w: DbWriter, key: Bytes, data: T, ghost open: WriteBatch)
      requires Valid() && w.Fits(inner.db, open)
      modifies cache, inner.db, open, if key in cache.entries then {cache.entries[key]} else {}
      ensures Valid()
      ensures SetStep(inner.st, old(Abs(open)), SetCall.Write(w.Direct?, key, data), Abs(open), None)
      ensures key in old(cache.entries) ==> old(cache.entries)[key].items == old(cache.entries[key].items) + {data}
      ensures C.Submap(cache.entries, old(cache.entries))
      ensures Grown(cache.policy, old(cache.sets), key, data, cache.sets)
    {
      ghost var v := Abs(open);
      AddCached(key, data, open);
      ghost var u := inner.Abs(open);
      PutMember(w, key, data, open);
      WriteIsStep(inner.st, v, u, w.Direct?, key, data, inner.Abs(open), Abs(open));
    }

    method Delete(w: DbWriter, key: Bytes, data: T, ghost open: WriteBatch)
      requires Valid() && w.Fits(inner.db, open)
      modifies cache, inner.db, open, if key in cache.entries then {cache.entries[key]} else {}
      ensures Valid()
      ensures SetStep(inner.st, old(Abs(open)), SetCall.Delete(w.Direct?, key, data), Abs(open), None)
      ensures key in old(cache.entries) ==> old(cache.entries)[key].items == old(cache.entries[key].items) - {data}
      ensures C.Submap(cache.entries, old(cache.entries)) && cache.sets == RemoveFrom(old(cache.sets), key, data)
    {
      ghost var v := Abs(open);
      RemoveCached(key, data, open);
      ghost var u := inner.Abs(open);
      DeleteMember(w, key, data, open);
      DeleteIsStep(inner.st, v, u, w.Direct?, key, data, inner.Abs(open), Abs(open));
    }

    method DeleteMembers(w: DbWriter, key: Bytes, ghost open: WriteBatch)
      requires Valid() && w.Fits(inner.db, open)
      modifies inner.db, open
      ensures Valid() && RangeEnd(inner.st.prefix + key).Some?
      ensures Written(old(inner.Abs(open)), w.Direct?, DeletePrefix(inner.st.prefix + key), inner.Abs(open))
    {
      inner.DeleteBucket(w, key, open);
      StillValid();
    }

    /** Empties one bucket; a set already handed out is left as it was. */
    method DeleteBucket(w: DbWriter, key: Bytes, ghost open: WriteBatch)
      requires Valid() && w.Fits(inner.db, open)
      modifies cache, inner.db, open
      ensures Valid()
      ensures SetStep(inner.st, old(Abs(open)), SetCall.DeleteBucket(w.Direct?, key), Abs(open), None)
      ensures cache.entries == old(cache.entries) - {key} && cache.sets == old(cache.sets) - {key}
    {
      ghost var v := Abs(open);
      cache.Remove(key);
      ghost var u := inner.Abs(open);
      DeleteMembers(w, key, open);
      BucketIsStep(inner.st, v, u, w.Direct?, key, inner.Abs(open), Abs(open));
    }

    /** The open batch is committed; the cached sets are left alone. */
    method Commit(batch: WriteBatch)
      requires Valid()
      modifies inner.db, batch
      ensures Valid()
      ensures SetStep(inner.st, old(Abs(batch)), SetCall.Commit, Abs(batch), None)
    {
      inner.db.Commit(batch);
    }
  }
}

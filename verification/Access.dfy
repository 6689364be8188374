/** `CachedDbAccess` of `database/src/access.rs` as a transition system: a typed cache in front of one
    store of the shared database, with writes going to the database or to one open batch. The reference
    is a plain map that takes the same calls. */
module AccessModel {
  import opened KeySpace
  import opened Writer
  import opened Cache

  datatype Store<!V> = Store(prefix: Bytes, codec: Codec<V>)

  /** Prefixes start with a registered byte; see `KeySpace.StorePrefixHasEnd`. */
  ghost predicate ValidStore<V(!new)>(st: Store<V>) {
    st.prefix != [] && st.prefix[0] != SEPARATOR && RoundTrips(st.codec)
  }

  datatype State<V> = State(kv: Kv, pending: seq<Op>, cache: map<Bytes, V>)

  datatype Mode = ToDb | ToBatch

  datatype Call<V> =
    | Read(key: Bytes)
    | Has(key: Bytes)
    | Write(mode: Mode, key: Bytes, data: V)
    | WriteMany(mode: Mode, items: seq<(Bytes, V)>)
    | WriteManyWithoutCache(mode: Mode, items: seq<(Bytes, V)>)
    | Delete(mode: Mode, key: Bytes)
    | DeleteMany(mode: Mode, keys: seq<Bytes>)
    | DeleteAll(mode: Mode)
    | Other(mode: Mode, op: Op)
    | Commit

  datatype Reply<V> = Done | Found(data: V) | NotFound | Undecodable | Exists(yes: bool)

  function Puts<V>(st: Store<V>, items: seq<(Bytes, V)>): (ops: seq<Op>)
    ensures |ops| == |items|
  {
    if items == [] then []
    else
      var last := items[|items| - 1];
      Puts(st, items[..|items| - 1]) + [Put(st.prefix + last.0, st.codec.enc(last.1))]
  }

  function Deletes(prefix: Bytes, keys: seq<Bytes>): (ops: seq<Op>)
    ensures |ops| == |keys|
  {
    if keys == [] then []
    else Deletes(prefix, keys[..|keys| - 1]) + [Op.Delete(prefix + keys[|keys| - 1])]
  }

  /** One turn of the loop over the items to put. */
  lemma PutMore<V>(st: Store<V>, items: seq<(Bytes, V)>, i: nat, kv: Kv, pending: seq<Op>, direct: bool,
                   kv1: Kv, pending1: seq<Op>, kv2: Kv, pending2: seq<Op>)
    requires i < |items| && Sent(kv, pending, direct, Puts(st, items[..i]), kv1, pending1)
    requires SentOne(kv1, pending1, direct, Put(st.prefix + items[i].0, st.codec.enc(items[i].1)), kv2, pending2)
    ensures Sent(kv, pending, direct, Puts(st, items[..i + 1]), kv2, pending2)
  {
    assert items[..i + 1][..i] == items[..i];
    SendMore(kv, pending, direct, Puts(st, items[..i]), kv1, pending1, Put(st.prefix + items[i].0, st.codec.enc(items[i].1)), kv2, pending2);
  }

  /** One turn of the loop over the keys to delete. */
  lemma DeleteMore(prefix: Bytes, keys: seq<Bytes>, i: nat, kv: Kv, pending: seq<Op>, direct: bool,
                   kv1: Kv, pending1: seq<Op>, kv2: Kv, pending2: seq<Op>)
    requires i < |keys| && Sent(kv, pending, direct, Deletes(prefix, keys[..i]), kv1, pending1)
    requires SentOne(kv1, pending1, direct, Op.Delete(prefix + keys[i]), kv2, pending2)
    ensures Sent(kv, pending, direct, Deletes(prefix, keys[..i + 1]), kv2, pending2)
  {
    assert keys[..i + 1][..i] == keys[..i];
    SendMore(kv, pending, direct, Deletes(prefix, keys[..i]), kv1, pending1, Op.Delete(prefix + keys[i]), kv2, pending2);
  }

  /** What a call hands to its writer, in order. */
  function Issued<V>(st: Store<V>, call: Call<V>): seq<Op> {
    match call
    case Write(_, k, v) => [Put(st.prefix + k, st.codec.enc(v))]
    case WriteMany(_, items) => Puts(st, items)
    case WriteManyWithoutCache(_, items) => Puts(st, items)
    case Delete(_, k) => [Op.Delete(st.prefix + k)]
    case DeleteMany(_, keys) => Deletes(st.prefix, keys)
    case DeleteAll(_) => if RangeEnd(st.prefix).Some? then [DeletePrefix(st.prefix)] else []
    case Other(_, op) => [op]
    case Read(_) => []
    case Has(_) => []
    case Commit => []
  }

  predicate Writes<V>(call: Call<V>) {
    !call.Read? && !call.Has? && !call.Commit?
  }

  /** The cache after a writing call, before evictions. */
  function Filled<V>(cache: map<Bytes, V>, call: Call<V>): map<Bytes, V>
    requires Writes(call)
  {
    match call
    case Write(_, k, v) => cache[k := v]
    case WriteMany(_, items) => InsertAll(cache, items)
    case WriteManyWithoutCache(_, _) => map[]
    case Delete(_, k) => cache - {k}
    case DeleteMany(_, keys) => DropAll(cache, keys)
    case DeleteAll(_) => map[]
    case Other(_, _) => cache
  }

  /** What a call takes out of the cache, and what it then puts in, in order. */
  function Remaining<V>(cache: map<Bytes, V>, call: Call<V>): map<Bytes, V> {
    match call
    case WriteManyWithoutCache(_, _) => map[]
    case DeleteAll(_) => map[]
    case Delete(_, k) => cache - {k}
    case DeleteMany(_, keys) => map k | k in cache && k !in keys :: cache[k]
    case _ => cache
  }

  function Inserted<V>(cache: map<Bytes, V>, call: Call<V>, reply: Reply<V>): seq<(Bytes, V)> {
    match call
    case Write(_, k, v) => [(k, v)]
    case WriteMany(_, items) => items
    case Read(k) => if k !in cache && reply.Found? then [(k, reply.data)] else []
    case _ => []
  }

  /** What the policy lets a call leave in the cache. Without an insertion that is everything the call did not remove. */
  ghost predicate Caches<V>(policy: Policy, size: V -> nat, cache: map<Bytes, V>, call: Call<V>, reply: Reply<V>, cache': map<Bytes, V>) {
    var base, items := Remaining(cache, call), Inserted(cache, call, reply);
    && Evicted(policy, size, base, items, cache')
    && (policy.tracked && policy.maxSize > 0 && items != [] && !call.WriteMany? ==> JustEnough(policy, size, InsertAll(base, items), cache'))
  }

  lemma CachesOne<V>(policy: Policy, size: V -> nat, cache: map<Bytes, V>, call: Call<V>, reply: Reply<V>, k: Bytes, v: V, cache': map<Bytes, V>)
    requires Remaining(cache, call) == cache && Inserted(cache, call, reply) == [(k, v)] && !call.WriteMany?
    requires Submap(cache', cache[k := v]) && (Room(policy, size, cache, k, v) ==> cache' == cache[k := v])
    requires !policy.tracked && policy.maxSize > 0 ==> k in cache'
    requires |cache'| >= |cache[k := v]| || |cache'| >= Floor(policy)
    requires policy.tracked && policy.maxSize > 0 ==> JustEnough(policy, size, cache[k := v], cache')
    ensures Caches(policy, size, cache, call, reply, cache')
  {
    InsertAllOne(cache, k, v);
    RoomForOne(policy, size, cache, k, v);
  }

  /** One call. Any entry may be evicted at any time, so every new cache is only bounded from above. */
  ghost predicate Step<V>(st: Store<V>, s: State<V>, call: Call<V>, s': State<V>, reply: Reply<V>) {
    match call
    case Read(k) =>
      && s'.kv == s.kv && s'.pending == s.pending
      && (if k in s.cache then
            reply == Found(s.cache[k]) && Submap(s'.cache, s.cache)
          else
            match Get(s.kv, st.prefix + k)
            case None => reply == NotFound && Submap(s'.cache, s.cache)
            case Some(b) =>
              match st.codec.dec(b)
              case None => reply == Undecodable && Submap(s'.cache, s.cache)
              case Some(v) => reply == Found(v) && Submap(s'.cache, s.cache[k := v]))
    case Has(k) =>
      && s'.kv == s.kv && s'.pending == s.pending && Submap(s'.cache, s.cache)
      && reply == Exists(k in s.cache || st.prefix + k in s.kv)
    case Commit =>
      s'.kv == Replay(s.kv, s.pending) && s'.pending == [] && Submap(s'.cache, s.cache) && reply == Done
    case _ =>
      && reply == Done && Submap(s'.cache, Filled(s.cache, call))
      && (if call.mode.ToDb? then
            s'.kv == Replay(s.kv, Issued(st, call)) && s'.pending == s.pending
          else
            s'.kv == s.kv && s'.pending == s.pending + Issued(st, call))
  }

  lemma OneOpIsStep<V>(st: Store<V>, s: State<V>, call: Call<V>, op: Op, s': State<V>)
    requires Writes(call) && Issued(st, call) == [op]
    requires SentOne(s.kv, s.pending, call.mode.ToDb?, op, s'.kv, s'.pending) && Submap(s'.cache, Filled(s.cache, call))
    ensures Step(st, s, call, s', Done)
  {
    ReplayOne(s.kv, op);
  }

  /** The same call on a plain map. */
  function PlainStep<V>(m: map<Bytes, V>, call: Call<V>): map<Bytes, V> {
    match call
    case Write(_, k, v) => m[k := v]
    case WriteMany(_, items) => InsertAll(m, items)
    case WriteManyWithoutCache(_, items) => InsertAll(m, items)
    case Delete(_, k) => m - {k}
    case DeleteMany(_, keys) => map k | k in m && k !in keys :: m[k]
    case DeleteAll(_) => map[]
    case Read(_) => m
    case Has(_) => m
    case Other(_, _) => m
    case Commit => m
  }

  function PlainReply<V>(m: map<Bytes, V>, call: Call<V>): Reply<V> {
    match call
    case Read(k) => if k in m then Found(m[k]) else NotFound
    case Has(k) => Exists(k in m)
    case _ => Done
  }

  ghost predicate Holds<V>(st: Store<V>, bytes: Option<Bytes>, m: map<Bytes, V>, k: Bytes) {
    if k in m then bytes.Some? && st.codec.dec(bytes.value) == Some(m[k]) else bytes.None?
  }

  /** The database overlaid with the open batch is the plain map, key by key. */
  ghost predicate Agrees<V>(st: Store<V>, s: State<V>, m: map<Bytes, V>) {
    forall k :: Holds(st, Lookup(s.kv, s.pending, st.prefix + k), m, k)
  }

  /** Every cached value is the one the database overlaid with the open batch holds. */
  ghost predicate Coherent<V>(st: Store<V>, s: State<V>) {
    forall k :: k in s.cache ==> Holds(st, Lookup(s.kv, s.pending, st.prefix + k), s.cache, k)
  }

  /** The caller's side: a key with a staged operation is not asked for through a cache miss, a direct
      write leaves staged keys alone, and other stores keep out of this one's key space. */
  ghost predicate Disciplined<V>(st: Store<V>, s: State<V>, call: Call<V>) {
    match call
    case Read(k) => k in s.cache || !Staged(s.pending, st.prefix + k)
    case Has(k) => k in s.cache || !Staged(s.pending, st.prefix + k)
    case Commit => true
    case Other(_, op) => forall x :: Under(st.prefix, x) ==> !op.Touches(x)
    case _ =>
      call.mode.ToDb? ==> forall x :: Staged(Issued(st, call), x) ==> !Staged(s.pending, x)
  }

  // ---- what the issued operations do to one key ----

  lemma PrefixKey(p: Bytes, a: Bytes, b: Bytes)
    ensures p + a == p + b <==> a == b
  {
    assert a == (p + a)[|p|..] && b == (p + b)[|p|..];
  }

  lemma {:induction false} PutsAt<V(!new)>(st: Store<V>, items: seq<(Bytes, V)>, m: map<Bytes, V>, k: Bytes)
    requires RoundTrips(st.codec)
    ensures var ops, m', x := Puts(st, items), InsertAll(m, items), st.prefix + k;
            if Staged(ops, x) then k in m' && Holds(st, Lookup(map[], ops, x), m', k)
            else (k in m' <==> k in m) && (k in m ==> m'[k] == m[k])
  {
    if items != [] {
      var n := |items| - 1;
      var ops := Puts(st, items);
      PutsAt(st, items[..n], m, k);
      assert ops[..n] == Puts(st, items[..n]);
      StagedByLast(ops, st.prefix + k);
      PrefixKey(st.prefix, items[n].0, k);
    }
  }

  lemma {:induction false} DeletesAt(prefix: Bytes, keys: seq<Bytes>, k: Bytes)
    ensures var ops, x := Deletes(prefix, keys), prefix + k;
            (Staged(ops, x) <==> k in keys) && (Staged(ops, x) ==> Lookup(map[], ops, x).None?)
  {
    if keys != [] {
      var n := |keys| - 1;
      var ops := Deletes(prefix, keys);
      DeletesAt(prefix, keys[..n], k);
      assert ops[..n] == Deletes(prefix, keys[..n]);
      assert keys == keys[..n] + [keys[n]];
      StagedByLast(ops, prefix + k);
      PrefixKey(prefix, keys[n], k);
    }
  }

  /** A writing call changes exactly the keys it issues operations for, and changes them as the plain map. */
  lemma IssuedAt<V(!new)>(st: Store<V>, call: Call<V>, m: map<Bytes, V>, k: Bytes)
    requires ValidStore(st) && Writes(call)
    requires call.Other? ==> !call.op.Touches(st.prefix + k)
    ensures var ops, m', x := Issued(st, call), PlainStep(m, call), st.prefix + k;
            if Staged(ops, x) then Holds(st, Lookup(map[], ops, x), m', k)
            else (k in m' <==> k in m) && (k in m ==> m'[k] == m[k])
  {
    var ops, x := Issued(st, call), st.prefix + k;
    match call
    case WriteMany(_, items) => PutsAt(st, items, m, k);
    case WriteManyWithoutCache(_, items) => PutsAt(st, items, m, k);
    case DeleteMany(_, keys) => DeletesAt(st.prefix, keys, k);
    case Write(_, j, v) =>
      PrefixKey(st.prefix, j, k);
      StagedByLast(ops, x);
    case Delete(_, j) =>
      PrefixKey(st.prefix, j, k);
      StagedByLast(ops, x);
    case DeleteAll(_) =>
      StorePrefixHasEnd(st.prefix, []);
      RangeIsExtensions(st.prefix, x);
      assert st.prefix <= x;
      StagedByLast(ops, x);
    case Other(_, _) =>
  }

  /** The overlay after a disciplined writing call. */
  lemma OverlayAfter<V(!new)>(st: Store<V>, s: State<V>, call: Call<V>, s': State<V>, reply: Reply<V>, x: Bytes)
    requires Writes(call) && Step(st, s, call, s', reply)
    requires call.mode.ToDb? && Staged(Issued(st, call), x) ==> !Staged(s.pending, x)
    ensures Lookup(s'.kv, s'.pending, x) ==
            if Staged(Issued(st, call), x) then Lookup(map[], Issued(st, call), x) else Lookup(s.kv, s.pending, x)
  {
    var ops := Issued(st, call);
    if call.mode.ToBatch? {
      LookupAppend(s.kv, s.pending, ops, x);
    } else {
      LookupUnderBatch(s.kv, s.pending, ops, x);
      assert [] + ops == ops;
      LookupAppend(s.kv, [], ops, x);
      if !Staged(s.pending, x) {
        UnstagedIsStored(s.kv, s.pending, x);
      }
    }
  }

  lemma CommitKeepsOverlay(kv: Kv, pending: seq<Op>, x: Bytes)
    ensures Lookup(Replay(kv, pending), [], x) == Lookup(kv, pending, x)
  {
    LookupIsReplay(kv, pending, x);
  }

  // ---- one step ----

  lemma WriteStepAgrees<V(!new)>(st: Store<V>, s: State<V>, call: Call<V>, s': State<V>, reply: Reply<V>, m: map<Bytes, V>)
    requires ValidStore(st) && Writes(call) && Step(st, s, call, s', reply) && Disciplined(st, s, call)
    requires Agrees(st, s, m) && Coherent(st, s)
    ensures Agrees(st, s', PlainStep(m, call)) && Coherent(st, s')
  {
    forall k
      ensures Holds(st, Lookup(s'.kv, s'.pending, st.prefix + k), PlainStep(m, call), k)
      ensures k in s'.cache ==> Holds(st, Lookup(s'.kv, s'.pending, st.prefix + k), s'.cache, k)
    {
      var x := st.prefix + k;
      assert Under(st.prefix, x);
      assert call.Other? ==> !call.op.Touches(x);
      if call.Other? {
        StagedByLast([call.op], x);
      }
      OverlayAfter(st, s, call, s', reply, x);
      IssuedAt(st, call, m, k);
      assert Holds(st, Lookup(s.kv, s.pending, x), m, k);
      if k in s'.cache {
        IssuedAt(st, call, s.cache, k);
        if call.DeleteMany? {
          DropAllIsDifference(s.cache, call.keys);
        }
        assert k in s.cache ==> Holds(st, Lookup(s.kv, s.pending, x), s.cache, k);
      }
    }
  }

  lemma QueryStepAgrees<V(!new)>(st: Store<V>, s: State<V>, call: Call<V>, s': State<V>, reply: Reply<V>, m: map<Bytes, V>)
    requires call.Read? || call.Has?
    requires Step(st, s, call, s', reply) && Disciplined(st, s, call)
    requires Agrees(st, s, m) && Coherent(st, s)
    ensures Agrees(st, s', m) && Coherent(st, s') && reply == PlainReply(m, call)
  {
    var x := st.prefix + call.key;
    assert Holds(st, Lookup(s.kv, s.pending, x), m, call.key);
    if call.key !in s.cache {
      UnstagedIsStored(s.kv, s.pending, x);
    }
  }

  /** A disciplined call keeps cache and overlay right and answers as the plain map does. */
  lemma StepAgrees<V(!new)>(st: Store<V>, s: State<V>, call: Call<V>, s': State<V>, reply: Reply<V>, m: map<Bytes, V>)
    requires ValidStore(st) && Step(st, s, call, s', reply) && Disciplined(st, s, call)
    requires Agrees(st, s, m) && Coherent(st, s)
    ensures Agrees(st, s', PlainStep(m, call)) && Coherent(st, s') && reply == PlainReply(m, call)
  {
    if Writes(call) {
      WriteStepAgrees(st, s, call, s', reply, m);
    } else if call.Commit? {
      forall k
        ensures Lookup(s'.kv, s'.pending, st.prefix + k) == Lookup(s.kv, s.pending, st.prefix + k)
      {
        CommitKeepsOverlay(s.kv, s.pending, st.prefix + k);
      }
    } else {
      QueryStepAgrees(st, s, call, s', reply, m);
    }
  }

  // ---- whole runs ----

  datatype Event<V> = Event(call: Call<V>, reply: Reply<V>)

  ghost predicate Run<V>(st: Store<V>, ss: seq<State<V>>, es: seq<Event<V>>) {
    && |ss| == |es| + 1
    && forall i :: 0 <= i < |es| ==> Step(st, ss[i], es[i].call, ss[i + 1], es[i].reply) && Disciplined(st, ss[i], es[i].call)
  }

  function PlainAfter<V>(m: map<Bytes, V>, es: seq<Event<V>>): map<Bytes, V> {
    if es == [] then m else PlainStep(PlainAfter(m, es[..|es| - 1]), es[|es| - 1].call)
  }

  /** On every disciplined run, at every point: the cache is contained in the database overlaid with the
      batch, that overlay is the plain map which took the same calls, and the next reply is the plain map's. */
  lemma {:induction false} RunAgrees<V(!new)>(st: Store<V>, ss: seq<State<V>>, es: seq<Event<V>>, m: map<Bytes, V>, i: nat)
    requires ValidStore(st) && Run(st, ss, es) && i <= |es|
    requires Agrees(st, ss[0], m) && Coherent(st, ss[0])
    ensures Agrees(st, ss[i], PlainAfter(m, es[..i])) && Coherent(st, ss[i])
    ensures i < |es| ==> es[i].reply == PlainReply(PlainAfter(m, es[..i]), es[i].call)
  {
    if i > 0 {
      RunAgrees(st, ss, es, m, i - 1);
      StepAgrees(st, ss[i - 1], es[i - 1].call, ss[i], es[i - 1].reply, PlainAfter(m, es[..i - 1]));
      assert es[..i][..i - 1] == es[..i - 1];
    }
    if i < |es| {
      StepAgrees(st, ss[i], es[i].call, ss[i + 1], es[i].reply, PlainAfter(m, es[..i]));
    }
  }

  // ---- what the discipline buys ----

  /** Another store of the same database never steps on this one, provided neither prefix extends the other. */
  lemma OtherStoreKeepsOut<V, W>(st: Store<V>, other: Store<W>, call: Call<W>, mode: Mode, s: State<V>, op: Op)
    requires !Comparable(st.prefix, other.prefix)
    requires Writes(call) && !call.Other? && op in Issued(other, call)
    ensures Disciplined(st, s, Other(mode, op))
  {
    OwnKeysOnly(other, call, op);
    forall x | Under(st.prefix, x)
      ensures !op.Touches(x)
    {
      ShareExtension(st.prefix, other.prefix);
    }
  }

  lemma OwnKeysOnly<V>(st: Store<V>, call: Call<V>, op: Op)
    requires Writes(call) && !call.Other? && op in Issued(st, call)
    ensures forall x :: op.Touches(x) ==> Under(st.prefix, x)
  {
    if call.DeleteAll? {
      forall x ensures op.Touches(x) ==> Under(st.prefix, x) {
        RangeIsExtensions(st.prefix, x);
      }
    } else if call.DeleteMany? {
      DeletesUnderPrefix(st.prefix, call.keys, op);
    } else if call.WriteMany? || call.WriteManyWithoutCache? {
      PutsUnderPrefix(st, call.items, op);
    }
  }

  lemma {:induction false} PutsUnderPrefix<V>(st: Store<V>, items: seq<(Bytes, V)>, op: Op)
    requires op in Puts(st, items)
    ensures op.Put? && Under(st.prefix, op.key)
  {
    var n := |items| - 1;
    if op in Puts(st, items[..n]) {
      PutsUnderPrefix(st, items[..n], op);
    }
  }

  lemma {:induction false} DeletesUnderPrefix(prefix: Bytes, keys: seq<Bytes>, op: Op)
    requires op in Deletes(prefix, keys)
    ensures op.Delete? && Under(prefix, op.key)
  {
    var n := |keys| - 1;
    if op in Deletes(prefix, keys[..n]) {
      DeletesUnderPrefix(prefix, keys[..n], op);
    }
  }

  ghost predicate Same<V>(st: Store<V>, a: Option<Bytes>, b: Option<Bytes>) {
    (a.None? && b.None?) || (a.Some? && b.Some? && st.codec.dec(a.value) == st.codec.dec(b.value))
  }

  /** A read of a key with a staged operation, exactly: it answers right if and only if the key is cached or
      the database already holds what the batch will leave there, and (when its entry is not evicted at
      once) it keeps the cache right if and only if one of these holds or the database has nothing to cache. */
  lemma ReadExactlyWhen<V>(st: Store<V>, s: State<V>, k: Bytes, s': State<V>, reply: Reply<V>, m: map<Bytes, V>)
    requires Step(st, s, Read(k), s', reply) && reply != Undecodable
    requires Agrees(st, s, m) && Coherent(st, s)
    ensures var x := st.prefix + k;
            var right := k in s.cache || Same(st, Get(s.kv, x), Lookup(s.kv, s.pending, x));
            && (reply == PlainReply(m, Read(k)) <==> right)
            && (k in s'.cache ==> (Coherent(st, s') <==> right || x !in s.kv))
  {
    var x := st.prefix + k;
    assert Holds(st, Lookup(s.kv, s.pending, x), m, k);
    if k in s'.cache && k !in s.cache {
      assert Coherent(st, s') ==> Holds(st, Lookup(s.kv, s.pending, x), s'.cache, k);
    }
  }

  /** The same for a look at whether a key is there. */
  lemma {:induction false} HasExactlyWhen<V>(st: Store<V>, s: State<V>, k: Bytes, s': State<V>, reply: Reply<V>, m: map<Bytes, V>)
    requires Step(st, s, Has(k), s', reply) && Agrees(st, s, m) && Coherent(st, s)
    ensures var x := st.prefix + k;
            reply == PlainReply(m, Has(k)) <==> k in s.cache || (x in s.kv <==> Lookup(s.kv, s.pending, x).Some?)
  {
    assert Holds(st, Lookup(s.kv, s.pending, st.prefix + k), m, k);
  }

  /** A run in which a removed key is still there for a look: for every store, key and value. Only the look is outside
      the discipline. */
  lemma {:induction false} RemovedKeyIsSeen<V(!new)>(st: Store<V>, k: Bytes, a: V) returns (ss: seq<State<V>>, es: seq<Event<V>>)
    requires ValidStore(st)
    ensures |es| == 3 && |ss| == 4 && ss[0] == State(map[], [], map[])
    ensures forall i :: 0 <= i < 3 ==> Step(st, ss[i], es[i].call, ss[i + 1], es[i].reply)
    ensures forall i :: 0 <= i < 2 ==> Disciplined(st, ss[i], es[i].call)
    ensures es[1].call == Call.Delete(ToBatch, k) && es[2] == Event(Has(k), Exists(true))
    ensures k !in PlainAfter(map[], es[..2])
  {
    var x := st.prefix + k;
    var kv := map[x := st.codec.enc(a)];
    ss := [State(map[], [], map[]), State(kv, [], map[k := a]), State(kv, [Op.Delete(x)], map[]),
           State(kv, [Op.Delete(x)], map[])];
    es := [Event(Write(ToDb, k, a), Done), Event(Call.Delete(ToBatch, k), Done), Event(Has(k), Exists(true))];
    assert es[..2][..1] == es[..1];
    assert Replay(map[], [Put(x, st.codec.enc(a))]) == kv;
  }

  ghost predicate SameAt<V>(m: map<Bytes, V>, m': map<Bytes, V>, k: Bytes) {
    (k in m <==> k in m') && (k in m && k in m' ==> m[k] == m'[k])
  }

  lemma DirectWriteAt<V(!new)>(
    st: Store<V>, s: State<V>, call: Call<V>, s': State<V>, reply: Reply<V>, m: map<Bytes, V>, k: Bytes)
    requires ValidStore(st) && Writes(call) && !call.Other? && call.mode.ToDb? && Step(st, s, call, s', reply)
    requires Agrees(st, s, m)
    ensures Holds(st, Lookup(s'.kv, s'.pending, st.prefix + k), PlainStep(m, call), k) <==>
            (Staged(s.pending, st.prefix + k) ==> SameAt(m, PlainStep(m, call), k))
  {
    var x := st.prefix + k;
    assert Holds(st, Lookup(s.kv, s.pending, x), m, k);
    if Staged(s.pending, x) {
      LookupUnderBatch(s.kv, s.pending, Issued(st, call), x);
    } else {
      OverlayAfter(st, s, call, s', reply, x);
      IssuedAt(st, call, m, k);
    }
  }

  /** A direct write under an open batch, exactly: it takes effect as on the plain map if and only if it changes nothing
      for the keys that have a staged operation. */
  lemma {:induction false} DirectWriteExactlyWhen<V(!new)>(
    st: Store<V>, s: State<V>, call: Call<V>, s': State<V>, reply: Reply<V>, m: map<Bytes, V>)
    requires ValidStore(st) && Writes(call) && !call.Other? && call.mode.ToDb? && Step(st, s, call, s', reply)
    requires Agrees(st, s, m)
    ensures Agrees(st, s', PlainStep(m, call)) <==>
            forall k :: Staged(s.pending, st.prefix + k) ==> SameAt(m, PlainStep(m, call), k)
  {
    forall k
      ensures Holds(st, Lookup(s'.kv, s'.pending, st.prefix + k), PlainStep(m, call), k) <==>
              (Staged(s.pending, st.prefix + k) ==> SameAt(m, PlainStep(m, call), k))
    {
      DirectWriteAt(st, s, call, s', reply, m, k);
    }
  }

  /** A run in which a direct write is lost to an older staged one: for every store, key and pair of values. */
  lemma {:induction false} DirectWriteCanBeLost<V(!new)>(st: Store<V>, k: Bytes, a: V, b: V)
    returns (ss: seq<State<V>>, es: seq<Event<V>>)
    requires ValidStore(st) && a != b
    ensures |es| == 4 && |ss| == 5 && ss[0] == State(map[], [], map[])
    ensures forall i :: 0 <= i < 4 ==> Step(st, ss[i], es[i].call, ss[i + 1], es[i].reply)
    ensures es[1].call == Write(ToDb, k, b) && es[3] == Event(Read(k), Found(a)) && ss[3].pending == []
    ensures PlainReply(PlainAfter(map[], es[..3]), Read(k)) == Found(b)
    ensures forall i :: 0 <= i < 4 && i != 1 ==> Disciplined(st, ss[i], es[i].call)
  {
    var x := st.prefix + k;
    var p, q := Put(x, st.codec.enc(a)), Put(x, st.codec.enc(b));
    var early, late := map[x := st.codec.enc(b)], map[x := st.codec.enc(a)];
    ss := [State(map[], [], map[]), State(map[], [p], map[k := a]), State(early, [p], map[]), State(late, [], map[]),
           State(late, [], map[k := a])];
    es := [Event(Write(ToBatch, k, a), Done), Event(Write(ToDb, k, b), Done), Event(Commit, Done),
           Event(Read(k), Found(a))];
    assert es[..3][..2] == es[..2] && es[..2][..1] == es[..1] && es[..1][..0] == [];
    assert PlainAfter(map[], es[..1]) == map[k := a];
    assert PlainAfter(map[], es[..2]) == map[k := b];
    assert Replay(map[], [q]) == early;
    assert Replay(early, [p]) == late;
  }

  /** Without the discipline the property fails, for every store, key and pair of values: a staged write
      whose cached entry was evicted, a read, and the commit leave the overwritten value answering. */
  lemma StaleReadSurvivesCommit<V(!new)>(st: Store<V>, k: Bytes, a: V, b: V)
    returns (ss: seq<State<V>>, es: seq<Event<V>>)
    requires ValidStore(st) && a != b
    ensures |es| == 5 && |ss| == 6
    ensures ss[0] == State(map[], [], map[])
    ensures forall i :: 0 <= i < 5 ==> Step(st, ss[i], es[i].call, ss[i + 1], es[i].reply)
    ensures es[4] == Event(Read(k), Found(a)) && ss[4].pending == []
    ensures PlainReply(PlainAfter(map[], es[..4]), Read(k)) == Found(b)
    ensures forall i :: 0 <= i < 5 && i != 2 ==> Disciplined(st, ss[i], es[i].call)
  {
    var x := st.prefix + k;
    var p := Put(x, st.codec.enc(b));
    var early, late := map[x := st.codec.enc(a)], map[x := st.codec.enc(b)];
    ss := [State(map[], [], map[]), State(early, [], map[k := a]), State(early, [p], map[]),
           State(early, [p], map[k := a]), State(late, [], map[k := a]), State(late, [], map[k := a])];
    es := [Event(Write(ToDb, k, a), Done), Event(Write(ToBatch, k, b), Done), Event(Read(k), Found(a)),
           Event(Commit, Done), Event(Read(k), Found(a))];
    SecondWriteStays(es, k, a, b);
    assert Replay(map[], [Put(x, st.codec.enc(a))]) == early;
    assert Replay(early, [p]) == late;
  }

  lemma SecondWriteStays<V(!new)>(es: seq<Event<V>>, k: Bytes, a: V, b: V)
    requires |es| > 4 && es[0].call == Write(ToDb, k, a) && es[1].call == Write(ToBatch, k, b)
    requires es[2].call == Read(k) && es[3].call == Commit
    ensures PlainAfter(map[], es[..4]) == map[k := b]
  {
    assert es[..4][..3] == es[..3] && es[..3][..2] == es[..2] && es[..2][..1] == es[..1];
    assert PlainAfter(map[], es[..1]) == map[k := a];
    assert PlainAfter(map[], es[..2]) == map[k := b];
    assert PlainAfter(map[], es[..3]) == map[k := b];
  }
}

/** The store object itself, method by method an instance of the transition system. */
module Access {
  import opened KeySpace
  import opened Writer
  import opened AccessModel
  import C = Cache

  class CachedDbAccess<V(!new)> {
    const db: Db
    const cache: C.Cache<Bytes, V>
    const prefix: Bytes
    const codec: Codec<V>

    ghost predicate Valid()
      reads cache
    {
      cache.Valid() && ValidStore(Spec())
    }

    ghost function Spec(): Store<V> {
      Store(prefix, codec)
    }

    /** The state this store is in while `open` is the batch being filled. */
    ghost function Abs(open: WriteBatch): State<V>
      reads db, cache, open
    {
      State(db.kv, open.ops, cache.entries)
    }

    static ghost function ModeOf(w: DbWriter): Mode {
      if w.Direct? then ToDb else ToBatch
    }

    constructor (db: Db, policy: C.Policy, size: V -> nat, prefix: Bytes, codec: Codec<V>)
      requires ValidStore(Store(prefix, codec))
      ensures Valid() && fresh(cache) && this.db == db && Spec() == Store(prefix, codec)
      ensures forall open: WriteBatch :: Coherent(Spec(), Abs(open))
    {
      this.db := db;
      cache := new C.Cache(policy, size);
      this.prefix := prefix;
      this.codec := codec;
    }

    method Has(key: Bytes, ghost open: WriteBatch) returns (reply: Reply<V>)
      requires Valid()
      ensures Step(Spec(), Abs(open), Call.Has(key), Abs(open), reply)
    {
      reply := Exists(key in cache.entries || prefix + key in db.kv);
    }

    method Read(key: Bytes, ghost open: WriteBatch) returns (reply: Reply<V>)
      requires Valid()
      modifies cache
      ensures Valid()
      ensures Step(Spec(), old(Abs(open)), Call.Read(key), Abs(open), reply)
      ensures Caches(cache.policy, cache.size, old(cache.entries), Call.Read(key), reply, cache.entries)
    {
      if key in cache.entries {
        return Found(cache.entries[key]);
      }
      var dbKey := new DbKey(prefix, key);
      match Writer.Get(db.kv, dbKey.path)
      case None => return NotFound;
      case Some(slice) =>
        match codec.dec(slice)
        case None => return Undecodable;
        case Some(data) =>
          cache.Insert(key, data);
          CachesOne(cache.policy, cache.size, old(cache.entries), Call.Read(key), Found(data), key, data, cache.entries);
          return Found(data);
    }

    method Write(w: DbWriter, key: Bytes, data: V, ghost open: WriteBatch)
      requires Valid() && w.Fits(db, open)
      modifies cache, db, open
      ensures Valid()
      ensures Step(Spec(), old(Abs(open)), Call.Write(ModeOf(w), key, data), Abs(open), Done)
      ensures Caches(cache.policy, cache.size, old(cache.entries), Call.Write(ModeOf(w), key, data), Done, cache.entries)
    {
      var bin := codec.enc(data);
      cache.Insert(key, data);
      CachesOne(cache.policy, cache.size, old(cache.entries), Call.Write(ModeOf(w), key, data), Done, key, data, cache.entries);
      w.Put(prefix + key, bin);
      OneOpIsStep(Spec(), old(Abs(open)), Call.Write(ModeOf(w), key, data), Op.Put(prefix + key, bin), Abs(open));
    }

    method WriteMany(w: DbWriter, items: seq<(Bytes, V)>, ghost open: WriteBatch)
      requires Valid() && w.Fits(db, open)
      modifies cache, db, open
      ensures Valid()
      ensures Step(Spec(), old(Abs(open)), Call.WriteMany(ModeOf(w), items), Abs(open), Done)
      ensures Caches(cache.policy, cache.size, old(cache.entries), Call.WriteMany(ModeOf(w), items), Done, cache.entries)
    {
      cache.InsertMany(items);
      PutAll(w, items, open);
    }

    method WriteManyWithoutCache(w: DbWriter, items: seq<(Bytes, V)>, ghost open: WriteBatch)
      requires Valid() && w.Fits(db, open)
      modifies cache, db, open
      ensures Valid()
      ensures Step(Spec(), old(Abs(open)), Call.WriteManyWithoutCache(ModeOf(w), items), Abs(open), Done)
      ensures cache.entries == map[]
    {
      PutAll(w, items, open);
      cache.RemoveAll();
    }

    /** The loop both bulk writes run over their items. */
    method PutAll(w: DbWriter, items: seq<(Bytes, V)>, ghost open: WriteBatch)
      requires w.Fits(db, open)
      modifies db, open
      ensures Sent(old(db.kv), old(open.ops), w.Direct?, Puts(Spec(), items), db.kv, open.ops)
    {
      ghost var kv, ops := db.kv, open.ops;
      for i := 0 to |items|
        invariant Sent(kv, ops, w.Direct?, Puts(Spec(), items[..i]), db.kv, open.ops)
      {
        ghost var kv1, ops1 := db.kv, open.ops;
        w.Put(prefix + items[i].0, codec.enc(items[i].1));
        PutMore(Spec(), items, i, kv, ops, w.Direct?, kv1, ops1, db.kv, open.ops);
      }
      assert items[..|items|] == items;
    }

    method Delete(w: DbWriter, key: Bytes, ghost open: WriteBatch)
      requires Valid() && w.Fits(db, open)
      modifies cache, db, open
      ensures Valid()
      ensures Step(Spec(), old(Abs(open)), Call.Delete(ModeOf(w), key), Abs(open), Done)
      ensures cache.entries == old(cache.entries) - {key}
    {
      cache.Remove(key);
      w.Delete(prefix + key);
      OneOpIsStep(Spec(), old(Abs(open)), Call.Delete(ModeOf(w), key), Op.Delete(prefix + key), Abs(open));
    }

    method DeleteMany(w: DbWriter, keys: seq<Bytes>, ghost open: WriteBatch)
      requires Valid() && w.Fits(db, open)
      modifies cache, db, open
      ensures Valid()
      ensures Step(Spec(), old(Abs(open)), Call.DeleteMany(ModeOf(w), keys), Abs(open), Done)
      ensures cache.entries == map k | k in old(cache.entries) && k !in keys :: old(cache.entries)[k]
    {
      cache.RemoveMany(keys);
      C.DropAllIsDifference(old(cache.entries), keys);
      DeleteEach(w, keys, open);
    }

    method DeleteEach(w: DbWriter, keys: seq<Bytes>, ghost open: WriteBatch)
      requires w.Fits(db, open)
      modifies db, open
      ensures Sent(old(db.kv), old(open.ops), w.Direct?, Deletes(prefix, keys), db.kv, open.ops)
    {
      ghost var kv, ops := db.kv, open.ops;
      for i := 0 to |keys|
        invariant Sent(kv, ops, w.Direct?, Deletes(prefix, keys[..i]), db.kv, open.ops)
      {
        ghost var kv1, ops1 := db.kv, open.ops;
        w.Delete(prefix + keys[i]);
        DeleteMore(prefix, keys, i, kv, ops, w.Direct?, kv1, ops1, db.kv, open.ops);
      }
      assert keys[..|keys|] == keys;
    }

    method DeleteAll(w: DbWriter, ghost open: WriteBatch)
      requires Valid() && w.Fits(db, open)
      modifies cache, db, open
      ensures Valid()
      ensures Step(Spec(), old(Abs(open)), Call.DeleteAll(ModeOf(w)), Abs(open), Done)
      ensures cache.entries == map[]
    {
      cache.RemoveAll();
      StorePrefixHasEnd(prefix, []);
      w.DeleteRange(prefix, RangeEnd(prefix).value);
      OneOpIsStep(Spec(), old(Abs(open)), Call.DeleteAll(ModeOf(w)), DeletePrefix(prefix), Abs(open));
    }

    /** The open batch is committed; the cache is left alone. */
    method Commit(batch: WriteBatch) returns (reply: Reply<V>)
      requires Valid()
      modifies db, batch
      ensures Valid() && reply == Done
      ensures Step(Spec(), old(Abs(batch)), Call.Commit, Abs(batch), reply)
    {
      db.Commit(batch);
      reply := Done;
    }
  }
}

/** `CachedDbItem` of `database/src/item.rs`: one value under one key, cached without eviction. */
module ItemModel {
  import opened KeySpace
  import opened Writer

  datatype Slot<!T> = Slot(key: Bytes, codec: Codec<T>)

  datatype State<T> = State(kv: Kv, pending: seq<Op>, cached: Option<T>)

  datatype Call<!T> =
    | Read
    | Write(direct: bool, item: T)
    | Remove(direct: bool)
    | Update(direct: bool, op: T -> T)
    | Other(direct: bool, foreign: Op)
    | Commit

  datatype Reply<T> = Done | Found(item: T) | NotFound | Undecodable

  /** What the item itself sees: the cached value, or else the database. */
  function Seen<T>(sl: Slot<T>, s: State<T>): Reply<T> {
    if s.cached.Some? then Found(s.cached.value)
    else
      match Get(s.kv, sl.key)
      case None => NotFound
      case Some(b) => match sl.codec.dec(b) { case None => Undecodable case Some(v) => Found(v) }
  }

  ghost predicate Issue<T>(s: State<T>, direct: bool, op: Op, s': State<T>) {
    if direct then s'.kv == Apply(s.kv, op) && s'.pending == s.pending
    else s'.kv == s.kv && s'.pending == s.pending + [op]
  }

  ghost predicate Step<T>(sl: Slot<T>, s: State<T>, call: Call<T>, s': State<T>, reply: Reply<T>) {
    match call
    case Read =>
      reply == Seen(sl, s) && s' == s.(cached := if reply.Found? then Some(reply.item) else s.cached)
    case Write(direct, item) =>
      reply == Done && Issue(s, direct, Put(sl.key, sl.codec.enc(item)), s') && s'.cached == Some(item)
    case Remove(direct) =>
      reply == Done && Issue(s, direct, Op.Delete(sl.key), s') && s'.cached == None
    case Update(direct, op) =>
      if Seen(sl, s).Found? then
        var item := op(Seen(sl, s).item);
        reply == Found(item) && Issue(s, direct, Put(sl.key, sl.codec.enc(item)), s') && s'.cached == Some(item)
      else
        reply == Seen(sl, s) && s' == s
    case Other(direct, foreign) =>
      reply == Done && Issue(s, direct, foreign, s') && s'.cached == s.cached
    case Commit =>
      reply == Done && s' == State(Replay(s.kv, s.pending), [], s.cached)
  }

  /** The reference: at most one value, changed by the same calls. */
  function Plain<T>(p: Option<T>, call: Call<T>): (Option<T>, Reply<T>) {
    match call
    case Read => (p, if p.Some? then Found(p.value) else NotFound)
    case Write(_, item) => (Some(item), Done)
    case Remove(_) => (None, Done)
    case Update(_, op) => if p.Some? then (Some(op(p.value)), Found(op(p.value))) else (None, NotFound)
    case Other(_, _) => (p, Done)
    case Commit => (p, Done)
  }

  /** The database overlaid with the batch holds `p`, the cache holds nothing else, and only a removal can
      leave a staged key uncached. */
  ghost predicate Inv<T>(sl: Slot<T>, s: State<T>, p: Option<T>) {
    var now := Lookup(s.kv, s.pending, sl.key);
    && (if p.Some? then now.Some? && sl.codec.dec(now.value) == Some(p.value) else now.None?)
    && (s.cached.Some? ==> s.cached == p)
    && (s.cached.None? && Staged(s.pending, sl.key) ==> p.None?)
    && (sl.key in s.kv ==> sl.codec.dec(s.kv[sl.key]).Some?)
  }

  /** A read is safe unless the value was removed in the open batch and the database still has it. */
  ghost predicate ReadSafe<T>(sl: Slot<T>, s: State<T>) {
    s.cached.Some? || !Staged(s.pending, sl.key) || sl.key !in s.kv
  }

  ghost predicate Disciplined<T>(sl: Slot<T>, s: State<T>, call: Call<T>) {
    match call
    case Read => ReadSafe(sl, s)
    case Update(direct, _) => ReadSafe(sl, s) && (direct ==> !Staged(s.pending, sl.key))
    case Write(direct, _) => direct ==> !Staged(s.pending, sl.key)
    case Remove(direct) => direct ==> !Staged(s.pending, sl.key)
    case Other(_, foreign) => !foreign.Touches(sl.key)
    case Commit => true
  }

  lemma IssueAt<T>(sl: Slot<T>, s: State<T>, direct: bool, op: Op, s': State<T>)
    requires Issue(s, direct, op, s')
    requires direct && op.Touches(sl.key) ==> !Staged(s.pending, sl.key)
    ensures Lookup(s'.kv, s'.pending, sl.key) == if op.Touches(sl.key) then op.Effect() else Lookup(s.kv, s.pending, sl.key)
    ensures Staged(s'.pending, sl.key) <==> Staged(s.pending, sl.key) || (!direct && op.Touches(sl.key))
  {
    if direct {
      ReplaySnoc(s.kv, [], op);
      assert [] + [op] == [op];
      LookupUnderBatch(s.kv, s.pending, [op], sl.key);
      if !Staged(s.pending, sl.key) {
        UnstagedIsStored(s.kv, s.pending, sl.key);
      }
    } else {
      assert (s.pending + [op])[..|s.pending|] == s.pending;
      StagedByLast(s.pending + [op], sl.key);
    }
  }

  /** Reading between a staged removal and the commit is the one thing that goes wrong: a read answers as
      the reference does if and only if it is safe, and only then does it leave the item in order. */
  lemma ReadExactlyWhenSafe<T>(sl: Slot<T>, s: State<T>, s': State<T>, reply: Reply<T>, p: Option<T>)
    requires Inv(sl, s, p) && Step(sl, s, Read, s', reply)
    ensures reply == Plain(p, Read).1 <==> ReadSafe(sl, s)
    ensures Inv(sl, s', p) <==> ReadSafe(sl, s)
  {
    if !Staged(s.pending, sl.key) {
      UnstagedIsStored(s.kv, s.pending, sl.key);
    }
  }

  ghost predicate HoldsItem<T>(sl: Slot<T>, s: State<T>, p: Option<T>) {
    var now := Lookup(s.kv, s.pending, sl.key);
    if p.Some? then now.Some? && sl.codec.dec(now.value) == Some(p.value) else now.None?
  }

  /** A direct write over a staged one, exactly: it takes effect if and only if it changes nothing. */
  lemma DirectExactlyWhen<T>(sl: Slot<T>, s: State<T>, call: Call<T>, s': State<T>, reply: Reply<T>, p: Option<T>)
    requires Inv(sl, s, p) && Step(sl, s, call, s', reply) && Staged(s.pending, sl.key)
    requires (call.Write? || call.Remove? || (call.Update? && ReadSafe(sl, s))) && call.direct
    ensures HoldsItem(sl, s', Plain(p, call).0) <==> Plain(p, call).0 == p
  {
    if !(call.Update? && p.None?) {
      var op := if call.Remove? then Op.Delete(sl.key)
                else Put(sl.key, sl.codec.enc(if call.Write? then call.item else call.op(p.value)));
      ReplaySnoc(s.kv, [], op);
      assert [] + [op] == [op];
      LookupUnderBatch(s.kv, s.pending, [op], sl.key);
    }
  }

  lemma StepAgrees<T(!new)>(sl: Slot<T>, s: State<T>, call: Call<T>, s': State<T>, reply: Reply<T>, p: Option<T>)
    requires RoundTrips(sl.codec) && Inv(sl, s, p) && Step(sl, s, call, s', reply) && Disciplined(sl, s, call)
    ensures Inv(sl, s', Plain(p, call).0) && reply == Plain(p, call).1
  {
    match call
    case Read => ReadExactlyWhenSafe(sl, s, s', reply, p);
    case Write(direct, item) => IssueAt(sl, s, direct, Put(sl.key, sl.codec.enc(item)), s');
    case Remove(direct) => IssueAt(sl, s, direct, Op.Delete(sl.key), s');
    case Update(direct, op) =>
      ReadExactlyWhenSafe(sl, s, s.(cached := if Seen(sl, s).Found? then Some(Seen(sl, s).item) else s.cached), Seen(sl, s), p);
      if Seen(sl, s).Found? {
        IssueAt(sl, s, direct, Put(sl.key, sl.codec.enc(op(Seen(sl, s).item))), s');
      }
    case Other(direct, foreign) => IssueAt(sl, s, direct, foreign, s');
    case Commit => LookupIsReplay(s.kv, s.pending, sl.key);
  }

  datatype Event<!T> = Event(call: Call<T>, reply: Reply<T>)

  ghost predicate Run<T>(sl: Slot<T>, ss: seq<State<T>>, es: seq<Event<T>>) {
    && |ss| == |es| + 1
    && forall i :: 0 <= i < |es| ==> Step(sl, ss[i], es[i].call, ss[i + 1], es[i].reply) && Disciplined(sl, ss[i], es[i].call)
  }

  function PlainAfter<T>(p: Option<T>, es: seq<Event<T>>): Option<T> {
    if es == [] then p else Plain(PlainAfter(p, es[..|es| - 1]), es[|es| - 1].call).0
  }

  /** A run in which a direct write is lost to an older staged one: the item shows the new value for good, and the
      database holds the old one. Only the direct write is outside the discipline. */
  lemma {:induction false} DirectWriteCanBeLost<T(!new)>(sl: Slot<T>, a: T, b: T) returns (ss: seq<State<T>>, es: seq<Event<T>>)
    requires RoundTrips(sl.codec) && a != b
    ensures |es| == 4 && |ss| == 5 && ss[0] == State(map[], [], None)
    ensures forall i :: 0 <= i < 4 ==> Step(sl, ss[i], es[i].call, ss[i + 1], es[i].reply)
    ensures forall i :: 0 <= i < 4 && i != 1 ==> Disciplined(sl, ss[i], es[i].call)
    ensures es[1].call == Write(true, b) && es[3] == Event(Read, Found(b)) && ss[4].pending == []
    ensures sl.key in ss[4].kv && sl.codec.dec(ss[4].kv[sl.key]) == Some(a)
  {
    var older, newer := Put(sl.key, sl.codec.enc(a)), Put(sl.key, sl.codec.enc(b));
    var none: Kv, early: Kv, late: Kv := map[], map[sl.key := sl.codec.enc(b)], map[sl.key := sl.codec.enc(a)];
    ss := [State(none, [], None), State(none, [older], Some(a)), State(early, [older], Some(b)), State(late, [], Some(b)),
           State(late, [], Some(b))];
    es := [Event(Write(false, a), Done), Event(Write(true, b), Done), Event(Commit, Done), Event(Read, Found(b))];
    assert Replay(early, [older]) == late;
  }

  /** A run in which a removed value comes back for good: written, removed in a batch, read, committed. Only the read is
      outside the discipline. */
  lemma {:induction false} RemovedValueComesBack<T(!new)>(sl: Slot<T>, a: T) returns (ss: seq<State<T>>, es: seq<Event<T>>)
    requires RoundTrips(sl.codec)
    ensures |es| == 5 && |ss| == 6 && ss[0] == State(map[], [], None)
    ensures forall i :: 0 <= i < 5 ==> Step(sl, ss[i], es[i].call, ss[i + 1], es[i].reply)
    ensures forall i :: 0 <= i < 5 && i != 2 ==> Disciplined(sl, ss[i], es[i].call)
    ensures es[1].call == Remove(false) && es[4] == Event(Read, Found(a)) && ss[4].pending == []
  {
    var kv: Kv, none: Kv := map[sl.key := sl.codec.enc(a)], map[];
    var removal := Op.Delete(sl.key);
    ss := [State(none, [], None), State(kv, [], Some(a)), State(kv, [removal], None), State(kv, [removal], Some(a)),
           State(none, [], Some(a)), State(none, [], Some(a))];
    es := [Event(Write(true, a), Done), Event(Remove(false), Done), Event(Read, Found(a)), Event(Commit, Done),
           Event(Read, Found(a))];
    assert Replay(kv, [removal]) == none;
  }

  /** Read-your-writes on every run, and the database itself holds the value whenever the batch is empty. */
  lemma {:induction false} RunAgrees<T(!new)>(sl: Slot<T>, ss: seq<State<T>>, es: seq<Event<T>>, p: Option<T>, i: nat)
    requires RoundTrips(sl.codec) && Run(sl, ss, es) && Inv(sl, ss[0], p) && i <= |es|
    ensures Inv(sl, ss[i], PlainAfter(p, es[..i]))
    ensures i < |es| ==> es[i].reply == Plain(PlainAfter(p, es[..i]), es[i].call).1
    ensures ss[i].pending == [] ==>
              match PlainAfter(p, es[..i])
              case None => sl.key !in ss[i].kv
              case Some(v) => sl.key in ss[i].kv && sl.codec.dec(ss[i].kv[sl.key]) == Some(v)
  {
    if i > 0 {
      RunAgrees(sl, ss, es, p, i - 1);
      StepAgrees(sl, ss[i - 1], es[i - 1].call, ss[i], es[i - 1].reply, PlainAfter(p, es[..i - 1]));
      assert es[..i][..i - 1] == es[..i - 1];
    }
    if i < |es| {
      StepAgrees(sl, ss[i], es[i].call, ss[i + 1], es[i].reply, PlainAfter(p, es[..i]));
    }
  }
}

module Item {
  import opened KeySpace
  import opened Writer
  import opened ItemModel

  class CachedDbItem<T(!new)> {
    const db: Db
    const key: Bytes
    const codec: Codec<T>
    var cached: Option<T>

    ghost function Spec(): Slot<T> {
      Slot(key, codec)
    }

    ghost function Abs(open: WriteBatch): State<T>
      reads this, db, open
    {
      State(db.kv, open.ops, cached)
    }

    constructor (db: Db, key: Bytes, codec: Codec<T>)
      ensures this.db == db && Spec() == Slot(key, codec) && cached == None
    {
      this.db := db;
      this.key := key;
      this.codec := codec;
      cached := None;
    }

    method Fetch(ghost open: WriteBatch) returns (reply: Reply<T>)
      requires cached.None?
      ensures reply == Seen(Spec(), Abs(open))
    {
      match Get(db.kv, key)
      case None => return NotFound;
      case Some(slice) =>
        match codec.dec(slice)
        case None => return Undecodable;
        case Some(item) => return Found(item);
    }

    method Read(ghost open: WriteBatch) returns (reply: Reply<T>)
      modifies this
      ensures Step(Spec(), old(Abs(open)), Call.Read, Abs(open), reply)
    {
      if cached.Some? {
        return Found(cached.value);
      }
      reply := Fetch(open);
      if reply.Found? {
        cached := Some(reply.item);
      }
    }

    method Write(w: DbWriter, item: T, ghost open: WriteBatch)
      requires w.Fits(db, open)
      modifies this, db, open
      ensures Step(Spec(), old(Abs(open)), Call.Write(w.Direct?, item), Abs(open), Done)
    {
      cached := Some(item);
      w.Put(key, codec.enc(item));
    }

    method Remove(w: DbWriter, ghost open: WriteBatch)
      requires w.Fits(db, open)
      modifies this, db, open
      ensures Step(Spec(), old(Abs(open)), Call.Remove(w.Direct?), Abs(open), Done)
    {
      cached := None;
      w.Delete(key);
    }

    /** Takes the cached value out before looking further, and puts the result of `op` back. */
    method Update(w: DbWriter, op: T -> T, ghost open: WriteBatch) returns (reply: Reply<T>)
      requires w.Fits(db, open)
      modifies this, db, open
      ensures Step(Spec(), old(Abs(open)), Call.Update(w.Direct?, op), Abs(open), reply)
    {
      var taken := cached;
      cached := None;
      if taken.Some? {
        reply := Found(taken.value);
      } else {
        reply := Fetch(open);
        if !reply.Found? {
          return;
        }
      }
      var item := op(reply.item);
      cached := Some(item);
      w.Put(key, codec.enc(item));
      reply := Found(item);
    }

    method Commit(batch: WriteBatch) returns (reply: Reply<T>)
      modifies db, batch
      ensures Step(Spec(), old(Abs(batch)), Call.Commit, Abs(batch), reply)
    {
      db.Commit(batch);
      reply := Done;
    }
  }
}

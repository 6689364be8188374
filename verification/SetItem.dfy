/** `CachedDbSetItem` of `database/src/item.rs`: one set, stored as the only bucket of a `DbSetAccess` with
    empty bucket keys, and cached for good once read. */
module SetItem {
  import opened KeySpace
  import opened Writer
  import opened SetAccess
  import opened SharedSets

  function MemberDeletes<T>(st: SetStore<T>, ts: seq<T>): seq<Op> {
    if ts == [] then [] else MemberDeletes(st, ts[..|ts| - 1]) + [Op.Delete(st.KeyOf([], ts[|ts| - 1]))]
  }

  function MemberPuts<T>(st: SetStore<T>, ts: seq<T>): seq<Op> {
    if ts == [] then [] else MemberPuts(st, ts[..|ts| - 1]) + [Op.Put(st.KeyOf([], ts[|ts| - 1]), [])]
  }

  /** Removals are issued before additions. */
  function UpdateOps<T>(st: SetStore<T>, added: seq<T>, removed: seq<T>): seq<Op> {
    MemberDeletes(st, removed) + MemberPuts(st, added)
  }

  function Elems<T>(ts: seq<T>): set<T> {
    if ts == [] then {} else Elems(ts[..|ts| - 1]) + {ts[|ts| - 1]}
  }

  lemma {:induction false} ElemsAre<T>(ts: seq<T>, t: T)
    ensures t in Elems(ts) <==> t in ts
  {
    if ts != [] {
      ElemsAre(ts[..|ts| - 1], t);
      assert ts == ts[..|ts| - 1] + [ts[|ts| - 1]];
    }
  }

  function Updated<T>(base: set<T>, added: seq<T>, removed: seq<T>): set<T> {
    (base - Elems(removed)) + Elems(added)
  }

  /** `ops` have all gone out, to the database or into the batch. */
  ghost predicate Issued<T>(v: View<T>, direct: bool, ops: seq<Op>, v': View<T>) {
    Sent(v.kv, v.pending, direct, ops, v'.kv, v'.pending)
  }

  /** One turn of the loop over the members to remove. */
  lemma RemoveOne<T>(st: SetStore<T>, v: View<T>, direct: bool, ts: seq<T>, i: nat, v1: View<T>, v2: View<T>, base: set<T>)
    requires i < |ts| && Issued(v, direct, MemberDeletes(st, ts[..i]), v1)
    requires Written(v1, direct, Op.Delete(st.KeyOf([], ts[i])), v2)
    ensures Issued(v, direct, MemberDeletes(st, ts[..i + 1]), v2)
    ensures base - Elems(ts[..i + 1]) == base - Elems(ts[..i]) - {ts[i]}
  {
    assert ts[..i + 1][..i] == ts[..i];
    SendMore(v.kv, v.pending, direct, MemberDeletes(st, ts[..i]), v1.kv, v1.pending, Op.Delete(st.KeyOf([], ts[i])), v2.kv, v2.pending);
  }

  /** One turn of the loop over the members to add. */
  lemma AddOne<T>(st: SetStore<T>, v: View<T>, direct: bool, ts: seq<T>, i: nat, v1: View<T>, v2: View<T>, base: set<T>)
    requires i < |ts| && Issued(v, direct, MemberPuts(st, ts[..i]), v1)
    requires Written(v1, direct, Op.Put(st.KeyOf([], ts[i]), []), v2)
    ensures Issued(v, direct, MemberPuts(st, ts[..i + 1]), v2)
    ensures base + Elems(ts[..i + 1]) == base + Elems(ts[..i]) + {ts[i]}
  {
    assert ts[..i + 1][..i] == ts[..i];
    SendMore(v.kv, v.pending, direct, MemberPuts(st, ts[..i]), v1.kv, v1.pending, Op.Put(st.KeyOf([], ts[i]), []), v2.kv, v2.pending);
  }

  datatype Call<T> = Read | Update(direct: bool, added: seq<T>, removed: seq<T>) | Other(direct: bool, op: Op) | Commit

  function Seen<T>(st: SetStore<T>, v: View<T>): Option<set<T>> {
    if [] in v.sets then Some(v.sets[[]]) else Scan(st, v.kv, [])
  }

  ghost predicate Step<T>(st: SetStore<T>, v: View<T>, call: Call<T>, v': View<T>, reply: Option<set<T>>) {
    match call
    case Read =>
      reply == Seen(st, v) && v' == v.(sets := if reply.Some? then map[[] := reply.value] else v.sets)
    case Update(direct, added, removed) =>
      if Seen(st, v).None? then reply == None && v' == v
      else
        var ops := UpdateOps(st, added, removed);
        && reply == Some(Updated(Seen(st, v).value, added, removed))
        && v'.sets == map[[] := reply.value]
        && Issued(v, direct, ops, v')
    case Other(direct, op) =>
      Written(v, direct, op, v') && v'.sets == v.sets
    case Commit =>
      v' == View(Replay(v.kv, v.pending), [], v.sets)
  }

  /** The cached set is the bucket of the database overlaid with the batch, and nothing is staged before
      the set has been cached. */
  ghost predicate Inv<T(!new)>(st: SetStore<T>, v: View<T>, p: set<T>) {
    && Coherent(st, v) && v.sets.Keys <= {[]}
    && ([] in v.sets || Unstaged(st, v.pending, []))
    && forall t :: t in p <==> InBucket(st, v.kv, v.pending, [], t)
  }

  /** A direct update leaves members with a staged change to the batch, and others keep out of the key space. */
  ghost predicate Disciplined<T(!new)>(st: SetStore<T>, v: View<T>, call: Call<T>) {
    && (call.Update? && call.direct ==> forall t :: t in call.added || t in call.removed ==> !Staged(v.pending, st.KeyOf([], t)))
    && (call.Other? ==> Foreign(st, call.op))
  }

  function Plain<T>(p: set<T>, call: Call<T>): set<T> {
    if call.Update? then Updated(p, call.added, call.removed) else p
  }

  lemma {:induction false} DeletesAt<T(!new)>(st: SetStore<T>, ts: seq<T>, t: T)
    requires RoundTrips(st.codec)
    ensures Staged(MemberDeletes(st, ts), st.KeyOf([], t)) <==> t in ts
    ensures Lookup(map[], MemberDeletes(st, ts), st.KeyOf([], t)).None?
  {
    if ts != [] {
      var n, ops := |ts| - 1, MemberDeletes(st, ts);
      DeletesAt(st, ts[..n], t);
      assert ops[..|ops| - 1] == MemberDeletes(st, ts[..n]) && ts == ts[..n] + [ts[n]];
      StagedByLast(ops, st.KeyOf([], t));
      KeysDiffer(st, [], ts[n], [], t);
    }
  }

  lemma {:induction false} PutsAt<T(!new)>(st: SetStore<T>, ts: seq<T>, t: T)
    requires RoundTrips(st.codec)
    ensures Staged(MemberPuts(st, ts), st.KeyOf([], t)) <==> t in ts
    ensures Lookup(map[], MemberPuts(st, ts), st.KeyOf([], t)).Some? <==> t in ts
  {
    if ts != [] {
      var n, ops := |ts| - 1, MemberPuts(st, ts);
      PutsAt(st, ts[..n], t);
      assert ops[..|ops| - 1] == MemberPuts(st, ts[..n]) && ts == ts[..n] + [ts[n]];
      StagedByLast(ops, st.KeyOf([], t));
      KeysDiffer(st, [], ts[n], [], t);
    }
  }

  /** What an update does to one member: an addition wins over a removal in the same call. */
  lemma UpdateAt<T(!new)>(st: SetStore<T>, kv: Kv, pending: seq<Op>, added: seq<T>, removed: seq<T>, t: T)
    requires RoundTrips(st.codec)
    ensures var ops, x := UpdateOps(st, added, removed), st.KeyOf([], t);
            Lookup(kv, pending + ops, x).Some? <==> t in added || (t !in removed && Lookup(kv, pending, x).Some?)
  {
    var dels, puts, x := MemberDeletes(st, removed), MemberPuts(st, added), st.KeyOf([], t);
    assert pending + (dels + puts) == (pending + dels) + puts;
    LookupAppend(kv, pending + dels, puts, x);
    LookupAppend(kv, pending, dels, x);
    DeletesAt(st, removed, t);
    PutsAt(st, added, t);
  }

  lemma {:induction false} UpdateOpsAreMembers<T(!new)>(st: SetStore<T>, added: seq<T>, removed: seq<T>)
    requires st.width == 0
    ensures OnlyMemberPuts(st, UpdateOps(st, added, removed))
    decreases |added| + |removed|
  {
    if added != [] {
      var n := |added| - 1;
      UpdateOpsAreMembers(st, added[..n], removed);
      var ops, last := UpdateOps(st, added[..n], removed), Op.Put(st.KeyOf([], added[n]), []);
      assert UpdateOps(st, added, removed) == ops + [last];
      assert IsMember(st, last.key);
    } else if removed != [] {
      var n := |removed| - 1;
      UpdateOpsAreMembers(st, added, removed[..n]);
      var ops, last := UpdateOps(st, added, removed[..n]), Op.Delete(st.KeyOf([], removed[n]));
      assert UpdateOps(st, added, removed) == ops + [last];
    }
  }

  /** An update and one member, disciplined or not: under a direct update a staged change still wins. */
  lemma UpdateMember<T(!new)>(st: SetStore<T>, v: View<T>, call: Call<T>, v': View<T>, reply: Option<set<T>>, p: set<T>, t: T)
    requires RoundTrips(st.codec) && call.Update? && Seen(st, v).Some? && Step(st, v, call, v', reply)
    requires t in p <==> InBucket(st, v.kv, v.pending, [], t)
    ensures InBucket(st, v'.kv, v'.pending, [], t) <==>
            if call.direct && Staged(v.pending, st.KeyOf([], t)) then t in p else t in Plain(p, call)
  {
    var x, ops := st.KeyOf([], t), UpdateOps(st, call.added, call.removed);
    ElemsAre(call.added, t);
    ElemsAre(call.removed, t);
    if call.direct {
      LookupUnderBatch(v.kv, v.pending, ops, x);
      if !Staged(v.pending, x) {
        UnstagedIsStored(v.kv, v.pending, x);
        UpdateAt(st, v.kv, [], call.added, call.removed, t);
        assert [] + ops == ops;
      }
    } else {
      UpdateAt(st, v.kv, v.pending, call.added, call.removed, t);
    }
  }

  lemma UpdateAgrees<T(!new)>(st: SetStore<T>, v: View<T>, call: Call<T>, v': View<T>, reply: Option<set<T>>, p: set<T>)
    requires st.Valid() && RoundTrips(st.codec) && st.width == 0 && call.Update?
    requires Inv(st, v, p) && Seen(st, v) == Some(p) && Step(st, v, call, v', reply) && Disciplined(st, v, call)
    ensures Inv(st, v', Plain(p, call)) && reply == Some(Plain(p, call))
  {
    forall t
      ensures t in reply.value <==> InBucket(st, v'.kv, v'.pending, [], t)
    {
      UpdateMember(st, v, call, v', reply, p, t);
      ElemsAre(call.added, t);
      ElemsAre(call.removed, t);
    }
    UpdateOpsAreMembers(st, call.added, call.removed);
    if call.direct {
      ReplayOnlyMembers(st, v.kv, UpdateOps(st, call.added, call.removed));
    }
  }

  /** A direct update under an open batch, exactly: it takes effect as on the plain set if and only if it changes nothing
      for the members that have a staged operation. */
  lemma {:induction false} DirectUpdateExactlyWhen<T(!new)>(
    st: SetStore<T>, v: View<T>, call: Call<T>, v': View<T>, reply: Option<set<T>>, p: set<T>)
    requires RoundTrips(st.codec) && call.Update? && call.direct && Seen(st, v).Some?
    requires Inv(st, v, p) && Step(st, v, call, v', reply)
    ensures (forall t :: t in Plain(p, call) <==> InBucket(st, v'.kv, v'.pending, [], t)) <==>
            (forall t :: Staged(v.pending, st.KeyOf([], t)) ==> (t in Plain(p, call) <==> t in p))
  {
    forall t
      ensures InBucket(st, v'.kv, v'.pending, [], t) <==>
              if Staged(v.pending, st.KeyOf([], t)) then t in p else t in Plain(p, call)
    {
      UpdateMember(st, v, call, v', reply, p, t);
    }
  }

  /** A run in which a direct removal is lost to an older staged addition: the item shows the empty set for good, and the
      database holds the member. Only the direct update is outside the discipline. */
  lemma {:induction false} DirectUpdateCanBeLost<T(!new)>(st: SetStore<T>, a: T) returns (vs: seq<View<T>>, calls: seq<Call<T>>)
    requires st.Valid() && RoundTrips(st.codec) && st.width == 0
    ensures |calls| == 3 && |vs| == 4 && vs[0] == View(map[], [], map[])
    ensures Step(st, vs[0], calls[0], vs[1], Some({a})) && Step(st, vs[1], calls[1], vs[2], Some({}))
    ensures Step(st, vs[2], calls[2], vs[3], None)
    ensures calls == [Update(false, [a], []), Update(true, [], [a]), Call.Commit]
    ensures vs[3].sets == map[[] := {}] && InBucket(st, vs[3].kv, [], [], a)
  {
    var x := st.KeyOf([], a);
    var none: Kv, late: Kv := map[], map[x := []];
    var put, del := Op.Put(x, []), Op.Delete(x);
    vs := [View(none, [], map[]), View(none, [put], map[[] := {a}]), View(none, [put], map[[] := {}]),
           View(late, [], map[[] := {}])];
    calls := [Update(false, [a], []), Update(true, [], [a]), Call.Commit];
    ScanOf(st, none, [], {});
    UpdateOpsOfOne(st, a);
    assert Elems([a]) == {a} && Elems<T>([]) == {};
    assert Updated({}, [a], []) == {a} && Updated({a}, [], [a]) == {};
    assert Replay(none, [del]) == none && Replay(none, [put]) == late;
  }

  lemma UpdateOpsOfOne<T>(st: SetStore<T>, a: T)
    ensures UpdateOps(st, [a], []) == [Op.Put(st.KeyOf([], a), [])] && UpdateOps(st, [], [a]) == [Op.Delete(st.KeyOf([], a))]
  {
    assert [a][..0] == [];
    assert MemberPuts(st, [a]) == [Op.Put(st.KeyOf([], a), [])] && MemberDeletes(st, [a]) == [Op.Delete(st.KeyOf([], a))];
    assert MemberPuts(st, []) == [] && MemberDeletes(st, []) == [];
  }

  lemma StepAgrees<T(!new)>(st: SetStore<T>, v: View<T>, call: Call<T>, v': View<T>, reply: Option<set<T>>, p: set<T>)
    requires st.Valid() && RoundTrips(st.codec) && st.width == 0
    requires Inv(st, v, p) && Step(st, v, call, v', reply) && Disciplined(st, v, call)
    ensures Inv(st, v', Plain(p, call))
    ensures call.Read? || call.Update? ==> reply == Some(Plain(p, call))
  {
    SeenIsPlain(st, v, p);
    match call
    case Read =>
    case Update(_, _, _) => UpdateAgrees(st, v, call, v', reply, p);
    case Other(direct, op) =>
      ForeignKeeps(st, v, direct, op, v');
      if [] !in v.sets {
        ForeignStages(st, v, direct, op, v');
      }
    case Commit => CommitKeeps(st, v, v');
  }

  lemma ForeignStages<T(!new)>(st: SetStore<T>, v: View<T>, direct: bool, op: Op, v': View<T>)
    requires Foreign(st, op) && Written(v, direct, op, v') && Unstaged(st, v.pending, [])
    ensures Unstaged(st, v'.pending, [])
  {
    forall t
      ensures !Staged(v'.pending, st.KeyOf([], t))
    {
      assert Under(st.prefix, st.KeyOf([], t));
      if !direct {
        StagedByLast(v'.pending, st.KeyOf([], t));
        assert v'.pending[..|v.pending|] == v.pending;
      }
    }
  }

  lemma SeenIsPlain<T(!new)>(st: SetStore<T>, v: View<T>, p: set<T>)
    requires RoundTrips(st.codec) && st.width == 0 && Inv(st, v, p)
    ensures Seen(st, v) == Some(p)
  {
    if [] in v.sets {
      assert v.sets[[]] == p;
    } else {
      ScanExact(st, v.kv, []);
      var s := Scan(st, v.kv, []).value;
      forall t ensures t in s <==> t in p {
        UnstagedIsStored(v.kv, v.pending, st.KeyOf([], t));
      }
      assert s == p;
    }
  }

  ghost predicate Run<T(!new)>(st: SetStore<T>, vs: seq<View<T>>, calls: seq<Call<T>>, replies: seq<Option<set<T>>>) {
    && |vs| == |calls| + 1 && |replies| == |calls|
    && forall i :: 0 <= i < |calls| ==> Step(st, vs[i], calls[i], vs[i + 1], replies[i]) && Disciplined(st, vs[i], calls[i])
  }

  function PlainAfter<T>(p: set<T>, calls: seq<Call<T>>): set<T> {
    if calls == [] then p else Plain(PlainAfter(p, calls[..|calls| - 1]), calls[|calls| - 1])
  }

  /** On every run with one open batch the set held, the set answered and the bucket of the database
      overlaid with the batch are one and the same: each update gives (old minus removed) plus added. */
  lemma {:induction false} RunAgrees<T(!new)>(
    st: SetStore<T>, vs: seq<View<T>>, calls: seq<Call<T>>, replies: seq<Option<set<T>>>, p: set<T>, i: nat)
    requires st.Valid() && RoundTrips(st.codec) && st.width == 0
    requires Run(st, vs, calls, replies) && Inv(st, vs[0], p) && i <= |calls|
    ensures Inv(st, vs[i], PlainAfter(p, calls[..i]))
    ensures i > 0 && (calls[i - 1].Read? || calls[i - 1].Update?) ==> replies[i - 1] == Some(PlainAfter(p, calls[..i]))
  {
    if i > 0 {
      var before, call := PlainAfter(p, calls[..i - 1]), calls[i - 1];
      RunAgrees(st, vs, calls, replies, p, i - 1);
      StepAgrees(st, vs[i - 1], call, vs[i], replies[i - 1], before);
      assert PlainAfter(p, calls[..i]) == Plain(before, call) by {
        assert calls[..i][..i - 1] == calls[..i - 1];
      }
    }
  }

  class CachedDbSetItem<T(==, !new)> {
    const inner: DbSetAccess<T>
    var cached: LockedSet?<Bytes, T>

    ghost function Abs(open: WriteBatch): View<T>
      reads this, cached, inner.db, open
    {
      View(inner.db.kv, open.ops, if cached == null then map[] else map[[] := cached.items])
    }

    constructor (db: Db, st: SetStore<T>)
      ensures inner.db == db && inner.st == st && cached == null
    {
      inner := new DbSetAccess(db, st);
      cached := null;
    }

    method Read(ghost open: WriteBatch) returns (r: LockedSet?<Bytes, T>)
      modifies this`cached
      ensures Step(inner.st, old(Abs(open)), Call.Read, Abs(open), if r == null then None else Some(r.items))
      ensures r == cached && (old(cached) == null || r == old(cached))
      ensures old(cached) == null && r != null ==> fresh(r)
    {
      if cached != null {
        return cached;
      }
      match Scan(inner.st, inner.db.kv, [])
      case None => return null;
      case Some(items) =>
        cached := new LockedSet(items, []);
        return cached;
    }

    /** Changes the shared set in place: readers holding it see removals and then additions. */
    method Update(w: DbWriter, added: seq<T>, removed: seq<T>, ghost open: WriteBatch) returns (r: LockedSet?<Bytes, T>)
      requires w.Fits(inner.db, open)
      modifies this`cached, cached, inner.db, open
      ensures Step(inner.st, old(Abs(open)), Call.Update(w.Direct?, added, removed), Abs(open), if r == null then None else Some(r.items))
      ensures old(cached) != null ==> r == old(cached)
    {
      r := Read(open);
      if r == null {
        return;
      }
      ghost var v := inner.Abs(open);
      RemoveEach(r, w, removed, open);
      ghost var v1 := inner.Abs(open);
      AddEach(r, w, added, open);
      SendBoth(v.kv, v.pending, w.Direct?, MemberDeletes(inner.st, removed), v1.kv, v1.pending,
               MemberPuts(inner.st, added), inner.db.kv, open.ops);
    }

    method RemoveEach(s: LockedSet<Bytes, T>, w: DbWriter, removed: seq<T>, ghost open: WriteBatch)
      requires w.Fits(inner.db, open)
      modifies s, inner.db, open
      ensures s.items == old(s.items) - Elems(removed)
      ensures Issued(old(inner.Abs(open)), w.Direct?, MemberDeletes(inner.st, removed), inner.Abs(open))
    {
      ghost var v, base := inner.Abs(open), s.items;
      for i := 0 to |removed|
        invariant s.items == base - Elems(removed[..i])
        invariant Issued(v, w.Direct?, MemberDeletes(inner.st, removed[..i]), inner.Abs(open))
      {
        ghost var v1 := inner.Abs(open);
        inner.Delete(w, [], removed[i], open);
        s.items := s.items - {removed[i]};
        RemoveOne(inner.st, v, w.Direct?, removed, i, v1, inner.Abs(open), base);
      }
      assert removed[..|removed|] == removed;
    }

    method AddEach(s: LockedSet<Bytes, T>, w: DbWriter, added: seq<T>, ghost open: WriteBatch)
      requires w.Fits(inner.db, open)
      modifies s, inner.db, open
      ensures s.items == old(s.items) + Elems(added)
      ensures Issued(old(inner.Abs(open)), w.Direct?, MemberPuts(inner.st, added), inner.Abs(open))
    {
      ghost var v, base := inner.Abs(open), s.items;
      for i := 0 to |added|
        invariant s.items == base + Elems(added[..i])
        invariant Issued(v, w.Direct?, MemberPuts(inner.st, added[..i]), inner.Abs(open))
      {
        ghost var v1 := inner.Abs(open);
        inner.Write(w, [], added[i], open);
        s.items := s.items + {added[i]};
        AddOne(inner.st, v, w.Direct?, added, i, v1, inner.Abs(open), base);
      }
      assert added[..|added|] == added;
    }

    method Commit(batch: WriteBatch)
      modifies inner.db, batch
      ensures Step(inner.st, old(Abs(batch)), Call.Commit, Abs(batch), None)
    {
      inner.db.Commit(batch);
    }
  }
}

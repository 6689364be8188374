/** `BlockSubmitGuard` of `bridge/src/kaspaapi.rs` and its use in `submit_block`: a block is sent to the node
    once, unless the node turned it down. `Remove` leaves names in the queue, so names may be stale or repeated. */
module BlockGuard {
  import opened KeySpace
  import opened GuardModel
  import JS = JobSearch

  datatype Mark = Mark

  /** What the node call came back with; a refused block is a call that succeeded. */
  datatype Rpc = Accepted | Refused(report: string) | CallFailed(text: string)

  /** What the caller of `submit_block` gets. */
  datatype Result = Ok | Err(text: string)

  const DUPLICATE: string := "ErrDuplicateBlock: block already submitted"

  /** A block may be tried again after anything but an acceptance or a report of a duplicate. */
  predicate Retryable(rpc: Rpc) {
    match rpc
    case Accepted => false
    case Refused(_) => true
    case CallFailed(text) => !Contains(text, "ErrDuplicateBlock") && !Contains(text, "duplicate")
  }

  /** What `handle_submit` makes of it. */
  function SeenAs(r: Result): JS.Submission {
    match r
    case Ok => JS.Success
    case Err(text) => if Contains(text, "ErrDuplicateBlock") then JS.DuplicateBlock else JS.Failed
  }

  /** All that is left of a failed call's own text: the wrapping puts this in front, and only the front is looked at. */
  const CALL_FAILED: string := "Failed to submit block"

  /** So a failed call is never taken for a duplicate: its block may be tried again, and its share counts as bad. */
  lemma FailedCallIsRetryable()
    ensures Retryable(CallFailed(CALL_FAILED)) && SeenAs(Err(CALL_FAILED)) == JS.Failed
  {
    NeitherFound(CALL_FAILED);
  }

  lemma NeitherFound(s: string)
    requires forall i :: 0 <= i < |s| ==> s[i] != 'E'
    requires forall i :: 0 <= i < |s| - 1 ==> s[i] != 'd' || s[i + 1] != 'u'
    ensures !Contains(s, "ErrDuplicateBlock") && !Contains(s, "duplicate")
  {
    forall i | 0 <= i <= |s| - |"ErrDuplicateBlock"|
      ensures s[i..][..|"ErrDuplicateBlock"|] != "ErrDuplicateBlock"
    {
      assert s[i..][..|"ErrDuplicateBlock"|][0] == s[i];
    }
    forall i | 0 <= i <= |s| - |"duplicate"|
      ensures s[i..][..|"duplicate"|] != "duplicate"
    {
      assert s[i..][..|"duplicate"|][0] == s[i] && s[i..][..|"duplicate"|][1] == s[i + 1];
    }
  }

  /** A block held back as already submitted makes its share stale. */
  lemma HeldBackIsDuplicate()
    ensures SeenAs(Err(DUPLICATE)) == JS.DuplicateBlock
  {
    assert DUPLICATE[0..][..|"ErrDuplicateBlock"|] == "ErrDuplicateBlock";
  }

  ghost predicate NotRemoved<K, O>(acts: seq<Act<K, O>>, i: nat, j: nat, k: K)
    requires j < |acts|
  {
    forall n :: i < n < j ==> !(acts[n].Remove? && acts[n].key == k)
  }

  /** Without a removal in between, a hash is sent again only after a step that dropped its mark, as expired or as one
      too many. */
  lemma {:induction false} ResentOnlyAfterLoss<K, O>(c: Config, gs: seq<Guard<K, O>>, acts: seq<Act<K, O>>, i: nat, j: nat, k: K)
    returns (m: nat)
    requires AdmitTwice(c, gs, acts, i, j, k)
    requires NotRemoved(acts, i, j, k)
    ensures i < m <= j && HeldFrom(c, gs, acts, i + 1, m, k) && Loses(c, gs[m], acts[m], k)
    ensures Expired(c, gs[m].entries[k], acts[m].now) || |gs[m].entries| > c.maxEntries
  {
    m := AdmissionsSeparated(c, gs, acts, i, j, k);
    NoRemovalUpTo(c, gs, acts, i, j, k, m);
  }

  lemma {:induction false} NoRemovalUpTo<K, O>(
    c: Config, gs: seq<Guard<K, O>>, acts: seq<Act<K, O>>, i: nat, j: nat, k: K, m: nat)
    requires AdmitTwice(c, gs, acts, i, j, k) && NotRemoved(acts, i, j, k) && i < m <= j
    ensures !(acts[m].Remove? && acts[m].key == k)
  {
  }

  // ---- submissions and answers, interleaved ----

  datatype Event<K> =
    | Send(hash: K, now: nat)
    | Answer(hash: K, rpc: Rpc, now: nat)

  /** What a locked section of `submit_block` does to the guard: sending marks a hash that is not held; an acceptance leaves
      the mark, a refusal takes it off, and so does a failed call whose text names no duplicate. */
  ghost predicate EventStep<K>(c: Config, g: Guard<K, Mark>, e: Event<K>, g': Guard<K, Mark>) {
    match e
    case Send(h, now) => g' == Next(c, g, TryAdmit(h, now, Mark.Mark))
    case Answer(h, Accepted, _) => g' == g
    case Answer(h, Refused(_), now) => g' == Next(c, g, Act.Remove(h, now))
    case Answer(h, CallFailed(text), now) =>
      if Contains(text, "ErrDuplicateBlock") || Contains(text, "duplicate") then g' == g
      else g' == Next(c, g, Act.Remove(h, now))
  }

  /** A failed call that speaks of a duplicate, wherever in its text, leaves the mark. */
  lemma DuplicateReportKeepsMark<K>(c: Config, g: Guard<K, Mark>, h: K, a: string, b: string, now: nat, g': Guard<K, Mark>)
    requires || EventStep(c, g, Answer(h, CallFailed(a + "duplicate" + b), now), g')
             || EventStep(c, g, Answer(h, CallFailed(a + "ErrDuplicateBlock" + b), now), g')
    ensures g' == g
  {
    ContainsMiddle(a, "duplicate", b);
    ContainsMiddle(a, "ErrDuplicateBlock", b);
  }

  ghost predicate EventAt<K>(c: Config, gs: seq<Guard<K, Mark>>, es: seq<Event<K>>, i: nat)
    requires |gs| == |es| + 1 && i < |es|
  {
    EventStep(c, gs[i], es[i], gs[i + 1])
  }

  ghost predicate EventRun<K>(c: Config, gs: seq<Guard<K, Mark>>, es: seq<Event<K>>) {
    && |gs| == |es| + 1 && Live(gs[0])
    && forall i :: 0 <= i < |es| ==> EventAt(c, gs, es, i)
  }

  /** The block is sent to the node. */
  ghost predicate Sends<K>(c: Config, g: Guard<K, Mark>, e: Event<K>, h: K) {
    e.Send? && e.hash == h && h !in Prune(c, g, e.now).entries
  }

  lemma EventSound<K>(c: Config, g: Guard<K, Mark>, e: Event<K>, g': Guard<K, Mark>, h: K)
    requires Live(g) && EventStep(c, g, e, g') && h in g.entries
    requires e.Answer? && e.hash == h ==> e.rpc.Accepted?
    ensures Live(g')
    ensures h in g'.entries && !Sends(c, g, e, h) ==> g'.entries[h] == g.entries[h]
    ensures h !in g'.entries || Sends(c, g, e, h) ==> e.now > g.entries[h].ts + c.ttl || |g.entries| > c.maxEntries
  {
    if g' != g || e.Send? {
      var a := if e.Send? then TryAdmit(e.hash, e.now, Mark.Mark) else Act.Remove(e.hash, e.now);
      StepSound(c, g, a, h);
      if h in g'.entries {
        StepEntries(c, g, a, h);
      }
    }
  }

  lemma {:induction false} EventsLive<K>(c: Config, gs: seq<Guard<K, Mark>>, es: seq<Event<K>>, i: nat)
    requires EventRun(c, gs, es) && i <= |es|
    ensures Live(gs[i])
  {
    if i > 0 {
      EventsLive(c, gs, es, i - 1);
      EventLive(c, gs, es, i - 1);
    }
  }

  lemma {:induction false} EventLive<K>(c: Config, gs: seq<Guard<K, Mark>>, es: seq<Event<K>>, i: nat)
    requires EventRun(c, gs, es) && i < |es| && Live(gs[i])
    ensures Live(gs[i + 1])
  {
    assert EventAt(c, gs, es, i);
    var e := es[i];
    StepSound(c, gs[i], if e.Send? then TryAdmit(e.hash, e.now, Mark.Mark) else Act.Remove(e.hash, e.now), e.hash);
  }

  ghost predicate OnlyAccepted<K>(es: seq<Event<K>>, i: nat, j: nat, h: K)
    requires j < |es|
  {
    forall n :: i < n < j && es[n].Answer? && es[n].hash == h ==> es[n].rpc.Accepted?
  }

  /** The mark made at `i` is there at `m`, as it was made. */
  ghost predicate MarkedSince<K>(gs: seq<Guard<K, Mark>>, es: seq<Event<K>>, i: nat, m: nat, h: K)
    requires i < |es| && m < |gs|
  {
    h in gs[m].entries && gs[m].entries[h].ts == es[i].now
  }

  lemma {:induction false} SentIsMarked<K>(c: Config, gs: seq<Guard<K, Mark>>, es: seq<Event<K>>, i: nat, h: K)
    requires EventRun(c, gs, es) && i < |es| && Sends(c, gs[i], es[i], h)
    ensures MarkedSince(gs, es, i, i + 1, h)
  {
    assert EventAt(c, gs, es, i);
  }

  /** On every interleaving of submissions and answers: a block that was sent, and for which nothing but acceptances came in,
      is sent again only after a step at which its mark was older than the time to live or there were too many. */
  lemma {:induction false} AcceptedOnce<K>(c: Config, gs: seq<Guard<K, Mark>>, es: seq<Event<K>>, i: nat, j: nat, h: K)
    returns (m: nat)
    requires EventRun(c, gs, es) && i < j < |es| && OnlyAccepted(es, i, j, h)
    requires Sends(c, gs[i], es[i], h) && Sends(c, gs[j], es[j], h)
    ensures i < m <= j && MarkedSince(gs, es, i, m, h)
    ensures es[m].now > es[i].now + c.ttl || |gs[m].entries| > c.maxEntries
  {
    SentIsMarked(c, gs, es, i, h);
    m := i + 1;
    while m < j && h in gs[m + 1].entries && !Sends(c, gs[m], es[m], h)
      invariant i < m <= j && MarkedSince(gs, es, i, m, h)
      decreases j - m
    {
      StillMarked(c, gs, es, m, h);
      m := m + 1;
    }
    StillMarked(c, gs, es, m, h);
  }

  lemma {:induction false} StillMarked<K>(c: Config, gs: seq<Guard<K, Mark>>, es: seq<Event<K>>, m: nat, h: K)
    requires EventRun(c, gs, es) && m < |es| && h in gs[m].entries
    requires es[m].Answer? && es[m].hash == h ==> es[m].rpc.Accepted?
    ensures h in gs[m + 1].entries && !Sends(c, gs[m], es[m], h) ==> gs[m + 1].entries[h] == gs[m].entries[h]
    ensures h !in gs[m + 1].entries || Sends(c, gs[m], es[m], h) ==>
              es[m].now > gs[m].entries[h].ts + c.ttl || |gs[m].entries| > c.maxEntries
  {
    EventsLive(c, gs, es, m);
    assert EventAt(c, gs, es, m);
    EventSound(c, gs[m], es[m], gs[m + 1], h);
  }

  /** Ten minutes and 50 000 blocks, as the bridge sets it up. */
  const NODE_CONFIG := Config(600_000_000_000, 50_000, false)

  /** So an accepted block is sent again only more than 600 seconds after it was sent, or past 50 000 marks. */
  lemma {:induction false} AcceptedOncePerWindow<K>(gs: seq<Guard<K, Mark>>, es: seq<Event<K>>, i: nat, j: nat, h: K) returns (m: nat)
    requires EventRun(NODE_CONFIG, gs, es) && i < j < |es| && OnlyAccepted(es, i, j, h)
    requires Sends(NODE_CONFIG, gs[i], es[i], h) && Sends(NODE_CONFIG, gs[j], es[j], h)
    ensures i < m <= j && MarkedSince(gs, es, i, m, h)
    ensures es[m].now > es[i].now + 600_000_000_000 || |gs[m].entries| > 50_000
  {
    m := AcceptedOnce(NODE_CONFIG, gs, es, i, j, h);
  }

  /** And a block whose mark is at the front is sent again from the first moment past 600 seconds on. */
  lemma SentAfterWindow<K>(g: Guard<K, Mark>, now: nat)
    requires Live(g) && g.order != [] && g.order[0] in g.entries && |g.entries| <= 50_000
    ensures Sends(NODE_CONFIG, g, Send(g.order[0], now), g.order[0]) <==> now > g.entries[g.order[0]].ts + 600_000_000_000
  {
    FrontExpiresIff(NODE_CONFIG, g, now, Mark.Mark);
  }

  class BlockSubmitGuard<K(==)> {
    const ttl: nat
    const maxEntries: nat
    var entries: map<K, Entry<Mark>>
    var order: seq<K>

    ghost function Spec(): Config {
      Config(ttl, maxEntries, false)
    }

    ghost function Abs(): Guard<K, Mark>
      reads this
    {
      Guard(entries, order)
    }

    constructor (ttl: nat, maxEntries: nat)
      ensures Spec() == Config(ttl, maxEntries, false) && Live(Abs()) && entries == map[]
    {
      this.ttl := ttl;
      this.maxEntries := maxEntries;
      entries := map[];
      order := [];
    }

    method Prune(now: nat)
      modifies this
      ensures Abs() == GuardModel.Prune(Spec(), old(Abs()), now)
    {
      while order != []
        invariant PopExpired(Spec(), Abs(), now) == PopExpired(Spec(), old(Abs()), now)
        decreases |order|
      {
        var front := order[0];
        if front in entries && !(Since(now, entries[front].ts) > ttl) {
          break;
        }
        order := order[1..];
        entries := entries - {front};
      }
      while |entries| > maxEntries
        invariant PopExcess(Spec(), Abs()) == GuardModel.Prune(Spec(), old(Abs()), now)
        decreases |order|
      {
        if order == [] {
          break;
        }
        var key := order[0];
        order := order[1..];
        entries := entries - {key};
      }
    }

    method TryMark(hash: K, now: nat) returns (marked: bool)
      requires Live(Abs())
      modifies this
      ensures Live(Abs()) && Abs() == Next(Spec(), old(Abs()), Act.TryAdmit(hash, now, Mark.Mark))
      ensures marked <==> Admits(Spec(), old(Abs()), Act.TryAdmit(hash, now, Mark.Mark))
      ensures hash in entries
    {
      StepSound(Spec(), Abs(), Act.TryAdmit(hash, now, Mark.Mark), hash);
      Prune(now);
      if hash in entries {
        return false;
      }
      entries := entries[hash := Entry(now, Mark.Mark)];
      order := order + [hash];
      return true;
    }

    method Remove(hash: K, now: nat)
      requires Live(Abs())
      modifies this
      ensures Live(Abs()) && Abs() == Next(Spec(), old(Abs()), Act.Remove(hash, now))
      ensures hash !in entries
    {
      StepSound(Spec(), Abs(), Act.Remove(hash, now), hash);
      Prune(now);
      entries := entries - {hash};
    }

    /** What is done with the node's answer, some time after the mark was set. */
    method TakeAnswer(hash: K, rpc: Rpc, now: nat) returns (r: Result)
      requires Live(Abs())
      modifies this
      ensures Live(Abs())
      ensures EventStep(Spec(), old(Abs()), Answer(hash, rpc, now), Abs())
      ensures rpc.Accepted? ==> Abs() == old(Abs())
      ensures rpc.Refused? ==> hash !in entries
      ensures rpc.CallFailed? && Retryable(rpc) ==> hash !in entries
      ensures r.Ok? <==> rpc.Accepted?
      ensures rpc.CallFailed? ==> r == Err(rpc.text)
      ensures rpc.Refused? ==> r == Err("Block rejected by node: " + rpc.report)
    {
      if rpc.CallFailed? {
        var isDuplicate := Contains(rpc.text, "ErrDuplicateBlock") || Contains(rpc.text, "duplicate");
        if !isDuplicate {
          Remove(hash, now);
        }
      }
      match rpc
      case Accepted =>
        r := Ok;
      case Refused(report) =>
        Remove(hash, now);
        r := Err("Block rejected by node: " + report);
      case CallFailed(text) =>
        r := Err(text);
    }

    /** One submission with no other in between: the hash is turned away, or marked, sent, and unmarked again if it
        may be tried again. */
    method SubmitBlock(hash: K, now: nat, rpc: Rpc, answered: nat) returns (sent: bool, r: Result)
      requires Live(Abs())
      modifies this
      ensures Live(Abs())
      ensures sent <==> Sends(Spec(), old(Abs()), Send(hash, now), hash)
      ensures var marked := Next(Spec(), old(Abs()), Act.TryAdmit(hash, now, Mark.Mark));
              if sent then EventStep(Spec(), marked, Answer(hash, rpc, answered), Abs()) else Abs() == marked
      ensures hash in entries <==> !sent || rpc.Accepted? || (rpc.CallFailed? && !Retryable(rpc))
      ensures r.Ok? <==> sent && rpc.Accepted?
      ensures !sent ==> SeenAs(r) == JS.DuplicateBlock
    {
      sent := TryMark(hash, now);
      if sent {
        r := TakeAnswer(hash, rpc, answered);
      } else {
        HeldBackIsDuplicate();
        r := Err(DUPLICATE);
      }
    }
  }
}

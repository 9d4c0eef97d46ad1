/**
  Rendezvous endpoints. Beside the state the source keeps, a ledger numbers every accepted call in arrival
  order and records where it is: queued, outstanding, or in one of the four ways a call can end.
*/
module Endpoints {

  import opened Abi
  import opened Common
  import opened ReplyTokens

  const MAX_CALLERS: nat := 32

  type Message = seq<nat>

  datatype CallerEntry = CallerEntry(caller: ObjectId, message: Message)

  datatype EndpointState =
    | Idle
    | CallersPending(callers: seq<CallerEntry>)
    | ReceiverWaiting(receiver: ObjectId)
    | ReplyOutstanding(caller: ObjectId, token: nat, message: Option<Message>, pending: seq<CallerEntry>)

  datatype EndpointError = Busy | Closed | InvalidReplyToken

  datatype IpcEffect = Block | Wake(thread: ObjectId)

  datatype ReceivedCall = ReceivedCall(caller: ObjectId, message: Message, replyToken: nat)

  // ---------- the ledger ----------

  datatype Fate = Queued | Outstanding | Replied | Cancelled | Dead | WokenByClose

  /**
    `queue`, `delivered` and `taken` list calls by their arrival numbers. A call that wakes a receiver is
    `handed` over until the receiver collects it; `taken` lists the calls collected.
  */
  datatype Ledger = Ledger(
    calls: seq<CallerEntry>,
    fate: seq<Fate>,
    queue: seq<nat>,
    active: Option<nat>,
    delivered: seq<nat>,
    handed: bool,
    taken: seq<nat>)

  ghost predicate Ascending(s: seq<nat>) {
    forall i, j :: 0 <= i < j < |s| ==> s[i] < s[j]
  }

  predicate Within(s: seq<nat>, n: nat) {
    forall i :: 0 <= i < |s| ==> s[i] < n
  }

  lemma AscendingPlus(s: seq<nat>, x: nat)
    requires Ascending(s) && forall i :: 0 <= i < |s| ==> s[i] < x
    ensures Ascending(s + [x])
  {
  }

  ghost predicate Before(a: seq<nat>, b: seq<nat>) {
    forall x, y :: x in a && y in b ==> x < y
  }

  /** Calls are collected in arrival order, each at most once, and only the outstanding one waits to be. */
  ghost predicate HandoverOk(l: Ledger) {
    && Ascending(l.taken) && (forall i :: 0 <= i < |l.taken| ==> l.taken[i] in l.delivered)
    && (l.handed ==> l.active.Some? && l.active.value !in l.taken)
  }

  /** Every call is in exactly one place, and calls are delivered in arrival order. */
  ghost predicate LedgerOk(l: Ledger) {
    && |l.fate| == |l.calls|
    && Within(l.queue, |l.calls|) && Within(l.delivered, |l.calls|)
    && Ascending(l.queue) && Ascending(l.delivered) && Before(l.delivered, l.queue)
    && (forall x :: 0 <= x < |l.calls| ==> (l.fate[x].Queued? <==> x in l.queue))
    && (forall x :: 0 <= x < |l.calls| ==> (l.fate[x].Outstanding? <==> l.active == Some(x)))
    && (forall x :: 0 <= x < |l.calls| && (l.fate[x].Outstanding? || l.fate[x].Replied?) ==> x in l.delivered)
    && (l.active.Some? ==> l.active.value < |l.calls| && |l.delivered| > 0 && l.delivered[|l.delivered| - 1] == l.active.value)
    && HandoverOk(l)
  }

  predicate Final(f: Fate) {
    !f.Queued? && !f.Outstanding?
  }

  /** The moves a call may make over any number of steps: out of the queue, from delivery to an end, then nowhere. */
  predicate Moves(f: Fate, g: Fate) {
    f == g || f.Queued? || (f.Outstanding? && Final(g) && !g.Cancelled?)
  }

  /** A call handed over stays so until it is collected or ends. */
  ghost predicate Hands(l: Ledger, m: Ledger) {
    && l.taken <= m.taken
    && (l.handed && l.active.Some? ==>
          || (m.handed && m.active == l.active) || l.active.value in m.taken
          || (l.active.value < |m.fate| && Final(m.fate[l.active.value])))
  }

  ghost predicate Evolves(l: Ledger, m: Ledger) {
    && l.calls <= m.calls && |l.fate| == |l.calls| && |m.fate| == |m.calls| && l.delivered <= m.delivered
    && (forall x :: 0 <= x < |l.calls| ==> Moves(l.fate[x], m.fate[x])) && Hands(l, m)
  }

  lemma EvolvesKeepsEnds(l: Ledger, m: Ledger, n: Ledger)
    requires Evolves(l, m) && Evolves(m, n)
    ensures forall x :: 0 <= x < |l.calls| && Final(l.fate[x]) ==> n.fate[x] == l.fate[x]
    ensures l.calls <= n.calls && l.delivered <= n.delivered
  {
    forall x | 0 <= x < |l.calls| && Final(l.fate[x]) ensures n.fate[x] == l.fate[x] {
      assert Moves(l.fate[x], m.fate[x]) && Moves(m.fate[x], n.fate[x]);
    }
  }

  function Accept(l: Ledger, e: CallerEntry): Ledger {
    l.(calls := l.calls + [e], fate := l.fate + [Queued], queue := l.queue + [|l.calls|])
  }

  lemma AcceptOk(l: Ledger, e: CallerEntry)
    requires LedgerOk(l)
    ensures LedgerOk(Accept(l, e)) && Evolves(l, Accept(l, e))
  {
    AscendingPlus(l.queue, |l.calls|);
  }

  function Deliver(l: Ledger): Ledger
    requires l.queue != [] && l.queue[0] < |l.fate|
  {
    l.(fate := l.fate[l.queue[0] := Outstanding], queue := l.queue[1..], active := Some(l.queue[0]),
       delivered := l.delivered + [l.queue[0]])
  }

  lemma DeliverOk(l: Ledger)
    requires LedgerOk(l) && l.queue != [] && l.active.None?
    ensures l.queue[0] < |l.fate| && LedgerOk(Deliver(l)) && Evolves(l, Deliver(l))
  {
    var x := l.queue[0];
    assert x in l.queue;
    forall i | 0 <= i < |l.delivered| ensures l.delivered[i] < x {
      assert l.delivered[i] in l.delivered;
    }
    AscendingPlus(l.delivered, x);
    var m := Deliver(l);
    assert forall i :: 0 < i < |l.queue| ==> x < l.queue[i];
    assert x !in m.queue;
    assert forall y :: y in m.queue ==> x < y;
    assert forall y :: y in l.queue <==> y == x || y in m.queue;
  }

  /** The delivered call waits for the receiver it woke. */
  function Hand(l: Ledger): Ledger {
    l.(handed := true)
  }

  lemma HandOk(l: Ledger)
    requires LedgerOk(l) && l.queue != [] && l.active.None?
    ensures l.queue[0] < |l.fate| && LedgerOk(Hand(Deliver(l))) && Evolves(l, Hand(Deliver(l)))
  {
    DeliverOk(l);
    assert l.queue[0] in l.queue;
  }

  /** The receiver collects the call. */
  function Collected(l: Ledger): Ledger
    requires l.active.Some?
  {
    l.(handed := false, taken := l.taken + [l.active.value])
  }

  lemma CollectedOk(l: Ledger)
    requires LedgerOk(l) && l.handed
    ensures LedgerOk(Collected(l)) && Evolves(l, Collected(l))
  {
    var a := l.active.value;
    forall i | 0 <= i < |l.taken| ensures l.taken[i] < a {
      assert l.taken[i] in l.delivered && l.taken[i] in l.taken;
    }
    AscendingPlus(l.taken, a);
  }

  /** The outstanding call ends. */
  function Finish(l: Ledger, f: Fate): Ledger
    requires l.active.Some? && l.active.value < |l.fate|
  {
    l.(fate := l.fate[l.active.value := f], active := None, handed := false)
  }

  lemma FinishOk(l: Ledger, f: Fate)
    requires LedgerOk(l) && l.active.Some? && Final(f) && !f.Cancelled?
    ensures l.active.value < |l.fate| && LedgerOk(Finish(l, f)) && Evolves(l, Finish(l, f))
  {
    assert l.fate[l.active.value].Outstanding?;
  }

  // ---------- dropping a thread's queued calls ----------

  /** The queue without the calls of one thread. */
  function Retain(callers: seq<CallerEntry>, who: ObjectId): seq<CallerEntry> {
    if callers == [] then []
    else (if callers[0].caller != who then [callers[0]] else []) + Retain(callers[1..], who)
  }

  function RetainIds(queue: seq<nat>, calls: seq<CallerEntry>, who: ObjectId): seq<nat>
    requires Within(queue, |calls|)
  {
    if queue == [] then []
    else (if calls[queue[0]].caller != who then [queue[0]] else []) + RetainIds(queue[1..], calls, who)
  }

  /** The entries stored for a list of arrival numbers. */
  ghost predicate EntriesOf(callers: seq<CallerEntry>, queue: seq<nat>, calls: seq<CallerEntry>) {
    |callers| == |queue| && forall i :: 0 <= i < |queue| ==> queue[i] < |calls| && callers[i] == calls[queue[i]]
  }

  lemma {:induction false} RetainMembers(queue: seq<nat>, calls: seq<CallerEntry>, who: ObjectId)
    requires Within(queue, |calls|)
    ensures forall x :: x in RetainIds(queue, calls, who) <==> x in queue && calls[x].caller != who
  {
    if queue != [] {
      RetainMembers(queue[1..], calls, who);
      assert forall x :: x in queue <==> x == queue[0] || x in queue[1..];
    }
  }

  lemma {:induction false} RetainAscending(queue: seq<nat>, calls: seq<CallerEntry>, who: ObjectId)
    requires Within(queue, |calls|) && Ascending(queue)
    ensures Ascending(RetainIds(queue, calls, who))
  {
    if queue != [] {
      var rest := RetainIds(queue[1..], calls, who);
      RetainAscending(queue[1..], calls, who);
      RetainMembers(queue[1..], calls, who);
      forall i | 0 <= i < |rest| ensures queue[0] < rest[i] {
        assert rest[i] in queue[1..];
      }
    }
  }

  lemma {:induction false} RetainEntries(callers: seq<CallerEntry>, queue: seq<nat>, calls: seq<CallerEntry>, who: ObjectId)
    requires EntriesOf(callers, queue, calls) && Within(queue, |calls|)
    ensures EntriesOf(Retain(callers, who), RetainIds(queue, calls, who), calls)
  {
    if queue != [] {
      RetainEntries(callers[1..], queue[1..], calls, who);
    }
  }

  /** The queued calls of one thread end together. */
  function Drop(l: Ledger, who: ObjectId, f: Fate): Ledger
    requires |l.fate| == |l.calls| && Within(l.queue, |l.calls|)
  {
    l.(queue := RetainIds(l.queue, l.calls, who),
       fate := seq(|l.fate|, x requires 0 <= x < |l.fate| =>
                     if x in l.queue && l.calls[x].caller == who then f else l.fate[x]))
  }

  /** Exactly the queued calls of one thread left the queue, for the given end. */
  ghost predicate Dropped(l: Ledger, m: Ledger, who: ObjectId, f: Fate) {
    && |l.fate| == |l.calls| == |m.fate| && Within(l.queue, |l.calls|)
    && (forall x :: x in m.queue <==> x in l.queue && l.calls[x].caller != who)
    && (forall x :: 0 <= x < |m.fate| ==> m.fate[x] == if x in l.queue && l.calls[x].caller == who then f else l.fate[x])
  }

  ghost predicate HasQueued(l: Ledger, who: ObjectId) {
    exists x :: x in l.queue && x < |l.calls| && l.calls[x].caller == who
  }

  /** Call x is one of the thread's and has not ended. */
  ghost predicate InFlight(l: Ledger, who: ObjectId, x: nat) {
    x < |l.calls| && x < |l.fate| && l.calls[x].caller == who && !Final(l.fate[x])
  }

  ghost predicate OneInFlight(l: Ledger, who: ObjectId) {
    forall x, y :: InFlight(l, who, x) && InFlight(l, who, y) ==> x == y
  }

  /** Dropping the queued calls of a thread whose call is not outstanding leaves none of its calls in flight. */
  lemma NoneLeft(state: EndpointState, l: Ledger, m: Ledger, dead: ObjectId)
    requires LedgerOk(l) && Matches(state, l) && !(state.ReplyOutstanding? && state.caller == dead)
    requires m.calls == l.calls && Dropped(l, m, dead, Dead)
    ensures forall x :: !InFlight(m, dead, x)
  {
    hide EntriesOf, TokenOf;
  }

  /** Ending the outstanding call of a thread leaves a call of it in flight exactly if another one is queued. */
  lemma LeftBehind(l: Ledger, dead: ObjectId)
    requires LedgerOk(l) && l.active.Some? && l.active.value < |l.calls| == |l.fate| && l.calls[l.active.value].caller == dead
    ensures (exists x :: InFlight(Finish(l, Dead), dead, x)) <==> HasQueued(l, dead)
    ensures OneInFlight(l, dead) ==> !HasQueued(l, dead)
  {
    var a, m := l.active.value, Finish(l, Dead);
    assert InFlight(l, dead, a);
    if HasQueued(l, dead) {
      var x :| x in l.queue && x < |l.calls| && l.calls[x].caller == dead;
      assert InFlight(l, dead, x) && InFlight(m, dead, x);
    }
    if exists x: nat :: InFlight(m, dead, x) {
      var x: nat :| InFlight(m, dead, x);
      assert x in l.queue;
    }
  }

  lemma NothingDropped(state: EndpointState, l: Ledger, who: ObjectId, f: Fate)
    requires LedgerOk(l) && Matches(state, l) && state.ReceiverWaiting?
    ensures Dropped(l, l, who, f)
  {
  }

  lemma DropOk(l: Ledger, callers: seq<CallerEntry>, who: ObjectId, f: Fate)
    requires LedgerOk(l) && EntriesOf(callers, l.queue, l.calls) && Final(f) && !f.Replied?
    ensures LedgerOk(Drop(l, who, f)) && Evolves(l, Drop(l, who, f))
    ensures Dropped(l, Drop(l, who, f), who, f)
    ensures var m := Drop(l, who, f); m.calls == l.calls && m.active == l.active && m.delivered == l.delivered
    ensures EntriesOf(Retain(callers, who), Drop(l, who, f).queue, l.calls)
  {
    hide RetainIds, Retain, EntriesOf;
    RetainMembers(l.queue, l.calls, who);
    RetainAscending(l.queue, l.calls, who);
    RetainEntries(callers, l.queue, l.calls, who);
    var r := RetainIds(l.queue, l.calls, who);
    assert forall i :: 0 <= i < |r| ==> r[i] in r;
  }

  /** Everything in flight is woken at once. */
  function CloseAll(l: Ledger): Ledger
    requires |l.fate| == |l.calls|
  {
    l.(queue := [], active := None, handed := false,
       fate := seq(|l.fate|, x requires 0 <= x < |l.fate| => if Final(l.fate[x]) then l.fate[x] else WokenByClose))
  }

  lemma CloseAllOk(l: Ledger)
    requires LedgerOk(l)
    ensures LedgerOk(CloseAll(l)) && Evolves(l, CloseAll(l)) && Matches(Idle, CloseAll(l))
    ensures CloseAll(l).delivered == l.delivered && |CloseAll(l).fate| == |l.calls|
    ensures forall x :: 0 <= x < |l.calls| ==> Final(CloseAll(l).fate[x])
  {
  }

  // ---------- the state and the ledger ----------

  ghost predicate Matches(state: EndpointState, l: Ledger) {
    match state
    case Idle => l.queue == [] && l.active.None?
    case ReceiverWaiting(_) => l.queue == [] && l.active.None?
    case CallersPending(callers) => callers != [] && |callers| <= MAX_CALLERS && EntriesOf(callers, l.queue, l.calls) && l.active.None?
    case ReplyOutstanding(caller, token, message, pending) =>
      && l.active.Some? && l.active.value < |l.calls| && caller == l.calls[l.active.value].caller
      && token == TokenOf(caller, |l.delivered|)
      && message == (if l.handed then Some(l.calls[l.active.value].message) else None)
      && |pending| <= MAX_CALLERS && EntriesOf(pending, l.queue, l.calls)
  }

  lemma EvolvesTwice(l: Ledger, m: Ledger, n: Ledger)
    requires Evolves(l, m) && Evolves(m, n)
    ensures Evolves(l, n)
  {
    forall x | 0 <= x < |l.calls| ensures Moves(l.fate[x], n.fate[x]) {
      assert Moves(l.fate[x], m.fate[x]) && Moves(m.fate[x], n.fate[x]);
    }
  }

  lemma EvolvesSelf(l: Ledger)
    requires LedgerOk(l)
    ensures Evolves(l, l)
  {
  }

  lemma EntriesPlus(callers: seq<CallerEntry>, l: Ledger, e: CallerEntry)
    requires EntriesOf(callers, l.queue, l.calls)
    ensures EntriesOf(callers + [e], Accept(l, e).queue, Accept(l, e).calls)
  {
  }

  lemma EntriesTail(callers: seq<CallerEntry>, queue: seq<nat>, calls: seq<CallerEntry>)
    requires EntriesOf(callers, queue, calls) && queue != []
    ensures callers != [] && queue[0] < |calls| && callers[0] == calls[queue[0]]
    ensures EntriesOf(callers[1..], queue[1..], calls)
  {
  }

  /** The token made for the i-th delivered call. */
  function TokenFor(l: Ledger, i: nat): nat
    requires i < |l.delivered| && Within(l.delivered, |l.calls|)
  {
    TokenOf(l.calls[l.delivered[i]].caller, i + 1)
  }

  predicate SameThread(a: ObjectId, b: ObjectId) {
    a.index == b.index ==> a.generation == b.generation
  }

  /** Fewer than 2^32 tokens, and no thread index delivered at two generations. */
  ghost predicate NoReuse(l: Ledger)
    requires Within(l.delivered, |l.calls|)
  {
    && |l.delivered| < U32_SPAN
    && (forall i :: 0 <= i < |l.delivered| ==> Typed(l.calls[l.delivered[i]].caller))
    && (forall i, j :: 0 <= i < |l.delivered| && 0 <= j < |l.delivered| ==>
          SameThread(l.calls[l.delivered[i]].caller, l.calls[l.delivered[j]].caller))
  }

  /** In such runs a token names one delivery. */
  lemma TokensUnique(l: Ledger, i: nat, j: nat)
    requires Within(l.delivered, |l.calls|) && NoReuse(l) && i < |l.delivered| && j < |l.delivered|
    ensures TokenFor(l, i) == TokenFor(l, j) <==> i == j
  {
    hide TokenOf;
    if i < j {
      TokensDiffer(l.calls[l.delivered[i]].caller, i + 1, l.calls[l.delivered[j]].caller, j + 1);
    } else if j < i {
      TokensDiffer(l.calls[l.delivered[j]].caller, j + 1, l.calls[l.delivered[i]].caller, i + 1);
    }
  }

  /** The token is that of the outstanding call. */
  ghost predicate Acceptable(l: Ledger, token: nat)
    requires LedgerOk(l)
  {
    l.active.Some? && token == TokenFor(l, |l.delivered| - 1)
  }

  /** A history of an endpoint: every operation leads from one ledger to one it may evolve into. */
  ghost predicate IsRun(run: seq<Ledger>) {
    && (forall i :: 0 <= i < |run| ==> LedgerOk(run[i]))
    && (forall i :: 0 <= i < |run| - 1 ==> Evolves(run[i], run[i + 1]))
  }

  lemma {:induction false} RunEvolves(run: seq<Ledger>, i: nat, j: nat)
    requires IsRun(run) && i <= j < |run|
    ensures Evolves(run[i], run[j])
    decreases j - i
  {
    hide LedgerOk;
    if i < j {
      RunEvolves(run, i, j - 1);
      EvolvesTwice(run[i], run[j - 1], run[j]);
    } else {
      EvolvesSelf(run[i]);
    }
  }

  /**
    Over a whole run a call handed to a woken receiver is, at every later moment, still waiting to be
    collected, collected, or ended; and no call is collected twice.
  */
  lemma HandedOver(run: seq<Ledger>, i: nat, j: nat)
    requires IsRun(run) && i <= j < |run| && run[i].handed
    ensures run[i].active.Some? && var x := run[i].active.value;
      || (run[j].handed && run[j].active == Some(x)) || x in run[j].taken
      || (x < |run[j].fate| && Final(run[j].fate[x]))
    ensures run[i].active.value !in run[i].taken
    ensures forall a, b :: 0 <= a < b < |run[j].taken| ==> run[j].taken[a] != run[j].taken[b]
  {
    RunEvolves(run, i, j);
  }

  /** Over a whole run a token is accepted at most once: after the reply it is never acceptable again. */
  lemma TokenOnce(run: seq<Ledger>, i: nat, j: nat, token: nat)
    requires IsRun(run) && i < j < |run| && LedgerOk(run[i]) && LedgerOk(run[j])
    requires Acceptable(run[i], token) && run[i].active.value < |run[i].fate| && run[i + 1] == Finish(run[i], Replied)
    requires NoReuse(run[j])
    ensures !Acceptable(run[j], token)
  {
    hide NoReuse;
    RunEvolves(run, i, j);
    RunEvolves(run, i + 1, j);
    var x, at := run[i].active.value, |run[i].delivered| - 1;
    assert Moves(run[i + 1].fate[x], run[j].fate[x]);
    assert TokenFor(run[j], at) == token;
    if run[j].active.Some? {
      TokensUnique(run[j], at, |run[j].delivered| - 1);
      assert run[j].delivered[at] == x;
    }
  }

  lemma LedgerRange(l: Ledger)
    requires LedgerOk(l)
    ensures |l.fate| == |l.calls| && Within(l.queue, |l.calls|) && Within(l.delivered, |l.calls|)
    ensures l.active.Some? ==> l.active.value < |l.calls| && |l.delivered| > 0 && l.delivered[|l.delivered| - 1] == l.active.value
    ensures l.handed ==> l.active.Some?
  {
  }

  /** The threads of the queued entries, in order. */
  function Callers(entries: seq<CallerEntry>): (r: seq<ObjectId>)
    ensures |r| == |entries| && forall i :: 0 <= i < |r| ==> r[i] == entries[i].caller
  {
    if entries == [] then [] else [entries[0].caller] + Callers(entries[1..])
  }

  /** Whom a close wakes: the waiting receiver, or the outstanding caller and then the queue in order. */
  function Woken(state: EndpointState): seq<ObjectId> {
    match state
    case CallersPending(callers) => Callers(callers)
    case ReceiverWaiting(receiver) => [receiver]
    case ReplyOutstanding(caller, _, _, pending) => [caller] + Callers(pending)
    case Idle => []
  }

  lemma {:induction false} WokenAre(state: EndpointState, l: Ledger)
    requires Matches(state, l) && Within(l.queue, |l.calls|)
    ensures |l.queue| <= |Woken(state)|
    ensures state.ReceiverWaiting? ==> Woken(state) == [state.receiver]
    ensures l.active.Some? ==> state.ReplyOutstanding? && |Woken(state)| == 1 + |l.queue| && Woken(state)[0] == state.caller
    ensures l.active.None? && !state.ReceiverWaiting? ==> |Woken(state)| == |l.queue|
    ensures forall i :: 0 <= i < |l.queue| ==>
      Woken(state)[|Woken(state)| - |l.queue| + i] == l.calls[l.queue[i]].caller
  {
    hide Callers, TokenOf, EntriesOf, Woken;
    WokenCount(state, l);
    forall i: nat | i < |l.queue| ensures Woken(state)[|Woken(state)| - |l.queue| + i] == l.calls[l.queue[i]].caller {
      WokenAt(state, l, i);
    }
  }

  lemma WokenCount(state: EndpointState, l: Ledger)
    requires Matches(state, l)
    ensures |l.queue| <= |Woken(state)|
    ensures state.ReceiverWaiting? ==> Woken(state) == [state.receiver]
    ensures l.active.Some? ==> state.ReplyOutstanding? && |Woken(state)| == 1 + |l.queue| && Woken(state)[0] == state.caller
    ensures l.active.None? && !state.ReceiverWaiting? ==> |Woken(state)| == |l.queue|
  {
    hide Callers, TokenOf;
  }

  lemma WokenAt(state: EndpointState, l: Ledger, i: nat)
    requires Matches(state, l) && i < |l.queue| <= |Woken(state)| && Within(l.queue, |l.calls|)
    ensures Woken(state)[|Woken(state)| - |l.queue| + i] == l.calls[l.queue[i]].caller
  {
    hide Callers, TokenOf;
    assert state.ReplyOutstanding? ==> Woken(state)[1 + i] == Callers(state.pending)[i];
  }

  class Endpoint {

    var state: EndpointState
    var replySequence: nat
    var closed: bool
    ghost var ledger: Ledger

    ghost predicate Valid()
      reads this
    {
      LedgerOk(ledger) && Matches(state, ledger) && replySequence == |ledger.delivered| && (closed ==> state.Idle?)
    }

    constructor ()
      ensures Valid() && !closed && state == Idle && ledger == Ledger([], [], [], None, [], false, [])
    {
      state, replySequence, closed := Idle, 0, false;
      ledger := Ledger([], [], [], None, [], false, []);
    }

    /** Queue a call, or hand it straight to a waiting receiver. */
    method Call(caller: ObjectId, message: Message) returns (r: Result<IpcEffect, EndpointError>)
      requires Valid()
      modifies this
      ensures Valid() && closed == old(closed) && Evolves(old(ledger), ledger)
      ensures r == Err(Closed) <==> closed
      ensures r == Err(Busy) <==> !closed && |old(ledger).queue| >= MAX_CALLERS
      ensures r.Err? ==> state == old(state) && ledger == old(ledger)
      ensures r.Ok? ==> ledger.calls == old(ledger).calls + [CallerEntry(caller, message)]
      ensures r.Ok? ==> (r.value.Wake? <==> old(state).ReceiverWaiting?)
      ensures r.Ok? && r.value.Block? ==> ledger == Accept(old(ledger), CallerEntry(caller, message))
      ensures r.Ok? && r.value.Wake? ==> r.value.thread == old(state).receiver && ledger.active == Some(|old(ledger).calls|) && ledger.handed
      ensures r.Ok? && r.value.Wake? ==> state.ReplyOutstanding? && state.caller == caller && state.message == Some(message)
      ensures r.Ok? && r.value.Block? ==> (old(state).ReplyOutstanding? ==> state.ReplyOutstanding? && state.message == old(state).message)
    {
      hide LedgerOk, Evolves, EntriesOf, TokenOf;
      EvolvesSelf(ledger);
      if closed {
        return Err(Closed);
      }
      var e := CallerEntry(caller, message);
      AcceptOk(ledger, e);
      QueueLength(state, ledger);
      match state {
        case Idle =>
          EntriesPlus([], ledger, e) by { NoEntries(ledger.calls); }
          assert [] + [e] == [e];
          state := CallersPending([e]);
          ledger := Accept(ledger, e);
          r := Ok(Block);
        case ReceiverWaiting(receiver) =>
          ghost var mid := Accept(ledger, e);
          HandOk(mid);
          EvolvesTwice(ledger, mid, Hand(Deliver(mid)));
          NoEntries(mid.calls);
          replySequence := replySequence + 1;
          state := ReplyOutstanding(caller, TokenOf(caller, replySequence), Some(message), []);
          ledger := Hand(Deliver(mid));
          r := Ok(Wake(receiver));
        case CallersPending(callers) =>
          if |callers| >= MAX_CALLERS {
            return Err(Busy);
          }
          EntriesPlus(callers, ledger, e);
          state := CallersPending(callers + [e]);
          ledger := Accept(ledger, e);
          r := Ok(Block);
        case ReplyOutstanding(active, token, held, pending) =>
          if |pending| >= MAX_CALLERS {
            return Err(Busy);
          }
          EntriesPlus(pending, ledger, e);
          state := ReplyOutstanding(active, token, held, pending + [e]);
          ledger := Accept(ledger, e);
          r := Ok(Block);
      }
    }

    /** Take the oldest queued call, or wait for one. */
    method Receive(receiver: ObjectId) returns (r: Result<Result<ReceivedCall, IpcEffect>, EndpointError>)
      requires Valid()
      modifies this
      ensures Valid() && closed == old(closed) && Evolves(old(ledger), ledger)
      ensures r == Err(Closed) <==> closed
      ensures r == Err(Busy) <==> !closed && (old(state).ReceiverWaiting? || old(state).ReplyOutstanding?)
      ensures r.Err? ==> state == old(state) && ledger == old(ledger)
      ensures r.Ok? && r.value.Err? ==> r.value.error == Block && old(state).Idle? && state == ReceiverWaiting(receiver) && ledger == old(ledger)
      ensures r.Ok? && r.value.Ok? ==>
        && old(ledger).queue != [] && old(ledger).queue[0] < |old(ledger).fate| && ledger == Deliver(old(ledger))
        && r.value.value.caller == ledger.calls[old(ledger).queue[0]].caller
        && r.value.value.message == ledger.calls[old(ledger).queue[0]].message
        && state.ReplyOutstanding? && r.value.value.replyToken == state.token
    {
      hide LedgerOk, Evolves, EntriesOf, TokenOf;
      EvolvesSelf(ledger);
      LedgerRange(ledger);
      if closed {
        return Err(Closed);
      }
      match state {
        case Idle =>
          state := ReceiverWaiting(receiver);
          r := Ok(Err(Block));
        case CallersPending(callers) =>
          QueueLength(state, ledger);
          EntriesTail(callers, ledger.queue, ledger.calls);
          DeliverOk(ledger);
          var next := callers[0];
          replySequence := replySequence + 1;
          var token := TokenOf(next.caller, replySequence);
          state := ReplyOutstanding(next.caller, token, None, callers[1..]);
          ledger := Deliver(ledger);
          r := Ok(Ok(ReceivedCall(next.caller, next.message, token)));
        case _ =>
          r := Err(Busy);
      }
    }

    /** The woken receiver collects the call it was handed, once. */
    method TakeReceivedCall() returns (r: Option<ReceivedCall>)
      requires Valid()
      modifies this`state, this`ledger
      ensures Valid() && Evolves(old(ledger), ledger)
      ensures r.Some? <==> old(ledger).handed
      ensures old(ledger).handed ==> old(ledger).active.Some? && ledger == Collected(old(ledger))
      ensures !old(ledger).handed ==> ledger == old(ledger)
      ensures r.Some? ==> ledger.active.Some? && ledger.active.value < |ledger.calls|
      ensures r.Some? ==> CallerEntry(r.value.caller, r.value.message) == ledger.calls[ledger.active.value]
      ensures r.Some? ==> state == old(state).(message := None) && r.value.replyToken == state.token
      ensures r.None? ==> state == old(state)
    {
      hide LedgerOk, EntriesOf, TokenOf, Evolves;
      EvolvesSelf(ledger);
      LedgerRange(ledger);
      if state.ReplyOutstanding? && state.message.Some? {
        CollectedOk(ledger);
        ledger := Collected(ledger);
        r := Some(ReceivedCall(state.caller, state.message.value, state.token));
        state := state.(message := None);
      } else {
        r := None;
      }
    }

    /** Answer the outstanding call: only its own token is accepted, and it wakes its own caller. */
    method Reply(token: nat) returns (r: Result<IpcEffect, EndpointError>)
      requires Valid()
      modifies this
      ensures Valid() && closed == old(closed) && Evolves(old(ledger), ledger)
      ensures r == Err(Closed) <==> closed
      ensures Within(old(ledger).delivered, |old(ledger).calls|)
      ensures r.Ok? <==> !closed && old(ledger).active.Some? && |old(ledger).delivered| > 0 &&
                         token == TokenFor(old(ledger), |old(ledger).delivered| - 1)
      ensures r.Err? ==> state == old(state) && ledger == old(ledger)
      ensures r.Ok? ==> var x := old(ledger).active.value;
        x < |ledger.calls| && |ledger.fate| == |ledger.calls| && r.value == Wake(ledger.calls[x].caller) && ledger.fate[x] == Replied
      ensures r.Ok? ==> ledger == Finish(old(ledger), Replied)
      ensures r.Ok? && NoReuse(old(ledger)) ==> forall i: nat :: i < |old(ledger).delivered| && TokenFor(old(ledger), i) == token ==>
        old(ledger).delivered[i] == old(ledger).active.value
    {
      LedgerRange(ledger);
      hide LedgerOk, Evolves, EntriesOf, TokenOf, NoReuse;
      EvolvesSelf(ledger);
      if closed {
        return Err(Closed);
      }
      if !state.ReplyOutstanding? || token != state.token {
        return Err(InvalidReplyToken);
      }
      ghost var l := ledger;
      if NoReuse(l) {
        forall i: nat | i < |l.delivered| && TokenFor(l, i) == token ensures l.delivered[i] == l.active.value {
          TokensUnique(l, i, |l.delivered| - 1);
        }
      }
      FinishOk(ledger, Replied);
      var caller, remaining := state.caller, state.pending;
      NextState(state, ledger, Finish(ledger, Replied));
      state := if remaining == [] then Idle else CallersPending(remaining);
      ledger := Finish(ledger, Replied);
      r := Ok(Wake(caller));
    }

    /** Take a thread's calls out of the queue. */
    method DropQueued(who: ObjectId, ghost f: Fate) returns (removed: bool)
      requires Valid() && Final(f) && !f.Replied?
      modifies this`state, this`ledger
      ensures Valid() && Evolves(old(ledger), ledger)
      ensures ledger.calls == old(ledger).calls && ledger.active == old(ledger).active
      ensures Dropped(old(ledger), ledger, who, f)
      ensures removed <==> HasQueued(old(ledger), who)
      ensures old(state).ReceiverWaiting? ==> state == old(state)
      ensures old(state).ReplyOutstanding? ==> state.ReplyOutstanding? && state == old(state).(pending := state.pending)
    {
      QueueLength(state, ledger);
      if !state.CallersPending? && !state.ReplyOutstanding? {
        EvolvesSelf(ledger);
        return false;
      }
      hide LedgerOk, Evolves, TokenOf, RetainIds, EntriesOf, Retain, Drop, Dropped, HasQueued;
      var callers := if state.CallersPending? then state.callers else state.pending;
      DropOk(ledger, callers, who, f);
      ShorterIff(callers, ledger, who);
      var kept := Retain(callers, who);
      EmptyQueue(kept, Drop(ledger, who, f));
      removed := |kept| < |callers|;
      state := if state.ReplyOutstanding? then state.(pending := kept) else if kept == [] then Idle else CallersPending(kept);
      ledger := Drop(ledger, who, f);
    }

    /** Withdraw a thread's queued calls; an outstanding call is not withdrawn. */
    method CancelCaller(caller: ObjectId) returns (removed: bool)
      requires Valid()
      modifies this
      ensures Valid() && closed == old(closed) && Evolves(old(ledger), ledger)
      ensures removed <==> HasQueued(old(ledger), caller)
      ensures ledger.calls == old(ledger).calls && ledger.active == old(ledger).active
      ensures Dropped(old(ledger), ledger, caller, Cancelled)
      ensures old(state).ReceiverWaiting? ==> state == old(state)
      ensures old(state).ReplyOutstanding? ==> state.ReplyOutstanding? && state == old(state).(pending := state.pending)
    {
      if closed {
        EvolvesSelf(ledger);
        return false;
      }
      hide LedgerOk, Evolves, Matches, Dropped, HasQueued;
      removed := DropQueued(caller, Cancelled);
    }

    /**
      A thread has died. Its outstanding call ends; its queued calls end too, except those queued behind
      its own outstanding call. So a call of it stays in flight exactly if it had both an outstanding and a
      queued call, which a thread with at most one call in flight does not have.
    */
    method NotifyThreadTerminated(dead: ObjectId)
      requires Valid()
      modifies this
      ensures Valid() && closed == old(closed) && Evolves(old(ledger), ledger)
      ensures ledger.calls == old(ledger).calls
      ensures old(state).ReceiverWaiting? ==> state == if old(state).receiver == dead then Idle else old(state)
      ensures old(state).ReplyOutstanding? && old(state).caller != dead ==>
        state.ReplyOutstanding? && state == old(state).(pending := state.pending)
      ensures var outstanding := old(state).ReplyOutstanding? && old(state).caller == dead;
        && (!outstanding ==> ledger.active == old(ledger).active && Dropped(old(ledger), ledger, dead, Dead))
        && (outstanding ==> old(ledger).active.Some? && old(ledger).active.value < |old(ledger).fate| && ledger == Finish(old(ledger), Dead))
      ensures (exists x :: InFlight(ledger, dead, x)) <==>
        old(state).ReplyOutstanding? && old(state).caller == dead && HasQueued(old(ledger), dead)
      ensures OneInFlight(old(ledger), dead) ==> forall x :: !InFlight(ledger, dead, x)
    {
      hide Evolves, Dropped, HasQueued, EntriesOf, InFlight, OneInFlight;
      ghost var was, l := state, ledger;
      if state.ReceiverWaiting? && state.receiver == dead {
        EvolvesSelf(ledger);
        NothingDropped(state, ledger, dead, Dead);
        NoneLeft(was, l, l, dead);
        state := Idle;
      } else if state.ReplyOutstanding? && state.caller == dead {
        FinishOk(ledger, Dead);
        LeftBehind(ledger, dead);
        NextState(state, ledger, Finish(ledger, Dead));
        var pending := state.pending;
        state := if pending == [] then Idle else CallersPending(pending);
        ledger := Finish(ledger, Dead);
      } else {
        var _ := DropQueued(dead, Dead);
        NoneLeft(was, l, ledger, dead);
      }
    }

    /** Close the endpoint: every thread waiting on it is woken, in order, and every call in flight ends. */
    method Close() returns (woke: seq<ObjectId>)
      requires Valid()
      modifies this
      ensures Valid() && closed && Evolves(old(ledger), ledger)
      ensures ledger == CloseAll(old(ledger))
      ensures forall x :: 0 <= x < |ledger.fate| ==> Final(ledger.fate[x])
      ensures old(state).ReceiverWaiting? ==> woke == [old(state).receiver]
      ensures old(ledger).active.Some? ==> |woke| == 1 + |old(ledger).queue| && woke[0] == old(state).caller
      ensures old(ledger).active.None? && !old(state).ReceiverWaiting? ==> |woke| == |old(ledger).queue|
      ensures Within(old(ledger).queue, |old(ledger).calls|)
      ensures |old(ledger).queue| <= |woke|
      ensures forall i :: 0 <= i < |old(ledger).queue| ==>
        woke[|woke| - |old(ledger).queue| + i] == old(ledger).calls[old(ledger).queue[i]].caller
    {
      hide LedgerOk, Matches, Evolves, CloseAll, Woken, Within;
      LedgerRange(ledger);
      CloseAllOk(ledger);
      WokenAre(state, ledger);
      woke := Woken(state);
      closed, state, ledger := true, Idle, CloseAll(ledger);
    }
  }

  lemma EmptyQueue(kept: seq<CallerEntry>, l: Ledger)
    requires EntriesOf(kept, l.queue, l.calls)
    ensures kept == [] <==> l.queue == []
  {
  }

  lemma NoEntries(calls: seq<CallerEntry>)
    ensures EntriesOf([], [], calls)
  {
  }

  lemma QueueLength(state: EndpointState, l: Ledger)
    requires Matches(state, l)
    ensures |l.queue| == (match state case CallersPending(c) => |c| case ReplyOutstanding(_, _, _, p) => |p| case _ => 0)
  {
  }

  /** After the outstanding call ends, the queue alone remains. */
  lemma NextState(state: EndpointState, l: Ledger, m: Ledger)
    requires state.ReplyOutstanding? && Matches(state, l) && m.queue == l.queue && m.calls == l.calls && m.active.None?
    ensures Matches(if state.pending == [] then Idle else CallersPending(state.pending), m)
  {
  }

  lemma {:induction false} RetainShorter(callers: seq<CallerEntry>, who: ObjectId)
    ensures |Retain(callers, who)| <= |callers|
    ensures |Retain(callers, who)| < |callers| <==> exists i :: 0 <= i < |callers| && callers[i].caller == who
  {
    if callers != [] {
      RetainShorter(callers[1..], who);
      if i :| 0 <= i < |callers| && callers[i].caller == who {
        if i > 0 {
          assert callers[1..][i - 1].caller == who;
        }
      }
      if j :| 0 <= j < |callers[1..]| && callers[1..][j].caller == who {
        assert callers[j + 1].caller == who;
      }
    }
  }

  lemma ShorterIff(callers: seq<CallerEntry>, l: Ledger, who: ObjectId)
    requires EntriesOf(callers, l.queue, l.calls)
    ensures |Retain(callers, who)| <= |callers|
    ensures |Retain(callers, who)| < |callers| <==> HasQueued(l, who)
  {
    RetainShorter(callers, who);
    hide Retain;
    if i :| 0 <= i < |callers| && callers[i].caller == who {
      assert l.queue[i] in l.queue && l.calls[l.queue[i]].caller == who;
    }
    if x :| x in l.queue && x < |l.calls| && l.calls[x].caller == who {
      var i :| 0 <= i < |l.queue| && l.queue[i] == x;
      assert callers[i].caller == who;
    }
  }
}

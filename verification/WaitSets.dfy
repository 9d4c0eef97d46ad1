/**
  Wait sets: one place to wait for signals from many objects. The ledger `log` lists the matched signals
  posted since the last drain, without those whose subscription was removed.
*/
module WaitSets {

  import opened Abi
  import opened Bits
  import opened Common

  const MAX_SUBSCRIPTIONS: nat := 64
  const MAX_EVENTS: nat := 128

  datatype Subscription = Subscription(target: ObjectId, cookie: nat, signals: bv32)

  datatype Event = Event(cookie: nat, signals: bv32)

  datatype WaitSetError = Full | NotFound | AlreadyRegistered | Closed

  // ---------- merging posts into events ----------

  /** Every signal of either. */
  function Union(a: bv32, b: bv32): (c: bv32)
    ensures forall i: nat :: Has(c, i) <==> Has(a, i) || Has(b, i)
  {
    UnionSound(a, b, a | b);
    a | b
  }

  lemma UnionSound(a: bv32, b: bv32, c: bv32)
    requires c == a | b
    ensures forall i: nat :: Has(c, i) <==> Has(a, i) || Has(b, i)
  {
    hide BitOf, Wide, Both, Join;
    WideOr(a, b);
    WordsAt(Wide(a), Wide(b));
  }

  lemma WordsAt(x: bv64, y: bv64)
    ensures forall i: nat :: BitOf(Join(x, y), i) <==> BitOf(x, i) || BitOf(y, i)
    ensures forall i: nat :: BitOf(Both(x, y), i) <==> BitOf(x, i) && BitOf(y, i)
  {
    hide BitOf, Join, Both;
    forall i: nat ensures BitOf(Join(x, y), i) <==> BitOf(x, i) || BitOf(y, i) {
      BitwiseAt(x, y, i);
    }
    forall i: nat ensures BitOf(Both(x, y), i) <==> BitOf(x, i) && BitOf(y, i) {
      BitwiseAt(x, y, i);
    }
  }

  lemma WideOr(a: bv32, b: bv32)
    ensures Wide(a | b) == Join(Wide(a), Wide(b))
  {
  }

  lemma WideAnd(a: bv32, b: bv32)
    ensures Wide(a & b) == Both(Wide(a), Wide(b))
  {
  }

  lemma WideRange(c: bv32)
    ensures Wide(c) <= 0xFFFF_FFFF && (c == 0 <==> Wide(c) == 0)
  {
  }

  /** The signals a subscription asked for among those posted. */
  function Overlap(a: bv32, b: bv32): (c: bv32)
    ensures forall i: nat :: Has(c, i) <==> Has(a, i) && Has(b, i)
    ensures c == 0 <==> forall i: nat :: i < 32 ==> !(Has(a, i) && Has(b, i))
  {
    OverlapSound(a, b, a & b);
    a & b
  }

  lemma OverlapSound(a: bv32, b: bv32, c: bv32)
    requires c == a & b
    ensures forall i: nat :: Has(c, i) <==> Has(a, i) && Has(b, i)
    ensures c == 0 <==> forall i: nat :: i < 32 ==> !(Has(a, i) && Has(b, i))
  {
    hide BitOf, Wide, Both, Join;
    WideAnd(a, b);
    WideRange(c);
    WordsAt(Wide(a), Wide(b));
    ZeroIffNoLowBits(Wide(c));
    assert forall i: nat :: Has(c, i) <==> BitOf(Wide(c), i);
  }

  /** The position of a cookie's event, if it has one. */
  function Find(events: seq<Event>, cookie: nat): (r: Option<nat>)
    ensures r.Some? ==> r.value < |events| && events[r.value].cookie == cookie
    ensures r.Some? ==> forall i :: 0 <= i < r.value ==> events[i].cookie != cookie
    ensures r.None? ==> forall i :: 0 <= i < |events| ==> events[i].cookie != cookie
  {
    if events == [] then None
    else if events[0].cookie == cookie then Some(0)
    else
      match Find(events[1..], cookie)
      case None => None
      case Some(i) => Some(i + 1)
  }

  /** Merge one post: widen the cookie's event, or append one. */
  function Merge(events: seq<Event>, post: Event): seq<Event> {
    match Find(events, post.cookie)
    case None => events + [post]
    case Some(i) => events[i := Event(post.cookie, Union(events[i].signals, post.signals))]
  }

  /** The events a sequence of posts amounts to. */
  function Collect(log: seq<Event>): seq<Event> {
    if log == [] then [] else Merge(Collect(log[..|log| - 1]), log[|log| - 1])
  }

  /** All signals posted under a cookie. */
  function AllSignals(log: seq<Event>, cookie: nat): bv32 {
    if log == [] then 0
    else if log[|log| - 1].cookie == cookie then Union(AllSignals(log[..|log| - 1], cookie), log[|log| - 1].signals)
    else AllSignals(log[..|log| - 1], cookie)
  }

  /** The cookies of a sequence of posts in the order of their first post. */
  function FirstPosts(log: seq<Event>): seq<nat> {
    if log == [] then []
    else
      var before := FirstPosts(log[..|log| - 1]);
      if log[|log| - 1].cookie in before then before else before + [log[|log| - 1].cookie]
  }

  ghost predicate DistinctCookies(events: seq<Event>) {
    forall i, j :: 0 <= i < j < |events| ==> events[i].cookie != events[j].cookie
  }

  /** Signal i was posted under the cookie. */
  ghost predicate Posted(log: seq<Event>, cookie: nat, i: nat) {
    exists j :: 0 <= j < |log| && log[j].cookie == cookie && Has(log[j].signals, i)
  }

  lemma {:induction false} AllSignalsAt(log: seq<Event>, cookie: nat, i: nat)
    ensures Has(AllSignals(log, cookie), i) <==> Posted(log, cookie, i)
  {
    hide Has, Union;
    if log == [] {
      NoSignals(i);
    } else {
      var rest, post := log[..|log| - 1], log[|log| - 1];
      AllSignalsAt(rest, cookie, i);
      assert Posted(log, cookie, i) <==> Posted(rest, cookie, i) || (post.cookie == cookie && Has(post.signals, i)) by {
        if Posted(rest, cookie, i) {
          var j :| 0 <= j < |rest| && rest[j].cookie == cookie && Has(rest[j].signals, i);
          assert log[j] == rest[j];
        }
        if post.cookie == cookie && Has(post.signals, i) {
          assert log[|log| - 1] == post;
        }
        if j :| 0 <= j < |log| && log[j].cookie == cookie && Has(log[j].signals, i) {
          assert j < |rest| ==> rest[j] == log[j];
        }
      }
    }
  }

  lemma NoSignals(i: nat)
    ensures !Has(0, i)
  {
    NoBits(i);
  }

  /**
    Signal by signal: an event shows a signal exactly if some post under its cookie did, and every cookie
    posted under has its event.
  */
  lemma CollectBits(log: seq<Event>)
    ensures forall k, i: nat :: 0 <= k < |Collect(log)| ==>
      (Has(Collect(log)[k].signals, i) <==> Posted(log, Collect(log)[k].cookie, i))
    ensures forall j :: 0 <= j < |log| ==> Find(Collect(log), log[j].cookie).Some?
  {
    CollectMeans(log);
    FirstPostsAll(log);
    hide Has, AllSignals, FirstPosts, Collect, Find;
    forall k, i: nat | 0 <= k < |Collect(log)|
      ensures Has(Collect(log)[k].signals, i) <==> Posted(log, Collect(log)[k].cookie, i)
    {
      AllSignalsAt(log, Collect(log)[k].cookie, i);
    }
    forall j | 0 <= j < |log| ensures Find(Collect(log), log[j].cookie).Some? {
      var k :| 0 <= k < |FirstPosts(log)| && FirstPosts(log)[k] == log[j].cookie;
      assert Collect(log)[k].cookie == log[j].cookie;
    }
  }

  lemma {:induction false} FirstPostsAll(log: seq<Event>)
    ensures forall j :: 0 <= j < |log| ==> log[j].cookie in FirstPosts(log)
  {
    if log != [] {
      FirstPostsAll(log[..|log| - 1]);
      assert forall j :: 0 <= j < |log| - 1 ==> log[j] == log[..|log| - 1][j];
    }
  }

  /** Collecting gives, per cookie in first-post order, the union of everything posted under it. */
  lemma {:induction false} CollectMeans(log: seq<Event>)
    ensures var events, cookies := Collect(log), FirstPosts(log);
      && |events| == |cookies| && DistinctCookies(events)
      && (forall i :: 0 <= i < |events| ==> events[i] == Event(cookies[i], AllSignals(log, cookies[i])))
      && (forall c :: c !in cookies ==> AllSignals(log, c) == 0)
  {
    hide Union, Find;
    if log != [] {
      var rest, post := log[..|log| - 1], log[|log| - 1];
      CollectMeans(rest);
      var events, cookies := Collect(rest), FirstPosts(rest);
      assert forall i :: 0 <= i < |events| ==> events[i].cookie == cookies[i];
      if Find(events, post.cookie).None? {
        assert post.cookie !in cookies;
        ZeroOr(post.signals);
      } else {
        assert post.cookie == cookies[Find(events, post.cookie).value];
      }
    }
  }

  lemma ZeroOr(x: bv32)
    ensures Union(0, x) == x
  {
  }

  // ---------- dropping a cookie ----------

  /** Events of all cookies but one. */
  function Drop(events: seq<Event>, cookie: nat): (r: seq<Event>)
    ensures forall i :: 0 <= i < |r| ==> r[i].cookie != cookie && r[i] in events
    ensures |r| <= |events|
  {
    if events == [] then []
    else
      var r := Drop(events[..|events| - 1], cookie);
      if events[|events| - 1].cookie == cookie then r else r + [events[|events| - 1]]
  }

  /** Dropping a cookie's posts drops its event and nothing else. */
  lemma {:induction false} CollectDrop(log: seq<Event>, cookie: nat)
    ensures Collect(Drop(log, cookie)) == Drop(Collect(log), cookie)
  {
    if log != [] {
      var rest, post := log[..|log| - 1], log[|log| - 1];
      CollectDrop(rest, cookie);
      CollectMeans(rest);
      if post.cookie == cookie {
        MergeDropped(Collect(rest), post);
      } else {
        MergeKept(Collect(rest), post, cookie);
        var shorter := Drop(rest, cookie);
        assert (shorter + [post])[..|shorter|] == shorter;
      }
    }
  }

  lemma {:induction false} DropSplit(a: seq<Event>, b: seq<Event>, cookie: nat)
    ensures Drop(a + b, cookie) == Drop(a, cookie) + Drop(b, cookie)
    decreases |b|
  {
    if b == [] {
      assert a + b == a;
    } else {
      var c := b[..|b| - 1];
      DropSplit(a, c, cookie);
      assert (a + b)[..|a + b| - 1] == a + c;
    }
  }

  lemma DropOne(e: Event, cookie: nat)
    ensures Drop([e], cookie) == if e.cookie == cookie then [] else [e]
  {
    assert [e][..0] == [];
  }

  lemma MergeDropped(events: seq<Event>, post: Event)
    ensures Drop(Merge(events, post), post.cookie) == Drop(events, post.cookie)
  {
    hide Drop, Find, Union;
    var f := Find(events, post.cookie);
    if f.None? {
      DropSplit(events, [post], post.cookie);
      DropOne(post, post.cookie);
    } else {
      DropUpdate(events, f.value, Event(post.cookie, Union(events[f.value].signals, post.signals)), post.cookie);
    }
  }

  /** Replacing an event by one of the same cookie replaces it after dropping too, if it survives. */
  lemma DropUpdate(events: seq<Event>, i: nat, e: Event, cookie: nat)
    requires i < |events| && e.cookie == events[i].cookie
    ensures var k := |Drop(events[..i], cookie)|; var r := Drop(events, cookie);
      && (e.cookie == cookie ==> Drop(events[i := e], cookie) == r)
      && (e.cookie != cookie ==> k < |r| && r[..k] == Drop(events[..i], cookie) && r[k] == events[i]
                                 && Drop(events[i := e], cookie) == r[k := e])
  {
    hide Drop;
    var a, b := events[..i], events[i + 1..];
    assert events == a + [events[i]] + b && events[i := e] == a + [e] + b;
    SplitThree(a, events[i], b, cookie);
    SplitThree(a, e, b, cookie);
  }

  lemma SplitThree(a: seq<Event>, e: Event, b: seq<Event>, cookie: nat)
    ensures Drop(a + [e] + b, cookie) == Drop(a, cookie) + (if e.cookie == cookie then [] else [e]) + Drop(b, cookie)
  {
    hide Drop;
    DropSplit(a + [e], b, cookie);
    DropSplit(a, [e], cookie);
    DropOne(e, cookie);
  }

  lemma MergeKept(events: seq<Event>, post: Event, cookie: nat)
    requires post.cookie != cookie
    ensures Merge(Drop(events, cookie), post) == Drop(Merge(events, post), cookie)
  {
    hide Drop, Find, Union;
    var f, shorter := Find(events, post.cookie), Drop(events, cookie);
    if f.None? {
      DropSplit(events, [post], cookie);
      DropOne(post, cookie);
      assert forall i :: 0 <= i < |shorter| ==> shorter[i] in events;
    } else {
      var i := f.value;
      DropUpdate(events, i, Event(post.cookie, Union(events[i].signals, post.signals)), cookie);
      FoundAt(shorter, post.cookie, |Drop(events[..i], cookie)|, events[..i], cookie);
    }
  }

  lemma FoundAt(events: seq<Event>, cookie: nat, k: nat, a: seq<Event>, dropped: nat)
    requires k < |events| && events[k].cookie == cookie && k == |Drop(a, dropped)| && events[..k] == Drop(a, dropped)
    requires forall i :: 0 <= i < |a| ==> a[i].cookie != cookie
    ensures Find(events, cookie) == Some(k)
  {
    hide Drop, Find;
    forall i | 0 <= i < k ensures events[i].cookie != cookie {
      assert events[i] == events[..k][i];
      assert Drop(a, dropped)[i] in a;
    }
  }

  // ---------- subscriptions ----------

  function Lookup(subs: seq<Subscription>, target: ObjectId): (r: Option<Subscription>)
    ensures r.Some? ==> r.value in subs && r.value.target == target
    ensures r.None? <==> forall i :: 0 <= i < |subs| ==> subs[i].target != target
  {
    if subs == [] then None else if subs[0].target == target then Some(subs[0]) else Lookup(subs[1..], target)
  }

  /** The subscriptions of every other object. */
  function Unsubscribe(subs: seq<Subscription>, target: ObjectId): (r: seq<Subscription>)
    ensures |r| <= |subs|
  {
    if subs == [] then []
    else
      var rest := Unsubscribe(subs[1..], target);
      if subs[0].target == target then rest else [subs[0]] + rest
  }

  lemma {:induction false} UnsubscribeMembers(subs: seq<Subscription>, target: ObjectId)
    ensures forall s :: s in Unsubscribe(subs, target) <==> s in subs && s.target != target
  {
    if subs != [] {
      UnsubscribeMembers(subs[1..], target);
      assert forall s :: s in subs <==> s == subs[0] || s in subs[1..];
    }
  }

  lemma {:induction false} UnsubscribeShorter(subs: seq<Subscription>, target: ObjectId)
    ensures Lookup(subs, target).Some? ==> |Unsubscribe(subs, target)| < |subs|
    ensures Lookup(subs, target).None? ==> Unsubscribe(subs, target) == subs
  {
    if subs != [] && subs[0].target != target {
      UnsubscribeShorter(subs[1..], target);
    }
  }

  lemma {:induction false} UnsubscribeOneEach(subs: seq<Subscription>, target: ObjectId)
    requires OneEach(subs)
    ensures OneEach(Unsubscribe(subs, target))
  {
    if subs != [] {
      UnsubscribeOneEach(subs[1..], target);
      var rest := Unsubscribe(subs[1..], target);
      UnsubscribeMembers(subs[1..], target);
      forall i | 0 <= i < |rest| ensures rest[i].target != subs[0].target {
        assert rest[i] in subs[1..];
      }
    }
  }

  /** At most one subscription per object. */
  ghost predicate OneEach(subs: seq<Subscription>) {
    forall i, j :: 0 <= i < j < |subs| ==> subs[i].target != subs[j].target
  }

  /** Every event belongs to a subscription that is still there. */
  ghost predicate Subscribed(events: seq<Event>, subs: seq<Subscription>) {
    forall i :: 0 <= i < |events| ==> HasCookie(subs, events[i].cookie)
  }

  ghost predicate HasCookie(subs: seq<Subscription>, cookie: nat) {
    exists s :: s in subs && s.cookie == cookie
  }

  function Cookies(subs: seq<Subscription>): (r: seq<nat>)
    ensures |r| == |subs| && forall i :: 0 <= i < |subs| ==> r[i] == subs[i].cookie
  {
    if subs == [] then [] else [subs[0].cookie] + Cookies(subs[1..])
  }

  function EventCookies(events: seq<Event>): (r: seq<nat>)
    ensures |r| == |events| && forall i :: 0 <= i < |events| ==> r[i] == events[i].cookie
  {
    if events == [] then [] else [events[0].cookie] + EventCookies(events[1..])
  }

  /** There are never more events than subscriptions, so the limit on events is out of reach. */
  lemma EventsBound(events: seq<Event>, subs: seq<Subscription>)
    requires DistinctCookies(events) && Subscribed(events, subs)
    ensures |events| <= |subs|
  {
    var cookies, all := EventCookies(events), Cookies(subs);
    forall x | x in cookies ensures x in Elements(all) {
      var i :| 0 <= i < |cookies| && cookies[i] == x;
      assert HasCookie(subs, events[i].cookie);
      var s :| s in subs && s.cookie == events[i].cookie;
      var j :| 0 <= j < |subs| && subs[j] == s;
      assert all[j] == x;
    }
    DistinctWithin(cookies, Elements(all));
    ElementsBound(all);
  }

  /** What unsubscribing does to the subscriptions, to what is ready and to the posts behind it. */
  lemma Unsubscribed(log: seq<Event>, ready: seq<Event>, subs: seq<Subscription>, target: ObjectId)
    requires ready == Collect(log) && Subscribed(ready, subs) && OneEach(subs)
    ensures var found, fewer := Lookup(subs, target), Unsubscribe(subs, target);
      && OneEach(fewer) && (found.None? ==> fewer == subs)
      && (found.Some? ==>
            && |fewer| < |subs| && Subscribed(Drop(ready, found.value.cookie), fewer)
            && Drop(ready, found.value.cookie) == Collect(Drop(log, found.value.cookie))
            && (ready == [] ==> Drop(ready, found.value.cookie) == []))
  {
    UnsubscribeShorter(subs, target);
    UnsubscribeOneEach(subs, target);
    var found := Lookup(subs, target);
    hide Collect, Lookup, Unsubscribe, Drop, OneEach, Subscribed;
    if found.Some? {
      CollectDrop(log, found.value.cookie);
      DropNothing(found.value.cookie);
      StillSubscribed(ready, subs, found.value);
    }
  }

  // ---------- sleeping threads ----------

  /** A thread is told to block, or the recorded waiter is woken. */
  datatype Turn = Sleep(thread: ObjectId) | Rouse

  /** The waiter the set records after these turns. */
  function Recorded(turns: seq<Turn>): Option<ObjectId> {
    if turns == [] || turns[|turns| - 1].Rouse? then None else Some(turns[|turns| - 1].thread)
  }

  /** The threads told to block and not woken since. */
  function Asleep(turns: seq<Turn>): set<ObjectId> {
    if turns == [] then {}
    else
      var n := |turns| - 1;
      match turns[n]
      case Sleep(thread) => Asleep(turns[..n]) + {thread}
      case Rouse => Asleep(turns[..n]) - (if Recorded(turns[..n]).Some? then {Recorded(turns[..n]).value} else {})
  }

  /** A sleeping thread makes no calls. */
  ghost predicate Possible(turns: seq<Turn>) {
    forall i :: 0 <= i < |turns| && turns[i].Sleep? ==> turns[i].thread !in Asleep(turns[..i])
  }

  /** At turn i a thread blocks while another one is recorded. */
  predicate Displaces(turns: seq<Turn>, i: nat) {
    i < |turns| && turns[i].Sleep? && Recorded(turns[..i]).Some?
  }

  lemma Roused(turns: seq<Turn>)
    ensures Recorded(turns + [Rouse]) == None
  {
  }

  lemma RecordedAsleep(turns: seq<Turn>)
    ensures Recorded(turns).Some? ==> Recorded(turns).value in Asleep(turns)
  {
  }

  /** A thread displaced as the recorded waiter is never woken, whatever is posted afterwards. */
  lemma {:induction false} DisplacedForever(turns: seq<Turn>, i: nat, j: nat)
    requires Possible(turns) && Displaces(turns, i) && i < j <= |turns|
    ensures var lost := Recorded(turns[..i]).value; lost in Asleep(turns[..j]) && Recorded(turns[..j]) != Some(lost)
    decreases j
  {
    var lost, shorter := Recorded(turns[..i]).value, turns[..j - 1];
    assert turns[..j][..j - 1] == shorter;
    if j == i + 1 {
      RecordedAsleep(turns[..i]);
    } else {
      DisplacedForever(turns, i, j - 1);
    }
  }

  /**
    No wakeup is lost: every sleeping thread is the one the next wakeup goes to, exactly if no thread ever
    blocked while another one was recorded.
  */
  lemma {:induction false} NoLostWakeup(turns: seq<Turn>)
    requires Possible(turns)
    ensures (forall x :: x in Asleep(turns) ==> Recorded(turns) == Some(x)) <==> (forall i :: !Displaces(turns, i))
  {
    if i: nat :| Displaces(turns, i) {
      DisplacedForever(turns, i, |turns|);
      assert turns[..|turns|] == turns;
    } else {
      NoneDisplaced(turns);
    }
  }

  lemma {:induction false} NoneDisplaced(turns: seq<Turn>)
    requires forall i :: !Displaces(turns, i)
    ensures forall x :: x in Asleep(turns) ==> Recorded(turns) == Some(x)
  {
    if turns != [] {
      var n := |turns| - 1;
      forall i: nat ensures !Displaces(turns[..n], i) {
        assert !Displaces(turns, i) && (i <= n ==> turns[..n][..i] == turns[..i]);
      }
      NoneDisplaced(turns[..n]);
      assert !Displaces(turns, n);
    }
  }

  class WaitSet {

    var subscriptions: seq<Subscription>
    var ready: seq<Event>
    var waiting: Option<ObjectId>
    var closed: bool
    ghost var log: seq<Event>
    ghost var turns: seq<Turn>

    ghost predicate Valid()
      reads this
    {
      && OneEach(subscriptions) && |subscriptions| <= MAX_SUBSCRIPTIONS
      && ready == Collect(log) && Subscribed(ready, subscriptions)
      && (waiting.Some? ==> ready == []) && waiting == Recorded(turns)
      && (closed ==> subscriptions == [] && ready == [] && waiting == None)
    }

    constructor ()
      ensures Valid() && !closed && subscriptions == [] && log == [] && waiting == None && turns == []
    {
      subscriptions, ready, waiting, closed, log, turns := [], [], None, false, [], [];
    }

    method AddSubscription(target: ObjectId, cookie: nat, signals: bv32) returns (r: Result<(), WaitSetError>)
      requires Valid()
      modifies this`subscriptions
      ensures Valid()
      ensures r == Err(Closed) <==> closed
      ensures r == Err(Full) <==> !closed && |old(subscriptions)| == MAX_SUBSCRIPTIONS
      ensures r == Err(AlreadyRegistered) <==>
        !closed && |old(subscriptions)| < MAX_SUBSCRIPTIONS && Lookup(old(subscriptions), target).Some?
      ensures r.Ok? <==> !closed && |old(subscriptions)| < MAX_SUBSCRIPTIONS && Lookup(old(subscriptions), target).None?
      ensures subscriptions == if r.Ok? then old(subscriptions) + [Subscription(target, cookie, signals)] else old(subscriptions)
    {
      if closed {
        return Err(Closed);
      }
      if |subscriptions| >= MAX_SUBSCRIPTIONS {
        return Err(Full);
      }
      if Lookup(subscriptions, target).Some? {
        return Err(AlreadyRegistered);
      }
      hide Collect, Lookup;
      subscriptions := subscriptions + [Subscription(target, cookie, signals)];
      r := Ok(());
    }

    /** Unsubscribe an object; pending signals under its cookie go with it. */
    method RemoveSubscription(target: ObjectId) returns (r: Result<(), WaitSetError>)
      requires Valid()
      modifies this
      ensures Valid() && closed == old(closed) && waiting == old(waiting) && turns == old(turns)
      ensures r == Err(Closed) <==> closed
      ensures r == Err(NotFound) <==> !closed && Lookup(old(subscriptions), target).None?
      ensures r.Ok? <==> !closed && Lookup(old(subscriptions), target).Some?
      ensures r.Err? ==> subscriptions == old(subscriptions) && log == old(log)
      ensures r.Ok? ==> subscriptions == Unsubscribe(old(subscriptions), target)
      ensures r.Ok? ==> log == Drop(old(log), Lookup(old(subscriptions), target).value.cookie)
    {
      hide Collect, Lookup, Unsubscribe, Drop, OneEach, Subscribed;
      if closed {
        return Err(Closed);
      }
      var found := Lookup(subscriptions, target);
      Unsubscribed(log, ready, subscriptions, target);
      var before := |subscriptions|;
      subscriptions := Unsubscribe(subscriptions, target);
      if |subscriptions| < before {
        var cookie := found.value.cookie;
        ready := Drop(ready, cookie);
        log := Drop(log, cookie);
        r := Ok(());
      } else {
        r := Err(NotFound);
      }
    }

    /** Post signals for an object: what matches is kept for the next drain, and a recorded waiter is woken. */
    method PostEvent(target: ObjectId, active: bv32) returns (wake: Option<ObjectId>)
      requires Valid()
      modifies this`ready, this`waiting, this`log, this`turns
      ensures Valid()
      ensures var sub := Lookup(subscriptions, target);
        if sub.Some? && Overlap(sub.value.signals, active) != 0
        then log == old(log) + [Event(sub.value.cookie, Overlap(sub.value.signals, active))] && wake == old(waiting) && waiting == None
        else log == old(log) && wake == None && waiting == old(waiting)
      ensures forall i: nat :: |log| > |old(log)| ==>
        (Has(log[|log| - 1].signals, i) <==> Has(Lookup(subscriptions, target).value.signals, i) && Has(active, i))
      ensures turns == if wake.Some? then old(turns) + [Rouse] else old(turns)
    {
      hide Lookup, Find, Union, Overlap, Has, AllSignals, FirstPosts, Recorded, OneEach, Subscribed, Collect;
      if closed {
        return None;
      }
      CollectMeans(log);
      var sub := Lookup(subscriptions, target);
      Roused(turns);
      wake := None;
      if sub.Some? {
        var matched := Overlap(sub.value.signals, active);
        if matched != 0 {
          EventsBound(ready, subscriptions);
          ghost var post := Event(sub.value.cookie, matched);
          CollectOne(log, post);
          MergeSubscribed(ready, subscriptions, post, sub.value);
          var existing := Find(ready, sub.value.cookie);
          if existing.Some? {
            var i := existing.value;
            ready := ready[i := Event(sub.value.cookie, Union(ready[i].signals, matched))];
          } else if |ready| < MAX_EVENTS {
            ready := ready + [Event(sub.value.cookie, matched)];
          }
          log := log + [post];
          wake := waiting;
          if waiting.Some? {
            turns := turns + [Rouse];
          }
          waiting := None;
        }
      }
    }

    /** Drain what is ready, or record the waiter. */
    method Wait(thread: ObjectId) returns (r: Result<Result<seq<Event>, ObjectId>, WaitSetError>)
      requires Valid()
      modifies this`ready, this`waiting, this`log, this`turns
      ensures Valid()
      ensures r == Err(Closed) <==> closed
      ensures r.Err? ==> r.error == Closed && log == old(log) && waiting == old(waiting)
      ensures r.Ok? && r.value.Ok? ==> r.value.value == Collect(old(log)) != [] && log == [] && waiting == old(waiting)
      ensures r.Ok? && r.value.Err? ==> r.value.error == thread && Collect(old(log)) == [] && log == old(log) && waiting == Some(thread)
      ensures r.Ok? && r.value.Ok? ==>
        && (forall k, i: nat :: 0 <= k < |r.value.value| ==>
              (Has(r.value.value[k].signals, i) <==> Posted(old(log), r.value.value[k].cookie, i)))
        && (forall j :: 0 <= j < |old(log)| ==> Find(r.value.value, old(log)[j].cookie).Some?)
        && DistinctCookies(r.value.value)
      ensures turns == if r.Ok? && r.value.Err? then old(turns) + [Sleep(thread)] else old(turns)
    {
      hide Collect, Posted, Has, Find, OneEach, FirstPosts, AllSignals;
      CollectBits(log);
      CollectMeans(log);
      NothingPosted();
      if closed {
        return Err(Closed);
      }
      if ready != [] {
        var events := ready;
        ready, log := [], [];
        r := Ok(Ok(events));
      } else {
        waiting := Some(thread);
        turns := turns + [Sleep(thread)];
        r := Ok(Err(thread));
      }
    }

    method Close() returns (wake: Option<ObjectId>)
      requires Valid()
      modifies this
      ensures Valid() && closed && wake == old(waiting) && log == []
      ensures turns == if wake.Some? then old(turns) + [Rouse] else old(turns)
    {
      closed := true;
      subscriptions, ready, log := [], [], [];
      wake := waiting;
      if waiting.Some? {
        turns := turns + [Rouse];
      }
      waiting := None;
    }
  }

  /**
    Two threads wait for the same signal. The post wakes the second one; the first is not woken by that
    post, by a later one or by closing the set.
  */
  method TwoWaiters(first: ObjectId, second: ObjectId, target: ObjectId) returns (waits: WaitSet, wakes: seq<Option<ObjectId>>)
    requires first != second
    ensures wakes == [Some(second), None, None] && waits.closed
    ensures Possible(waits.turns) && Asleep(waits.turns) == {first}
  {
    hide Collect, Lookup, Subscribed, OneEach, Recorded, Overlap, Has, Posted, Find, DistinctCookies, Possible, Asleep;
    waits := new WaitSet();
    NothingPosted();
    var added := waits.AddSubscription(target, 7, 1);
    assert [] + [Subscription(target, 7, 1)] == [Subscription(target, 7, 1)];
    var a := waits.Wait(first);
    var b := waits.Wait(second);
    OneSubscription(target, 7, 1);
    var w0 := waits.PostEvent(target, 1);
    var w1 := waits.PostEvent(target, 1);
    var w2 := waits.Close();
    wakes := [w0, w1, w2];
    TwoAsleep(first, second, waits.turns);
  }

  lemma NothingPosted()
    ensures Collect([]) == [] && forall target :: Lookup([], target) == None
  {
  }

  lemma OneSubscription(target: ObjectId, cookie: nat, signals: bv32)
    ensures Lookup([Subscription(target, cookie, signals)], target) == Some(Subscription(target, cookie, signals))
    ensures Overlap(signals, signals) == signals
  {
  }

  lemma TwoAsleep(first: ObjectId, second: ObjectId, turns: seq<Turn>)
    requires first != second && turns == [Sleep(first), Sleep(second), Rouse]
    ensures Possible(turns) && Asleep(turns) == {first}
  {
    assert turns[..2][..1] == [Sleep(first)] && turns[..1] == [Sleep(first)] && turns[..0] == [] && [Sleep(first)][..0] == [];
    assert Asleep([Sleep(first)]) == {first};
    assert Asleep(turns[..2]) == {first, second};
  }

  lemma CollectOne(log: seq<Event>, post: Event)
    ensures Collect(log + [post]) == Merge(Collect(log), post)
  {
    assert (log + [post])[..|log|] == log;
  }

  lemma DropNothing(cookie: nat)
    ensures Drop([], cookie) == []
  {
  }

  lemma StillSubscribed(events: seq<Event>, subs: seq<Subscription>, gone: Subscription)
    requires Subscribed(events, subs) && OneEach(subs) && gone in subs
    ensures Subscribed(Drop(events, gone.cookie), Unsubscribe(subs, gone.target))
  {
    var fewer := Unsubscribe(subs, gone.target);
    UnsubscribeMembers(subs, gone.target);
    hide Drop, Unsubscribe;
    var r := Drop(events, gone.cookie);
    forall i | 0 <= i < |r| ensures HasCookie(fewer, r[i].cookie) {
      var j :| 0 <= j < |events| && events[j] == r[i];
      assert HasCookie(subs, events[j].cookie);
      var s :| s in subs && s.cookie == events[j].cookie;
      var k :| 0 <= k < |subs| && subs[k] == s;
      var l :| 0 <= l < |subs| && subs[l] == gone;
      assert k != l && s.target != gone.target;
      assert s in fewer;
    }
  }

  lemma MergeSubscribed(events: seq<Event>, subs: seq<Subscription>, post: Event, sub: Subscription)
    requires Subscribed(events, subs) && sub in subs && sub.cookie == post.cookie
    ensures Subscribed(Merge(events, post), subs)
  {
    hide Find, Union;
    var r := Merge(events, post);
    forall i | 0 <= i < |r| ensures HasCookie(subs, r[i].cookie) {
      if i < |events| && r[i] == events[i] {
        assert HasCookie(subs, events[i].cookie);
      }
    }
  }
}

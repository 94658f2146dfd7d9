/** The thread-safe queue of src/tsqueue.hpp as a protocol: any number of threads, each between the
    atomic steps of `enqueue` (lines 23-27) or `dequeue` (lines 31-42), under one mutex and one
    condition variable.  A wait may also end without a notification. */
module TSQueue {
  import opened Wrappers

  type Tid = nat

  // Where a thread stands
  datatype Place<T> =
    | Idle
    | EnqLock(item: T)       // enqueue: about to take the mutex
    | EnqPush(item: T)       // holds it; about to push
    | EnqNotify              // pushed; about to notify one waiter
    | EnqUnlock              // about to release the mutex and return
    | DeqLock                // dequeue: about to take the mutex
    | DeqTest                // holds it; about to test for emptiness
    | DeqWaiting             // inside wait, mutex released, blocked
    | DeqNotified            // notified; about to take the mutex again
    | DeqSpurious            // woken without a notification; about to take the mutex again
    | DeqPop                 // found an item; about to take it out
    | DeqReturn(val: T)      // took it; about to release the mutex and return it

  // `pushed` and `returned` record the whole history, in the order of the steps.
  datatype State<T> = State(q: seq<T>, owner: Option<Tid>, at: map<Tid, Place<T>>, pushed: seq<T>, returned: seq<T>)

  datatype Action<T> =
    | CallEnqueue(t: Tid, item: T)
    | CallDequeue(t: Tid)
    | Lock(t: Tid)
    | Push(t: Tid)
    | Notify(t: Tid, waiter: Option<Tid>)
    | Unlock(t: Tid)
    | Test(t: Tid)
    | WakeSpuriously(t: Tid)
    | Pop(t: Tid)
    | Return(t: Tid)

  predicate Waiting<T>(s: State<T>, t: Tid) { t in s.at && s.at[t].DeqWaiting? }

  function Waiters<T>(s: State<T>): set<Tid> { set t | t in s.at && s.at[t].DeqWaiting? }
  function Notified<T>(s: State<T>): set<Tid> { set t | t in s.at && s.at[t].DeqNotified? }

  // A consumer about to take the mutex and look at the queue
  predicate WantsToTest<T>(p: Place<T>) { p.DeqLock? || p.DeqNotified? || p.DeqSpurious? }

  // The action can happen now.  A notification wakes one waiter if there is any.
  predicate Enabled<T>(s: State<T>, a: Action<T>)
  {
    match a
    case CallEnqueue(t, _) => t in s.at && s.at[t].Idle?
    case CallDequeue(t) => t in s.at && s.at[t].Idle?
    case Lock(t) => t in s.at && s.owner == None && (s.at[t].EnqLock? || WantsToTest(s.at[t]))
    case Push(t) => t in s.at && s.at[t].EnqPush?
    case Notify(t, waiter) =>
      && t in s.at && s.at[t].EnqNotify?
      && (match waiter
          case None => Waiters(s) == {}
          case Some(u) => Waiting(s, u))
    case Unlock(t) => t in s.at && s.at[t].EnqUnlock?
    case Test(t) => t in s.at && s.at[t].DeqTest?
    case WakeSpuriously(t) => Waiting(s, t)
    case Pop(t) => t in s.at && s.at[t].DeqPop? && s.q != []
    case Return(t) => t in s.at && s.at[t].DeqReturn?
  }

  function Performed<T>(s: State<T>, a: Action<T>): State<T>
    requires Enabled(s, a)
  {
    match a
    case CallEnqueue(t, item) => s.(at := s.at[t := EnqLock(item)])
    case CallDequeue(t) => s.(at := s.at[t := DeqLock])
    case Lock(t) => s.(owner := Some(t), at := s.at[t := if s.at[t].EnqLock? then EnqPush(s.at[t].item) else DeqTest])
    case Push(t) => s.(q := s.q + [s.at[t].item], pushed := s.pushed + [s.at[t].item], at := s.at[t := EnqNotify])
    case Notify(t, waiter) =>
      (match waiter
       case None => s.(at := s.at[t := EnqUnlock])
       case Some(u) => s.(at := s.at[t := EnqUnlock][u := DeqNotified]))
    case Unlock(t) => s.(owner := None, at := s.at[t := Idle])
    case Test(t) =>
      if s.q == [] then s.(owner := None, at := s.at[t := DeqWaiting]) else s.(at := s.at[t := DeqPop])
    case WakeSpuriously(t) => s.(at := s.at[t := DeqSpurious])
    case Pop(t) => s.(q := s.q[1..], at := s.at[t := DeqReturn(s.q[0])])
    case Return(t) => s.(owner := None, returned := s.returned + [s.at[t].val], at := s.at[t := Idle])
  }

  // The steps during which a thread holds the mutex
  predicate Inside<T>(p: Place<T>)
  {
    p.EnqPush? || p.EnqNotify? || p.EnqUnlock? || p.DeqTest? || p.DeqPop? || p.DeqReturn?
  }

  // The item the mutex holder has taken out but not returned yet
  function InHand<T>(s: State<T>): seq<T>
  {
    if s.owner.Some? && s.owner.value in s.at && s.at[s.owner.value].DeqReturn? then [s.at[s.owner.value].val] else []
  }

  // One for a mutex holder that is on its way to take an item, or to notify a waiter of one
  function OnItsWay<T>(s: State<T>): nat
  {
    if s.owner.Some? && s.owner.value in s.at
        && (s.at[s.owner.value].DeqTest? || s.at[s.owner.value].DeqPop? || s.at[s.owner.value].EnqNotify?)
    then 1 else 0
  }

  // Mutual exclusion: a thread is inside exactly if it owns the mutex.
  ghost predicate Exclusive<T>(s: State<T>)
  {
    && (s.owner.Some? ==> s.owner.value in s.at && Inside(s.at[s.owner.value]))
    && (forall t :: t in s.at && Inside(s.at[t]) ==> s.owner == Some(t))
  }

  // An item found stays there until its finder takes it.
  ghost predicate Found<T>(s: State<T>)
  {
    forall t :: t in s.at && s.at[t].DeqPop? ==> s.q != []
  }

  // What came back, what is in hand and what is queued are what went in, in that order.
  ghost predicate InOrder<T>(s: State<T>)
  {
    s.returned + InHand(s) + s.q == s.pushed
  }

  // While a consumer is blocked, every queued item has a notified consumer, or the mutex holder, for it.
  ghost predicate Covered<T>(s: State<T>)
  {
    Waiters(s) != {} ==> |s.q| <= |Notified(s)| + OnItsWay(s)
  }

  ghost predicate Inv<T>(s: State<T>)
  {
    Exclusive(s) && Found(s) && InOrder(s) && Covered(s)
  }

  // No call in progress, nothing queued
  ghost predicate Initial<T>(s: State<T>)
  {
    s.q == [] && s.owner == None && s.pushed == [] && s.returned == [] && forall t :: t in s.at ==> s.at[t].Idle?
  }

  // ----- one step -----

  lemma StepExclusive<T>(s: State<T>, a: Action<T>)
    requires Inv(s) && Enabled(s, a)
    ensures Exclusive(Performed(s, a)) && Found(Performed(s, a))
  {
  }

  lemma StepInOrder<T>(s: State<T>, a: Action<T>)
    requires Inv(s) && Enabled(s, a)
    ensures InOrder(Performed(s, a))
  {
  }

  // How one thread's move changes the sets of blocked and of notified threads
  lemma WaitersMove<T>(s: State<T>, s': State<T>, t: Tid, p: Place<T>)
    requires t in s.at && s'.at == s.at[t := p]
    ensures Waiters(s') == Waiters(s) - {t} + (if p.DeqWaiting? then {t} else {})
  {
  }

  lemma NotifiedMove<T>(s: State<T>, s': State<T>, t: Tid, p: Place<T>)
    requires t in s.at && s'.at == s.at[t := p]
    ensures Notified(s') == Notified(s) - {t} + (if p.DeqNotified? then {t} else {})
    ensures t in Notified(s) <==> s.at[t].DeqNotified?
  {
  }

  function NotifiedChange<T>(from: Place<T>, to: Place<T>): int
  {
    (if to.DeqNotified? then 1 else 0) - (if from.DeqNotified? then 1 else 0)
  }

  lemma NotifiedCount<T>(s: State<T>, s': State<T>, t: Tid, p: Place<T>)
    requires t in s.at && s'.at == s.at[t := p]
    ensures |Notified(s')| == |Notified(s)| + NotifiedChange(s.at[t], p)
  {
    NotifiedMove(s, s', t, p);
    hide Notified;
    var rest := Notified(s) - {t};
    assert |rest| == |Notified(s)| - (if t in Notified(s) then 1 else 0);
    assert Notified(s') == rest + (if p.DeqNotified? then {t} else {});
  }

  // A move that blocks only on an empty queue, and pays for every item it adds or stops covering,
  // keeps the queue covered.
  lemma MoveCovered<T>(s: State<T>, s': State<T>, t: Tid, p: Place<T>)
    requires Covered(s) && t in s.at && s'.at == s.at[t := p]
    requires if p.DeqWaiting? then s'.q == []
             else |s'.q| - OnItsWay(s') - NotifiedChange(s.at[t], p) <= |s.q| - OnItsWay(s)
    ensures Covered(s')
  {
    WaitersMove(s, s', t, p);
    NotifiedCount(s, s', t, p);
    hide Notified, Waiters, OnItsWay, NotifiedChange;
  }

  lemma NotifyCovered<T>(s: State<T>, t: Tid, waiter: Option<Tid>)
    requires Inv(s) && Enabled(s, Notify(t, waiter))
    ensures Covered(Performed(s, Notify(t, waiter)))
  {
    var s' := Performed(s, Notify(t, waiter));
    var m := s.(at := s.at[t := EnqUnlock]);
    WaitersMove(s, m, t, EnqUnlock);
    NotifiedCount(s, m, t, EnqUnlock);
    match waiter {
      case None =>
      case Some(u) =>
        WaitersMove(m, s', u, DeqNotified);
        NotifiedCount(m, s', u, DeqNotified);
        assert u in Waiters(s);
        assert OnItsWay(s) == 1;
        hide Notified, Waiters;
    }
  }

  lemma StepCovered<T>(s: State<T>, a: Action<T>)
    requires Inv(s) && Enabled(s, a)
    ensures Covered(Performed(s, a))
  {
    if a.Notify? {
      NotifyCovered(s, a.t, a.waiter);
    } else {
      hide Notified, Waiters, Covered, InOrder;
      var s' := Performed(s, a);
      assert s'.at == s.at[a.t := s'.at[a.t]];
      MoveCovered(s, s', a.t, s'.at[a.t]);
    }
  }

  // ----- runs -----

  // The state a sequence of actions leads to; none if one of them cannot happen
  function Run<T>(s: State<T>, actions: seq<Action<T>>): Option<State<T>>
    decreases |actions|
  {
    if actions == [] then Some(s)
    else
      match Run(s, actions[..|actions| - 1])
      case None => None
      case Some(d) => if Enabled(d, actions[|actions| - 1]) then Some(Performed(d, actions[|actions| - 1])) else None
  }

  lemma {:induction false} RunKeepsInv<T>(s: State<T>, actions: seq<Action<T>>)
    requires Inv(s) && Run(s, actions).Some?
    ensures Inv(Run(s, actions).value)
    decreases |actions|
  {
    hide Inv, Performed, Enabled;
    if actions != [] {
      var prefix, last := actions[..|actions| - 1], actions[|actions| - 1];
      RunKeepsInv(s, prefix);
      StepKeepsInv(Run(s, prefix).value, last);
    }
  }

  lemma StepKeepsInv<T>(s: State<T>, a: Action<T>)
    requires Inv(s) && Enabled(s, a)
    ensures Inv(Performed(s, a))
  {
    StepExclusive(s, a);
    StepInOrder(s, a);
    StepCovered(s, a);
  }

  lemma InitialInv<T>(s: State<T>)
    requires Initial(s)
    ensures Inv(s)
  {
  }

  // Under every interleaving of any number of threads: items come back once each and in the order
  // they went in, at most one of them being in the hands of a consumer that holds the mutex.
  lemma FirstInFirstOut<T>(s: State<T>, actions: seq<Action<T>>)
    requires Initial(s) && Run(s, actions).Some?
    ensures var d := Run(s, actions).value;
            d.returned + InHand(d) + d.q == d.pushed && (d.owner == None ==> InHand(d) == [])
  {
    InitialInv(s);
    RunKeepsInv(s, actions);
  }

  // No lost wakeup: whenever the mutex is free and a consumer is blocked in `wait`, queued items do
  // not outnumber the consumers notified but not yet resumed.
  lemma NoLostWakeup<T>(s: State<T>, actions: seq<Action<T>>)
    requires Initial(s) && Run(s, actions).Some?
    ensures var d := Run(s, actions).value;
            d.owner == None && Waiters(d) != {} ==> |d.q| <= |Notified(d)|
  {
    InitialInv(s);
    RunKeepsInv(s, actions);
  }

  // ----- what the callers see -----

  // The item of the thread's last call, if that was of `enqueue`
  function LastCall<T>(actions: seq<Action<T>>, t: Tid): Option<T>
    decreases |actions|
  {
    if actions == [] then None
    else
      match actions[|actions| - 1]
      case CallEnqueue(u, item) => if u == t then Some(item) else LastCall(actions[..|actions| - 1], t)
      case CallDequeue(u) => if u == t then None else LastCall(actions[..|actions| - 1], t)
      case _ => LastCall(actions[..|actions| - 1], t)
  }

  // The items of the calls of `enqueue`, in the order in which their threads took the mutex
  function LockOrder<T>(actions: seq<Action<T>>): seq<T>
    decreases |actions|
  {
    if actions == [] then []
    else
      var prefix, last := actions[..|actions| - 1], actions[|actions| - 1];
      if last.Lock? && LastCall(prefix, last.t).Some? then LockOrder(prefix) + [LastCall(prefix, last.t).value]
      else LockOrder(prefix)
  }

  // The items of all calls of `enqueue`, and the number of calls of `dequeue`
  ghost function EnqueueCalls<T>(actions: seq<Action<T>>): multiset<T>
    decreases |actions|
  {
    if actions == [] then multiset{}
    else
      EnqueueCalls(actions[..|actions| - 1]) + Asked(actions[|actions| - 1])
  }

  function DequeueCalls<T>(actions: seq<Action<T>>): nat
    decreases |actions|
  {
    if actions == [] then 0
    else DequeueCalls(actions[..|actions| - 1]) + if actions[|actions| - 1].CallDequeue? then 1 else 0
  }

  // The item of a mutex holder that is about to push it
  function Pushing<T>(s: State<T>): seq<T>
  {
    if s.owner.Some? && s.owner.value in s.at && s.at[s.owner.value].EnqPush? then [s.at[s.owner.value].item] else []
  }

  // A thread in `enqueue` that has not pushed yet carries the item of its call; one in `dequeue` was
  // called for that.
  ghost predicate Carried<T>(s: State<T>, actions: seq<Action<T>>)
  {
    forall t :: t in s.at ==>
      match s.at[t]
      case EnqLock(item) => LastCall(actions, t) == Some(item)
      case EnqPush(item) => LastCall(actions, t) == Some(item)
      case DeqLock => LastCall(actions, t) == None
      case DeqTest => LastCall(actions, t) == None
      case DeqWaiting => LastCall(actions, t) == None
      case DeqNotified => LastCall(actions, t) == None
      case DeqSpurious => LastCall(actions, t) == None
      case _ => true
  }

  lemma CarriedStep<T>(s: State<T>, actions: seq<Action<T>>, a: Action<T>)
    requires Inv(s) && Enabled(s, a) && Carried(s, actions)
    ensures Carried(Performed(s, a), actions + [a])
  {
    hide Inv;
    assert (actions + [a])[..|actions|] == actions;
    forall t | t in s.at
      ensures LastCall(actions + [a], t)
              == (if a.CallEnqueue? && a.t == t then Some(a.item)
                  else if a.CallDequeue? && a.t == t then None else LastCall(actions, t))
    {
    }
    hide LastCall;
  }

  // The item that a step brings inside the mutex
  function Locked<T>(s: State<T>, a: Action<T>): seq<T>
    requires Enabled(s, a)
  {
    if a.Lock? && s.at[a.t].EnqLock? then [s.at[a.t].item] else []
  }

  lemma LockOrderStep<T>(s: State<T>, actions: seq<Action<T>>, a: Action<T>)
    requires Enabled(s, a) && Carried(s, actions)
    ensures LockOrder(actions + [a]) == LockOrder(actions) + Locked(s, a)
  {
    hide LastCall;
    assert (actions + [a])[..|actions|] == actions;
  }

  lemma PushingStep<T>(s: State<T>, a: Action<T>)
    requires Inv(s) && Enabled(s, a)
    ensures Performed(s, a).pushed + Pushing(Performed(s, a)) == s.pushed + Pushing(s) + Locked(s, a)
  {
    hide InOrder, Covered, Found;
  }

  lemma {:induction false} RunLocks<T>(s: State<T>, actions: seq<Action<T>>)
    requires Initial(s) && Run(s, actions).Some?
    ensures var d := Run(s, actions).value;
            Inv(d) && Carried(d, actions) && LockOrder(actions) == d.pushed + Pushing(d)
    decreases |actions|
  {
    hide Inv, Performed, Enabled, Carried, LockOrder, Pushing, Locked;
    if actions == [] {
      NothingCalled(s);
    } else {
      var prefix, last := actions[..|actions| - 1], actions[|actions| - 1];
      RunLocks(s, prefix);
      var d := Run(s, prefix).value;
      assert actions == prefix + [last];
      StepKeepsInv(d, last);
      CarriedStep(d, prefix, last);
      LockOrderStep(d, prefix, last);
      PushingStep(d, last);
    }
  }

  lemma NothingCalled<T>(s: State<T>)
    requires Initial(s)
    ensures Inv(s) && Carried(s, []) && LockOrder<T>([]) == s.pushed + Pushing(s)
  {
  }

  // First in, first out, told from the calls: what came back, what is in hand, what is queued and what is
  // about to be pushed are the items of the calls of `enqueue`, once each, in the order in which their
  // threads took the mutex.
  lemma ItemsInLockOrder<T>(s: State<T>, actions: seq<Action<T>>)
    requires Initial(s) && Run(s, actions).Some?
    ensures var d := Run(s, actions).value;
            d.returned + InHand(d) + d.q + Pushing(d) == LockOrder(actions)
  {
    RunLocks(s, actions);
  }

  // The items of calls of `enqueue` that have not taken the mutex yet
  ghost function Outside<T>(at: map<Tid, Place<T>>, n: nat): multiset<T>
  {
    if n == 0 then multiset{} else Outside(at, n - 1) + OutsideAt(at, n - 1)
  }

  ghost function OutsideAt<T>(at: map<Tid, Place<T>>, t: Tid): multiset<T>
  {
    if t in at then OutsideItem(at[t]) else multiset{}
  }

  ghost function OutsideItem<T>(p: Place<T>): multiset<T>
  {
    if p.EnqLock? then multiset{p.item} else multiset{}
  }

  // The threads in `dequeue`
  function Dequeuing<T>(at: map<Tid, Place<T>>, n: nat): nat
  {
    if n == 0 then 0
    else Dequeuing(at, n - 1) + if n - 1 in at && (InDequeue(at[n - 1]) || at[n - 1].DeqReturn?) then 1 else 0
  }

  lemma {:induction false} OutsideMove<T>(at: map<Tid, Place<T>>, t: Tid, p: Place<T>, n: nat)
    requires t in at
    ensures t < n ==> Outside(at[t := p], n) + OutsideItem(at[t]) == Outside(at, n) + OutsideItem(p)
    ensures t >= n ==> Outside(at[t := p], n) == Outside(at, n)
  {
    hide OutsideItem, OutsideAt;
    if n > 0 {
      OutsideMove(at, t, p, n - 1);
      PlaceMove(at, t, p, n - 1);
      if t < n - 1 {
        AddToBoth(Outside(at[t := p], n - 1), OutsideItem(at[t]), Outside(at, n - 1), OutsideItem(p),
                  OutsideAt(at, n - 1));
      }
    }
  }

  lemma PlaceMove<T>(at: map<Tid, Place<T>>, t: Tid, p: Place<T>, u: Tid)
    requires t in at
    ensures OutsideAt(at[t := p], u) == (if u == t then OutsideItem(p) else OutsideAt(at, u))
    ensures OutsideAt(at, t) == OutsideItem(at[t])
  {
  }

  lemma AddToBoth<T>(x: multiset<T>, a: multiset<T>, y: multiset<T>, b: multiset<T>, c: multiset<T>)
    requires x + a == y + b
    ensures x + c + a == y + c + b
  {
    assert x + c + a == (x + a) + c;
    assert y + c + b == (y + b) + c;
  }

  lemma {:induction false} DequeuingMove<T>(at: map<Tid, Place<T>>, t: Tid, p: Place<T>, n: nat)
    requires t in at
    ensures Dequeuing(at[t := p], n) == Dequeuing(at, n)
            + (if t < n && (InDequeue(p) || p.DeqReturn?) then 1 else 0)
            - (if t < n && (InDequeue(at[t]) || at[t].DeqReturn?) then 1 else 0)
  {
    hide InDequeue;
    if n > 0 {
      DequeuingMove(at, t, p, n - 1);
    }
  }

  // What one step does to these accounts
  lemma OutsideStep<T>(s: State<T>, a: Action<T>, n: nat)
    requires Enabled(s, a) && Numbered(s, n)
    ensures Numbered(Performed(s, a), n)
    ensures Outside(Performed(s, a).at, n) + multiset(Locked(s, a)) == Outside(s.at, n) + Asked(a)
  {
    hide Outside, OutsideItem, Asked, Locked;
    StepItems(s, a);
    var d := Performed(s, a);
    if a.Notify? && a.waiter.Some? {
      var m := s.at[a.t := EnqUnlock];
      OutsideMove(s.at, a.t, EnqUnlock, n);
      OutsideMove(m, a.waiter.value, DeqNotified, n);
    } else {
      assert d.at == s.at[a.t := d.at[a.t]];
      OutsideMove(s.at, a.t, d.at[a.t], n);
    }
  }

  lemma StepItems<T>(s: State<T>, a: Action<T>)
    requires Enabled(s, a)
    ensures OutsideItem(s.at[a.t]) == multiset(Locked(s, a)) && OutsideItem(Performed(s, a).at[a.t]) == Asked(a)
    ensures OutsideItem<T>(EnqUnlock) == multiset{} && OutsideItem<T>(DeqNotified) == multiset{}
    ensures OutsideItem<T>(DeqWaiting) == multiset{}
    ensures a.Notify? ==> multiset(Locked(s, a)) == multiset{} && Asked(a) == multiset{}
  {
  }

  lemma DequeuingStep<T>(s: State<T>, a: Action<T>, n: nat)
    requires Enabled(s, a) && Numbered(s, n)
    ensures Dequeuing(Performed(s, a).at, n) + |Performed(s, a).returned|
         == Dequeuing(s.at, n) + |s.returned| + if a.CallDequeue? then 1 else 0
  {
    hide Dequeuing;
    var d := Performed(s, a);
    if a.Notify? && a.waiter.Some? {
      var m := s.at[a.t := EnqUnlock];
      DequeuingMove(s.at, a.t, EnqUnlock, n);
      DequeuingMove(m, a.waiter.value, DeqNotified, n);
    } else {
      assert d.at == s.at[a.t := d.at[a.t]];
      DequeuingMove(s.at, a.t, d.at[a.t], n);
    }
  }

  // The item that a step asks to be queued
  ghost function Asked<T>(a: Action<T>): multiset<T>
  {
    if a.CallEnqueue? then multiset{a.item} else multiset{}
  }


  // No call is lost: the items of all calls of `enqueue` are those returned, in hand, queued, about to be
  // pushed, or with a thread still outside the mutex; and each call of `dequeue` has returned one item
  // or is still under way.
  lemma {:induction false} CallsAreAccounted<T>(s: State<T>, actions: seq<Action<T>>, n: nat)
    requires Initial(s) && Run(s, actions).Some? && Numbered(s, n)
    ensures var d := Run(s, actions).value;
            && Numbered(d, n)
            && EnqueueCalls(actions) == multiset(d.returned + InHand(d) + d.q + Pushing(d)) + Outside(d.at, n)
            && DequeueCalls(actions) == |d.returned| + Dequeuing(d.at, n)
    decreases |actions|
  {
    hide Inv, Performed, Enabled, Carried, LockOrder, InHand, Pushing, Numbered, Outside, Dequeuing, Locked, Asked;
    ItemsInLockOrder(s, actions);
    if actions == [] {
      NobodyCalls(s, n);
    } else {
      var prefix, last := actions[..|actions| - 1], actions[|actions| - 1];
      var d := Run(s, prefix).value;
      CallsAreAccounted(s, prefix, n);
      ItemsInLockOrder(s, prefix);
      RunLocks(s, prefix);
      OutsideStep(d, last, n);
      DequeuingStep(d, last, n);
      assert actions == prefix + [last];
      LockOrderStep(d, prefix, last);
      var d' := Performed(d, last);
      calc {
        EnqueueCalls(actions);
        multiset(LockOrder(prefix)) + Outside(d.at, n) + Asked(last);
        multiset(LockOrder(prefix)) + (Outside(d.at, n) + Asked(last));
        multiset(LockOrder(prefix)) + (Outside(d'.at, n) + multiset(Locked(d, last)));
        multiset(LockOrder(actions)) + Outside(d'.at, n);
      }
    }
  }

  lemma {:induction false} NobodyCalls<T>(s: State<T>, n: nat)
    requires Initial(s)
    ensures Outside(s.at, n) == multiset{} && Dequeuing(s.at, n) == 0 && s.returned == [] && LockOrder<T>([]) == []
  {
    if n > 0 {
      NobodyCalls(s, n - 1);
    }
  }

  // ----- one thread at a time -----

  // With the mutex free and nobody waiting, a call of `enqueue` by an idle thread can run to its end; then
  // the item is last in the queue, and all threads are where they were.
  lemma EnqueueAlone<T>(s: State<T>, t: Tid, item: T)
    requires t in s.at && s.at[t].Idle? && s.owner == None && Waiters(s) == {}
    ensures Run(s, [CallEnqueue(t, item), Lock(t), Push(t), Notify(t, None), Unlock(t)])
         == Some(s.(q := s.q + [item], pushed := s.pushed + [item]))
  {
    var ops := [CallEnqueue(t, item), Lock(t), Push(t), Notify(t, None), Unlock(t)];
    var s1 := s.(at := s.at[t := EnqLock(item)]);
    var s2 := s.(owner := Some(t), at := s.at[t := EnqPush(item)]);
    var s3 := s.(q := s.q + [item], owner := Some(t), at := s.at[t := EnqNotify], pushed := s.pushed + [item]);
    var s4 := s.(q := s.q + [item], owner := Some(t), at := s.at[t := EnqUnlock], pushed := s.pushed + [item]);
    assert Enabled(s, ops[0]) && Performed(s, ops[0]) == s1;
    assert Enabled(s1, ops[1]) && Performed(s1, ops[1]) == s2;
    assert Enabled(s2, ops[2]) && Performed(s2, ops[2]) == s3;
    WaitersMove(s, s3, t, EnqNotify);
    assert Enabled(s3, ops[3]) && Performed(s3, ops[3]) == s4;
    assert s.at[t := Idle] == s.at;
    assert Enabled(s4, ops[4]) && Performed(s4, ops[4]) == s.(q := s.q + [item], pushed := s.pushed + [item]);
    RunFive(s, ops, s1, s2, s3, s4);
  }

  // A call of `dequeue` by an idle thread, with the mutex free and an item there, returns the first item.
  lemma DequeueAlone<T>(s: State<T>, t: Tid)
    requires t in s.at && s.at[t].Idle? && s.owner == None && s.q != []
    ensures Run(s, [CallDequeue(t), Lock(t), Test(t), Pop(t), Return(t)])
         == Some(s.(q := s.q[1..], returned := s.returned + [s.q[0]]))
  {
    var ops := [CallDequeue(t), Lock(t), Test(t), Pop(t), Return(t)];
    var s1 := s.(at := s.at[t := DeqLock]);
    var s2 := s.(owner := Some(t), at := s.at[t := DeqTest]);
    var s3 := s.(owner := Some(t), at := s.at[t := DeqPop]);
    var s4 := s.(q := s.q[1..], owner := Some(t), at := s.at[t := DeqReturn(s.q[0])]);
    assert Enabled(s, ops[0]) && Performed(s, ops[0]) == s1;
    assert Enabled(s1, ops[1]) && Performed(s1, ops[1]) == s2;
    assert Enabled(s2, ops[2]) && Performed(s2, ops[2]) == s3;
    assert Enabled(s3, ops[3]) && Performed(s3, ops[3]) == s4;
    assert s.at[t := Idle] == s.at;
    assert Enabled(s4, ops[4]) && Performed(s4, ops[4]) == s.(q := s.q[1..], returned := s.returned + [s.q[0]]);
    RunFive(s, ops, s1, s2, s3, s4);
  }

  lemma RunFive<T>(s: State<T>, ops: seq<Action<T>>, s1: State<T>, s2: State<T>, s3: State<T>, s4: State<T>)
    requires |ops| == 5
    requires Enabled(s, ops[0]) && Performed(s, ops[0]) == s1 && Enabled(s1, ops[1]) && Performed(s1, ops[1]) == s2
    requires Enabled(s2, ops[2]) && Performed(s2, ops[2]) == s3 && Enabled(s3, ops[3]) && Performed(s3, ops[3]) == s4
    requires Enabled(s4, ops[4])
    ensures Run(s, ops) == Some(Performed(s4, ops[4]))
  {
    hide Enabled, Performed, Run;
    RunNothing(s);
    assert ops[..0] == [];
    RunOne(s, ops, 0, s);
    RunOne(s, ops, 1, s1);
    RunOne(s, ops, 2, s2);
    RunOne(s, ops, 3, s3);
    RunOne(s, ops, 4, s4);
    assert ops[..5] == ops;
  }

  lemma RunNothing<T>(s: State<T>)
    ensures Run(s, []) == Some(s)
  {
  }

  lemma RunOne<T>(s: State<T>, ops: seq<Action<T>>, k: nat, d: State<T>)
    requires k < |ops| && Run(s, ops[..k]) == Some(d) && Enabled(d, ops[k])
    ensures Run(s, ops[..k + 1]) == Some(Performed(d, ops[k]))
  {
    hide Enabled, Performed;
    assert ops[..k + 1][..k] == ops[..k];
  }

  // ----- progress -----

  // Neither a new call nor a spurious wakeup
  predicate IsInternal<T>(a: Action<T>) { !a.CallEnqueue? && !a.CallDequeue? && !a.WakeSpuriously? }

  predicate Internal<T>(actions: seq<Action<T>>)
  {
    forall i :: 0 <= i < |actions| ==> IsInternal(actions[i])
  }

  // The steps a thread has left, those of a consumer that its notification wakes included
  function Weight<T>(p: Place<T>): nat
  {
    match p
    case Idle => 0
    case EnqLock(_) => 8
    case EnqPush(_) => 7
    case EnqNotify => 6
    case EnqUnlock => 1
    case DeqLock => 4
    case DeqTest => 3
    case DeqWaiting => 0
    case DeqNotified => 4
    case DeqSpurious => 4
    case DeqPop => 2
    case DeqReturn(_) => 1
  }

  // The weight of all threads with numbers below n
  function Total<T>(at: map<Tid, Place<T>>, n: nat): (w: nat)
    ensures w <= 8 * n
  {
    if n == 0 then 0 else Total(at, n - 1) + if n - 1 in at then Weight(at[n - 1]) else 0
  }

  ghost predicate Numbered<T>(s: State<T>, n: nat) { forall t :: t in s.at ==> t < n }

  lemma {:induction false} TotalMove<T>(at: map<Tid, Place<T>>, t: Tid, p: Place<T>, n: nat)
    requires t in at
    ensures Total(at[t := p], n) == Total(at, n) + if t < n then Weight(p) - Weight(at[t]) else 0
  {
    hide Weight;
    if n > 0 {
      TotalMove(at, t, p, n - 1);
    }
  }

  lemma StepShrinks<T>(s: State<T>, a: Action<T>, n: nat)
    requires Enabled(s, a) && IsInternal(a) && Numbered(s, n)
    ensures Numbered(Performed(s, a), n) && Total(Performed(s, a).at, n) < Total(s.at, n)
  {
    hide Total;
    var s' := Performed(s, a);
    if a.Notify? && a.waiter.Some? {
      TotalMove(s.at, a.t, EnqUnlock, n);
      TotalMove(s.at[a.t := EnqUnlock], a.waiter.value, DeqNotified, n);
    } else {
      assert s'.at == s.at[a.t := s'.at[a.t]];
      TotalMove(s.at, a.t, s'.at[a.t], n);
    }
  }

  // Threads left to themselves come to a stop: n threads take at most 8n steps, whatever the schedule.
  lemma {:induction false} InternalRunsEnd<T>(s: State<T>, actions: seq<Action<T>>, n: nat)
    requires Internal(actions) && Run(s, actions).Some? && Numbered(s, n)
    ensures Numbered(Run(s, actions).value, n)
    ensures |actions| + Total(Run(s, actions).value.at, n) <= Total(s.at, n) <= 8 * n
    decreases |actions|
  {
    hide Enabled, Performed, Total, Numbered, IsInternal;
    if actions != [] {
      var prefix, last := actions[..|actions| - 1], actions[|actions| - 1];
      InternalRunsEnd(s, prefix, n);
      StepShrinks(Run(s, prefix).value, last, n);
    }
  }

  // Nothing is left to do without a new call or a spurious wakeup.
  ghost predicate Stuck<T(!new)>(s: State<T>)
  {
    forall a: Action<T> :: Enabled(s, a) ==> !IsInternal(a)
  }

  // The next step of the thread that holds the mutex
  function OwnersStep<T>(p: Place<T>, t: Tid, waiter: Option<Tid>): Action<T>
    requires Inside(p)
  {
    match p
    case EnqPush(_) => Push(t)
    case EnqNotify => Notify(t, waiter)
    case EnqUnlock => Unlock(t)
    case DeqTest => Test(t)
    case DeqPop => Pop(t)
    case DeqReturn(_) => Return(t)
  }

  lemma AnyWaiter<T>(s: State<T>) returns (waiter: Option<Tid>)
    ensures match waiter case None => Waiters(s) == {} case Some(u) => Waiting(s, u)
  {
    if Waiters(s) == {} {
      waiter := None;
    } else {
      var u :| u in Waiters(s);
      waiter := Some(u);
    }
  }

  // A thread that is neither idle nor blocked always leaves some thread a step to take.
  lemma BusyMeansEnabled<T>(s: State<T>, t: Tid) returns (a: Action<T>)
    requires Inv(s) && t in s.at && !s.at[t].Idle? && !s.at[t].DeqWaiting?
    ensures Enabled(s, a) && IsInternal(a)
  {
    if s.owner == None {
      a := Lock(t);
    } else {
      var o := s.owner.value;
      var waiter := AnyWaiter(s);
      a := OwnersStep(s.at[o], o, waiter);
    }
  }

  // Everything has come to a stop exactly when all threads are idle or blocked; and they are blocked
  // only on an empty queue.
  lemma StuckIff<T(!new)>(s: State<T>)
    requires Inv(s)
    ensures Stuck(s) <==> forall t :: t in s.at ==> s.at[t].Idle? || s.at[t].DeqWaiting?
    ensures Stuck(s) && Waiters(s) != {} ==> s.q == []
  {
    if t: Tid :| t in s.at && !s.at[t].Idle? && !s.at[t].DeqWaiting? {
      var a := BusyMeansEnabled(s, t);
    } else {
      assert Notified(s) == {};
    }
  }

  predicate InDequeue<T>(p: Place<T>)
  {
    p.DeqTest? || p.DeqWaiting? || p.DeqPop? || WantsToTest(p)
  }

  // Some consumer has an item in its hands, or is in `dequeue` while there are items.
  ghost predicate CanServe<T>(s: State<T>)
  {
    exists t :: t in s.at && (s.at[t].DeqReturn? || (InDequeue(s.at[t]) && s.q != []))
  }

  lemma StuckServesNobody<T(!new)>(s: State<T>)
    requires Inv(s) && Stuck(s)
    ensures !CanServe(s)
  {
    StuckIff(s);
    hide Inv, Stuck;
    assert forall t :: t in s.at && s.at[t].DeqWaiting? ==> t in Waiters(s);
  }

  lemma StepServesOrReturns<T>(s: State<T>, a: Action<T>)
    requires Inv(s) && Enabled(s, a) && CanServe(s)
    ensures CanServe(Performed(s, a)) || |Performed(s, a).returned| > |s.returned|
    ensures |Performed(s, a).returned| >= |s.returned|
  {
    var t :| t in s.at && (s.at[t].DeqReturn? || (InDequeue(s.at[t]) && s.q != []));
    var s' := Performed(s, a);
    if !a.Return? {
      var u := if a.Pop? then a.t else t;
      assert u in s'.at && (s'.at[u].DeqReturn? || (InDequeue(s'.at[u]) && s'.q != []));
    }
  }

  lemma {:induction false} RunServesOrReturns<T>(s: State<T>, actions: seq<Action<T>>)
    requires Inv(s) && CanServe(s) && Run(s, actions).Some?
    ensures Inv(Run(s, actions).value)
    ensures CanServe(Run(s, actions).value) || |Run(s, actions).value.returned| > |s.returned|
    ensures |Run(s, actions).value.returned| >= |s.returned|
    decreases |actions|
  {
    hide Inv, CanServe, Performed, Enabled;
    if actions != [] {
      var prefix, last := actions[..|actions| - 1], actions[|actions| - 1];
      RunServesOrReturns(s, prefix);
      var d := Run(s, prefix).value;
      StepKeepsInv(d, last);
      if CanServe(d) {
        StepServesOrReturns(d, last);
      } else {
        StepReturns(d, last);
      }
    }
  }

  lemma StepReturns<T>(s: State<T>, a: Action<T>)
    requires Enabled(s, a)
    ensures |Performed(s, a).returned| >= |s.returned|
  {
  }

  // From every reachable state in which a consumer is in `dequeue` and there are items, every schedule
  // of the threads already at work, followed until none has a step left, returns one more item at
  // least; and then no consumer is left in `dequeue` unless the queue is empty.
  lemma ItemsAreServed<T(!new)>(s: State<T>, actions: seq<Action<T>>)
    requires Inv(s) && CanServe(s) && Run(s, actions).Some? && Stuck(Run(s, actions).value)
    ensures var d := Run(s, actions).value;
            && |d.returned| > |s.returned|
            && (d.q == [] || forall t :: t in d.at ==> d.at[t].Idle?)
  {
    hide Inv, CanServe, Stuck;
    var d := Run(s, actions).value;
    RunServesOrReturns(s, actions);
    StuckServesNobody(d);
    StuckIff(d);
    assert forall t :: t in d.at && d.at[t].DeqWaiting? ==> t in Waiters(d);
  }

  // There is such a schedule from every state.
  lemma {:induction false} SomeRunEnds<T(!new)>(s: State<T>, n: nat) returns (actions: seq<Action<T>>)
    requires Inv(s) && Numbered(s, n)
    ensures Internal(actions) && Run(s, actions).Some? && Stuck(Run(s, actions).value)
    decreases Total(s.at, n)
  {
    hide Inv, Performed, Enabled, Total, Numbered, IsInternal;
    if Stuck(s) {
      actions := [];
    } else {
      var a: Action<T> :| Enabled(s, a) && IsInternal(a);
      StepShrinks(s, a, n);
      StepKeepsInv(s, a);
      var rest := SomeRunEnds(Performed(s, a), n);
      assert [a][..0] == [] && Run(s, []) == Some(s);
      assert Run(s, [a]) == Some(Performed(s, a));
      RunAppend(s, [a], rest);
      actions := [a] + rest;
    }
  }

  lemma {:induction false} RunAppend<T>(s: State<T>, first: seq<Action<T>>, rest: seq<Action<T>>)
    requires Run(s, first).Some?
    ensures Run(s, first + rest) == Run(Run(s, first).value, rest)
    decreases |rest|
  {
    hide Enabled, Performed;
    if rest == [] {
      assert first + rest == first;
    } else {
      var whole := first + rest;
      assert whole[..|whole| - 1] == first + rest[..|rest| - 1];
      RunAppend(s, first, rest[..|rest| - 1]);
    }
  }
}

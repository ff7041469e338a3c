/** The bounded wait registry: registrations, queued wakes and the notify scan. */
module Waits {
  import opened Prelude
  import opened Counts
  import opened Objects

  const MAX_WAIT_ITEMS: nat := 8
  const MAX_WAIT_WAKEUPS: nat := MAX_WAIT_ITEMS

  datatype Signal = Readable | Writable | PeerClosed | Signaled | Fired

  type Signals = set<Signal>

  datatype Registration = Registration(waiter: nat, epoch: nat, target: ObjectId, interests: Signals, index: nat)

  datatype Wake = Wake(waiter: nat, epoch: nat, index: nat, observed: Signals)

  datatype WaitError = Empty | TooMany | Blocked | Invalid

  /** What one waiter asks about one object; `readiness` is the object's current level. */
  datatype WaitItem = WaitItem(target: ObjectId, interests: Signals, readiness: Signals)

  type Registrations = seq<Option<Registration>>

  type Wakes = seq<Option<Wake>>

  function Filled<T>(): Option<T> -> nat {
    (x: Option<T>) => if x.Some? then 1 else 0
  }

  function Occupied<T>(s: seq<Option<T>>): nat {
    Total(Filled(), s)
  }

  predicate SameWait(r: Registration, waiter: nat, epoch: nat) {
    r.waiter == waiter && r.epoch == epoch
  }

  predicate Matches(x: Option<Registration>, o: ObjectId, signals: Signals) {
    x.Some? && x.value.target == o && x.value.interests * signals != {}
  }

  /** Some registration of this wait matches the notification. */
  predicate Hit(regs: Registrations, r: Registration, o: ObjectId, signals: Signals) {
    KeyHit(regs, KeyOf(r), o, signals)
  }

  /** A wait is hit exactly when one of its registrations is on the object and shares a signal. */
  lemma HitMeans(regs: Registrations, r: Registration, o: ObjectId, signals: Signals)
    ensures Hit(regs, r, o, signals) <==>
              exists j, x :: 0 <= j < |regs| && regs[j].Some? && regs[j].value.waiter == r.waiter && regs[j].value.epoch == r.epoch
                             && regs[j].value.target == o && x in regs[j].value.interests && x in signals
  {
    if j, x :| 0 <= j < |regs| && regs[j].Some? && regs[j].value.waiter == r.waiter && regs[j].value.epoch == r.epoch
               && regs[j].value.target == o && x in regs[j].value.interests && x in signals {
      assert x in regs[j].value.interests * signals;
      assert Matches(regs[j], o, signals);
    }
  }

  function KeyOf(r: Registration): (nat, nat) {
    (r.waiter, r.epoch)
  }

  function WakeKey(w: Wake): (nat, nat) {
    (w.waiter, w.epoch)
  }

  /** A matching registration whose wait has no wake queued yet. */
  predicate Unserved(x: Option<Registration>, wakes: Wakes, o: ObjectId, signals: Signals) {
    Matches(x, o, signals) && !Queued(wakes, x.value.waiter, x.value.epoch)
  }

  predicate KeyHit(regs: Registrations, key: (nat, nat), o: ObjectId, signals: Signals) {
    exists j :: 0 <= j < |regs| && Matches(regs[j], o, signals) && KeyOf(regs[j].value) == key
  }

  /** The wake that some matching registration gives rise to. */
  predicate WakeFrom(regs: Registrations, w: Wake, o: ObjectId, signals: Signals) {
    exists j :: 0 <= j < |regs| && Matches(regs[j], o, signals)
                && w == Wake(regs[j].value.waiter, regs[j].value.epoch, regs[j].value.index, signals)
  }

  predicate Queued(wakes: Wakes, waiter: nat, epoch: nat) {
    exists k :: 0 <= k < |wakes| && wakes[k].Some? && wakes[k].value.waiter == waiter && wakes[k].value.epoch == epoch
  }

  function Forget(x: Option<Registration>, waiter: nat): Option<Registration> {
    if x.Some? && x.value.waiter == waiter then None else x
  }

  function ClearWaiter(regs: Registrations, waiter: nat): Registrations {
    seq(|regs|, i requires 0 <= i < |regs| => Forget(regs[i], waiter))
  }

  function ClearWakes(wakes: Wakes, waiter: nat): Wakes {
    seq(|wakes|, i requires 0 <= i < |wakes| =>
      if wakes[i].Some? && wakes[i].value.waiter == waiter then None else wakes[i])
  }

  /** Put `x` in the first empty place; a full table is left alone. */
  function Place<T>(s: seq<Option<T>>, x: T): seq<Option<T>> {
    if s == [] then s
    else if s[0].None? then [Some(x)] + s[1..]
    else [s[0]] + Place(s[1..], x)
  }

  function Placing(waiter: nat, epoch: nat, items: seq<WaitItem>, k: nat): Registration
    requires k < |items|
  {
    Registration(waiter, epoch, items[k].target, items[k].interests, k)
  }

  function PlaceItems(regs: Registrations, waiter: nat, epoch: nat, items: seq<WaitItem>, k: nat): Registrations
    requires k <= |items|
    decreases |items| - k
  {
    if k == |items| then regs
    else PlaceItems(Place(regs, Placing(waiter, epoch, items, k)), waiter, epoch, items, k + 1)
  }

  lemma PlaceOccupied<T>(s: seq<Option<T>>, x: T)
    requires Occupied(s) < |s|
    ensures |Place(s, x)| == |s| && Occupied(Place(s, x)) == Occupied(s) + 1
    ensures exists i :: 0 <= i < |s| && s[i].None? && Place(s, x) == s[i := Some(x)]
  {
    hide Place;
    OccupiedBound(s);
    PlaceIndex(s, x);
    var i :| 0 <= i < |s| && s[i].None? && Place(s, x) == s[i := Some(x)];
    TotalUpdate(Filled(), s, i, Some(x));
  }

  lemma {:induction false} PlaceIndex<T>(s: seq<Option<T>>, x: T)
    requires exists i :: 0 <= i < |s| && s[i].None?
    ensures exists i :: 0 <= i < |s| && s[i].None? && Place(s, x) == s[i := Some(x)]
  {
    if s[0].None? {
      assert Place(s, x) == s[0 := Some(x)];
    } else {
      var k :| 0 <= k < |s| && s[k].None?;
      assert s[1..][k - 1].None?;
      PlaceIndex(s[1..], x);
      var i :| 0 <= i < |s[1..]| && s[1..][i].None? && Place(s[1..], x) == s[1..][i := Some(x)];
      assert Place(s, x) == s[i + 1 := Some(x)];
    }
  }

  lemma {:induction false} OccupiedBound<T>(s: seq<Option<T>>)
    ensures Occupied(s) <= |s|
    ensures Occupied(s) == |s| <==> forall i :: 0 <= i < |s| ==> s[i].Some?
  {
    if s != [] {
      OccupiedBound(s[1..]);
      assert forall i :: 0 < i < |s| ==> s[i] == s[1..][i - 1];
    }
  }

  /** Emptying places never raises the count. */
  lemma {:induction false} OccupiedShrinks<T>(s: seq<Option<T>>, t: seq<Option<T>>)
    requires |s| == |t| && forall i :: 0 <= i < |s| ==> t[i] == s[i] || t[i].None?
    ensures Occupied(t) <= Occupied(s)
    ensures (exists i :: 0 <= i < |s| && s[i].Some? && t[i].None?) ==> Occupied(t) < Occupied(s)
  {
    if s != [] {
      OccupiedShrinks(s[1..], t[1..]);
      if i :| 0 <= i < |s| && s[i].Some? && t[i].None? {
        assert i > 0 ==> s[1..][i - 1].Some? && t[1..][i - 1].None?;
      }
    }
  }

  /** The first of the items gets a place that was empty. */
  lemma PlaceNext(regs: Registrations, waiter: nat, epoch: nat, items: seq<WaitItem>, k: nat) returns (i: nat)
    requires k < |items| && Occupied(regs) < |regs|
    ensures i < |regs| && regs[i].None?
    ensures var placed := Place(regs, Placing(waiter, epoch, items, k));
            && placed == regs[i := Some(Placing(waiter, epoch, items, k))] && Occupied(placed) == Occupied(regs) + 1
            && PlaceItems(regs, waiter, epoch, items, k) == PlaceItems(placed, waiter, epoch, items, k + 1)
  {
    hide Occupied;
    var x := Placing(waiter, epoch, items, k);
    PlaceOccupied(regs, x);
    i :| 0 <= i < |regs| && regs[i].None? && Place(regs, x) == regs[i := Some(x)];
  }

  lemma {:induction false} PlaceItemsOccupied(regs: Registrations, waiter: nat, epoch: nat, items: seq<WaitItem>, k: nat)
    requires k <= |items| && Occupied(regs) + |items| - k <= |regs|
    ensures |PlaceItems(regs, waiter, epoch, items, k)| == |regs|
    ensures Occupied(PlaceItems(regs, waiter, epoch, items, k)) == Occupied(regs) + |items| - k
    ensures forall i :: 0 <= i < |regs| && regs[i].Some? ==> PlaceItems(regs, waiter, epoch, items, k)[i] == regs[i]
    ensures forall m :: k <= m < |items| ==> Some(Registration(waiter, epoch, items[m].target, items[m].interests, m)) in PlaceItems(regs, waiter, epoch, items, k)
    decreases |items| - k
  {
    hide Occupied;
    hide Place;
    if k < |items| {
      var i := PlaceNext(regs, waiter, epoch, items, k);
      var placed := Place(regs, Placing(waiter, epoch, items, k));
      PlaceItemsOccupied(placed, waiter, epoch, items, k + 1);
      var all := PlaceItems(placed, waiter, epoch, items, k + 1);
      assert all[i] == placed[i];
      forall j | 0 <= j < |regs| && regs[j].Some?
        ensures all[j] == regs[j]
      {
        assert placed[j] == regs[j];
      }
    }
  }

  // ----- The notify scan -----

  /** The waits in `done` have been dropped, and matched. */
  predicate Taken(before: Registrations, regs: Registrations, done: set<(nat, nat)>, o: ObjectId, signals: Signals) {
    && |regs| == |before|
    && (forall i :: 0 <= i < |before| ==> regs[i] == if before[i].Some? && KeyOf(before[i].value) in done then None else before[i])
    && (forall d :: d in done ==> KeyHit(before, d, o, signals))
  }

  /** The waits in `done` each have a wake queued, and only those got one, once. */
  predicate Served(before: Registrations, wakes: Wakes, after: Wakes, done: set<(nat, nat)>, o: ObjectId, signals: Signals) {
    && |after| == |wakes|
    && (forall d :: d in done ==> Queued(after, d.0, d.1))
    && (forall k :: 0 <= k < |wakes| && wakes[k].Some? ==> after[k] == wakes[k])
    && (forall k :: 0 <= k < |wakes| && wakes[k].None? && after[k].Some? ==>
          && WakeKey(after[k].value) in done && WakeFrom(before, after[k].value, o, signals)
          && !Queued(wakes, after[k].value.waiter, after[k].value.epoch))
    && OnceEach(wakes, after)
  }

  predicate OnceEach(wakes: Wakes, after: Wakes)
    requires |after| == |wakes|
  {
    forall k, m :: 0 <= k < m < |wakes| && wakes[k].None? && wakes[m].None? && after[k].Some? && after[m].Some? ==>
      WakeKey(after[k].value) != WakeKey(after[m].value)
  }

  lemma TakenMatch(before: Registrations, regs: Registrations, done: set<(nat, nat)>, o: ObjectId, signals: Signals, index: nat)
    requires Taken(before, regs, done, o, signals) && index < |regs| && Matches(regs[index], o, signals)
    ensures Matches(before[index], o, signals) && before[index] == regs[index] && KeyOf(regs[index].value) !in done
    ensures KeyHit(before, KeyOf(regs[index].value), o, signals)
    ensures WakeFrom(before, Wake(regs[index].value.waiter, regs[index].value.epoch, regs[index].value.index, signals), o, signals)
  {
  }

  lemma TakenMore(before: Registrations, regs: Registrations, after: Registrations, done: set<(nat, nat)>, o: ObjectId, signals: Signals, r: Registration)
    requires Taken(before, regs, done, o, signals) && |after| == |regs| && KeyHit(before, KeyOf(r), o, signals)
    requires forall i :: 0 <= i < |regs| ==> after[i] == if regs[i].Some? && SameWait(regs[i].value, r.waiter, r.epoch) then None else regs[i]
    ensures Taken(before, after, done + {KeyOf(r)}, o, signals)
  {
  }

  lemma ServedMore(before: Registrations, wakes: Wakes, mid: Wakes, after: Wakes, done: set<(nat, nat)>, o: ObjectId, signals: Signals, r: Registration)
    requires Served(before, wakes, mid, done, o, signals) && KeyOf(r) !in done && WakeFrom(before, Wake(r.waiter, r.epoch, r.index, signals), o, signals)
    requires if Queued(mid, r.waiter, r.epoch) then after == mid
             else exists k :: 0 <= k < |mid| && mid[k].None? && after == mid[k := Some(Wake(r.waiter, r.epoch, r.index, signals))]
    ensures Served(before, wakes, after, done + {KeyOf(r)}, o, signals)
    ensures Queued(mid, r.waiter, r.epoch) <==> Queued(wakes, r.waiter, r.epoch)
  {
    if Queued(wakes, r.waiter, r.epoch) {
      var k :| 0 <= k < |wakes| && wakes[k].Some? && wakes[k].value.waiter == r.waiter && wakes[k].value.epoch == r.epoch;
      assert mid[k] == wakes[k];
    }
    if Queued(mid, r.waiter, r.epoch) {
      var k :| 0 <= k < |mid| && mid[k].Some? && mid[k].value.waiter == r.waiter && mid[k].value.epoch == r.epoch;
      assert wakes[k].Some?;
    } else {
      var k :| 0 <= k < |mid| && mid[k].None? && after == mid[k := Some(Wake(r.waiter, r.epoch, r.index, signals))];
      assert after[k].value.waiter == r.waiter;
      forall d | d in done
        ensures Queued(after, d.0, d.1)
      {
        var j :| 0 <= j < |mid| && mid[j].Some? && mid[j].value.waiter == d.0 && mid[j].value.epoch == d.1;
        assert after[j] == mid[j];
      }
    }
  }

  lemma ScanStarts(before: Registrations, wakes: Wakes, o: ObjectId, signals: Signals)
    ensures Taken(before, before, {}, o, signals) && Served(before, wakes, wakes, {}, o, signals)
  {
  }

  /** A scan that finds no match has dropped exactly the waits that matched, and
      each of them has a wake queued. */
  lemma ScanEnds(before: Registrations, regs: Registrations, wakes: Wakes, after: Wakes, done: set<(nat, nat)>, o: ObjectId, signals: Signals)
    requires Taken(before, regs, done, o, signals) && Served(before, wakes, after, done, o, signals)
    requires forall i :: 0 <= i < |regs| ==> !Matches(regs[i], o, signals)
    ensures forall i :: 0 <= i < |before| ==> regs[i] == if before[i].Some? && Hit(before, before[i].value, o, signals) then None else before[i]
    ensures forall i :: 0 <= i < |before| && Matches(before[i], o, signals) ==> Queued(after, before[i].value.waiter, before[i].value.epoch)
    ensures forall k :: 0 <= k < |wakes| && wakes[k].Some? ==> after[k] == wakes[k]
    ensures forall k :: 0 <= k < |wakes| && wakes[k].None? && after[k].Some? ==>
              WakeFrom(before, after[k].value, o, signals) && !Queued(wakes, after[k].value.waiter, after[k].value.epoch)
    ensures OnceEach(wakes, after)
    ensures (exists d :: d in done && !Queued(wakes, d.0, d.1)) <==> exists i :: 0 <= i < |before| && Unserved(before[i], wakes, o, signals)
  {
    forall key | KeyHit(before, key, o, signals)
      ensures key in done
    {
      var j :| 0 <= j < |before| && Matches(before[j], o, signals) && KeyOf(before[j].value) == key;
      assert !Matches(regs[j], o, signals);
    }
    if d :| d in done && !Queued(wakes, d.0, d.1) {
      var j :| 0 <= j < |before| && Matches(before[j], o, signals) && KeyOf(before[j].value) == d;
      assert Unserved(before[j], wakes, o, signals);
    }
    if i :| 0 <= i < |before| && Unserved(before[i], wakes, o, signals) {
      assert KeyHit(before, KeyOf(before[i].value), o, signals);
    }
  }

  class WaitRegistry {
    var registrations: Registrations
    var wakeups: Wakes

    /** Every registration has a wake place in reserve. */
    ghost predicate Valid()
      reads this
    {
      && |registrations| == MAX_WAIT_ITEMS
      && |wakeups| == MAX_WAIT_WAKEUPS
      && Occupied(registrations) + Occupied(wakeups) <= MAX_WAIT_WAKEUPS
    }

    constructor ()
      ensures Valid()
      ensures registrations == seq(MAX_WAIT_ITEMS, _ => None) && wakeups == seq(MAX_WAIT_WAKEUPS, _ => None)
    {
      registrations := seq(MAX_WAIT_ITEMS, _ => None);
      wakeups := seq(MAX_WAIT_WAKEUPS, _ => None);
      new;
      TotalZero(Filled(), registrations);
      TotalZero(Filled(), wakeups);
    }

    /** Queue one wake, in the first empty place. */
    method PushWake(w: Wake) returns (pushed: bool)
      requires |wakeups| == MAX_WAIT_WAKEUPS
      modifies this`wakeups
      ensures pushed <==> Occupied(old(wakeups)) < MAX_WAIT_WAKEUPS
      ensures !pushed ==> wakeups == old(wakeups)
      ensures pushed ==>
                && |wakeups| == MAX_WAIT_WAKEUPS && Occupied(wakeups) == Occupied(old(wakeups)) + 1
                && exists i :: 0 <= i < |wakeups| && old(wakeups)[i].None? && wakeups == old(wakeups)[i := Some(w)]
    {
      OccupiedBound(wakeups);
      var i := 0;
      while i < |wakeups| && wakeups[i].Some?
        invariant 0 <= i <= |wakeups|
        invariant forall k :: 0 <= k < i ==> wakeups[k].Some?
      {
        i := i + 1;
      }
      if i == |wakeups| {
        return false;
      }
      TotalUpdate(Filled(), wakeups, i, Some(w));
      wakeups := wakeups[i := Some(w)];
      pushed := true;
    }

    /** Drop every registration of one wait. */
    method ClearWait(waiter: nat, epoch: nat)
      modifies this`registrations
      ensures |registrations| == |old(registrations)|
      ensures forall i :: 0 <= i < |registrations| ==>
                registrations[i] == (if old(registrations)[i].Some? && SameWait(old(registrations)[i].value, waiter, epoch)
                                     then None else old(registrations)[i])
    {
      var i := 0;
      while i < |registrations|
        invariant 0 <= i <= |registrations| == |old(registrations)|
        invariant forall k :: i <= k < |registrations| ==> registrations[k] == old(registrations)[k]
        invariant forall k :: 0 <= k < i ==>
                    registrations[k] == (if old(registrations)[k].Some? && SameWait(old(registrations)[k].value, waiter, epoch)
                                         then None else old(registrations)[k])
      {
        if registrations[i].Some? && SameWait(registrations[i].value, waiter, epoch) {
          registrations := registrations[i := None];
        }
        i := i + 1;
      }
    }

    /** Queue one wait, unless it already is, and drop its registrations. */
    method Deliver(r: Registration, signals: Signals) returns (first: bool)
      requires Valid() && Some(r) in registrations
      modifies this
      ensures Valid() && Occupied(registrations) < Occupied(old(registrations))
      ensures forall i :: 0 <= i < MAX_WAIT_ITEMS ==>
                registrations[i] == (if old(registrations)[i].Some? && SameWait(old(registrations)[i].value, r.waiter, r.epoch)
                                     then None else old(registrations)[i])
      ensures Queued(wakeups, r.waiter, r.epoch)
      ensures first <==> !Queued(old(wakeups), r.waiter, r.epoch)
      ensures !first ==> wakeups == old(wakeups)
      ensures first ==>
                exists k :: 0 <= k < MAX_WAIT_WAKEUPS && old(wakeups)[k].None?
                            && wakeups == old(wakeups)[k := Some(Wake(r.waiter, r.epoch, r.index, signals))]
    {
      ghost var i :| 0 <= i < MAX_WAIT_ITEMS && registrations[i] == Some(r);
      TotalUpdate(Filled(), registrations, i, None);
      first := !Queued(wakeups, r.waiter, r.epoch);
      if first {
        var _ := PushWake(Wake(r.waiter, r.epoch, r.index, signals));
        ghost var k :| 0 <= k < |wakeups| && old(wakeups)[k].None?
                       && wakeups == old(wakeups)[k := Some(Wake(r.waiter, r.epoch, r.index, signals))];
        assert wakeups[k].value.waiter == r.waiter;
      }
      ClearWait(r.waiter, r.epoch);
      OccupiedShrinks(old(registrations), registrations);
      assert old(registrations)[i].Some? && registrations[i].None?;
    }

    /** Every matching wait is queued once and loses all its registrations; no
        other registration is touched, and no wake is lost for lack of room. */
    method Notify(o: ObjectId, signals: Signals) returns (notified: bool)
      requires Valid()
      modifies this
      ensures Valid()
      ensures forall i :: 0 <= i < MAX_WAIT_ITEMS ==>
                registrations[i] == (if old(registrations)[i].Some? && Hit(old(registrations), old(registrations)[i].value, o, signals)
                                     then None else old(registrations)[i])
      ensures forall i :: 0 <= i < MAX_WAIT_ITEMS && Matches(old(registrations)[i], o, signals) ==>
                Queued(wakeups, old(registrations)[i].value.waiter, old(registrations)[i].value.epoch)
      ensures forall k :: 0 <= k < MAX_WAIT_WAKEUPS && old(wakeups)[k].Some? ==> wakeups[k] == old(wakeups)[k]
      ensures forall k :: 0 <= k < MAX_WAIT_WAKEUPS && old(wakeups)[k].None? && wakeups[k].Some? ==>
                WakeFrom(old(registrations), wakeups[k].value, o, signals) && !Queued(old(wakeups), wakeups[k].value.waiter, wakeups[k].value.epoch)
      ensures OnceEach(old(wakeups), wakeups)
      ensures notified <==> exists i :: 0 <= i < MAX_WAIT_ITEMS && Unserved(old(registrations)[i], old(wakeups), o, signals)
    {
      hide Taken;
      hide Served;
      hide Queued;
      hide KeyHit;
      hide WakeFrom;
      hide OnceEach;
      ScanStarts(registrations, wakeups, o, signals);
      notified := false;
      var index := 0;
      ghost var done: set<(nat, nat)> := {};
      while index < |registrations|
        invariant 0 <= index <= |registrations|
        invariant Valid()
        invariant forall i :: 0 <= i < index ==> !Matches(registrations[i], o, signals)
        invariant Taken(old(registrations), registrations, done, o, signals)
        invariant Served(old(registrations), old(wakeups), wakeups, done, o, signals)
        invariant notified <==> exists d :: d in done && !Queued(old(wakeups), d.0, d.1)
        decreases Occupied(registrations), |registrations| - index
      {
        if !Matches(registrations[index], o, signals) {
          index := index + 1;
          continue;
        }
        var r := registrations[index].value;
        ghost var regs, wakes := registrations, wakeups;
        TakenMatch(old(registrations), regs, done, o, signals, index);
        var first := Deliver(r, signals);
        TakenMore(old(registrations), regs, registrations, done, o, signals, r);
        ServedMore(old(registrations), old(wakeups), wakes, wakeups, done, o, signals, r);
        if first {
          notified := true;
        }
        done := done + {KeyOf(r)};
        index := 0;
      }
      ScanEnds(old(registrations), registrations, old(wakeups), wakeups, done, o, signals);
    }

    /** Exactly the registrations and wakes of one waiter go; the reserve only grows. */
    method CancelWaiter(waiter: nat)
      requires Valid()
      modifies this
      ensures Valid()
      ensures registrations == ClearWaiter(old(registrations), waiter) && wakeups == ClearWakes(old(wakeups), waiter)
      ensures forall i :: 0 <= i < MAX_WAIT_ITEMS ==>
                registrations[i] == if old(registrations)[i].Some? && old(registrations)[i].value.waiter == waiter then None else old(registrations)[i]
      ensures forall k :: 0 <= k < MAX_WAIT_WAKEUPS ==>
                wakeups[k] == if old(wakeups)[k].Some? && old(wakeups)[k].value.waiter == waiter then None else old(wakeups)[k]
    {
      ghost var regs, wakes := registrations, wakeups;
      for i := 0 to MAX_WAIT_ITEMS
        invariant |registrations| == MAX_WAIT_ITEMS && wakeups == wakes
        invariant forall k :: 0 <= k < MAX_WAIT_ITEMS ==> registrations[k] == if k < i then Forget(regs[k], waiter) else regs[k]
      {
        if registrations[i].Some? && registrations[i].value.waiter == waiter {
          registrations := registrations[i := None];
        }
      }
      for i := 0 to MAX_WAIT_WAKEUPS
        invariant |wakeups| == MAX_WAIT_WAKEUPS && registrations == ClearWaiter(regs, waiter)
        invariant forall k :: 0 <= k < MAX_WAIT_WAKEUPS ==>
                    wakeups[k] == if k < i && wakes[k].Some? && wakes[k].value.waiter == waiter then None else wakes[k]
      {
        if wakeups[i].Some? && wakeups[i].value.waiter == waiter {
          wakeups := wakeups[i := None];
        }
      }
      OccupiedShrinks(regs, registrations);
      OccupiedShrinks(wakes, wakeups);
    }

    /** Reserve a registration and a wake place for every item, or refuse. */
    method Register(waiter: nat, epoch: nat, items: seq<WaitItem>) returns (ok: bool)
      requires Valid()
      modifies this
      ensures Valid()
      ensures wakeups == ClearWakes(old(wakeups), waiter)
      ensures ok <==> Occupied(ClearWaiter(old(registrations), waiter)) + Occupied(wakeups) + |items| <= MAX_WAIT_WAKEUPS
      ensures registrations == (if ok then PlaceItems(ClearWaiter(old(registrations), waiter), waiter, epoch, items, 0)
                                else ClearWaiter(old(registrations), waiter))
    {
      CancelWaiter(waiter);
      if Occupied(registrations) + Occupied(wakeups) + |items| > MAX_WAIT_WAKEUPS {
        return false;
      }
      PlaceItemsOccupied(registrations, waiter, epoch, items, 0);
      var k := 0;
      ghost var cleared := registrations;
      while k < |items|
        invariant 0 <= k <= |items|
        invariant wakeups == ClearWakes(old(wakeups), waiter)
        invariant PlaceItems(registrations, waiter, epoch, items, k) == PlaceItems(cleared, waiter, epoch, items, 0)
      {
        registrations := Place(registrations, Placing(waiter, epoch, items, k));
        k := k + 1;
      }
      ok := true;
    }

    /** The distinct waiters with a queued wake; the queue is left empty. */
    method TakeWoken() returns (woken: seq<nat>)
      requires Valid()
      modifies this`wakeups
      ensures Valid()
      ensures wakeups == seq(|old(wakeups)|, _ => None)
      ensures forall i, j :: 0 <= i < j < |woken| ==> woken[i] != woken[j]
      ensures forall w :: w in woken <==> exists k :: 0 <= k < |old(wakeups)| && old(wakeups)[k].Some? && old(wakeups)[k].value.waiter == w
    {
      woken := [];
      var i := 0;
      while i < |wakeups|
        invariant 0 <= i <= |wakeups| == |old(wakeups)|
        invariant forall k :: 0 <= k < i ==> wakeups[k].None?
        invariant forall k :: i <= k < |wakeups| ==> wakeups[k] == old(wakeups)[k]
        invariant forall a, b :: 0 <= a < b < |woken| ==> woken[a] != woken[b]
        invariant forall w :: w in woken <==> exists k :: 0 <= k < i && old(wakeups)[k].Some? && old(wakeups)[k].value.waiter == w
      {
        if wakeups[i].Some? {
          if wakeups[i].value.waiter !in woken {
            woken := woken + [wakeups[i].value.waiter];
          }
          wakeups := wakeups[i := None];
        }
        i := i + 1;
      }
      OccupiedShrinks(old(wakeups), wakeups);
    }
  }

  /** `wake` is what ended the waiter's last wait, until it is taken. */
  datatype Waiter = Waiter(id: nat, epoch: nat, runnable: bool, wake: Option<(nat, Signals)>)

  predicate Ready(item: WaitItem) {
    item.readiness * item.interests != {}
  }

  function FirstReady(items: seq<WaitItem>): (r: Option<nat>)
    ensures r.Some? ==> r.value < |items| && Ready(items[r.value]) && forall k :: 0 <= k < r.value ==> !Ready(items[k])
    ensures r.None? ==> forall k :: 0 <= k < |items| ==> !Ready(items[k])
  {
    if items == [] then None
    else if Ready(items[0]) then Some(0)
    else
      assert forall k :: 0 < k < |items| ==> items[k] == items[1..][k - 1];
      match FirstReady(items[1..])
      case None => None
      case Some(i) => Some(i + 1)
  }

  /** The items with their levels read again. */
  function Refreshed(items: seq<WaitItem>, later: seq<Signals>): seq<WaitItem>
    requires |later| == |items|
  {
    seq(|items|, k requires 0 <= k < |items| => items[k].(readiness := later[k]))
  }

  method ScanReady(items: seq<WaitItem>) returns (r: Option<nat>)
    ensures r == FirstReady(items)
  {
    for k := 0 to |items|
      invariant forall j :: 0 <= j < k ==> !Ready(items[j])
    {
      if Ready(items[k]) {
        return Some(k);
      }
    }
    r := None;
  }

  function NextEpoch(epoch: nat): nat {
    if epoch == U64_MAX then 0 else epoch + 1
  }

  /** The registrations without those of one wait. */
  function WithoutWait(regs: Registrations, waiter: nat, epoch: nat): Registrations {
    seq(|regs|, i requires 0 <= i < |regs| => if regs[i].Some? && SameWait(regs[i].value, waiter, epoch) then None else regs[i])
  }

  /** Level-triggered wait on several objects: report the first ready one, or
      leave one registration per object, look again, and block. `later` is what the
      objects show at the second look. */
  method WaitMany(registry: WaitRegistry, waiter: Waiter, items: seq<WaitItem>, later: seq<Signals>)
    returns (after: Waiter, r: Result<(nat, Signals), WaitError>)
    requires registry.Valid() && |later| == |items|
    modifies registry
    ensures registry.Valid()
    ensures items == [] || |items| > MAX_WAIT_ITEMS ==>
              && r == Err(if items == [] then Empty else TooMany) && after == waiter
              && registry.registrations == old(registry.registrations) && registry.wakeups == old(registry.wakeups)
    ensures 0 < |items| <= MAX_WAIT_ITEMS ==>
              var regs, cleared := old(registry.registrations), ClearWaiter(old(registry.registrations), waiter.id);
              var wakes, epoch := ClearWakes(old(registry.wakeups), waiter.id), NextEpoch(waiter.epoch);
              var placed := PlaceItems(cleared, waiter.id, epoch, items, 0);
              var first, second := FirstReady(items), FirstReady(Refreshed(items, later));
              if first.Some? then
                && r == Ok((first.value, items[first.value].readiness)) && after == Waiter(waiter.id, waiter.epoch, true, None)
                && registry.registrations == WithoutWait(regs, waiter.id, waiter.epoch) && registry.wakeups == old(registry.wakeups)
              else if Occupied(cleared) + Occupied(wakes) + |items| > MAX_WAIT_WAKEUPS then
                && r == Err(TooMany) && after == Waiter(waiter.id, waiter.epoch, true, None)
                && registry.registrations == cleared && registry.wakeups == wakes
              else if second.Some? then
                && r == Ok((second.value, later[second.value])) && after == Waiter(waiter.id, epoch, true, None)
                && registry.registrations == WithoutWait(placed, waiter.id, epoch) && registry.wakeups == wakes
              else
                && r == Err(Blocked) && after == Waiter(waiter.id, epoch, false, None)
                && registry.registrations == placed && registry.wakeups == wakes
                && (forall k :: 0 <= k < |items| ==> Some(Registration(waiter.id, epoch, items[k].target, items[k].interests, k)) in placed)
  {
    if items == [] {
      return waiter, Err(Empty);
    }
    if |items| > MAX_WAIT_ITEMS {
      return waiter, Err(TooMany);
    }
    after := waiter.(wake := None);
    var first := ScanReady(items);
    if first.Some? {
      ghost var before := registry.registrations;
      registry.ClearWait(waiter.id, waiter.epoch);
      OccupiedShrinks(before, registry.registrations);
      return after.(runnable := true), Ok((first.value, items[first.value].readiness));
    }
    var epoch := NextEpoch(waiter.epoch);
    var ok := registry.Register(waiter.id, epoch, items);
    if !ok {
      return after.(runnable := true), Err(TooMany);
    }
    PlaceItemsOccupied(ClearWaiter(old(registry.registrations), waiter.id), waiter.id, epoch, items, 0);
    var second := ScanReady(Refreshed(items, later));
    if second.Some? {
      ghost var before := registry.registrations;
      registry.ClearWait(waiter.id, epoch);
      OccupiedShrinks(before, registry.registrations);
      return Waiter(waiter.id, epoch, true, None), Ok((second.value, later[second.value]));
    }
    after := Waiter(waiter.id, epoch, false, None);
    r := Err(Blocked);
  }
}

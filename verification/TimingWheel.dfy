/** The four wheels of the event loop, tied to the flat deadlines of TimerModel. */
module TimingWheels {
  import opened TimerModel

  /** An entry of a coarse wheel: when dropped it inserts `entry` for the remaining seconds. */
  datatype Later = Later(second: nat, entry: Entry)

  /** Slot `k` of the second wheel is dropped by tick `t + k + 1`. */
  ghost predicate InSecond(w: seq<set<Entry>>, t: nat, r: Ref) {
    t < r.due <= t + |w| && r.entry in w[r.due - t - 1]
  }

  /** Slot `k` of the minute wheel is dropped `k + 1` minutes after the start of the current minute. */
  ghost predicate InMinute(w: seq<set<Later>>, t: nat, r: Ref) {
    var x := r.due - (t - t % MINUTE);
    MINUTE <= x < MINUTE * (|w| + 1) && Later(x % MINUTE, r.entry) in w[x / MINUTE - 1]
  }

  ghost predicate InCoarse(w: seq<set<Later>>, e: Entry) {
    exists k: nat, l: Later :: k < |w| && l in w[k] && l.entry == e
  }

  ghost predicate Seconds(w: seq<set<Later>>) {
    forall k: nat, l: Later :: k < |w| && l in w[k] ==> 0 < l.second < MINUTE
  }

  /** PopUp: drop the front slot, append an empty one. */
  function PopUp<T>(w: seq<set<T>>): (r: seq<set<T>>)
    requires |w| > 0
    ensures |r| == |w|
  {
    w[1..] + [{}]
  }

  // ---- The two live wheels under a tick ----

  lemma SecondPopped(w: seq<set<Entry>>, t: nat, r: Ref)
    requires |w| > 0
    ensures InSecond(PopUp(w), t + 1, r) <==> InSecond(w, t, r) && r.due > t + 1
    ensures r.due == t + 1 ==> (InSecond(w, t, r) <==> r.entry in w[0])
  {
  }

  lemma MinuteStays(w: seq<set<Later>>, t: nat, r: Ref)
    requires (t + 1) % MINUTE != 0
    ensures InMinute(w, t + 1, r) <==> InMinute(w, t, r)
  {
  }

  /** On the minute, what the front slot holds moves to the second wheel with the same deadline. */
  lemma MinutePopped(w: seq<set<Later>>, t: nat, r: Ref)
    requires |w| > 0 && (t + 1) % MINUTE == 0
    ensures InMinute(w, t, r) <==>
            InMinute(PopUp(w), t + 1, r) || (t + 1 <= r.due < t + 1 + MINUTE && Later(r.due - (t + 1), r.entry) in w[0])
  {
    var base := t - t % MINUTE;
    assert base + MINUTE == t + 1;
    var x := r.due - base;
    if MINUTE <= x {
      assert (x - MINUTE) % MINUTE == x % MINUTE && (x - MINUTE) / MINUTE == x / MINUTE - 1;
    }
  }

  // ---- Insertion ----

  datatype Wheels = Wheels(second: seq<set<Entry>>, minute: seq<set<Later>>, hour: seq<set<Later>>,
                           day: seq<set<Later>>) {
    predicate Shape() {
      |second| == 60 && |minute| == 60 && |hour| == 24 && |day| == 30
    }
  }

  function Put<T>(w: seq<set<T>>, k: nat, x: T): (r: seq<set<T>>)
    requires k < |w|
    ensures |r| == |w|
  {
    w[k := w[k] + {x}]
  }

  /** The wheels after InsertEntry: the finest wheel that covers the delay gets the entry. */
  function Inserted(w: Wheels, d: nat, e: Entry): (r: Wheels)
    requires w.Shape() && Allowed(d)
    ensures r.Shape()
  {
    if d < MINUTE then w.(second := Put(w.second, d - 1, e))
    else if d < HOUR then w.(minute := Put(w.minute, d / MINUTE - 1, Later(d % MINUTE, e)))
    else if d < DAY then w.(hour := Put(w.hour, d / HOUR - 1, Later(d % HOUR, e)))
    else if d / DAY <= 30 then w.(day := Put(w.day, d / DAY - 1, Later(d % DAY, e)))
    else w
  }

  /** The deadlines the wheels hold at tick `t`. */
  ghost function Flatten(w: Wheels, t: nat): Flat {
    var refs := iset r: Ref | InSecond(w.second, t, r) || InMinute(w.minute, t, r);
    Flat(t, refs, iset e: Entry | InCoarse(w.hour, e) || InCoarse(w.day, e))
  }

  lemma PutSecond(w: seq<set<Entry>>, t: nat, d: nat, e: Entry, r: Ref)
    requires 0 < d <= |w|
    ensures InSecond(Put(w, d - 1, e), t, r) <==> InSecond(w, t, r) || r == Ref(e, t + d)
  {
  }

  lemma PutMinute(w: seq<set<Later>>, t: nat, d: nat, e: Entry, r: Ref)
    requires MINUTE <= d < MINUTE * (|w| + 1)
    ensures InMinute(Put(w, d / MINUTE - 1, Later(d % MINUTE, e)), t, r) <==>
            InMinute(w, t, r) || r == Ref(e, t - t % MINUTE + d)
  {
  }

  lemma PutCoarse(w: seq<set<Later>>, k: nat, l: Later, e: Entry)
    requires k < |w|
    ensures InCoarse(Put(w, k, l), e) <==> InCoarse(w, e) || e == l.entry
  {
    var v := Put(w, k, l);
    if InCoarse(w, e) {
      var j: nat, m: Later :| j < |w| && m in w[j] && m.entry == e;
      assert m in v[j];
    }
    if e == l.entry {
      assert l in v[k];
    }
  }

  /** Insertion into the wheels adds exactly the deadline of the flat model. */
  lemma InsertedFlat(w: Wheels, t: nat, d: nat, e: Entry)
    requires w.Shape() && Allowed(d)
    ensures Flatten(Inserted(w, d, e), t) == Insert(Flatten(w, t), e, d)
    ensures Seconds(w.minute) ==> Seconds(Inserted(w, d, e).minute)
  {
    hide InSecond, InMinute, InCoarse;
    var v := Inserted(w, d, e);
    forall r: Ref ensures r in Flatten(v, t).refs <==> r in Insert(Flatten(w, t), e, d).refs {
      if d < MINUTE {
        PutSecond(w.second, t, d, e, r);
      } else if d < HOUR {
        PutMinute(w.minute, t, d, e, r);
      }
    }
    forall x: Entry ensures x in Flatten(v, t).parked <==> x in Insert(Flatten(w, t), e, d).parked {
      if HOUR <= d < DAY {
        PutCoarse(w.hour, d / HOUR - 1, Later(d % HOUR, e), x);
      } else if DAY <= d && d / DAY <= 30 {
        PutCoarse(w.day, d / DAY - 1, Later(d % DAY, e), x);
      }
    }
  }

  // ---- Slot indexes ----

  /**
   * An access to slot `index` of a wheel with `slots` slots; the index is what uint32 arithmetic makes of count - 1.
   */
  datatype Access = Access(index: nat, slots: nat)

  function Slot(count: nat, slots: nat): Access {
    Access((count - 1) % 0x1_0000_0000, slots)
  }

  /** Every slot InsertEntry accesses for a delay, at once or when the entry of the minute wheel is dropped. */
  function Accesses(d: nat): seq<Access> {
    if d < MINUTE then [Slot(d, 60)]
    else if d < HOUR then [Slot(d / MINUTE, 60), Slot(d % MINUTE, 60)]
    else if d < DAY then [Slot(d / HOUR, 24)]
    else if d / DAY > 30 then []
    else [Slot(d / DAY, 30)]
  }

  /** All of them exist exactly for the delays allowed. */
  lemma AccessesExist(d: nat)
    ensures (forall a :: a in Accesses(d) ==> a.index < a.slots) <==>
            d > 0 && (60 <= d < 3600 ==> d % 60 != 0)
  {
    if d < MINUTE {
      assert Slot(d, 60) in Accesses(d);
    } else if d < HOUR {
      assert Slot(d % MINUTE, 60) in Accesses(d);
    }
  }

  /** Delay 0 fails at once; a minute, as an interval or an idle limit, fails when the minute has passed. */
  lemma MissingSlots()
    ensures Accesses(0) == [Access(0xFFFF_FFFF, 60)]
    ensures Accesses(60) == [Access(0, 60), Access(0xFFFF_FFFF, 60)]
  {
  }

  // ---- What a tick releases ----

  predicate InSlots(w: seq<set<Entry>>, e: Entry) {
    exists k | 0 <= k < |w| :: e in w[k]
  }

  predicate InLater(w: seq<set<Later>>, e: Entry) {
    exists k | 0 <= k < |w| :: exists l | l in w[k] :: l.entry == e
  }

  /** Some slot refers to the entry. */
  predicate Holds(w: Wheels, e: Entry) {
    InSlots(w.second, e) || InLater(w.minute, e) || InLater(w.hour, e) || InLater(w.day, e)
  }

  lemma SlotsHold(w: seq<set<Entry>>, t: nat, e: Entry)
    ensures InSlots(w, e) <==> exists n: nat :: InSecond(w, t, Ref(e, n))
  {
    if InSlots(w, e) {
      var k :| 0 <= k < |w| && e in w[k];
      assert InSecond(w, t, Ref(e, t + k + 1));
    }
    if n: nat :| InSecond(w, t, Ref(e, n)) {
      assert e in w[n - t - 1];
    }
  }

  lemma LaterHold(w: seq<set<Later>>, t: nat, e: Entry)
    requires Seconds(w)
    ensures InLater(w, e) <==> exists n: nat :: InMinute(w, t, Ref(e, n))
    ensures forall n: nat :: InMinute(w, t, Ref(e, n)) ==> n > t + 1
  {
    var base := t - t % MINUTE;
    if InLater(w, e) {
      var k :| 0 <= k < |w| && exists l | l in w[k] :: l.entry == e;
      var l :| l in w[k] && l.entry == e;
      var x := MINUTE * (k + 1) + l.second;
      assert x % MINUTE == l.second && x / MINUTE == k + 1;
      assert InMinute(w, t, Ref(e, base + x));
    }
    forall n: nat | InMinute(w, t, Ref(e, n)) ensures n > t + 1 && InLater(w, e) {
      var x := n - base;
      assert Later(x % MINUTE, e) in w[x / MINUTE - 1];
    }
  }

  lemma CoarseHold(w: seq<set<Later>>, e: Entry)
    ensures InLater(w, e) <==> InCoarse(w, e)
  {
    if InLater(w, e) {
      var k :| 0 <= k < |w| && exists l | l in w[k] :: l.entry == e;
      var l :| l in w[k] && l.entry == e;
    }
    if InCoarse(w, e) {
      var k: nat, l: Later :| k < |w| && l in w[k] && l.entry == e;
      assert exists m | m in w[k] :: m.entry == e;
    }
  }

  /** Dropping the front slot of the second wheel releases exactly the entries the flat model releases. */
  lemma ReleasedFlat(w: Wheels, t: nat, e: Entry)
    requires w.Shape() && Seconds(w.minute)
    ensures e in w.second[0] && !Holds(w.(second := PopUp(w.second)), e) <==> Fires(Flatten(w, t), e)
  {
    hide InSecond, InMinute, InSlots, InLater, InCoarse, PopUp;
    var s := PopUp(w.second);
    SlotsHold(s, t + 1, e);
    LaterHold(w.minute, t, e);
    CoarseHold(w.hour, e);
    CoarseHold(w.day, e);
    forall n: nat ensures InSecond(s, t + 1, Ref(e, n)) <==> InSecond(w.second, t, Ref(e, n)) && n > t + 1 {
      SecondPopped(w.second, t, Ref(e, n));
    }
    SecondPopped(w.second, t, Ref(e, t + 1));
    SecondAhead(w.second, t, e);
  }

  lemma SecondAhead(w: seq<set<Entry>>, t: nat, e: Entry)
    ensures forall n: nat :: InSecond(w, t, Ref(e, n)) ==> n > t
  {
  }

  /** A periodic entry among the released ones, at its next deadline. */
  predicate Again(fired: set<Entry>, t: nat, r: Ref) {
    r.entry in fired && r.entry.Every? && Allowed(r.entry.interval) && r.due == Due(t, r.entry.interval)
  }

  /** What the front slot of the minute wheel hands to the second wheel. */
  predicate Handed(front: set<Later>, t: nat, r: Ref) {
    t < r.due < t + MINUTE && Later(r.due - t, r.entry) in front
  }

  lemma InsertedSlots(w: Wheels, t: nat, e: Entry)
    requires w.Shape() && e.Every? && Allowed(e.interval) && e.interval < HOUR
    ensures var v := Inserted(w, e.interval, e);
            v.hour == w.hour && v.day == w.day && (e.interval < MINUTE ==> v.minute == w.minute) &&
            (forall r: Ref :: InSecond(v.second, t, r) <==>
                              InSecond(w.second, t, r) || (e.interval < MINUTE && r == Ref(e, Due(t, e.interval)))) &&
            (forall r: Ref :: InMinute(v.minute, t, r) <==>
                              InMinute(w.minute, t, r) || (e.interval >= MINUTE && r == Ref(e, Due(t, e.interval))))
  {
    hide InSecond, InMinute, Put;
    forall r: Ref
      ensures e.interval < MINUTE ==> (InSecond(Put(w.second, e.interval - 1, e), t, r) <==>
                                       InSecond(w.second, t, r) || r == Ref(e, t + e.interval))
    {
      if e.interval < MINUTE {
        PutSecond(w.second, t, e.interval, e, r);
      }
    }
    if e.interval >= MINUTE {
      forall r: Ref {
        PutMinute(w.minute, t, e.interval, e, r);
      }
    }
  }

  lemma InsertedSecond(w: Wheels, t: nat, l: Later)
    requires w.Shape() && 0 < l.second < MINUTE
    ensures var v := Inserted(w, l.second, l.entry);
            v == w.(second := v.second) &&
            forall r: Ref :: InSecond(v.second, t, r) <==> InSecond(w.second, t, r) || r == Ref(l.entry, t + l.second)
  {
    hide InSecond, Put;
    forall r: Ref {
      PutSecond(w.second, t, l.second, l.entry, r);
    }
  }

  /** On the minute only callbacks with short intervals are released. */
  lemma FiredPeriods(f: Flat, fired: set<Entry>)
    requires FlatOk(f) && forall e :: e in fired <==> Fires(f, e)
    ensures forall e :: e in fired && e.Every? ==>
              Allowed(e.interval) && e.interval < HOUR && ((f.tick + 1) % MINUTE == 0 ==> e.interval < MINUTE)
  {
    forall e | e in fired && e.Every?
      ensures Allowed(e.interval) && e.interval < HOUR && ((f.tick + 1) % MINUTE == 0 ==> e.interval < MINUTE)
    {
      assert Ref(e, f.tick + 1) in f.refs;
    }
  }

  lemma FrontSeconds(w: seq<set<Later>>)
    requires |w| > 0 && Seconds(w)
    ensures Seconds([w[0]]) && Seconds(PopUp(w))
  {
  }

  lemma TickInMinute(w: Wheels, t: nat, n: nat, fired: set<Entry>, v: Wheels)
    requires n == t + 1 && w.Shape() && v.Shape() && n % MINUTE != 0 && v.hour == w.hour && v.day == w.day
    requires FlatOk(Flatten(w, t)) && Seconds(w.minute)
    requires forall e :: e in fired <==> Fires(Flatten(w, t), e)
    requires forall r: Ref :: InSecond(v.second, n, r) <==>
                              InSecond(PopUp(w.second), n, r) || (Again(fired, n, r) && r.entry.interval < MINUTE)
    requires forall r: Ref :: InMinute(v.minute, n, r) <==>
                              InMinute(w.minute, n, r) || (Again(fired, n, r) && r.entry.interval >= MINUTE)
    ensures Flatten(v, n) == Tick(Flatten(w, t))
  {
    hide InSecond, InMinute, InCoarse, PopUp, Fires, Due;
    var f := Flatten(w, t);
    forall r: Ref ensures r in Flatten(v, t + 1).refs <==> r in Tick(f).refs {
      SecondPopped(w.second, t, r);
      MinuteStays(w.minute, t, r);
      LaterHold(w.minute, t, r.entry);
      assert r == Ref(r.entry, r.due);
    }
  }

  lemma TickOnMinute(w: Wheels, t: nat, n: nat, fired: set<Entry>, v: Wheels)
    requires n == t + 1 && w.Shape() && v.Shape() && n % MINUTE == 0 && v.hour == w.hour && v.day == w.day
    requires FlatOk(Flatten(w, t)) && Seconds(w.minute) && v.minute == PopUp(w.minute)
    requires forall e :: e in fired <==> Fires(Flatten(w, t), e)
    requires forall e :: e in fired && e.Every? ==> e.interval < MINUTE
    requires forall r: Ref :: InSecond(v.second, n, r) <==>
                              InSecond(PopUp(w.second), n, r) || Again(fired, n, r) || Handed(w.minute[0], n, r)
    ensures Flatten(v, n) == Tick(Flatten(w, t))
  {
    hide InSecond, InMinute, InCoarse, PopUp, Fires, Due;
    var f := Flatten(w, t);
    forall r: Ref ensures r in Flatten(v, t + 1).refs <==> r in Tick(f).refs {
      SecondPopped(w.second, t, r);
      MinutePopped(w.minute, t, r);
      NoZero(w.minute);
      LaterHold(w.minute, t, r.entry);
      assert r == Ref(r.entry, r.due);
    }
  }

  /** Full hours and days are full minutes, so the branches for them are never taken. */
  lemma CoarserOnMinute(t: nat)
    ensures t % MINUTE != 0 ==> t % HOUR != 0 && t % DAY != 0
  {
    if t % HOUR == 0 {
      assert t == MINUTE * (60 * (t / HOUR));
    }
    if t % DAY == 0 {
      assert t == MINUTE * (1440 * (t / DAY));
    }
  }

  lemma AgainShort(fired: set<Entry>, t: nat)
    requires forall e :: e in fired && e.Every? ==> e.interval < MINUTE
    ensures forall r: Ref :: Again(fired, t, r) ==> r.entry.interval < MINUTE
  {
  }

  lemma NoZero(w: seq<set<Later>>)
    requires |w| > 0 && Seconds(w)
    ensures forall l :: l in w[0] ==> 0 < l.second
  {
  }

  /** An entry is referred to by the wheels exactly if it is live in the flat model. */
  lemma HoldsLive(w: Wheels, t: nat, e: Entry)
    requires Seconds(w.minute)
    ensures Holds(w, e) <==> Live(Flatten(w, t), e)
  {
    hide InSecond, InMinute, InSlots, InLater, InCoarse;
    SlotsHold(w.second, t, e);
    LaterHold(w.minute, t, e);
    CoarseHold(w.hour, e);
    CoarseHold(w.day, e);
    assert forall n: nat :: Ref(e, n) in Flatten(w, t).refs <==>
           InSecond(w.second, t, Ref(e, n)) || InMinute(w.minute, t, Ref(e, n));
  }

  class TimingWheel {
    var second: seq<set<Entry>>
    var minute: seq<set<Later>>
    var hour: seq<set<Later>>
    var day: seq<set<Later>>
    var lastTs: int
    var tick: nat

    function Now(): Wheels
      reads this
    {
      Wheels(second, minute, hour, day)
    }

    /** The deadlines the wheels hold. */
    ghost function State(): Flat
      reads this
    {
      Flatten(Now(), tick)
    }

    ghost predicate Valid()
      reads this
    {
      Now().Shape() && Seconds(minute) && FlatOk(State())
    }

    constructor ()
      ensures Valid() && State() == IDLE && lastTs == 0
    {
      second := seq(60, _ => {});
      minute := seq(60, _ => {});
      hour := seq(24, _ => {});
      day := seq(30, _ => {});
      lastTs, tick := 0, 0;
    }

    method InsertSecondEntry(delay: nat, e: Entry)
      requires Now().Shape() && 0 < delay < MINUTE
      modifies `second
      ensures Now() == Inserted(old(Now()), delay, e)
      ensures second == old(second)[delay - 1 := old(second)[delay - 1] + {e}]
    {
      second := second[delay - 1 := second[delay - 1] + {e}];
    }

    method InsertMinuteEntry(delay: nat, e: Entry)
      requires Now().Shape() && Allowed(delay) && MINUTE <= delay < HOUR
      modifies `minute
      ensures Now() == Inserted(old(Now()), delay, e)
      ensures var k := delay / 60 - 1; minute == old(minute)[k := old(minute)[k] + {Later(delay % 60, e)}]
    {
      var m := delay / MINUTE;
      var s := delay % MINUTE;
      minute := minute[m - 1 := minute[m - 1] + {Later(s, e)}];
    }

    method InsertHourEntry(delay: nat, e: Entry)
      requires Now().Shape() && HOUR <= delay < DAY
      modifies `hour
      ensures Now() == Inserted(old(Now()), delay, e)
      ensures var k := delay / 3600 - 1; hour == old(hour)[k := old(hour)[k] + {Later(delay % 3600, e)}]
    {
      var h := delay / HOUR;
      var s := delay % HOUR;
      hour := hour[h - 1 := hour[h - 1] + {Later(s, e)}];
    }

    method InsertDayEntry(delay: nat, e: Entry)
      requires Now().Shape() && DAY <= delay && delay / DAY <= 30
      modifies `day
      ensures Now() == Inserted(old(Now()), delay, e)
      ensures var k := delay / 86400 - 1; day == old(day)[k := old(day)[k] + {Later(delay % 86400, e)}]
    {
      var d := delay / DAY;
      var s := delay % DAY;
      day := day[d - 1 := day[d - 1] + {Later(s, e)}];
    }

    /** `kept` is false for more than 30 days: then the wheels take no reference. */
    method InsertEntry(delay: nat, e: Entry) returns (kept: bool)
      requires Now().Shape() && Allowed(delay)
      modifies `second, `minute, `hour, `day
      ensures Now() == Inserted(old(Now()), delay, e) && (kept <==> delay / 86400 <= 30)
      ensures State() == Insert(old(State()), e, delay)
      ensures old(Valid()) && Matches(e, delay) ==> Valid()
    {
      InsertedFlat(Now(), tick, delay, e);
      if FlatOk(State()) && Matches(e, delay) {
        InsertOk(State(), e, delay);
      }
      kept := true;
      if delay < MINUTE {
        InsertSecondEntry(delay, e);
      } else if delay < HOUR {
        InsertMinuteEntry(delay, e);
      } else if delay < DAY {
        InsertHourEntry(delay, e);
      } else {
        if delay / DAY > 30 {
          return false;
        }
        InsertDayEntry(delay, e);
      }
    }

    /** The released periodic callbacks run and insert themselves again. */
    method Renew(fired: set<Entry>)
      requires Now().Shape() && Seconds(minute)
      requires forall e :: e in fired && e.Every? ==> Allowed(e.interval) && e.interval < HOUR
      modifies `second, `minute, `hour, `day
      ensures Now().Shape() && Seconds(minute) && hour == old(hour) && day == old(day)
      ensures forall r: Ref :: InSecond(second, tick, r) <==>
                               old(InSecond(second, tick, r)) || (Again(fired, tick, r) && r.entry.interval < MINUTE)
      ensures forall r: Ref :: InMinute(minute, tick, r) <==>
                               old(InMinute(minute, tick, r)) || (Again(fired, tick, r) && r.entry.interval >= MINUTE)
      ensures (forall e :: e in fired && e.Every? ==> e.interval < MINUTE) ==> minute == old(minute)
    {
      hide InSecond, InMinute, Seconds, Put;
      var rest := fired;
      while rest != {}
        invariant rest <= fired
        invariant Now().Shape() && Seconds(minute) && hour == old(hour) && day == old(day)
        invariant forall r: Ref :: InSecond(second, tick, r) <==>
                                   old(InSecond(second, tick, r)) ||
                                   (Again(fired - rest, tick, r) && r.entry.interval < MINUTE)
        invariant forall r: Ref :: InMinute(minute, tick, r) <==>
                                   old(InMinute(minute, tick, r)) ||
                                   (Again(fired - rest, tick, r) && r.entry.interval >= MINUTE)
        invariant (forall e :: e in fired && e.Every? ==> e.interval < MINUTE) ==> minute == old(minute)
      {
        var e :| e in rest;
        if e.Every? {
          InsertedFlat(Now(), tick, e.interval, e);
          ghost var was := Now();
          var _ := InsertEntry(e.interval, e);
          InsertedSlots(was, tick, e);
        }
        rest := rest - {e};
      }
      assert fired - rest == fired;
    }

    /** The dropped entries of the minute wheel insert what they hold for the remaining seconds. */
    method Cascade(front: set<Later>)
      requires Now().Shape() && Seconds([front])
      modifies `second, `minute, `hour, `day
      ensures Now().Shape() && minute == old(minute) && hour == old(hour) && day == old(day)
      ensures forall r: Ref :: InSecond(second, tick, r) <==> old(InSecond(second, tick, r)) || Handed(front, tick, r)
    {
      hide InSecond, Put;
      var rest := front;
      while rest != {}
        invariant rest <= front
        invariant Now().Shape() && minute == old(minute) && hour == old(hour) && day == old(day)
        invariant forall r: Ref :: InSecond(second, tick, r) <==>
                                   old(InSecond(second, tick, r)) || Handed(front - rest, tick, r)
      {
        var l :| l in rest;
        assert l in [front][0] && 0 < l.second < MINUTE;
        ghost var was := Now();
        var _ := InsertEntry(l.second, l.entry);
        InsertedSecond(was, tick, l);
        rest := rest - {l};
      }
      assert front - rest == front;
    }

    /** The front slot of the second wheel is dropped; what no slot refers to any more is released. */
    method PopSecond() returns (fired: set<Entry>)
      requires Valid()
      modifies `second
      ensures Now() == old(Now()).(second := PopUp(old(second)))
      ensures forall e :: e in fired <==> Fires(old(State()), e)
    {
      hide PopUp, Holds, Seconds, FlatOk, Fires;
      ghost var was := Now();
      var tmp := second[0];
      second := PopUp(second);
      fired := set e | e in tmp && Holds(Now(), e) == false;
      forall e ensures e in fired <==> Fires(Flatten(was, tick), e) {
        ReleasedFlat(was, tick, e);
      }
    }

    /** The second wheel has moved on from `was`, and the callbacks released have inserted themselves again. */
    ghost predicate Ticking(was: Wheels, fired: set<Entry>)
      reads this
    {
      tick > 0 && was.Shape() && Seconds(was.minute) && FlatOk(Flatten(was, tick - 1)) &&
      (forall e :: e in fired <==> Fires(Flatten(was, tick - 1), e)) &&
      Now().Shape() && Seconds(minute) && hour == was.hour && day == was.day &&
      (forall r: Ref :: InSecond(second, tick, r) <==>
                        InSecond(PopUp(was.second), tick, r) || (Again(fired, tick, r) && r.entry.interval < MINUTE)) &&
      (forall r: Ref :: InMinute(minute, tick, r) <==>
                        InMinute(was.minute, tick, r) || (Again(fired, tick, r) && r.entry.interval >= MINUTE)) &&
      (tick % MINUTE == 0 ==> minute == was.minute && forall e :: e in fired && e.Every? ==> e.interval < MINUTE)
    }

    method TickSecond() returns (fired: set<Entry>)
      requires Valid()
      modifies `second, `minute, `hour, `day, `tick
      ensures tick == old(tick) + 1 && Ticking(old(Now()), fired)
    {
      hide InSecond, InMinute, PopUp, Fires, Seconds, Again;
      ghost var was, f := Now(), State();
      fired := PopSecond();
      FiredPeriods(f, fired);
      tick := tick + 1;
      Renew(fired);
    }

    /** On the minute the front slot of the minute wheel moves to the second wheel. */
    method TickMinute(ghost was: Wheels, ghost fired: set<Entry>)
      requires Ticking(was, fired) && tick % MINUTE == 0
      modifies `second, `minute, `hour, `day
      ensures Now().Shape() && Seconds(minute) && State() == Tick(Flatten(was, tick - 1))
    {
      hide InSecond, InMinute, PopUp, Fires, Seconds, Again, FlatOk, Handed;
      var front := minute[0];
      FrontSeconds(minute);
      minute := PopUp(minute);
      Cascade(front);
      AgainShort(fired, tick);
      TickOnMinute(was, tick - 1, tick, fired, Now());
    }

    /** One second passes, if `now` is a second or more after the last tick: `fired` are the entries released. */
    method OnTimer(now: int) returns (fired: set<Entry>)
      requires Valid()
      modifies this
      ensures Valid()
      ensures var last := if old(lastTs) == 0 then now else old(lastTs);
              if now - last < 1000 then fired == {} && lastTs == last && State() == old(State())
              else lastTs == now && State() == Tick(old(State())) &&
                   forall e :: e in fired <==> Fires(old(State()), e)
    {
      hide InSecond, InMinute, InCoarse, PopUp, Seconds, FlatOk, Fires, Again, Tick;
      if lastTs == 0 {
        lastTs := now;
      }
      if now - lastTs < 1000 {
        return {};
      }
      lastTs := now;
      ghost var was := Now();
      TickOk(State());
      fired := TickSecond();
      CoarserOnMinute(tick);
      if tick % MINUTE == 0 {
        TickMinute(was, fired);
      } else if tick % HOUR == 0 {
        assert false;
      } else if tick % DAY == 0 {
        assert false;
      } else {
        TickInMinute(was, tick - 1, tick, fired, Now());
      }
    }

    /** RunAfter; `ran` says that the wheels refused the callback's entry, whose destructor then runs it at once. */
    method RunAfter(delay: nat, e: Entry) returns (ran: bool)
      requires Valid() && Allowed(delay) && e.Once? && !Live(State(), e)
      modifies `second, `minute, `hour, `day
      ensures Valid() && State() == Insert(old(State()), e, delay)
      ensures ran <==> delay / 86400 > 30
      ensures ran <==> !Live(State(), e)
    {
      var kept := InsertEntry(delay, e);
      ran := !kept;
      if delay < HOUR {
        assert Ref(e, Due(tick, delay)) in State().refs;
      }
    }

    method RunEvery(e: Entry)
      requires Valid() && e.Every? && Allowed(e.interval) && e.interval / DAY <= 30 && !Live(State(), e)
      modifies `second, `minute, `hour, `day
      ensures Valid() && State() == Insert(old(State()), e, e.interval)
    {
      var _ := InsertEntry(e.interval, e);
    }
  }

  /** The idle check of a connection: it keeps a weak pointer to its time-out entry. */
  class IdleCheck {
    const timeoutEntry: Entry
    var maxIdleTime: nat

    /** EnableCheckIdleTimeout. */
    constructor (wheel: TimingWheel, maxTime: nat, e: Entry)
      requires wheel.Valid() && Allowed(maxTime) && e.Once? && !Live(wheel.State(), e)
      modifies wheel`second, wheel`minute, wheel`hour, wheel`day
      ensures timeoutEntry == e && maxIdleTime == maxTime
      ensures wheel.Valid() && wheel.State() == Insert(old(wheel.State()), e, maxTime)
    {
      timeoutEntry, maxIdleTime := e, maxTime;
      new;
      var _ := wheel.InsertEntry(maxTime, e);
    }

    method ExtendLife(wheel: TimingWheel)
      requires wheel.Valid() && Allowed(maxIdleTime) && timeoutEntry.Once?
      modifies wheel`second, wheel`minute, wheel`hour, wheel`day
      ensures wheel.Valid()
      ensures wheel.State() ==
              if Live(old(wheel.State()), timeoutEntry) then Insert(old(wheel.State()), timeoutEntry, maxIdleTime)
              else old(wheel.State())
    {
      hide Holds, Seconds, FlatOk;
      HoldsLive(wheel.Now(), wheel.tick, timeoutEntry);
      if Holds(wheel.Now(), timeoutEntry) {
        var _ := wheel.InsertEntry(maxIdleTime, timeoutEntry);
      }
    }
  }
}

/**
 * Timers as a flat set of deadlines: each insertion of an entry is a reference that ends at a tick, and the entry is
 * released when its last reference ends. The wheels of TimingWheel implement this.
 */
module TimerModel {
  /**
   * Once: a callback, or a time-out entry that is inserted again and again. Every: a callback that reinserts itself.
   */
  datatype Entry = Once(id: nat) | Every(id: nat, interval: nat)

  datatype Ref = Ref(entry: Entry, due: nat)

  const MINUTE := 60
  const HOUR := 3600
  const DAY := 86400

  /** References that end, and entries held by the hour and day wheels. */
  datatype Flat = Flat(tick: nat, refs: iset<Ref>, parked: iset<Entry>)

  const IDLE := Flat(0, iset{}, iset{})

  /** Delays for which the wheels never index the slot before the first. */
  predicate Allowed(d: nat) {
    0 < d && (MINUTE <= d < HOUR ==> d % MINUTE != 0)
  }

  /** When a reference made after tick `t` ends: delays of a minute and more count from the start of the minute. */
  function Due(t: nat, d: nat): (n: nat)
    requires Allowed(d)
    ensures t < n <= t + d < n + 60 && (d < 60 ==> n == t + d) && (d >= 60 ==> n % 60 == d % 60)
  {
    if d < MINUTE then t + d else t - t % MINUTE + d
  }

  ghost predicate Fires(f: Flat, e: Entry) {
    Ref(e, f.tick + 1) in f.refs && (forall n: nat :: Ref(e, n) in f.refs ==> n <= f.tick + 1) && e !in f.parked
  }

  ghost predicate Live(f: Flat, e: Entry) {
    e in f.parked || exists n: nat :: Ref(e, n) in f.refs
  }

  ghost function Insert(f: Flat, e: Entry, d: nat): Flat
    requires Allowed(d)
  {
    if d < HOUR then f.(refs := f.refs + iset{Ref(e, Due(f.tick, d))})
    else if d / DAY <= 30 then f.(parked := f.parked + iset{e})
    else f
  }

  ghost predicate Renewed(f: Flat, r: Ref) {
    r.entry.Every? && Fires(f, r.entry) && Allowed(r.entry.interval) && r.due == Due(f.tick + 1, r.entry.interval)
  }

  ghost function Tick(f: Flat): Flat {
    var refs := iset r: Ref | (r in f.refs && r.due > f.tick + 1) || Renewed(f, r);
    Flat(f.tick + 1, refs, f.parked)
  }

  /** Periodic entries are only inserted with their own interval. */
  predicate Matches(e: Entry, d: nat) {
    Allowed(d) && (e.Every? ==> e.interval == d)
  }

  ghost predicate FlatOk(f: Flat) {
    forall r :: r in f.refs ==>
      f.tick < r.due && (r.entry.Every? ==> Allowed(r.entry.interval) && r.entry.interval < HOUR &&
                                            (r.entry.interval >= MINUTE ==>
                                             r.due % MINUTE == r.entry.interval % MINUTE))
  }

  lemma InsertOk(f: Flat, e: Entry, d: nat)
    requires FlatOk(f) && Matches(e, d)
    ensures FlatOk(Insert(f, e, d))
  {
    DueMod(f.tick, d);
  }

  lemma DueMod(t: nat, d: nat)
    requires Allowed(d)
    ensures d >= MINUTE ==> Due(t, d) % MINUTE == d % MINUTE
  {
  }

  lemma TickOk(f: Flat)
    requires FlatOk(f)
    ensures FlatOk(Tick(f))
  {
    forall r | r in Tick(f).refs && Renewed(f, r)
      ensures r.due % MINUTE == r.entry.interval % MINUTE || r.entry.interval < MINUTE
    {
      DueMod(f.tick + 1, r.entry.interval);
    }
  }

  // ---- Runs ----

  datatype Event = Add(e: Entry, d: nat) | Second

  ghost predicate Sensible(es: seq<Event>) {
    forall i :: 0 <= i < |es| && es[i].Add? ==> Matches(es[i].e, es[i].d)
  }

  ghost function Run(f: Flat, es: seq<Event>): Flat
    requires Sensible(es)
    decreases |es|
  {
    if es == [] then f
    else
      var g := Run(f, es[..|es| - 1]);
      match es[|es| - 1]
      case Add(e, d) => Insert(g, e, d)
      case Second => Tick(g)
  }

  /** The deadlines given to an entry so far, whether passed or not. */
  ghost function Given(f: Flat, es: seq<Event>, e: Entry): iset<nat>
    requires Sensible(es)
    decreases |es|
  {
    if es == [] then iset n: nat | Ref(e, n) in f.refs
    else
      var g := Run(f, es[..|es| - 1]);
      var last := es[|es| - 1];
      Given(f, es[..|es| - 1], e) +
      if last.Add? && last.e == e && last.d < HOUR then iset{Due(g.tick, last.d)} else iset{}
  }

  /** The entry was given a delay of an hour or more, up to 30 days. */
  ghost predicate Stuck(f: Flat, es: seq<Event>, e: Entry) {
    e in f.parked || exists i :: 0 <= i < |es| && es[i].Add? && es[i].e == e && HOUR <= es[i].d && es[i].d / DAY <= 30
  }

  lemma {:induction false} RunOk(f: Flat, es: seq<Event>)
    requires FlatOk(f) && Sensible(es)
    ensures FlatOk(Run(f, es))
    decreases |es|
  {
    if es != [] {
      var n := |es| - 1;
      RunOk(f, es[..n]);
      match es[n]
      case Add(e, d) => InsertOk(Run(f, es[..n]), e, d);
      case Second => TickOk(Run(f, es[..n]));
    }
  }

  /** At any time an entry holds exactly those of its deadlines that have not passed. */
  lemma {:induction false} Remaining(f: Flat, es: seq<Event>, e: Entry, n: nat)
    requires FlatOk(f) && Sensible(es) && e.Once?
    ensures Ref(e, n) in Run(f, es).refs <==> n in Given(f, es, e) && n > Run(f, es).tick
    decreases |es|
  {
    if es != [] {
      Remaining(f, es[..|es| - 1], e, n);
    }
  }

  lemma {:induction false} ParkedWhenStuck(f: Flat, es: seq<Event>, e: Entry)
    requires Sensible(es)
    ensures e in Run(f, es).parked <==> Stuck(f, es, e)
    decreases |es|
  {
    if es != [] {
      var n := |es| - 1;
      ParkedWhenStuck(f, es[..n], e);
      assert forall i :: 0 <= i < n ==> es[..n][i] == es[i];
    }
  }

  /**
   * The release law, for every run: an entry is released by the next tick exactly if one of the deadlines ever given to
   * it is that tick, none is later, and no delay of an hour or more was ever given to it.
   */
  lemma ReleaseLaw(f: Flat, es: seq<Event>, e: Entry)
    requires FlatOk(f) && Sensible(es) && e.Once?
    ensures var n := Run(f, es).tick + 1;
            Fires(Run(f, es), e) <==>
            n in Given(f, es, e) && (forall m :: m in Given(f, es, e) ==> m <= n) && !Stuck(f, es, e)
  {
    hide Given, Run, Stuck;
    ParkedWhenStuck(f, es, e);
    forall m: nat ensures Ref(e, m) in Run(f, es).refs <==> m in Given(f, es, e) && m > Run(f, es).tick {
      Remaining(f, es, e, m);
    }
  }

  // ---- One insertion ----

  ghost predicate NotAdded(es: seq<Event>, e: Entry) {
    forall i :: 0 <= i < |es| && es[i].Add? ==> es[i].e != e
  }

  lemma {:induction false} GivenStays(f: Flat, es: seq<Event>, e: Entry)
    requires Sensible(es) && NotAdded(es, e)
    ensures Given(f, es, e) == iset n: nat | Ref(e, n) in f.refs
    decreases |es|
  {
    if es != [] {
      GivenStays(f, es[..|es| - 1], e);
    }
  }

  /**
   * In every run, an entry inserted once with a delay under an hour is released at one tick and at no other: `d`
   * seconds later, counted from the start of the minute if `d` is a minute or more.
   */
  lemma ReleasedOnTime(f: Flat, e: Entry, d: nat, es: seq<Event>)
    requires FlatOk(f) && !Live(f, e) && e.Once? && d < 3600 && (if d < 60 then d > 0 else d % 60 != 0)
    requires Sensible(es) && NotAdded(es, e)
    ensures var g := Run(Insert(f, e, d), es);
            Fires(g, e) <==> g.tick + 1 == d + if d < 60 then f.tick else f.tick - f.tick % 60
  {
    hide Run, Given, Fires;
    var f1 := Insert(f, e, d);
    InsertOk(f, e, d);
    GivenStays(f1, es, e);
    ReleaseLaw(f1, es, e);
    NotStuck(f1, es, e);
  }

  lemma NotStuck(f: Flat, es: seq<Event>, e: Entry)
    requires e !in f.parked && NotAdded(es, e)
    ensures !Stuck(f, es, e)
  {
  }

  /** In every run, an entry that was once given a delay of an hour to 30 days is never released again. */
  lemma NeverReleased(f: Flat, e: Entry, d: nat, es: seq<Event>)
    requires 3600 <= d && d / 86400 <= 30 && Sensible(es)
    ensures !Fires(Run(Insert(f, e, d), es), e)
  {
    ParkedWhenStuck(Insert(f, e, d), es, e);
  }

  // ---- Periodic callbacks ----

  /** The ticks between two calls: an interval of a minute or more loses its seconds. */
  function Period(i: nat): (p: nat)
    requires Allowed(i)
    ensures 0 < p <= i < p + 60 && if i < 60 then p == i else p % 60 == 0
  {
    if i < MINUTE then i else i - i % MINUTE
  }

  predicate Beat(t: nat, i: nat, n: nat)
    requires Allowed(i)
  {
    n >= Due(t, i) && (n - Due(t, i)) % Period(i) == 0
  }

  /** A periodic entry holds one deadline, the next beat. */
  ghost predicate NextBeat(t: nat, f: Flat, e: Entry, m: nat)
    requires e.Every? && Allowed(e.interval)
  {
    Beat(t, e.interval, m) && f.tick < m && (m == Due(t, e.interval) || m - Period(e.interval) <= f.tick) &&
    e !in f.parked && forall n: nat :: Ref(e, n) in f.refs <==> n == m
  }

  lemma BeatAfter(t: nat, i: nat, n: nat)
    requires Allowed(i) && Beat(t, i, n) && (i >= MINUTE ==> n % MINUTE == i % MINUTE)
    ensures Due(n, i) == n + Period(i) && Beat(t, i, n + Period(i))
  {
    AddModulus(n - Due(t, i), Period(i));
  }

  lemma AddModulus(a: nat, p: nat)
    requires p > 0
    ensures (a + p) % p == a % p
  {
    assert a == a / p * p + a % p;
    assert a + p == (a / p + 1) * p + a % p;
    ModIs(a + p, a / p + 1, a % p, p);
  }

  lemma MulAtLeast(k: nat, p: nat)
    requires k > 0
    ensures k * p >= p
  {
    assert k * p == (k - 1) * p + p && (k - 1) * p >= 0;
  }

  lemma QuotientUnique(q1: nat, r1: nat, q2: nat, r2: nat, p: nat)
    requires q1 * p + r1 == q2 * p + r2 && r1 < p && r2 < p
    ensures q1 == q2
  {
    if q1 < q2 {
      MulAtLeast(q2 - q1, p);
    } else if q2 < q1 {
      MulAtLeast(q1 - q2, p);
    }
  }

  lemma ModIs(x: nat, q: nat, r: nat, p: nat)
    requires p > 0 && x == q * p + r && r < p
    ensures x % p == r
  {
    QuotientUnique(q, r, x / p, x % p, p);
  }

  lemma PeriodicTick(t: nat, f: Flat, e: Entry, m: nat)
    requires FlatOk(f) && e.Every? && Allowed(e.interval) && NextBeat(t, f, e, m)
    ensures NextBeat(t, Tick(f), e, if m == f.tick + 1 then m + Period(e.interval) else m)
  {
    hide Beat, Period, Due;
    assert Ref(e, m) in f.refs;
    if m == f.tick + 1 {
      BeatAfter(t, e.interval, m);
    }
  }

  lemma {:induction false} PeriodicRun(f: Flat, e: Entry, es: seq<Event>) returns (m: nat)
    requires FlatOk(f) && !Live(f, e) && e.Every? && Allowed(e.interval) && e.interval < HOUR
    requires Sensible(es) && NotAdded(es, e)
    ensures NextBeat(f.tick, Run(Insert(f, e, e.interval), es), e, m)
    decreases |es|
  {
    hide Beat, Period, Due;
    var f1 := Insert(f, e, e.interval);
    InsertOk(f, e, e.interval);
    if es == [] {
      m := Due(f.tick, e.interval);
      FirstBeat(f.tick, e.interval);
    } else {
      m := PeriodicRun(f, e, es[..|es| - 1]);
      var g := Run(f1, es[..|es| - 1]);
      RunOk(f1, es[..|es| - 1]);
      if es[|es| - 1].Second? {
        PeriodicTick(f.tick, g, e, m);
        m := if m == g.tick + 1 then m + Period(e.interval) else m;
      }
    }
  }

  lemma FirstBeat(t: nat, i: nat)
    requires Allowed(i)
    ensures Beat(t, i, Due(t, i)) && Due(t, i) > t
  {
  }

  lemma SameMultiple(a: nat, b: nat, p: nat)
    requires p > 0 && a % p == 0 && b % p == 0 && b <= a < b + p
    ensures a == b
  {
    QuotientUnique(b / p, a - b, a / p, 0, p);
  }

  lemma SameBeat(t: nat, i: nat, m: nat, n: nat)
    requires Allowed(i) && Beat(t, i, m) && n <= m && (m == Due(t, i) || m - Period(i) < n)
    ensures Beat(t, i, n) <==> n == m
  {
    hide Due, Period;
    if Beat(t, i, n) && n < m {
      SameMultiple(m - Due(t, i), n - Due(t, i), Period(i));
    }
  }

  /**
   * RunEvery, for every run: the callback runs exactly at the beats of its interval, forever. Under a minute these are
   * the multiples of the interval; from a minute on they are whole minutes apart.
   */
  lemma PeriodicLaw(f: Flat, e: Entry, es: seq<Event>)
    requires FlatOk(f) && !Live(f, e) && e.Every? && e.interval < 3600
    requires if e.interval < 60 then e.interval > 0 else e.interval % 60 != 0
    requires Sensible(es) && NotAdded(es, e)
    ensures var g, i, t := Run(Insert(f, e, e.interval), es), e.interval, f.tick;
            Fires(g, e) <==>
            if i < 60 then g.tick + 1 > t && (g.tick + 1 - t) % i == 0
            else g.tick + 1 >= t - t % 60 + i && (g.tick + 1 - (t - t % 60 + i)) % (i - i % 60) == 0
  {
    PeriodicBeats(f, e, es);
    var n := Run(Insert(f, e, e.interval), es).tick + 1;
    if e.interval < 60 {
      ShortBeats(f.tick, e.interval, n);
    }
  }

  lemma PeriodicBeats(f: Flat, e: Entry, es: seq<Event>)
    requires FlatOk(f) && !Live(f, e) && e.Every? && Allowed(e.interval) && e.interval < HOUR
    requires Sensible(es) && NotAdded(es, e)
    ensures var g := Run(Insert(f, e, e.interval), es);
            Fires(g, e) <==> Beat(f.tick, e.interval, g.tick + 1)
  {
    hide Run, Beat, Period, Due;
    var m := PeriodicRun(f, e, es);
    var g := Run(Insert(f, e, e.interval), es);
    assert Ref(e, m) in g.refs;
    SameBeat(f.tick, e.interval, m, g.tick + 1);
  }

  /** Up to 59 seconds the beats are the multiples of the interval. */
  lemma ShortBeats(t: nat, i: nat, n: nat)
    requires 0 < i < 60
    ensures Beat(t, i, n) <==> n > t && (n - t) % i == 0
  {
    if n > t {
      if n - t < i {
        ModIs(n - t, 0, n - t, i);
      } else {
        AddModulus(n - t - i, i);
      }
    }
  }

  /** RunEvery keeps its interval, whenever it is started, exactly if the interval is under a minute. */
  lemma IntervalKept(t: nat, i: nat)
    requires i < 3600 && if i < 60 then i > 0 else i % 60 != 0
    ensures (forall n: nat :: Beat(t, i, n) <==> n > t && (n - t) % i == 0) <==> i < 60
  {
    hide Beat;
    if i < MINUTE {
      forall n: nat ensures Beat(t, i, n) <==> n > t && (n - t) % i == 0 {
        ShortBeats(t, i, n);
      }
    } else {
      var n := WrongBeat(t, i);
      assert !(Beat(t, i, n) <==> n > t && (n - t) % i == 0);
    }
  }

  /** A beat that is not a multiple of the interval from the start: the first one, or the second. */
  lemma WrongBeat(t: nat, i: nat) returns (n: nat)
    requires Allowed(i) && MINUTE <= i < HOUR
    ensures Beat(t, i, n) && n > t && (n - t) % i != 0
  {
    FirstBeat(t, i);
    if t % MINUTE == 0 {
      n := t + i + Period(i);
      DueMod(t, i);
      BeatAfter(t, i, t + i);
      AddModulus(Period(i), i);
      ModIs(Period(i), 0, Period(i), i);
    } else {
      n := Due(t, i);
      ModIs(n - t, 0, n - t, i);
    }
  }

  // ---- Idle connections ----

  /** What happens to a connection that has enabled its idle check, and to everything else on the wheel. */
  datatype Life = Extend | Else(ev: Event)

  /** The connection's time-out entry on the wheel: the connection keeps only a weak pointer to it. */
  datatype Idle = Idle(f: Flat, timeouts: seq<nat>)

  /** What the connection promises: a countdown that every extension restarts. */
  datatype Watch = Watch(tick: nat, last: nat, timeouts: seq<nat>)

  predicate Foreign(ls: seq<Life>, e: Entry) {
    forall i :: 0 <= i < |ls| && ls[i].Else? && ls[i].ev.Add? ==> ls[i].ev.e != e && Matches(ls[i].ev.e, ls[i].ev.d)
  }

  ghost function IdleRun(f: Flat, e: Entry, d: nat, ls: seq<Life>): Idle
    requires Allowed(d) && Foreign(ls, e)
    decreases |ls|
  {
    if ls == [] then Idle(Insert(f, e, d), [])
    else
      var x := IdleRun(f, e, d, ls[..|ls| - 1]);
      match ls[|ls| - 1]
      case Extend => if Live(x.f, e) then x.(f := Insert(x.f, e, d)) else x
      case Else(Add(e1, d1)) => x.(f := Insert(x.f, e1, d1))
      case Else(Second) => Idle(Tick(x.f), x.timeouts + if Fires(x.f, e) then [x.f.tick + 1] else [])
  }

  function WatchRun(t: nat, d: nat, ls: seq<Life>): Watch
    requires Allowed(d)
    decreases |ls|
  {
    if ls == [] then Watch(t, t, [])
    else
      var w := WatchRun(t, d, ls[..|ls| - 1]);
      match ls[|ls| - 1]
      case Extend => if w.timeouts == [] then w.(last := w.tick) else w
      case Else(Add(_, _)) => w
      case Else(Second) =>
        w.(tick := w.tick + 1, timeouts := w.timeouts + if Due(w.last, d) == w.tick + 1 then [w.tick + 1] else [])
  }

  ghost predicate Agree(x: Idle, w: Watch, e: Entry, d: nat)
    requires Allowed(d)
  {
    FlatOk(x.f) && x.f.tick == w.tick && x.timeouts == w.timeouts && e !in x.f.parked && w.last <= w.tick &&
    if w.tick < Due(w.last, d) then
      w.timeouts == [] && Ref(e, Due(w.last, d)) in x.f.refs &&
      forall n: nat :: Ref(e, n) in x.f.refs ==> n <= Due(w.last, d)
    else
      w.timeouts == [Due(w.last, d)] && !Live(x.f, e)
  }

  lemma DueMonotone(s: nat, t: nat, d: nat)
    requires Allowed(d) && s <= t
    ensures Due(s, d) <= Due(t, d)
  {
  }

  /**
   * The idle check, for every pattern of extensions: OnTimeout runs at most once, exactly when the countdown from the
   * last extension ends, and not while a later reference to the shared entry remains.
   */
  lemma {:induction false} IdleLaw(f: Flat, e: Entry, d: nat, ls: seq<Life>)
    requires FlatOk(f) && !Live(f, e) && e.Once? && Allowed(d) && d < HOUR && Foreign(ls, e)
    ensures Agree(IdleRun(f, e, d, ls), WatchRun(f.tick, d, ls), e, d)
    decreases |ls|
  {
    hide Due, Tick, Fires;
    if ls == [] {
      InsertOk(f, e, d);
    } else {
      IdleLaw(f, e, d, ls[..|ls| - 1]);
      var x, w := IdleRun(f, e, d, ls[..|ls| - 1]), WatchRun(f.tick, d, ls[..|ls| - 1]);
      match ls[|ls| - 1]
      case Extend => ExtendAgrees(x, w, e, d);
      case Else(Add(e1, d1)) => InsertOk(x.f, e1, d1);
      case Else(Second) => SecondAgrees(x, w, e, d);
    }
  }

  lemma ExtendAgrees(x: Idle, w: Watch, e: Entry, d: nat)
    requires Allowed(d) && d < HOUR && e.Once? && Agree(x, w, e, d)
    ensures Live(x.f, e) <==> w.timeouts == []
    ensures w.timeouts == [] ==> Agree(x.(f := Insert(x.f, e, d)), w.(last := w.tick), e, d)
  {
    hide Due;
    InsertOk(x.f, e, d);
    DueMonotone(w.last, w.tick, d);
  }

  lemma SecondAgrees(x: Idle, w: Watch, e: Entry, d: nat)
    requires Allowed(d) && e.Once? && Agree(x, w, e, d)
    ensures Agree(Idle(Tick(x.f), x.timeouts + if Fires(x.f, e) then [x.f.tick + 1] else []),
                  w.(tick := w.tick + 1,
                     timeouts := w.timeouts + if Due(w.last, d) == w.tick + 1 then [w.tick + 1] else []), e, d)
  {
    hide Due;
    TickOk(x.f);
  }

  /** With a limit under a minute the single time-out comes exactly `d` ticks after the last extension. */
  lemma IdleTimeout(f: Flat, e: Entry, d: nat, ls: seq<Life>)
    requires FlatOk(f) && !Live(f, e) && e.Once? && 0 < d < 60 && Foreign(ls, e)
    ensures var x, w := IdleRun(f, e, d, ls), WatchRun(f.tick, d, ls);
            x.timeouts == if w.last + d <= w.tick then [w.last + d] else []
  {
    IdleLaw(f, e, d, ls);
  }

  function Passed(ls: seq<Life>): (n: nat)
    decreases |ls|
  {
    if ls == [] then 0 else Passed(ls[..|ls| - 1]) + if ls[|ls| - 1] == Else(Second) then 1 else 0
  }

  lemma {:induction false} WatchGoesOn(t: nat, d: nat, a: seq<Life>, b: seq<Life>)
    requires Allowed(d) && Extend !in b
    ensures var v, w := WatchRun(t, d, a), WatchRun(t, d, a + b);
            w.last == v.last && w.tick == v.tick + Passed(b)
    decreases |b|
  {
    if b == [] {
      assert a + b == a;
    } else {
      WatchGoesOn(t, d, a, b[..|b| - 1]);
      assert (a + b)[..|a + b| - 1] == a + b[..|b| - 1];
    }
  }

  /**
   * An extension that finds the entry alive gives the connection `d` more seconds, and no more: whatever came before,
   * the time-out comes when `d` seconds have passed without another one.
   */
  lemma ExtendedTimeout(f: Flat, e: Entry, d: nat, a: seq<Life>, b: seq<Life>)
    requires FlatOk(f) && !Live(f, e) && e.Once? && 0 < d < 60
    requires Foreign(a, e) && Foreign(a + [Extend] + b, e) && Extend !in b
    requires IdleRun(f, e, d, a).timeouts == []
    ensures var x, y := IdleRun(f, e, d, a), IdleRun(f, e, d, a + [Extend] + b);
            y.timeouts == if Passed(b) >= d then [x.f.tick + d] else []
  {
    hide Foreign, FlatOk, Live, Passed;
    IdleLaw(f, e, d, a);
    assert (a + [Extend])[..|a|] == a;
    WatchGoesOn(f.tick, d, a + [Extend], b);
    IdleTimeout(f, e, d, a + [Extend] + b);
  }

  /** With no extension the time-out comes `d` seconds after the check was enabled. */
  lemma FirstTimeout(f: Flat, e: Entry, d: nat, b: seq<Life>)
    requires FlatOk(f) && !Live(f, e) && e.Once? && 0 < d < 60 && Foreign(b, e) && Extend !in b
    ensures IdleRun(f, e, d, b).timeouts == if Passed(b) >= d then [f.tick + d] else []
  {
    hide Foreign, FlatOk, Live, IdleRun, Passed;
    WatchGoesOn(f.tick, d, [], b);
    assert [] + b == b;
    IdleTimeout(f, e, d, b);
  }
}

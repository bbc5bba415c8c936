/**
  The fixed-window rate limiter of internal/llm/ratelimit.go.

  Instants are integers; instant 0 is the zero time.Time, which the limiter
  reads as "no window yet".  One pass through the critical section is
  `Attempt`; a history interleaves the attempts of any number of callers and
  scopes in lock order.
 */
module RateLimits {
  import opened Text
  import opened TextProofs

  datatype Config = Config(requests: int, window: int)

  datatype Window = Window(start: int, count: int)

  datatype Outcome = Admitted | Blocked(waitFor: int)

  datatype Limiter = Limiter(defaultCfg: Config, limits: map<string, Config>, states: map<string, Window>)

  predicate Enabled(cfg: Config) { cfg.requests > 0 && cfg.window > 0 }

  function ConfigFor(l: Limiter, scope: string): Config {
    if scope in l.limits then l.limits[scope] else l.defaultCfg
  }

  function WindowFor(l: Limiter, scope: string): Window {
    if scope in l.states then l.states[scope] else Window(0, 0)
  }

  function ScopeKey(scope: string): string {
    if TrimSpace(scope) == "" then "global" else TrimSpace(scope)
  }

  /** The window an attempt at `now` is counted in. */
  function Current(cfg: Config, w: Window, now: int): Window {
    if w.start == 0 || now - w.start >= cfg.window then Window(now, 0) else w
  }

  function Attempt(l: Limiter, scope: string, now: int): (Outcome, Limiter) {
    var cfg := ConfigFor(l, scope);
    if !Enabled(cfg) then (Admitted, l)
    else
      var w := Current(cfg, WindowFor(l, scope), now);
      if w.count < cfg.requests
      then (Admitted, l.(states := l.states[scope := w.(count := w.count + 1)]))
      else (Blocked(w.start + cfg.window - now), l)
  }

  // ----- Histories

  datatype Event = Try(scope: string, now: int) | SetLimit(scope: string, cfg: Config)

  function After(l: Limiter, history: seq<Event>): Limiter {
    if history == [] then l
    else
      var l' := After(l, history[..|history| - 1]);
      match history[|history| - 1]
      case Try(scope, now) => Attempt(l', scope, now).1
      case SetLimit(scope, cfg) => l'.(limits := l'.limits[scope := cfg])
  }

  /** The instants at which `scope` was admitted, in order. */
  function Admissions(l: Limiter, history: seq<Event>, scope: string): seq<int> {
    if history == [] then []
    else
      var before := history[..|history| - 1];
      var e := history[|history| - 1];
      Admissions(l, before, scope)
      + if e.Try? && e.scope == scope && Attempt(After(l, before), scope, e.now).0.Admitted? then [e.now] else []
  }

  function CountIn(instants: seq<int>, from: int, to: int): nat {
    if instants == [] then 0
    else
      var t := instants[|instants| - 1];
      CountIn(instants[..|instants| - 1], from, to) + if from <= t < to then 1 else 0
  }

  predicate LimitFixed(history: seq<Event>, scope: string) {
    forall i :: 0 <= i < |history| && history[i].SetLimit? ==> history[i].scope != scope
  }

  lemma {:induction false} ConfigKept(l: Limiter, history: seq<Event>, scope: string)
    requires LimitFixed(history, scope)
    ensures ConfigFor(After(l, history), scope) == ConfigFor(l, scope)
  {
    if history != [] {
      ConfigKept(l, history[..|history| - 1], scope);
    }
  }

  /** Either no window was opened yet, or the open one was opened by an admission. */
  predicate Opened(w: Window) { (w.start == 0 && w.count == 0) || (w.start != 0 && w.count >= 1) }

  /** Attempt i on the scope reads a proper instant, at most `skew` before the start of the window that is open then. */
  predicate OnTime(l: Limiter, history: seq<Event>, scope: string, skew: nat, i: nat)
    requires i < |history|
  {
    history[i].Try? && history[i].scope == scope ==>
      history[i].now > 0 && history[i].now >= WindowFor(After(l, history[..i]), scope).start - skew
  }

  /** A stretch of events in which the scope is limited by a fixed limit and its readings are late by at most `skew`. */
  ghost predicate Setting(l: Limiter, history: seq<Event>, scope: string, skew: nat) {
    && Enabled(ConfigFor(l, scope)) && Opened(WindowFor(l, scope)) && LimitFixed(history, scope)
    && forall i :: 0 <= i < |history| ==> OnTime(l, history, scope, skew, i)
  }

  lemma {:induction false} SettingPrefix(l: Limiter, history: seq<Event>, scope: string, skew: nat)
    requires Setting(l, history, scope, skew) && history != []
    ensures Setting(l, history[..|history| - 1], scope, skew)
  {
    var before := history[..|history| - 1];
    forall i | 0 <= i < |before| ensures OnTime(l, before, scope, skew, i) {
      assert OnTime(l, history, scope, skew, i) && before[..i] == history[..i];
    }
  }

  // ----- What one event does

  /** An attempt that starts a new window rather than filling the open one. */
  predicate Opens(cfg: Config, w: Window, now: int) { w.start == 0 || now - w.start >= cfg.window }

  predicate AdmitsLast(l: Limiter, history: seq<Event>, scope: string)
    requires history != []
  {
    var e := history[|history| - 1];
    e.Try? && e.scope == scope && Attempt(After(l, history[..|history| - 1]), scope, e.now).0.Admitted?
  }

  /** How many admissions of the scope in [from, to) opened a window. */
  function OpenCount(l: Limiter, history: seq<Event>, scope: string, from: int, to: int): nat {
    if history == [] then 0
    else
      var before, e := history[..|history| - 1], history[|history| - 1];
      OpenCount(l, before, scope, from, to) +
      if AdmitsLast(l, history, scope) && Opens(ConfigFor(l, scope), WindowFor(After(l, before), scope), e.now)
        && from <= e.now < to
      then 1 else 0
  }

  /** How many filled one that was open. */
  function FillCount(l: Limiter, history: seq<Event>, scope: string, from: int, to: int): nat {
    if history == [] then 0
    else
      var before, e := history[..|history| - 1], history[|history| - 1];
      FillCount(l, before, scope, from, to) +
      if AdmitsLast(l, history, scope) && !Opens(ConfigFor(l, scope), WindowFor(After(l, before), scope), e.now)
        && from <= e.now < to
      then 1 else 0
  }

  lemma {:induction false} CountAppend(instants: seq<int>, t: int, from: int, to: int)
    ensures CountIn(instants + [t], from, to) == CountIn(instants, from, to) + if from <= t < to then 1 else 0
  {
    assert (instants + [t])[..|instants|] == instants;
  }

  lemma {:induction false} AdmissionsSplit(l: Limiter, history: seq<Event>, scope: string, from: int, to: int)
    ensures CountIn(Admissions(l, history, scope), from, to)
         == OpenCount(l, history, scope, from, to) + FillCount(l, history, scope, from, to)
  {
    if history != [] {
      var before, e := history[..|history| - 1], history[|history| - 1];
      AdmissionsSplit(l, before, scope, from, to);
      if AdmitsLast(l, history, scope) {
        CountAppend(Admissions(l, before, scope), e.now, from, to);
      } else {
        assert Admissions(l, history, scope) == Admissions(l, before, scope);
      }
    }
  }

  datatype Effect = Untouched | Opening(at: int) | Filling(at: int)

  /** What the last event does to the scope. */
  ghost function EffectOf(l: Limiter, history: seq<Event>, scope: string): Effect
    requires history != []
  {
    var before, e := history[..|history| - 1], history[|history| - 1];
    if !AdmitsLast(l, history, scope) then Untouched
    else if Opens(ConfigFor(l, scope), WindowFor(After(l, before), scope), e.now) then Opening(e.now)
    else Filling(e.now)
  }

  ghost predicate EffectHolds(cfg: Config, w: Window, w': Window, skew: nat, effect: Effect) {
    match effect
    case Untouched => w' == w
    case Opening(t) => w' == Window(t, 1) && t > 0 && (w.start == 0 || t >= w.start + cfg.window)
    case Filling(t) =>
      w.start != 0 && w.start - skew <= t < w.start + cfg.window && w.count < cfg.requests
        && w' == w.(count := w.count + 1)
  }

  lemma {:induction false} LastEvent(l: Limiter, history: seq<Event>, scope: string, skew: nat)
    requires Setting(l, history, scope, skew) && history != []
    ensures EffectHolds(ConfigFor(l, scope), WindowFor(After(l, history[..|history| - 1]), scope),
                        WindowFor(After(l, history), scope), skew, EffectOf(l, history, scope))
  {
    SettingPrefix(l, history, scope, skew);
    ConfigKept(l, history[..|history| - 1], scope);
    assert OnTime(l, history, scope, skew, |history| - 1);
  }

  lemma {:induction false} StaysOpened(l: Limiter, history: seq<Event>, scope: string, skew: nat)
    requires Setting(l, history, scope, skew)
    ensures Opened(WindowFor(After(l, history), scope))
  {
    if history != [] {
      SettingPrefix(l, history, scope, skew);
      StaysOpened(l, history[..|history| - 1], scope, skew);
      LastEvent(l, history, scope, skew);
    }
  }

  // ----- Multiples

  /** A multiple, by repeated addition. */
  function Times(m: nat, x: int): int { if m == 0 then 0 else Times(m - 1, x) + x }

  lemma {:induction false} TimesIsProduct(m: nat, x: int)
    ensures Times(m, x) == m * x
  {
    if m > 0 {
      TimesIsProduct(m - 1, x);
      assert m * x == (m - 1) * x + x;
    }
  }

  lemma {:induction false} TimesGrows(m: nat, x: int)
    requires x >= 0
    ensures Times(m, x) >= 0 && (x > 0 ==> Times(m, x) >= m)
  {
    if m > 0 {
      TimesGrows(m - 1, x);
    }
  }

  lemma {:induction false} TimesSum(a: nat, b: nat, x: int)
    ensures Times(a + b, x) == Times(a, x) + Times(b, x)
  {
    if b > 0 {
      TimesSum(a, b - 1, x);
    }
  }

  // ----- Windows are opened at least one window apart

  lemma {:induction false} NoneYet(l: Limiter, history: seq<Event>, scope: string, skew: nat, from: int, to: int)
    requires Setting(l, history, scope, skew) && WindowFor(After(l, history), scope).start == 0
    ensures OpenCount(l, history, scope, from, to) == FillCount(l, history, scope, from, to) == 0
  {
    if history != [] {
      SettingPrefix(l, history, scope, skew);
      LastEvent(l, history, scope, skew);
      NoneYet(l, history[..|history| - 1], scope, skew, from, to);
    }
  }

  /** If the open window starts before from + m * window, at most m windows were opened at or after `from`. */
  lemma {:induction false} OpensSince(
    l: Limiter, history: seq<Event>, scope: string, skew: nat, from: int, to: int, m: nat)
    requires Setting(l, history, scope, skew)
    requires WindowFor(After(l, history), scope).start < from + Times(m, ConfigFor(l, scope).window)
    ensures OpenCount(l, history, scope, from, to) <= m
    decreases |history|
  {
    if history != [] {
      var before := history[..|history| - 1];
      SettingPrefix(l, history, scope, skew);
      LastEvent(l, history, scope, skew);
      var effect := EffectOf(l, history, scope);
      if !effect.Opening? {
        OpensSince(l, before, scope, skew, from, to, m);
      } else if WindowFor(After(l, before), scope).start == 0 {
        NoneYet(l, before, scope, skew, from, to);
        assert effect.at >= from ==> m > 0;
      } else if effect.at < from {
        OpensSince(l, before, scope, skew, from, to, 0);
      } else {
        OpensSince(l, before, scope, skew, from, to, m - 1);
      }
    }
  }

  lemma {:induction false} OpensBound(l: Limiter, history: seq<Event>, scope: string, skew: nat, from: int, k: nat)
    requires Setting(l, history, scope, skew)
    ensures OpenCount(l, history, scope, from, from + Times(k, ConfigFor(l, scope).window)) <= k
    decreases |history|
  {
    if history != [] {
      var to := from + Times(k, ConfigFor(l, scope).window);
      SettingPrefix(l, history, scope, skew);
      LastEvent(l, history, scope, skew);
      var effect := EffectOf(l, history, scope);
      if effect.Opening? && effect.at < to {
        OpensSince(l, history, scope, skew, from, to, k);
      } else {
        OpensBound(l, history[..|history| - 1], scope, skew, from, k);
      }
    }
  }

  // ----- Every window is filled at most to its limit, around its own start

  /** How many admissions beyond its first the open window can hold by now. */
  function Extra(cfg: Config, w: Window): nat { if 1 <= w.count <= cfg.requests then w.count - 1 else 0 }

  lemma {:induction false} NoFills(l: Limiter, history: seq<Event>, scope: string, skew: nat, from: int, to: int)
    requires Setting(l, history, scope, skew)
    requires WindowFor(After(l, history), scope).start + ConfigFor(l, scope).window <= from
    ensures FillCount(l, history, scope, from, to) == 0
    decreases |history|
  {
    if history != [] {
      var before := history[..|history| - 1];
      SettingPrefix(l, history, scope, skew);
      LastEvent(l, history, scope, skew);
      if WindowFor(After(l, before), scope).start == 0 {
        NoneYet(l, before, scope, skew, from, to);
      } else {
        NoFills(l, before, scope, skew, from, to);
      }
    }
  }

  /** If the open window starts by from + m * window, at most m earlier windows were filled at or after `from`. */
  lemma {:induction false} FillsSince(
    l: Limiter, history: seq<Event>, scope: string, skew: nat, from: int, to: int, m: nat)
    requires Setting(l, history, scope, skew)
    requires WindowFor(After(l, history), scope).start <= from + Times(m, ConfigFor(l, scope).window)
    ensures FillCount(l, history, scope, from, to)
         <= Times(m, ConfigFor(l, scope).requests - 1) + Extra(ConfigFor(l, scope), WindowFor(After(l, history), scope))
    decreases |history|
  {
    TimesGrows(m, ConfigFor(l, scope).requests - 1);
    if history != [] {
      var before := history[..|history| - 1];
      SettingPrefix(l, history, scope, skew);
      StaysOpened(l, before, scope, skew);
      LastEvent(l, history, scope, skew);
      var w := WindowFor(After(l, before), scope);
      if !EffectOf(l, history, scope).Opening? {
        FillsSince(l, before, scope, skew, from, to, m);
      } else if w.start == 0 {
        NoneYet(l, before, scope, skew, from, to);
      } else if m == 0 {
        NoFills(l, before, scope, skew, from, to);
      } else {
        FillsSince(l, before, scope, skew, from, to, m - 1);
      }
    }
  }

  lemma {:induction false} FillsBound(
    l: Limiter, history: seq<Event>, scope: string, skew: nat, from: int, k: nat, j: nat)
    requires Setting(l, history, scope, skew) && skew <= Times(j, ConfigFor(l, scope).window) + 1
    ensures FillCount(l, history, scope, from, from + Times(k, ConfigFor(l, scope).window))
         <= Times(k + j + 1, ConfigFor(l, scope).requests - 1)
    decreases |history|
  {
    var cfg := ConfigFor(l, scope);
    TimesGrows(k + j + 1, cfg.requests - 1);
    if history != [] {
      var to := from + Times(k, cfg.window);
      SettingPrefix(l, history, scope, skew);
      LastEvent(l, history, scope, skew);
      var effect := EffectOf(l, history, scope);
      if effect.Filling? && effect.at < to {
        TimesSum(k, j, cfg.window);
        FillsSince(l, history, scope, skew, from, to, k + j);
      } else {
        FillsBound(l, history[..|history| - 1], scope, skew, from, k, j);
      }
    }
  }

  // ----- The bound

  /**
    Readings that are late by at most 1 + j windows: an interval of k windows
    sees at most k openings and k + 1 + j windows' worth of further admissions.
   */
  lemma {:induction false} SkewBound(
    l: Limiter, history: seq<Event>, scope: string, skew: nat, from: int, k: nat, j: nat)
    requires Setting(l, history, scope, skew) && skew <= j * ConfigFor(l, scope).window + 1
    ensures CountIn(Admissions(l, history, scope), from, from + k * ConfigFor(l, scope).window)
         <= k + (k + j + 1) * (ConfigFor(l, scope).requests - 1)
  {
    var cfg := ConfigFor(l, scope);
    TimesIsProduct(j, cfg.window);
    TimesIsProduct(k, cfg.window);
    TimesIsProduct(k + j + 1, cfg.requests - 1);
    AdmissionsSplit(l, history, scope, from, from + k * cfg.window);
    OpensBound(l, history, scope, skew, from, k);
    FillsBound(l, history, scope, skew, from, k, j);
  }

  lemma {:induction false} Distributed(a: nat, r: int)
    ensures a * (r - 1) == a * r - a
  {
  }

  /**
    With a fixed limit and no reading before the start of the open window, no
    half-open interval of k windows ever sees k + 1 times the configured number
    of admissions.
   */
  lemma {:induction false} IntervalBound(l: Limiter, history: seq<Event>, scope: string, from: int, k: nat)
    requires Setting(l, history, scope, 0)
    ensures CountIn(Admissions(l, history, scope), from, from + k * ConfigFor(l, scope).window)
          < (k + 1) * ConfigFor(l, scope).requests
  {
    SkewBound(l, history, scope, 0, from, k, 0);
    Distributed(k + 1, ConfigFor(l, scope).requests);
  }

  // ----- A monotone clock

  /** A clock that never reads the zero instant or an instant before `floor`, and never goes back. */
  predicate MonotoneClock(history: seq<Event>, floor: int) {
    && (forall i :: 0 <= i < |history| && history[i].Try? ==> history[i].now > 0 && history[i].now >= floor)
    && (forall i, j :: 0 <= i < j < |history| && history[i].Try? && history[j].Try? ==>
      history[i].now <= history[j].now)
  }

  predicate Ordered(l: Limiter, history: seq<Event>, scope: string) {
    && Enabled(ConfigFor(l, scope)) && 0 <= WindowFor(l, scope).count <= ConfigFor(l, scope).requests
    && MonotoneClock(history, WindowFor(l, scope).start) && LimitFixed(history, scope)
  }

  /** The open window never starts in the future, is never over-full, and every admission lies behind the clock. */
  lemma {:induction false} WindowInPast(l: Limiter, history: seq<Event>, scope: string, now: int)
    requires Ordered(l, history + [Try(scope, now)], scope)
    ensures 0 <= WindowFor(After(l, history), scope).count <= ConfigFor(l, scope).requests
    ensures WindowFor(After(l, history), scope).start <= now
    ensures forall t :: t in Admissions(l, history, scope) ==> t <= now
    ensures WindowFor(After(l, history), scope).start == 0 ==> Admissions(l, history, scope) == []
  {
    assert (history + [Try(scope, now)])[|history|] == Try(scope, now);
    if history != [] {
      var before, e := history[..|history| - 1], history[|history| - 1];
      forall i | 0 <= i < |history| ensures (history + [Try(scope, now)])[i] == history[i] {}
      assert MonotoneClock(before + [Try(scope, now)], WindowFor(l, scope).start) by {
        forall i | 0 <= i < |before| ensures (before + [Try(scope, now)])[i] == (history + [Try(scope, now)])[i] {}
      }
      WindowInPast(l, before, scope, now);
      assert LimitFixed(before, scope);
      ConfigKept(l, before, scope);
      if e.Try? {
        assert (history + [Try(scope, now)])[|history| - 1] == e;
      }
    }
  }

  /** A monotone clock never reads an instant before the open window, so the bound covers it. */
  lemma {:induction false} MonotoneIsSetting(l: Limiter, history: seq<Event>, scope: string)
    requires Ordered(l, history, scope) && Opened(WindowFor(l, scope))
    ensures Setting(l, history, scope, 0)
  {
    forall i | 0 <= i < |history| ensures OnTime(l, history, scope, 0, i) {
      if history[i].Try? && history[i].scope == scope {
        assert history[..i] + [Try(scope, history[i].now)] == history[..i + 1];
        assert Ordered(l, history[..i + 1], scope);
        WindowInPast(l, history[..i], scope, history[i].now);
      }
    }
  }

  /**
    Window starts advance by at least one window, and a blocked caller sleeps a
    positive time of at most one window plus the skew, after which an attempt on
    the same state is admitted.
   */
  lemma {:induction false} AttemptProgress(l: Limiter, history: seq<Event>, scope: string, skew: nat, now: int)
    requires Setting(l, history, scope, skew) && now > 0 && now >= WindowFor(After(l, history), scope).start - skew
    ensures
      var cfg, l' := ConfigFor(l, scope), After(l, history);
      var (outcome, l'') := Attempt(l', scope, now);
      var w, w' := WindowFor(l', scope), WindowFor(l'', scope);
      && (w'.start != w.start && w.start != 0 ==> w'.start >= w.start + cfg.window)
      && (outcome.Blocked? ==>
            && l'' == l'
            && 0 < outcome.waitFor <= cfg.window + skew
            && Attempt(l', scope, now + outcome.waitFor).0.Admitted?)
  {
    StaysOpened(l, history, scope, skew);
    ConfigKept(l, history, scope);
  }

  // ----- How late a reading may be

  function Repeat(e: Event, n: nat): seq<Event> { if n == 0 then [] else Repeat(e, n - 1) + [e] }

  /** An attempt at `now`, then n attempts that read `t`. */
  function Burst(scope: string, now: int, t: int, n: nat): seq<Event> { [Try(scope, now)] + Repeat(Try(scope, t), n) }

  function In(t: int, from: int, to: int): nat { if from <= t < to then 1 else 0 }

  /** A history of the setting that leaves this window and has so many admissions in the interval. */
  ghost predicate Leaves(
    l: Limiter, history: seq<Event>, scope: string, skew: nat, from: int, to: int, w: Window, count: nat)
  {
    && Setting(l, history, scope, skew) && WindowFor(After(l, history), scope) == w
    && CountIn(Admissions(l, history, scope), from, to) == count
  }

  lemma {:induction false} SettingExtended(l: Limiter, history: seq<Event>, scope: string, skew: nat, now: int)
    requires Setting(l, history, scope, skew) && now > 0 && now >= WindowFor(After(l, history), scope).start - skew
    ensures Setting(l, history + [Try(scope, now)], scope, skew)
  {
    var longer := history + [Try(scope, now)];
    forall i | 0 <= i < |longer| ensures OnTime(l, longer, scope, skew, i) {
      assert longer[..i] == history[..i];
      assert i < |history| ==> OnTime(l, history, scope, skew, i);
    }
  }

  /** One more admitted attempt. */
  lemma {:induction false} Attempted(
    l: Limiter, history: seq<Event>, scope: string, skew: nat, from: int, to: int, w: Window, count: nat, now: int)
    requires Leaves(l, history, scope, skew, from, to, w, count) && now > 0 && now >= w.start - skew
    requires Current(ConfigFor(l, scope), w, now).count < ConfigFor(l, scope).requests
    ensures
      var c := Current(ConfigFor(l, scope), w, now);
      Leaves(l, history + [Try(scope, now)], scope, skew, from, to, c.(count := c.count + 1), count + In(now, from, to))
  {
    assert (history + [Try(scope, now)])[..|history|] == history;
    SettingExtended(l, history, scope, skew, now);
    ConfigKept(l, history, scope);
    CountAppend(Admissions(l, history, scope), now, from, to);
  }

  lemma {:induction false} RepeatAppends(history: seq<Event>, e: Event, n: nat)
    ensures history + Repeat(e, 0) == history
    ensures n > 0 ==> history + Repeat(e, n) == history + Repeat(e, n - 1) + [e]
  {
  }

  /** The open window takes n attempts with the same reading. */
  lemma {:induction false} Filled(
    l: Limiter, history: seq<Event>, scope: string, skew: nat, from: int, to: int, w: Window, count: nat, t: int,
      n: nat)
    requires Leaves(l, history, scope, skew, from, to, w, count) && t > 0 && w.start != 0
    requires w.start - skew <= t < w.start + ConfigFor(l, scope).window && w.count + n <= ConfigFor(l, scope).requests
    ensures Times(n, In(t, from, to)) >= 0
    ensures Leaves(l, history + Repeat(Try(scope, t), n), scope, skew, from, to,
                   w.(count := w.count + n), count + Times(n, In(t, from, to)))
  {
    var e := Try(scope, t);
    RepeatAppends(history, e, n);
    if n > 0 {
      Filled(l, history, scope, skew, from, to, w, count, t, n - 1);
      Attempted(l, history + Repeat(e, n - 1), scope, skew, from, to,
                w.(count := w.count + n - 1), count + Times(n - 1, In(t, from, to)), t);
    }
  }

  /** A burst opens a window and fills it up with one reading. */
  lemma {:induction false} BurstFills(
    l: Limiter, history: seq<Event>, scope: string, skew: nat, from: int, to: int, w: Window, count: nat, now: int,
      t: int)
    requires Leaves(l, history, scope, skew, from, to, w, count) && 0 < now && 0 < t
    requires now - skew <= t < now + ConfigFor(l, scope).window && Opens(ConfigFor(l, scope), w, now) && now >= w.start
    ensures
      var n := ConfigFor(l, scope).requests - 1;
      && Times(n, In(t, from, to)) >= 0
      && Leaves(l, history + Burst(scope, now, t, n), scope, skew, from, to,
                Window(now, n + 1), count + In(now, from, to) + Times(n, In(t, from, to)))
  {
    var n := ConfigFor(l, scope).requests - 1;
    Attempted(l, history, scope, skew, from, to, w, count, now);
    Filled(l, history + [Try(scope, now)], scope, skew, from, to, Window(now, 1), count + In(now, from, to), t, n);
    assert history + Burst(scope, now, t, n) == history + [Try(scope, now)] + Repeat(Try(scope, t), n);
  }

  lemma {:induction false} TimesOne(n: nat)
    ensures Times(n, 1) == n
  {
    TimesIsProduct(n, 1);
  }

  ghost predicate Fresh(l: Limiter, scope: string, w: nat, n: nat) {
    ConfigFor(l, scope) == Config(n + 1, w) && w > 0 && WindowFor(l, scope) == Window(0, 0)
  }

  lemma {:induction false} OneBurst(l: Limiter, scope: string, skew: nat, w: nat, n: nat) returns (history: seq<Event>)
    requires Fresh(l, scope, w, n)
    ensures Leaves(l, history, scope, skew, w, 2 * w, Window(1, n + 1), n + if w == 1 then 1 else 0)
  {
    TimesOne(n);
    assert Leaves(l, [], scope, skew, w, 2 * w, Window(0, 0), 0);
    BurstFills(l, [], scope, skew, w, 2 * w, Window(0, 0), 0, 1, w);
    history := [] + Burst(scope, 1, w, n);
  }

  lemma {:induction false} TwoBursts(l: Limiter, scope: string, skew: nat, w: nat, n: nat) returns (history: seq<Event>)
    requires Fresh(l, scope, w, n) && skew >= 1
    ensures Leaves(l, history, scope, skew, w, 2 * w, Window(w + 1, n + 1), 2 * n + 1)
  {
    TimesOne(n);
    var first := OneBurst(l, scope, skew, w, n);
    BurstFills(l, first, scope, skew, w, 2 * w, Window(1, n + 1), n + if w == 1 then 1 else 0, w + 1, w);
    history := first + Burst(scope, w + 1, w, n);
  }

  /** Three bursts, the last of them read two instants late. */
  lemma {:induction false} ThreeBursts(l: Limiter, scope: string, skew: nat, w: nat, n: nat)
    returns (history: seq<Event>)
    requires Fresh(l, scope, w, n) && skew >= 2
    ensures Leaves(l, history, scope, skew, w, 2 * w, Window(2 * w + 1, n + 1), 3 * n + 1)
  {
    TimesOne(n);
    var first := TwoBursts(l, scope, skew, w, n);
    BurstFills(l, first, scope, skew, w, 2 * w, Window(w + 1, n + 1), 2 * n + 1, 2 * w + 1, 2 * w - 1);
    history := first + Burst(scope, 2 * w + 1, 2 * w - 1, n);
  }

  /** A fourth burst that is read more than a window late. */
  lemma {:induction false} FourBursts(l: Limiter, scope: string, skew: nat, w: nat, n: nat)
    returns (history: seq<Event>)
    requires Fresh(l, scope, w, n) && skew >= w + 2
    ensures Leaves(l, history, scope, skew, w, 2 * w, Window(3 * w + 1, n + 1), 4 * n + 1)
  {
    TimesOne(n);
    var first := ThreeBursts(l, scope, skew, w, n);
    BurstFills(l, first, scope, skew, w, 2 * w, Window(2 * w + 1, n + 1), 3 * n + 1, 3 * w + 1, 2 * w - 1);
    history := first + Burst(scope, 3 * w + 1, 2 * w - 1, n);
  }

  /** The bound on the scope, for all histories whose readings are late by at most `skew`. */
  ghost predicate Bounded(l: Limiter, scope: string, skew: nat) {
    forall history: seq<Event>, from: int, k: nat :: Setting(l, history, scope, skew) ==>
      Holds(l, history, scope, from, k)
  }

  ghost predicate Holds(l: Limiter, history: seq<Event>, scope: string, from: int, k: nat) {
    CountIn(Admissions(l, history, scope), from, from + k * ConfigFor(l, scope).window) <= (k + 1) * ConfigFor(l,
      scope).requests
  }

  /** How late readings may be: at all, by one instant, or for a limit of two by one window and one instant. */
  predicate Tolerated(cfg: Config, skew: nat) {
    cfg.requests == 1 || skew < 2 || (cfg.requests == 2 && skew < cfg.window + 2)
  }

  lemma {:induction false} ToleratedHolds(l: Limiter, history: seq<Event>, scope: string, skew: nat, from: int, k: nat)
    requires Setting(l, history, scope, skew) && Tolerated(ConfigFor(l, scope), skew)
    ensures Holds(l, history, scope, from, k)
  {
    var cfg := ConfigFor(l, scope);
    if skew < 2 {
      SkewBound(l, history, scope, skew, from, k, 0);
      Distributed(k + 1, cfg.requests);
    } else if cfg.requests == 1 {
      TimesIsProduct(skew, cfg.window);
      TimesGrows(skew, cfg.window);
      SkewBound(l, history, scope, skew, from, k, skew);
    } else {
      SkewBound(l, history, scope, skew, from, k, 1);
    }
  }

  /** The bound holds for all histories with readings that late if and only if that much is tolerated. */
  lemma {:induction false} BoundedIff(l: Limiter, scope: string, skew: nat)
    requires Enabled(ConfigFor(l, scope)) && WindowFor(l, scope) == Window(0, 0)
    ensures Bounded(l, scope, skew) <==> Tolerated(ConfigFor(l, scope), skew)
  {
    var cfg := ConfigFor(l, scope);
    if Tolerated(cfg, skew) {
      forall history: seq<Event>, from: int, k: nat | Setting(l, history, scope, skew) ensures Holds(l, history,
        scope, from, k) {
        ToleratedHolds(l, history, scope, skew, from, k);
      }
    } else if cfg.requests == 2 {
      var history := FourBursts(l, scope, skew, cfg.window, 1);
      assert !Holds(l, history, scope, cfg.window, 1);
    } else {
      var history := ThreeBursts(l, scope, skew, cfg.window, cfg.requests - 1);
      assert !Holds(l, history, scope, cfg.window, 1);
    }
  }

  // ----- Scopes

  /** The scope is the name, with any padding. */
  ghost predicate Names(scope: string, name: string) {
    exists a: string, b: string :: scope == a + name + b && AllSpace(a) && AllSpace(b)
  }

  /** Callers share a window exactly if they give the same name up to padding; a blank scope is named "global". */
  lemma {:induction false} ScopeKeyIff(scope: string, name: string)
    requires name != "" && Tight(name)
    ensures ScopeKey(scope) == name <==> Names(scope, name) || (AllSpace(scope) && name == "global")
  {
    BlankIff(scope);
    if Names(scope, name) {
      var a: string, b: string :| scope == a + name + b && AllSpace(a) && AllSpace(b);
      TrimPadding(a, name, b);
    } else if !AllSpace(scope) {
      var a, b := TrimParts(scope);
    }
  }

  /** The events of one scope. */
  function Only(history: seq<Event>, scope: string): seq<Event> {
    if history == [] then []
    else
      var e := history[|history| - 1];
      Only(history[..|history| - 1], scope) + if e.scope == scope then [e] else []
  }

  lemma {:induction false} ScopeState(l: Limiter, history: seq<Event>, scope: string)
    ensures ConfigFor(After(l, Only(history, scope)), scope) == ConfigFor(After(l, history), scope)
    ensures WindowFor(After(l, Only(history, scope)), scope) == WindowFor(After(l, history), scope)
  {
    if history != [] {
      var before, e := history[..|history| - 1], history[|history| - 1];
      ScopeState(l, before, scope);
      if e.scope == scope {
        assert Only(history, scope)[..|Only(history, scope)| - 1] == Only(before, scope);
      } else {
        assert Only(history, scope) == Only(before, scope);
      }
    }
  }

  /** Scopes are independent: who is admitted under a scope depends on the attempts and limits of that scope alone. */
  lemma {:induction false} ScopesIndependent(l: Limiter, history: seq<Event>, scope: string)
    ensures Admissions(l, Only(history, scope), scope) == Admissions(l, history, scope)
  {
    if history != [] {
      var before, e := history[..|history| - 1], history[|history| - 1];
      ScopesIndependent(l, before, scope);
      ScopeState(l, before, scope);
      if e.scope == scope {
        assert Only(history, scope)[..|Only(history, scope)| - 1] == Only(before, scope);
      } else {
        assert Only(history, scope) == Only(before, scope);
      }
    }
  }

  /** A limit is in force from when it is set until it is set again; without one the default is. */
  lemma {:induction false} LimitInForce(l: Limiter, before: seq<Event>, scope: string, cfg: Config, after: seq<Event>)
    requires LimitFixed(after, scope)
    ensures ConfigFor(After(l, before + [SetLimit(scope, cfg)] + after), scope) == cfg
    ensures scope !in l.limits ==> ConfigFor(After(l, after), scope) == l.defaultCfg
  {
    var soFar := before + [SetLimit(scope, cfg)];
    assert soFar[..|before|] == before;
    AfterInTurn(l, soFar, after);
    ConfigKept(After(l, soFar), after, scope);
    ConfigKept(l, after, scope);
  }

  function Attempts(history: seq<Event>, scope: string): seq<int> {
    if history == [] then []
    else
      var e := history[|history| - 1];
      Attempts(history[..|history| - 1], scope) + if e.Try? && e.scope == scope then [e.now] else []
  }

  /** A limit of no requests or of no time is none: every attempt is admitted. */
  lemma {:induction false} UnlimitedScope(l: Limiter, history: seq<Event>, scope: string)
    requires LimitFixed(history, scope) && (ConfigFor(l, scope).requests <= 0 || ConfigFor(l, scope).window <= 0)
    ensures Admissions(l, history, scope) == Attempts(history, scope)
  {
    if history != [] {
      UnlimitedScope(l, history[..|history| - 1], scope);
      ConfigKept(l, history[..|history| - 1], scope);
    }
  }

  // ----- The limiter object

  /** What a caller of Wait sees; readings that run out leave it waiting. */
  datatype WaitResult = Granted | SleepFailed | StillWaiting

  /**
    One trip round the loop of Wait: what other callers did since the last one,
    the clock reading, and whether the sleep is interrupted.
   */
  datatype Trip = Trip(others: seq<Event>, now: int, interrupted: bool)

  /** The events of some trips on a scope, as the limiter sees them. */
  function TripEvents(trips: seq<Trip>, scope: string): seq<Event> {
    if trips == [] then []
    else TripEvents(trips[..|trips| - 1], scope) + trips[|trips| - 1].others + [Try(scope, trips[|trips| - 1].now)]
  }

  /** What trip i is answered. */
  function TripOutcome(l: Limiter, trips: seq<Trip>, scope: string, i: nat): Outcome
    requires i < |trips|
  {
    Attempt(After(After(l, TripEvents(trips[..i], scope)), trips[i].others), scope, trips[i].now).0
  }

  lemma {:induction false} AfterInTurn(l: Limiter, events: seq<Event>, more: seq<Event>)
    ensures After(l, events + more) == After(After(l, events), more)
  {
    if more == [] {
      assert events + more == events;
    } else {
      assert (events + more)[..|events + more| - 1] == events + more[..|more| - 1];
      AfterInTurn(l, events, more[..|more| - 1]);
    }
  }

  /** The limiter after some trips, none of them admitted. */
  ghost predicate AllBlocked(l: Limiter, trips: seq<Trip>, scope: string, used: nat, l': Limiter) {
    && used <= |trips| && l' == After(l, TripEvents(trips[..used], scope))
    && forall i :: 0 <= i < used ==> TripOutcome(l, trips, scope, i).Blocked?
  }

  lemma {:induction false} TripStep(l: Limiter, trips: seq<Trip>, scope: string, i: nat, l': Limiter)
    requires i < |trips| && AllBlocked(l, trips, scope, i, l')
    ensures
      var (outcome, l'') := Attempt(After(l', trips[i].others), scope, trips[i].now);
      && outcome == TripOutcome(l, trips, scope, i) && l'' == After(l, TripEvents(trips[..i + 1], scope))
      && (outcome.Blocked? ==> AllBlocked(l, trips, scope, i + 1, l''))
  {
    var so, others := TripEvents(trips[..i], scope), trips[i].others;
    AfterInTurn(l, so, others);
    assert trips[..i + 1][..i] == trips[..i];
    assert (so + others + [Try(scope, trips[i].now)])[..|so + others|] == so + others;
  }

  class InMemoryRateLimiter {
    var defaultCfg: Config
    var limits: map<string, Config>
    var states: map<string, Window>

    ghost function Model(): Limiter
      reads this
    {
      Limiter(defaultCfg, limits, states)
    }

    constructor (cfg: Config)
      ensures Model() == Limiter(cfg, map[], map[])
    {
      defaultCfg, limits, states := cfg, map[], map[];
    }

    method SetLimit(scope: string, cfg: Config)
      modifies this`limits
      ensures Model() == After(old(Model()), [Event.SetLimit(ScopeKey(scope), cfg)])
    {
      ghost var before := Model();
      limits := limits[ScopeKey(scope) := cfg];
      assert After(before, [Event.SetLimit(ScopeKey(scope), cfg)][..0]) == before;
    }

    /** The critical section of one trip. */
    method TryAdmit(scope: string, now: int) returns (outcome: Outcome)
      modifies this`states
      ensures (outcome, Model()) == Attempt(old(Model()), scope, now)
    {
      var cfg := defaultCfg;
      if scope in limits {
        cfg := limits[scope];
      }
      if cfg.requests <= 0 || cfg.window <= 0 {
        return Admitted;
      }
      var state := if scope in states then states[scope] else Window(0, 0);
      if state.start == 0 || now - state.start >= cfg.window {
        state := Window(now, 0);
      }
      if state.count < cfg.requests {
        state := state.(count := state.count + 1);
        states := states[scope := state];
        return Admitted;
      }
      return Blocked(state.start + cfg.window - now);
    }

    /** What other callers do to the limiter. */
    method Interfere(events: seq<Event>)
      modifies this`states, this`limits
      ensures Model() == After(old(Model()), events)
    {
      for i := 0 to |events|
        invariant Model() == After(old(Model()), events[..i])
      {
        assert events[..i + 1][..i] == events[..i];
        match events[i] {
          case Try(scope, now) => var _ := TryAdmit(scope, now);
          case SetLimit(scope, cfg) => limits := limits[scope := cfg];
        }
      }
      assert events[..|events|] == events;
    }

    /** One trip, after what the others did. */
    method MakeTrip(scope: string, trip: Trip) returns (outcome: Outcome)
      modifies this`states, this`limits
      ensures (outcome, Model()) == Attempt(After(old(Model()), trip.others), scope, trip.now)
    {
      Interfere(trip.others);
      outcome := TryAdmit(scope, trip.now);
    }

    /** The loop of Wait: tries until admitted, whatever other callers do between its trips. */
    method WaitOn(key: string, trips: seq<Trip>) returns (result: WaitResult, used: nat)
      modifies this`states, this`limits
      ensures used <= |trips| && (if result.StillWaiting? then used == |trips| else used > 0)
      ensures !result.Granted? ==> AllBlocked(old(Model()), trips, key, used, Model())
      ensures result.Granted? ==>
        && Model() == After(old(Model()), TripEvents(trips[..used], key))
        && TripOutcome(old(Model()), trips, key, used - 1).Admitted?
        && forall i :: 0 <= i < used - 1 ==> TripOutcome(old(Model()), trips, key, i).Blocked?
    {
      ghost var start := Model();
      used := 0;
      while used < |trips|
        invariant AllBlocked(start, trips, key, used, Model())
      {
        TripStep(start, trips, key, used, Model());
        var outcome := MakeTrip(key, trips[used]);
        used := used + 1;
        if outcome.Admitted? {
          return Granted, used;
        }
        if outcome.waitFor > 0 && trips[used - 1].interrupted {
          return SleepFailed, used;
        }
      }
      return StillWaiting, used;
    }

    method Wait(scope: string, trips: seq<Trip>) returns (result: WaitResult, used: nat)
      modifies this`states, this`limits
      ensures used <= |trips| && (if result.StillWaiting? then used == |trips| else used > 0)
      ensures Model() == After(old(Model()), TripEvents(trips[..used], ScopeKey(scope)))
      ensures forall i :: 0 <= i < used ==>
        (TripOutcome(old(Model()), trips, ScopeKey(scope), i).Admitted? <==> result.Granted? && i == used - 1)
    {
      result, used := WaitOn(ScopeKey(scope), trips);
    }
  }
}

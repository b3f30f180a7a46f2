/** One toast (src/Toast.tsx): its properties after the component's defaults,
    what it renders, and its dismissal lifecycle in discrete time. Each tick of
    the clock stands for one millisecond. */
module ToastUnit {
  import opened Wrappers
  import opened ToastTypes
  import StyleUtils

  /** The properties a toast works with once the component's own defaults are in. */
  datatype Props = Props(
    kind: ToastType,
    title: Option<string>,
    message: string,
    duration: Duration,
    animation: ToastAnimation,
    pauseOnHover: bool,
    closeOnClick: bool,
    icon: Icon,
    progressBar: bool,
    rtl: bool,
    role: string)

  /** The component's defaults: info, 5000 ms, slide, pause on hover, close on
      click, a progress bar, left-to-right, role `alert`. */
  function PropsOf(t: Toast): (p: Props)
    ensures p.kind == t.kind.GetOr(Info) && p.duration == t.duration.GetOr(Finite(5000))
    ensures p.animation == t.animation.GetOr(Slide) && p.role == t.role.GetOr("alert")
    ensures p.pauseOnHover == t.pauseOnHover.GetOr(true) && p.closeOnClick == t.closeOnClick.GetOr(true)
    ensures p.progressBar == t.progressBar.GetOr(true) && p.rtl == t.rtl.GetOr(false)
    ensures p.icon == t.icon && p.title == t.title && p.message == t.message
  {
    Props(t.kind.GetOr(Info), t.title, t.message, t.duration.GetOr(Finite(5000)),
          t.animation.GetOr(Slide), t.pauseOnHover.GetOr(true), t.closeOnClick.GetOr(true),
          t.icon, t.progressBar.GetOr(true), t.rtl.GetOr(false), t.role.GetOr("alert"))
  }

  // ---------------------------------------------------------------------------
  // Rendering

  /** The built-in glyph of each type. */
  function TypeGlyph(kind: ToastType): (g: string)
    ensures kind == Success ==> g == "✓"
    ensures kind == Error ==> g == "✕"
    ensures kind == Warning ==> g == "⚠"
    ensures kind == Info ==> g == "ℹ"
    ensures |g| == 1
  {
    match kind
    case Success => "✓"
    case Error => "✕"
    case Warning => "⚠"
    case Info => "ℹ"
  }

  /** The four types show four different glyphs. */
  lemma TypeGlyphsDistinct(a: ToastType, b: ToastType)
    ensures a != b ==> TypeGlyph(a) != TypeGlyph(b)
  {
  }

  /** `getIcon`: a truthy icon property wins; otherwise the type's glyph. */
  function GetIcon(p: Props): (g: string)
    ensures p.icon.Truthy() ==> g == p.icon.glyph
    ensures !p.icon.Truthy() ==> g == TypeGlyph(p.kind)
    ensures g != ""
  {
    if p.icon.Truthy() then p.icon.glyph else TypeGlyph(p.kind)
  }

  /** The icon slot: absent exactly when the icon property is `null`. */
  function IconSlot(p: Props): (r: Option<string>)
    ensures r.None? <==> p.icon.NullIcon?
    ensures r.Some? ==> r.value == GetIcon(p)
  {
    if p.icon.NullIcon? then None else Some(GetIcon(p))
  }

  /** Whether the progress bar is drawn: asked for, and the toast can expire. */
  function ShowsProgressBar(p: Props): (b: bool)
    ensures b <==> p.progressBar && p.duration.Finite?
    ensures p.duration.Infinite? ==> !b
  {
    p.progressBar && p.duration != Infinite
  }

  /** What a rendered toast shows. */
  datatype View = View(
    kind: ToastType,
    animationClass: string,
    rtl: bool,
    role: string,
    icon: Option<string>,
    title: Option<string>,
    message: string,
    progressBar: bool)

  // ---------------------------------------------------------------------------
  // Lifecycle

  /** The component's mutable state: `isVisible`, the clock, the dismissal
      timers still armed (handle to deadline), the handle `timerRef` holds, and
      the handle the next `setTimeout` returns. */
  datatype Lifecycle = Lifecycle(
    visible: bool,
    now: int,
    timers: map<nat, int>,
    timerRef: Option<nat>,
    nextHandle: nat)

  /** Handles are positive and every armed handle was issued before. */
  predicate Valid(s: Lifecycle) {
    1 <= s.nextHandle && forall h :: h in s.timers ==> 1 <= h < s.nextHandle
  }

  /** At most one timer is armed, and it is the one `timerRef` holds. */
  predicate Tidy(s: Lifecycle) {
    forall h :: h in s.timers ==> s.timerRef == Some(h)
  }

  /** `if (!isVisible) return null`, otherwise the toast's content. */
  function Render(s: Lifecycle, p: Props): (r: Option<View>)
    ensures r.None? <==> !s.visible
    ensures r.Some? ==> r.value.progressBar == ShowsProgressBar(p)
    ensures r.Some? ==> r.value.icon == IconSlot(p)
    ensures r.Some? ==> r.value.animationClass == StyleUtils.AnimationStyle(p.animation.Name())
    ensures r.Some? ==> r.value.title == (if p.title.Some? && p.title.value != "" then p.title else None)
    ensures r.Some? ==> r.value.message == p.message && r.value.kind == p.kind
    ensures r.Some? ==> r.value.rtl == p.rtl && r.value.role == p.role
  {
    if !s.visible then None
    else
      Some(View(p.kind, StyleUtils.AnimationStyle(p.animation.Name()), p.rtl, p.role, IconSlot(p),
                if p.title.Some? && p.title.value != "" then p.title else None,
                p.message, ShowsProgressBar(p)))
  }

  /** A toast just created at time `now`, before its effect has run. */
  function Initial(now: int): (s: Lifecycle)
    ensures s.visible && s.timers == map[] && Valid(s) && Tidy(s)
  {
    Lifecycle(true, now, map[], None, 1)
  }

  /** The largest delay a browser timer holds: the delay is converted to a
      32-bit signed integer. */
  const MaxDelay: nat := 2147483647

  /** The number of distinct 32-bit values. */
  const Wrap: nat := 4294967296

  /** The delay a browser actually waits for a requested `ms`: the request is
      reduced modulo 2^32, and a value that then reads as a negative 32-bit
      integer waits 0 ms (the next tick here). */
  function TimerDelay(ms: nat): (delay: nat)
    ensures ms <= MaxDelay ==> delay == ms
    ensures delay <= MaxDelay
    // the delay is the request modulo 2^32 exactly when that remainder fits
    ensures (ms - delay) % Wrap == 0 <==> ms % Wrap <= MaxDelay
    ensures ms % Wrap > MaxDelay ==> delay == 0
  {
    var w := ms % Wrap;
    if w <= MaxDelay then w else 0
  }

  /** A request just over 2^32 ms wraps around to a short delay. */
  lemma LongDelayWraps()
    ensures TimerDelay(Wrap + 1000) == 1000
    ensures TimerDelay(MaxDelay + 1) == 0
  {
  }

  /** `startTimer`: nothing for an infinite duration; otherwise arm a new timer
      `TimerDelay(duration)` ticks ahead and keep its handle in `timerRef`.
      Timers already armed stay armed. */
  function StartTimer(s: Lifecycle, p: Props): (r: Lifecycle)
    ensures Valid(s) ==> Valid(r)
    ensures r.visible == s.visible && r.now == s.now
    ensures p.duration.Infinite? ==> r == s
    ensures p.duration.Finite? ==>
              r.timerRef == Some(s.nextHandle) &&
              r.timers == s.timers[s.nextHandle := s.now + TimerDelay(p.duration.ms)]
    // with valid handles the new handle is fresh, so no armed timer is replaced
    ensures Valid(s) ==> forall h :: h in s.timers ==> h in r.timers && r.timers[h] == s.timers[h]
  {
    match p.duration
    case Infinite => s
    case Finite(d) =>
      s.(timers := s.timers[s.nextHandle := s.now + TimerDelay(d)], timerRef := Some(s.nextHandle),
         nextHandle := s.nextHandle + 1)
  }

  /** `pauseTimer`: cancel the timer `timerRef` holds (if it is still armed). */
  function PauseTimer(s: Lifecycle): (r: Lifecycle)
    ensures r.visible == s.visible && r.now == s.now && r.timerRef == s.timerRef
    ensures r.nextHandle == s.nextHandle
    ensures s.timerRef.None? ==> r.timers == s.timers
    ensures s.timerRef.Some? ==> r.timers == s.timers - {s.timerRef.value}
  {
    match s.timerRef
    case None => s
    case Some(h) => s.(timers := s.timers - {h})
  }

  /** Mounting: the effect runs `startTimer` once. */
  function Mount(p: Props, now: int): (s: Lifecycle)
    ensures Valid(s) && Tidy(s) && s.visible && s.now == now
    ensures p.duration.Infinite? ==> s.timers == map[]
    ensures p.duration.Finite? ==> s.timers.Values == {now + TimerDelay(p.duration.ms)}
  {
    var s := StartTimer(Initial(now), p);
    assert p.duration.Finite? ==> 1 in s.timers;
    s
  }

  /** `handleMouseEnter` on the rendered toast. */
  function MouseEnter(s: Lifecycle, p: Props): (r: Lifecycle)
    ensures !p.pauseOnHover || !s.visible ==> r == s
    ensures p.pauseOnHover && s.visible ==> r == PauseTimer(s)
  {
    if s.visible && p.pauseOnHover then PauseTimer(s) else s
  }

  /** `handleMouseLeave` on the rendered toast. */
  function MouseLeave(s: Lifecycle, p: Props): (r: Lifecycle)
    ensures Valid(s) ==> Valid(r)
    ensures !p.pauseOnHover || !s.visible ==> r == s
    ensures p.pauseOnHover && s.visible ==> r == StartTimer(s, p)
  {
    if s.visible && p.pauseOnHover then StartTimer(s, p) else s
  }

  /** `handleClick` on the rendered toast: hide it at once when `closeOnClick`. */
  function Click(s: Lifecycle, p: Props): (r: Lifecycle)
    ensures r.visible <==> s.visible && !p.closeOnClick
    ensures r.timers == s.timers && r.now == s.now && r.timerRef == s.timerRef
    ensures !p.closeOnClick ==> r == s
  {
    if s.visible && p.closeOnClick then s.(visible := false) else s
  }

  /** One tick of the clock: every timer whose deadline has come fires, which
      hides the toast, and is no longer armed. */
  function Tick(s: Lifecycle): (r: Lifecycle)
    ensures r.now == s.now + 1 && r.timerRef == s.timerRef && r.nextHandle == s.nextHandle
    ensures forall h :: h in r.timers <==> h in s.timers && s.timers[h] > s.now + 1
    ensures forall h :: h in r.timers ==> r.timers[h] == s.timers[h]
    ensures r.visible <==> s.visible && forall h :: h in s.timers ==> s.timers[h] > s.now + 1
  {
    var t := s.now + 1;
    var fired := exists h :: h in s.timers && s.timers[h] <= t;
    s.(now := t,
       timers := map h | h in s.timers && s.timers[h] > t :: s.timers[h],
       visible := s.visible && !fired)
  }

  /** `n` ticks of the clock. */
  function Ticks(s: Lifecycle, n: nat): Lifecycle
    decreases n
  {
    if n == 0 then s else Ticks(Tick(s), n - 1)
  }

  // ---------------------------------------------------------------------------
  // Properties of the lifecycle

  /** The steps keep handles valid and never arm a second timer behind `timerRef`'s back,
      except `startTimer` when a timer is still armed. */
  lemma StepsKeepTidy(s: Lifecycle, p: Props)
    requires Valid(s) && Tidy(s)
    ensures Valid(Tick(s)) && Tidy(Tick(s))
    ensures Valid(Click(s, p)) && Tidy(Click(s, p))
    ensures Valid(MouseEnter(s, p)) && Tidy(MouseEnter(s, p))
    ensures s.timers == map[] ==> Tidy(MouseLeave(s, p))
  {
  }

  /** While no deadline falls within the next `n` ticks, time passes and nothing else changes. */
  lemma {:induction false} QuietTicks(s: Lifecycle, n: nat)
    requires forall h :: h in s.timers ==> s.timers[h] > s.now + n
    ensures Ticks(s, n) == s.(now := s.now + n)
    decreases n
  {
    if n > 0 {
      var s' := Tick(s);
      assert s'.timers == s.timers;
      QuietTicks(s', n - 1);
    }
  }

  /** A hidden toast stays hidden. */
  lemma {:induction false} HiddenStaysHidden(s: Lifecycle, n: nat)
    requires !s.visible
    ensures !Ticks(s, n).visible
    decreases n
  {
    if n > 0 {
      HiddenStaysHidden(Tick(s), n - 1);
    }
  }

  /** A toast hides within `n` ticks once some armed deadline falls within them. */
  lemma {:induction false} ExpiryTicks(s: Lifecycle, n: nat, h: nat)
    requires n >= 1 && h in s.timers && s.timers[h] <= s.now + n
    ensures !Ticks(s, n).visible
    decreases n
  {
    var s' := Tick(s);
    if s.timers[h] <= s.now + 1 {
      HiddenStaysHidden(s', n - 1);
    } else {
      ExpiryTicks(s', n - 1, h);
    }
  }

  /** A timer armed for `d` ticks: the toast shows for exactly `d` ticks (at
      least one, since a zero-delay timer fires on the next tick), provided no
      other timer is armed. */
  lemma ArmedFor(s: Lifecycle, d: nat, n: nat)
    requires s.visible && s.timers.Values == {s.now + d}
    ensures Ticks(s, n).visible <==> n < d || n == 0
  {
    var h :| h in s.timers && s.timers[h] == s.now + d;
    if n == 0 {
    } else if n < d {
      assert forall g :: g in s.timers ==> s.timers[g] in s.timers.Values;
      QuietTicks(s, n);
    } else {
      ExpiryTicks(s, n, h);
    }
  }

  /** With a finite duration `d` the mounted toast hides `TimerDelay(d)` ticks
      after mounting: `d` ticks when it fits, the first tick when it is beyond
      2^31 - 1 but below 2^32. */
  lemma MountExpires(p: Props, now: int, n: nat)
    requires p.duration.Finite?
    ensures p.duration.ms <= MaxDelay ==>
              (Ticks(Mount(p, now), n).visible <==> n < p.duration.ms || n == 0)
    ensures MaxDelay < p.duration.ms < Wrap ==> (Ticks(Mount(p, now), n).visible <==> n == 0)
    ensures Ticks(Mount(p, now), n).visible <==> n < TimerDelay(p.duration.ms) || n == 0
  {
    ArmedFor(Mount(p, now), TimerDelay(p.duration.ms), n);
  }

  /** With an infinite duration no timer is armed: the toast never hides by
      itself and has no progress bar. */
  lemma InfiniteNeverExpires(p: Props, now: int, n: nat)
    requires p.duration.Infinite?
    ensures Mount(p, now).timers == map[]
    ensures Ticks(Mount(p, now), n).visible
    ensures !ShowsProgressBar(p)
  {
    QuietTicks(Mount(p, now), n);
  }

  /** Hovering with `pauseOnHover` cancels the armed timer, so no amount of time
      hides the toast while the mouse stays on it. */
  lemma HoverHolds(s: Lifecycle, p: Props, n: nat)
    requires Tidy(s) && s.visible && p.pauseOnHover
    ensures MouseEnter(s, p).timers == map[]
    ensures Ticks(MouseEnter(s, p), n).visible
  {
    var r := MouseEnter(s, p);
    assert r.timers == map[];
    QuietTicks(r, n);
  }

  /** Leaving with `pauseOnHover` arms a timer for the full duration, however
      long the toast had been shown before the mouse came in. */
  lemma LeaveRestartsFullDuration(s: Lifecycle, p: Props, n: nat)
    requires Valid(s) && s.visible && s.timers == map[] && p.pauseOnHover && p.duration.Finite?
    ensures Ticks(MouseLeave(s, p), n).visible <==> n < TimerDelay(p.duration.ms) || n == 0
  {
    var r := MouseLeave(s, p);
    assert r.timers == map[s.nextHandle := s.now + TimerDelay(p.duration.ms)];
    assert s.nextHandle in r.timers;
    ArmedFor(r, TimerDelay(p.duration.ms), n);
  }

  /** The hover scenario: a toast with finite duration `d` is shown for `k < d`
      ticks, hovered for `w` ticks, then left. It hides `d` ticks after the
      mouse leaves: the time it had already been shown does not count. */
  lemma HoverThenLeave(p: Props, now: int, k: nat, w: nat, n: nat)
    requires p.duration.Finite? && k < TimerDelay(p.duration.ms) && p.pauseOnHover
    ensures var hovered := MouseEnter(Ticks(Mount(p, now), k), p);
            var left := MouseLeave(Ticks(hovered, w), p);
            Ticks(left, n).visible <==> n < TimerDelay(p.duration.ms) || n == 0
  {
    var m := Mount(p, now);
    var h :| h in m.timers;
    QuietTicks(m, k);
    var shown := Ticks(m, k);
    HoverHolds(shown, p, w);
    var hovered := MouseEnter(shown, p);
    QuietTicks(hovered, w);
    LeaveRestartsFullDuration(Ticks(hovered, w), p, n);
  }

  /** `startTimer` does not cancel a timer that is still armed, and `pauseTimer`
      cancels only the latest: after two leaves in a row, entering leaves the
      first timer armed, and the toast hides while hovered. */
  lemma LeaveTwiceLeaksTimer(s: Lifecycle, p: Props)
    requires Valid(s) && s.visible && s.timers == map[] && p.pauseOnHover
    requires p.duration.Finite? && TimerDelay(p.duration.ms) >= 1
    ensures var twice := MouseLeave(MouseLeave(s, p), p);
            |twice.timers| == 2 && |MouseEnter(twice, p).timers| == 1 &&
            !Ticks(MouseEnter(twice, p), TimerDelay(p.duration.ms)).visible
  {
    var once := MouseLeave(s, p);
    var twice := MouseLeave(once, p);
    var d := TimerDelay(p.duration.ms);
    assert twice.timers == map[s.nextHandle := s.now + d, s.nextHandle + 1 := s.now + d];
    var hovered := MouseEnter(twice, p);
    assert hovered.timers == map[s.nextHandle := s.now + d];
    ExpiryTicks(hovered, d, s.nextHandle);
  }

  /** Once hidden the toast renders nothing, and no later event or tick brings it back. */
  lemma HiddenRendersNothing(s: Lifecycle, p: Props, n: nat)
    requires !s.visible
    ensures Render(s, p).None?
    ensures Render(Ticks(s, n), p).None?
    ensures MouseEnter(s, p) == s && Click(s, p) == s
    ensures MouseLeave(s, p) == s
  {
    HiddenStaysHidden(s, n);
  }

  // ---------------------------------------------------------------------------

  /** A mounted toast: the state the component keeps between events. */
  class ToastUnit {
    const props: Props
    var visible: bool
    var now: int
    var timers: map<nat, int>
    var timerRef: Option<nat>
    var nextHandle: nat

    function State(): Lifecycle
      reads this
    {
      Lifecycle(visible, now, timers, timerRef, nextHandle)
    }

    /** Creates the toast at time `now` and runs its mount effect. */
    constructor (props: Props, now: int)
      ensures this.props == props && State() == Mount(props, now)
    {
      this.props := props;
      visible, this.now, timers, timerRef, nextHandle := true, now, map[], None, 1;
      new;
      Start();
    }

    method Start()
      modifies this
      ensures State() == StartTimer(old(State()), props)
    {
      if props.duration == Infinite {
        return;
      }
      var h := nextHandle;
      timers := timers[h := now + TimerDelay(props.duration.ms)];
      timerRef := Some(h);
      nextHandle := h + 1;
    }

    method Pause()
      modifies this
      ensures State() == PauseTimer(old(State()))
    {
      if timerRef.Some? {
        timers := timers - {timerRef.value};
      }
    }

    method HandleMouseEnter()
      modifies this
      ensures State() == MouseEnter(old(State()), props)
    {
      if visible && props.pauseOnHover {
        Pause();
      }
    }

    method HandleMouseLeave()
      modifies this
      ensures State() == MouseLeave(old(State()), props)
    {
      if visible && props.pauseOnHover {
        Start();
      }
    }

    method HandleClick()
      modifies this
      ensures State() == Click(old(State()), props)
    {
      if visible && props.closeOnClick {
        visible := false;
      }
    }

    /** One tick of the clock, with the timers it fires. */
    method AdvanceClock()
      modifies this
      ensures State() == Tick(old(State()))
    {
      now := now + 1;
      var fired := exists h :: h in timers && timers[h] <= now;
      timers := map h | h in timers && timers[h] > now :: timers[h];
      if fired {
        visible := false;
      }
    }

    /** What the component renders now. */
    method Show() returns (view: Option<View>)
      ensures view == Render(State(), props)
      ensures view.None? <==> !visible
    {
      if !visible {
        return None;
      }
      view := Render(State(), props);
    }
  }
}

/** The provider's toast list (src/ToastContext.tsx): each operation replaces the
    list with a new value computed from the old one. The pure functions below are
    those computations; `Provider` holds the list and applies them. */
module ToastContext {
  import opened Wrappers
  import opened ToastTypes

  function Min(a: int, b: int): int { if a <= b then a else b }
  function Max(a: int, b: int): int { if a <= b then b else a }

  /** The value a defaulted property ends up with: the caller's when given
      (`undefined` included), the provider's default otherwise. */
  function Defaulted<T>(given: Option<Option<T>>, default: T): Option<T> {
    if given.Some? then given.value else Some(default)
  }

  /** The record `addToast` builds: the generated id, then the provider's
      position, animation and duration, then every property the argument has,
      which wins over all four. */
  function NewToast(id: string, config: ToastConfig, options: ProviderOptions): (t: Toast)
    // the generated id, unless the argument smuggles in an id of its own
    ensures config.id.None? ==> t.id == id
    ensures config.id.Some? ==> t.id == config.id.value
    ensures t.message == config.message
    // a default applies exactly when the caller leaves the property out
    ensures config.position.None? ==> t.position == Some(options.defaultPosition)
    ensures config.position.Some? ==> t.position == config.position.value
    ensures config.animation.None? ==> t.animation == Some(options.defaultAnimation)
    ensures config.animation.Some? ==> t.animation == config.animation.value
    ensures config.duration.None? ==> t.duration == Some(options.defaultDuration)
    ensures config.duration.Some? ==> t.duration == config.duration.value
    ensures t.kind == config.kind && t.title == config.title && t.icon == config.icon
    ensures t.pauseOnHover == config.pauseOnHover && t.closeOnClick == config.closeOnClick
    ensures t.progressBar == config.progressBar && t.rtl == config.rtl
    ensures t.className == config.className && t.role == config.role
  {
    Toast(config.id.GetOr(id), config.kind, config.title, config.message,
          Defaulted(config.duration, options.defaultDuration),
          Defaulted(config.position, options.defaultPosition),
          Defaulted(config.animation, options.defaultAnimation),
          config.pauseOnHover, config.closeOnClick, config.className, config.icon,
          config.progressBar, config.rtl, config.role)
  }

  /** A provider with no settings and a call that gives only a message yield a
      top-right, sliding record that shows for 5000 ms, under a cap of 5. */
  lemma ProviderDefaults(id: string, config: ToastConfig)
    requires config.position.None? && config.animation.None? && config.duration.None?
    ensures NewToast(id, config, DefaultOptions()).position == Some(TopRight)
    ensures NewToast(id, config, DefaultOptions()).animation == Some(Slide)
    ensures NewToast(id, config, DefaultOptions()).duration == Some(Finite(5000))
    ensures DefaultOptions().maxToasts == 5
  {
  }

  /** JavaScript's `s.slice(start)` for an integer `start`: a negative start
      counts from the end, and both ends are clamped to the sequence. */
  function SliceFrom<T>(s: seq<T>, start: int): (r: seq<T>)
    // the result is a tail of `s`
    ensures |r| <= |s| && r == s[|s| - |r|..]
    // of the last `-start` elements, when `start` is negative
    ensures start < 0 ==> |r| == Min(-start, |s|)
    // or of everything from index `start` on
    ensures start >= 0 ==> |r| == Max(|s| - start, 0)
  {
    if start >= 0 then s[Min(start, |s|)..] else s[Max(|s| + start, 0)..]
  }

  /** The updater `addToast` hands to the state setter: append, and when the
      list is then longer than `maxToasts` keep `slice(-maxToasts)`. */
  function Appended(prev: seq<Toast>, t: Toast, maxToasts: int): (r: seq<Toast>)
    // the result is what is left of the old list plus the new record after
    // dropping records from the front
    ensures |r| <= |prev| + 1 && r == (prev + [t])[|prev| + 1 - |r|..]
    // a positive cap: the new record is kept, and the oldest ones go first
    ensures maxToasts >= 1 ==> |r| == Min(|prev| + 1, maxToasts) && r[|r| - 1] == t
    // `slice(-0)` is `slice(0)`: a cap of zero keeps everything
    ensures maxToasts == 0 ==> r == prev + [t]
    // a negative cap drops that many records from the front, the new one included
    ensures maxToasts < 0 ==> |r| == Max(|prev| + 1 + maxToasts, 0)
  {
    var updated := prev + [t];
    if |updated| > maxToasts then SliceFrom(updated, -maxToasts) else updated
  }

  /** The updater `removeToast` uses: `filter(toast => toast.id !== id)`. */
  function Removed(prev: seq<Toast>, id: string): (r: seq<Toast>)
    ensures |r| <= |prev|
    ensures forall t :: t in r <==> t in prev && t.id != id
    ensures (forall k :: 0 <= k < |prev| ==> prev[k].id != id) ==> r == prev
  {
    if prev == [] then []
    else (if prev[0].id == id then [] else [prev[0]]) + Removed(prev[1..], id)
  }

  /** `{ ...toast, ...updates }`: every property the update has replaces the
      record's, and one given as `undefined` clears it. */
  function Merge(t: Toast, u: ToastUpdate): (m: Toast)
    ensures m.id == u.id.GetOr(t.id) && m.message == u.message.GetOr(t.message)
    ensures m.kind == (if u.kind.Some? then u.kind.value else t.kind)
    ensures m.title == (if u.title.Some? then u.title.value else t.title)
    ensures m.duration == (if u.duration.Some? then u.duration.value else t.duration)
    ensures m.position == (if u.position.Some? then u.position.value else t.position)
    ensures m.animation == (if u.animation.Some? then u.animation.value else t.animation)
    ensures m.pauseOnHover == (if u.pauseOnHover.Some? then u.pauseOnHover.value else t.pauseOnHover)
    ensures m.closeOnClick == (if u.closeOnClick.Some? then u.closeOnClick.value else t.closeOnClick)
    ensures m.className == (if u.className.Some? then u.className.value else t.className)
    ensures m.icon == (if u.icon.Some? then u.icon.value else t.icon)
    ensures m.progressBar == (if u.progressBar.Some? then u.progressBar.value else t.progressBar)
    ensures m.rtl == (if u.rtl.Some? then u.rtl.value else t.rtl)
    ensures m.role == (if u.role.Some? then u.role.value else t.role)
  {
    Toast(u.id.GetOr(t.id), Over(u.kind, t.kind), Over(u.title, t.title), u.message.GetOr(t.message),
          Over(u.duration, t.duration), Over(u.position, t.position), Over(u.animation, t.animation),
          Over(u.pauseOnHover, t.pauseOnHover), Over(u.closeOnClick, t.closeOnClick),
          Over(u.className, t.className), u.icon.GetOr(t.icon),
          Over(u.progressBar, t.progressBar), Over(u.rtl, t.rtl), Over(u.role, t.role))
  }

  /** One optional property of an object spread: the later object's, if it has it. */
  function Over<T>(given: Option<Option<T>>, current: Option<T>): Option<T> {
    if given.Some? then given.value else current
  }

  /** The update that gives no property. */
  function NoUpdate(): ToastUpdate {
    ToastUpdate(None, None, None, None, None, None, None, None, None, None, None, None, None, None)
  }

  /** An update that gives a property as `undefined` clears it: a position
      cleared this way sends the toast to the default stack. */
  lemma UndefinedClears(t: Toast)
    ensures Merge(t, NoUpdate().(position := Some(None))).position == None
    ensures Merge(t, NoUpdate().(title := Some(None))).title == None
    ensures Merge(t, NoUpdate().(position := Some(None))).id == t.id
  {
  }

  /** An argument carrying its own id outlives `removeToast` of the id
      `addToast` returned: the new record does not carry that id. */
  lemma StrayIdOutlivesRemoval(prev: seq<Toast>, id: string, config: ToastConfig, options: ProviderOptions)
    requires options.maxToasts >= 1 && config.id.Some? && config.id.value != id
    ensures var t := NewToast(id, config, options);
            var after := Appended(prev, t, options.maxToasts);
            t in after && t in Removed(after, id)
  {
  }

  /** The updater `updateToast` uses: merge `u` into every record whose id matches. */
  function Updated(prev: seq<Toast>, id: string, u: ToastUpdate): (r: seq<Toast>)
    ensures |r| == |prev|
    ensures forall k :: 0 <= k < |prev| && prev[k].id != id ==> r[k] == prev[k]
    ensures forall k :: 0 <= k < |prev| && prev[k].id == id ==> r[k] == Merge(prev[k], u)
  {
    seq(|prev|, k requires 0 <= k < |prev| => if prev[k].id == id then Merge(prev[k], u) else prev[k])
  }

  /** The value `removeAll` sets. */
  function Cleared(): (r: seq<Toast>)
    ensures |r| == 0
  {
    []
  }

  /** The message `useToast` throws outside a provider. */
  const MissingProvider := "useToast must be used within a ToastProvider"

  /** `useToast`: the nearest provider's handle, or the missing-provider error. */
  function UseToast<C>(context: Option<C>): (r: Result<C, string>)
    ensures r.Err? <==> context.None?
    ensures r.Err? ==> r.error == MissingProvider
    ensures context.Some? ==> r == Ok(context.value)
  {
    match context
    case None => Err(MissingProvider)
    case Some(c) => Ok(c)
  }

  // ---------------------------------------------------------------------------
  // Properties of the list operations

  /** Removing distributes over concatenation: records that survive keep their order. */
  lemma {:induction false} RemovedDistributes(a: seq<Toast>, b: seq<Toast>, id: string)
    ensures Removed(a + b, id) == Removed(a, id) + Removed(b, id)
  {
    if a == [] {
      assert a + b == b;
    } else {
      assert (a + b)[1..] == a[1..] + b;
      RemovedDistributes(a[1..], b, id);
    }
  }

  /** Removing keeps every occurrence of every other record and none of the removed id. */
  lemma {:induction false} RemovedCounts(prev: seq<Toast>, id: string, t: Toast)
    ensures multiset(Removed(prev, id))[t] == if t.id == id then 0 else multiset(prev)[t]
  {
    if prev != [] {
      RemovedCounts(prev[1..], id, t);
      assert prev == [prev[0]] + prev[1..];
    }
  }

  /** Removing the same id twice is removing it once. */
  lemma RemovedIdempotent(prev: seq<Toast>, id: string)
    ensures Removed(Removed(prev, id), id) == Removed(prev, id)
  {
  }

  /** A merge that gives nothing changes nothing, and merging twice is merging once. */
  lemma MergeLaws(t: Toast, u: ToastUpdate)
    ensures Merge(t, NoUpdate()) == t
    ensures Merge(Merge(t, u), u) == Merge(t, u)
  {
  }

  /** Updating an id no record carries leaves the list as it is. */
  lemma UpdatedAbsentId(prev: seq<Toast>, id: string, u: ToastUpdate)
    requires forall k :: 0 <= k < |prev| ==> prev[k].id != id
    ensures Updated(prev, id, u) == prev
  {
  }

  /** Applying the same update twice is applying it once, even when it changes the id. */
  lemma UpdatedIdempotent(prev: seq<Toast>, id: string, u: ToastUpdate)
    ensures Updated(Updated(prev, id, u), id, u) == Updated(prev, id, u)
  {
  }

  // ---------------------------------------------------------------------------
  // The cap holds over any history of operations

  /** One call on the provider's handle, with the id `addToast` would generate. */
  datatype Op = Add(newId: string, config: ToastConfig) | Remove(id: string)
              | Update(id: string, update: ToastUpdate) | RemoveAll

  function Apply(toasts: seq<Toast>, op: Op, options: ProviderOptions): seq<Toast> {
    match op
    case Add(newId, config) => Appended(toasts, NewToast(newId, config, options), options.maxToasts)
    case Remove(id) => Removed(toasts, id)
    case Update(id, u) => Updated(toasts, id, u)
    case RemoveAll => Cleared()
  }

  function Run(toasts: seq<Toast>, ops: seq<Op>, options: ProviderOptions): seq<Toast>
    decreases |ops|
  {
    if ops == [] then toasts else Run(Apply(toasts, ops[0], options), ops[1..], options)
  }

  /** With a positive cap, no sequence of calls makes the list longer than the cap. */
  lemma {:induction false} CapHolds(toasts: seq<Toast>, ops: seq<Op>, options: ProviderOptions)
    requires options.maxToasts >= 1 && |toasts| <= options.maxToasts
    ensures |Run(toasts, ops, options)| <= options.maxToasts
    decreases |ops|
  {
    if ops != [] {
      CapHolds(Apply(toasts, ops[0], options), ops[1..], options);
    }
  }

  /** Applying one `addToast` call. */
  lemma ApplyAdd(toasts: seq<Toast>, op: Op, options: ProviderOptions)
    requires options.maxToasts >= 1 && op.Add?
    ensures |Apply(toasts, op, options)| == Min(|toasts| + 1, options.maxToasts)
    ensures Apply(toasts, op, options)[|Apply(toasts, op, options)| - 1]
              == NewToast(op.newId, op.config, options)
  {
  }

  /** Every call in the history is an `addToast`. */
  predicate OnlyAdds(ops: seq<Op>) {
    forall k :: 0 <= k < |ops| ==> ops[k].Add?
  }

  /** A history of `n` `addToast` calls leaves `Min(m + n, maxToasts)` records,
      where `m` were there before. */
  lemma {:induction false} AddsLength(toasts: seq<Toast>, ops: seq<Op>, options: ProviderOptions)
    requires options.maxToasts >= 1 && |toasts| <= options.maxToasts && OnlyAdds(ops)
    ensures |Run(toasts, ops, options)| == Min(|toasts| + |ops|, options.maxToasts)
    decreases |ops|
  {
    if ops != [] {
      var next := Apply(toasts, ops[0], options);
      ApplyAdd(toasts, ops[0], options);
      assert OnlyAdds(ops[1..]) by {
        forall k | 0 <= k < |ops| - 1 ensures ops[1..][k].Add? { assert ops[1..][k] == ops[k + 1]; }
      }
      AddsLength(next, ops[1..], options);
    }
  }

  /** After a non-empty history of `addToast` calls the last record is the one
      the latest call built. */
  lemma {:induction false} AddsKeepNewest(toasts: seq<Toast>, ops: seq<Op>, options: ProviderOptions)
    requires options.maxToasts >= 1 && OnlyAdds(ops) && ops != []
    ensures |Run(toasts, ops, options)| >= 1
    ensures Run(toasts, ops, options)[|Run(toasts, ops, options)| - 1]
              == NewToast(ops[|ops| - 1].newId, ops[|ops| - 1].config, options)
    decreases |ops|
  {
    var next := Apply(toasts, ops[0], options);
    ApplyAdd(toasts, ops[0], options);
    var rest := ops[1..];
    assert Run(toasts, ops, options) == Run(next, rest, options);
    if rest == [] {
      assert Run(next, rest, options) == next;
    } else {
      assert OnlyAdds(rest) by {
        forall k | 0 <= k < |rest| ensures rest[k].Add? { assert rest[k] == ops[k + 1]; }
      }
      AddsKeepNewest(next, rest, options);
      assert ops[|ops| - 1] == rest[|rest| - 1];
    }
  }

  // ---------------------------------------------------------------------------

  /** The provider: the list it renders and the settings it was given. */
  class Provider {
    const options: ProviderOptions
    var toasts: seq<Toast>

    constructor (options: ProviderOptions)
      ensures this.options == options && toasts == []
    {
      this.options := options;
      toasts := [];
    }

    /** `addToast`: `id` stands for the value `generateId` returned; it is handed back. */
    method AddToast(id: string, config: ToastConfig) returns (newId: string)
      modifies this
      ensures newId == id
      ensures toasts == Appended(old(toasts), NewToast(id, config, options), options.maxToasts)
    {
      var newToast := NewToast(id, config, options);
      var updated := toasts + [newToast];
      if |updated| > options.maxToasts {
        toasts := SliceFrom(updated, -options.maxToasts);
      } else {
        toasts := updated;
      }
      newId := id;
    }

    method RemoveToast(id: string)
      modifies this
      ensures toasts == Removed(old(toasts), id)
    {
      toasts := Removed(toasts, id);
    }

    method UpdateToast(id: string, u: ToastUpdate)
      modifies this
      ensures toasts == Updated(old(toasts), id, u)
    {
      toasts := Updated(toasts, id, u);
    }

    method RemoveAllToasts()
      modifies this
      ensures toasts == []
    {
      toasts := Cleared();
    }
  }
}

# react-elegant-toasts, modelled in Dafny

This project models the logic core of a React notification ("toast") library.
The core has four parts:

- **The provider's toast list** (`ToastContext.dfy`, from `src/ToastContext.tsx`).
  The state is an ordered list of toast records. `addToast` builds a record
  from the provider defaults overlaid with the caller's properties, appends it,
  and keeps `slice(-maxToasts)` when the list is too long. `removeToast`
  filters by id. `updateToast` merges an update into the records with a
  matching id. `removeAll` empties the list. `useToast` fails outside a
  provider. Each operation is a pure function from the old list to the new
  one. The class `Provider` holds the list and reassigns it, as the
  component's state setter does.
- **Grouping by position** (`ToastContainer.dfy`, from `src/ToastContainer.tsx`).
  The `positionGroups` reduce fills an object of lists in place. It is modelled
  as a method with a loop over the list. The method keeps a map from position
  to list, plus the insertion order of the map's keys, which is the order
  `Object.entries` yields for these non-numeric keys. It is proved equal to a
  functional specification (`PositionGroups`). The lemmas prove that this is a
  stable partition with stacks in first-occurrence order. The model also states
  that each rendered toast's close handler removes its own id.
- **Style lookups** (`StyleUtils.dfy`, from `src/utils.ts`). These are the
  position placement table and the animation class table, each with its
  fallback.
- **One toast's lifecycle** (`ToastUnit.dfy`, from `src/Toast.tsx`), in
  discrete time, with one tick per millisecond. The state is `isVisible`, the
  clock, the armed dismissal timers (handle to deadline), the handle `timerRef`
  holds, and the next handle `setTimeout` returns. The events are mount,
  mouse-enter, mouse-leave, click and clock ticks. Each is a function on the
  state. The class `ToastUnit` has one method per handler, and each method is
  proved to produce exactly that function's result. `getIcon`, the icon slot,
  the progress-bar condition and the early `return null` are pure functions.

`Wrappers.dfy` holds `Option` and `Result`. `ToastTypes.dfy` holds the
enumerations and record types of `src/types.ts`.

In these places the model follows the code's actual behaviour:

- Mouse-leave restarts the timer with the **full** duration, not the remaining
  time (`HoverThenLeave`).
- The provider ignores `pauseOnPageIdle` and `pauseOnFocusLoss`. No visibility
  or focus monitor exists.
- An argument to `addToast` that carries its own `id` overrides the generated
  one, yet `addToast` still returns the generated id
  (`StrayIdOutlivesRemoval`).
- A property given explicitly as `undefined` overrides the provider default or
  clears the record's value (`NewToast`, `UndefinedClears`).
- A `maxToasts` of 0 does not cap the list, and a negative one drops records
  from the front (`Appended`).
- A toast that expires or is clicked only stops rendering. Its record stays in
  the provider's list and still counts toward `maxToasts`.

## Model

| member | source | states |
|---|---|---|
| `StyleUtils.PositionStyleAsWritten` | src/utils.ts:5-15 | The lookup as written finds the table entry for the six names. It finds an inherited member for a name every object inherits. It falls back to top-right for any other name. |
| `StyleUtils.AnimationStyleAsWritten` | src/utils.ts:17-25 | The same for animations: the table entry, an inherited member, or `slideIn`. |
| `StyleUtils.PositionStyleReachesPrototype` | src/utils.ts:14 | `getPositionStyle('toString')` yields an inherited member, not a placement. |
| `StyleUtils.AnimationStyleReachesPrototype` | src/utils.ts:24 | `getAnimationStyle('constructor')` is not one of the four class names. |
| `StyleUtils.PositionStyle` | src/utils.ts:6-14 | Each of the six names gets its fixed placement. Any other string gets the top-right placement. Every placement anchors exactly one vertical and one horizontal edge. |
| `StyleUtils.AnimationStyle` | src/utils.ts:18-24 | slide, fade, zoom and bounce map to slideIn, fadeIn, zoomIn and bounceIn. Anything else maps to slideIn, so the result is always one of the four. |
| `StyleUtils.CentreStacksShareHorizontalPlacement` | src/utils.ts:8-11 | Both centre positions use `left: 50%` and `translateX(-50%)`, with no `right`. |
| `StyleUtils.PositionStyleOfEnumerated` | src/utils.ts:6-13 | Every enumerated position is a key of the table, and distinct positions get distinct placements. |
| `StyleUtils.AnimationStyleOfEnumerated` | src/utils.ts:18-23 | Each animation maps to its own name plus "In", and distinct animations map to distinct classes. |
| `StyleUtils.LookupsAgreeOnOrdinaryNames` | src/utils.ts:5-25 | Outside the inherited names, the as-written and the intended lookups agree. |
| `ToastContext.NewToast` | src/ToastContext.tsx:23-30 | The new record carries the generated id unless the argument carries its own `id`, which then wins. Position, animation and duration take the provider defaults only when the argument leaves them out. One given explicitly, even as `undefined`, is the caller's. Every other property is the caller's. |
| `ToastContext.ProviderDefaults` | src/ToastContext.tsx:10-30 | With the provider's own defaults and an argument that gives no position, animation or duration, the record is top-right, slide, 5000 ms. The cap is 5. |
| `ToastContext.StrayIdOutlivesRemoval` | src/ToastContext.tsx:24-40 | When the argument carries an id other than the generated one, the new record is in the list, and removing the id `addToast` returned leaves it there. |
| `ToastContext.SliceFrom` | src/ToastContext.tsx:35 | `slice(start)` is a tail of the list. A negative start keeps the last `min(-start, length)` items. A non-negative start keeps `max(length - start, 0)` items. |
| `ToastContext.Appended` | src/ToastContext.tsx:32-38 | The result is a suffix of old list + new record. With a cap of at least 1, its length is min(old + 1, cap) and the new record is last. A cap of 0 keeps the whole list. A negative cap drops that many records from the front. |
| `ToastContext.Removed` | src/ToastContext.tsx:45-47 | No record with the id remains. Every record with another id is kept. An absent id leaves the list unchanged. |
| `ToastContext.RemovedDistributes` | src/ToastContext.tsx:46 | Removal distributes over concatenation, so surviving records keep their relative order. |
| `ToastContext.RemovedCounts` | src/ToastContext.tsx:46 | Each record with another id is kept as many times as it occurred, and no record with the removed id is kept. |
| `ToastContext.RemovedIdempotent` | src/ToastContext.tsx:46 | Removing an id twice is the same as removing it once. |
| `ToastContext.Merge` | src/ToastContext.tsx:51 | Each property the update gives overwrites the record's, `id` and `message` included. A property given as `undefined` clears the record's. Every property the update leaves out is kept. |
| `ToastContext.UndefinedClears` | src/ToastContext.tsx:51 | An update giving the position or the title as `undefined` clears it and keeps the id. |
| `ToastContext.MergeLaws` | src/ToastContext.tsx:51 | An empty update changes nothing, and merging the same update twice is the same as merging it once. |
| `ToastContext.Updated` | src/ToastContext.tsx:49-53 | The length is kept. Records with other ids are untouched. Each matching record becomes the merge of itself with the update. |
| `ToastContext.UpdatedAbsentId` | src/ToastContext.tsx:51 | Updating an id that no record has is the identity. |
| `ToastContext.UpdatedIdempotent` | src/ToastContext.tsx:49-53 | Applying the same update twice is the same as applying it once, even when the update changes the id. |
| `ToastContext.Cleared` | src/ToastContext.tsx:55-57 | `removeAll` leaves the list empty. |
| `ToastContext.UseToast` | src/ToastContext.tsx:79-85 | The call fails exactly when no provider is present, with "useToast must be used within a ToastProvider". Otherwise it returns the provider's handle. |
| `ToastContext.ApplyAdd` | src/ToastContext.tsx:32-38 | One `addToast` under a positive cap yields min(old + 1, cap) records, with the new record last. |
| `ToastContext.CapHolds` | src/ToastContext.tsx:32-57 | Under a positive cap, any sequence of add, remove, update and remove-all calls keeps the list within the cap. |
| `ToastContext.AddsLength` | src/ToastContext.tsx:32-38 | n adds leave min(old + n, cap) records, so 3 adds under a cap of 2 leave 2. |
| `ToastContext.AddsKeepNewest` | src/ToastContext.tsx:32-38 | After a run of adds, the last record is the one the latest add built. |
| `ToastContext.Provider.constructor` | src/ToastContext.tsx:19 | The provider starts with an empty list. |
| `ToastContext.Provider.AddToast` | src/ToastContext.tsx:21-41 | The method returns the generated id, and the new list is `Appended` of the old list and `NewToast`. |
| `ToastContext.Provider.RemoveToast` | src/ToastContext.tsx:45-47 | The new list is `Removed` of the old list. |
| `ToastContext.Provider.UpdateToast` | src/ToastContext.tsx:49-53 | The new list is `Updated` of the old list. |
| `ToastContext.Provider.RemoveAllToasts` | src/ToastContext.tsx:55-57 | The new list is empty. |
| `ToastContainer.PositionOf` | src/ToastContainer.tsx:20 | A toast with no position goes to the top-right stack. Otherwise it goes to the stack of its own position. |
| `ToastContainer.GroupByPosition` | src/ToastContainer.tsx:19-26 | The reduce, with its in-place object of lists, yields exactly `PositionGroups` of the input. |
| `ToastContainer.PositionsOccur` | src/ToastContainer.tsx:21-23 | A position gets a stack exactly when some toast has that position. |
| `ToastContainer.PositionsDistinct` | src/ToastContainer.tsx:21-23 | No position gets two stacks. |
| `ToastContainer.BucketMembers` | src/ToastContainer.tsx:20-24 | A toast is in the stack of p exactly when it is in the list and its position is p. |
| `ToastContainer.BucketDistributes` | src/ToastContainer.tsx:24 | The stack of a + b is the stack of a followed by the stack of b, so toasts keep list order within a stack. |
| `ToastContainer.BucketOfAbsent` | src/ToastContainer.tsx:21-23 | A position that no toast has collects nothing. |
| `ToastContainer.GroupsNonEmpty` | src/ToastContainer.tsx:21-24 | Every rendered stack is non-empty. |
| `ToastContainer.GroupingIsPartition` | src/ToastContainer.tsx:19-26 | Together, the stacks hold every toast of the list as often as the list does and nothing else. Their sizes sum to the list's length. |
| `ToastContainer.GroupsInFirstOccurrenceOrder` | src/ToastContainer.tsx:19-30 | Of two stacks, the one rendered first belongs to the position whose first toast comes earlier in the list. |
| `ToastContainer.UndefinedPositionGoesTopRight` | src/ToastContainer.tsx:20 | An update giving the position as `undefined` moves the toast to the top-right stack. |
| `ToastContainer.CloseRemovesOwnRecord` | src/ToastContainer.tsx:51 | A rendered toast's close request removes every record with its id and shortens the list. |
| `ToastUnit.PropsOf` | src/Toast.tsx:5-20 | The component's defaults are info, 5000 ms, slide, pause on hover, close on click, a progress bar, left-to-right and role `alert`. Each applies only when the property is absent. |
| `ToastUnit.TypeGlyph` | src/Toast.tsx:28-39 | Success shows ✓, error ✕, warning ⚠ and info ℹ, each one character. |
| `ToastUnit.TypeGlyphsDistinct` | src/Toast.tsx:28-39 | Two different types show different glyphs. |
| `ToastUnit.GetIcon` | src/Toast.tsx:26-40 | A truthy icon property wins over the type glyph. A falsy one gives the type's glyph. The result is never empty. |
| `ToastUnit.IconSlot` | src/Toast.tsx:122 | The icon slot is absent exactly when the icon property is `null`. Otherwise it shows `getIcon`. |
| `ToastUnit.ShowsProgressBar` | src/Toast.tsx:128 | The bar is shown exactly when `progressBar` is set and the duration is finite. An infinite duration never shows it. |
| `ToastUnit.Render` | src/Toast.tsx:104-135 | A hidden toast renders nothing. A visible one renders the icon slot, the progress-bar condition, the animation's class, the type, direction and role, the message, and the title exactly when it is non-empty. |
| `ToastUnit.Initial` | src/Toast.tsx:21-24 | A new toast is visible, with no timer armed. |
| `ToastUnit.TimerDelay` | src/Toast.tsx:45-47 | A browser reduces the requested delay modulo 2^32. It waits that remainder when it fits in a signed 32-bit integer, and fires at once otherwise. The delay is never above 2147483647. |
| `ToastUnit.LongDelayWraps` | src/Toast.tsx:45-47 | A request of 2^32 + 1000 ms waits 1000 ms, and one of 2^31 ms fires at once. |
| `ToastUnit.StartTimer` | src/Toast.tsx:42-47 | An infinite duration changes nothing. A finite d arms a new timer due `TimerDelay(d)` ticks from now and stores its handle in `timerRef`. Timers already armed stay armed. |
| `ToastUnit.PauseTimer` | src/Toast.tsx:64-71 | Only the timer whose handle `timerRef` holds is cancelled. |
| `ToastUnit.Mount` | src/Toast.tsx:73-78 | Mounting leaves the toast visible. It arms one timer due after the host's delay for the duration, or none for an infinite duration. |
| `ToastUnit.MouseEnter` | src/Toast.tsx:80-84 | With `pauseOnHover`, mouse-enter pauses the timer. Without it, mouse-enter changes nothing. |
| `ToastUnit.MouseLeave` | src/Toast.tsx:86-90 | With `pauseOnHover`, mouse-leave starts a timer. Without it, mouse-leave changes nothing. |
| `ToastUnit.Click` | src/Toast.tsx:92-96 | After a click the toast is visible exactly when it was visible and `closeOnClick` is off. Timers are untouched. |
| `ToastUnit.Tick` | src/Toast.tsx:45-47 | A tick fires the timers that are due and disarms them. A firing hides the toast. |
| `ToastUnit.StepsKeepTidy` | src/Toast.tsx:42-96 | Ticks, clicks and mouse-enter keep at most the one timer that `timerRef` holds armed. So does mouse-leave when no timer is armed. |
| `ToastUnit.QuietTicks` | src/Toast.tsx:45-47 | While no deadline falls due, only the clock changes. |
| `ToastUnit.HiddenStaysHidden` | src/Toast.tsx:46 | A hidden toast stays hidden however much time passes. |
| `ToastUnit.ExpiryTicks` | src/Toast.tsx:45-47 | The toast is hidden by the time an armed deadline falls due. |
| `ToastUnit.ArmedFor` | src/Toast.tsx:45-47 | With a single deadline d ticks ahead, the toast is visible for exactly d ticks, and for at least one. |
| `ToastUnit.MountExpires` | src/Toast.tsx:73-78 | A mounted toast with finite duration d hides d ticks after mounting. In general it hides `TimerDelay(d)` ticks after mounting, so a d beyond 2147483647 and below 2^32 hides it at the first tick. |
| `ToastUnit.InfiniteNeverExpires` | src/Toast.tsx:42-47 | With an infinite duration no timer is armed, the toast never hides by itself, and no progress bar is shown. |
| `ToastUnit.HoverHolds` | src/Toast.tsx:80-84 | With `pauseOnHover`, entering cancels the armed timer, so no amount of time hides the toast while it is hovered. |
| `ToastUnit.LeaveRestartsFullDuration` | src/Toast.tsx:86-90 | Leaving re-arms a timer for the full duration. The toast hides exactly `TimerDelay(d)` ticks later. |
| `ToastUnit.HoverThenLeave` | src/Toast.tsx:73-90 | Shown for k ticks, fewer than the timer's delay, hovered for w ticks, then left: the toast hides `TimerDelay(d)` ticks after leaving. |
| `ToastUnit.LeaveTwiceLeaksTimer` | src/Toast.tsx:42-71 | Two mouse-leaves in a row arm two timers. Mouse-enter then cancels only one, so the toast hides while hovered. |
| `ToastUnit.HiddenRendersNothing` | src/Toast.tsx:104 | A hidden toast renders nothing, now or after any number of ticks, and hover and click do not change it. |
| `ToastUnit.ToastUnit.constructor` | src/Toast.tsx:21-24 | The new object's state is `Mount` of its properties. |
| `ToastUnit.ToastUnit.Start` | src/Toast.tsx:42-47 | The new state is `StartTimer` of the old one. |
| `ToastUnit.ToastUnit.Pause` | src/Toast.tsx:64-71 | The new state is `PauseTimer` of the old one. |
| `ToastUnit.ToastUnit.HandleMouseEnter` | src/Toast.tsx:80-84 | The new state is `MouseEnter` of the old one. |
| `ToastUnit.ToastUnit.HandleMouseLeave` | src/Toast.tsx:86-90 | The new state is `MouseLeave` of the old one. |
| `ToastUnit.ToastUnit.HandleClick` | src/Toast.tsx:92-96 | The new state is `Click` of the old one. |
| `ToastUnit.ToastUnit.AdvanceClock` | src/Toast.tsx:45-47 | The new state is `Tick` of the old one. |
| `ToastUnit.ToastUnit.Show` | src/Toast.tsx:104 | The method returns nothing exactly when the toast is hidden. Otherwise it returns `Render` of the state. |

## Findings

| source | as written | input that shows it | evidently intended | confidence | as-written member | corrected member |
|---|---|---|---|---|---|---|
| src/utils.ts:14 | The position lookup indexes an object literal, which also finds members every object inherits. | `getPositionStyle('toString')` returns the inherited function instead of the top-right placement. | Any unrecognised string falls back to top-right. | medium, not executed | `StyleUtils.PositionStyleReachesPrototype` | `StyleUtils.PositionStyle` |
| src/utils.ts:24 | The animation lookup has the same inherited-member reach. | `getAnimationStyle('constructor')` returns the `Object` constructor, not a class name. | Any unrecognised string yields `slideIn`. | medium, not executed | `StyleUtils.AnimationStyleReachesPrototype` | `StyleUtils.AnimationStyle` |

Both lookups are only reached with enumerated names in this library: the
container passes a position name and the toast passes an animation name. So
the rest of the model uses the corrected lookups, and
`LookupsAgreeOnOrdinaryNames` shows that the two versions agree on every such
name.

## Left out

- ToastContext.Merge: an update that sets `id` or `message` to `undefined` is not modelled, because a record's id and message are strings here.
- ToastUnit.Tick: one tick stands for one millisecond. Timers that fall due in the same tick fire together, and the order between firing timers and events within a tick is not modelled.
- ToastUnit.MouseEnter, ToastUnit.MouseLeave, ToastUnit.Click: these are no-ops on a hidden toast, because the element that would receive the event is not rendered.
- Rendering: JSX, CSS class strings, the container's style objects and the toast's `className` and `style` (src/ToastContainer.tsx:28-57, src/Toast.tsx:108-135) are presentation only. `Render` keeps only what the toast decides to show.
- `generateId` (src/utils.ts:1-3) is random. Ids are parameters of the model, and their uniqueness is not claimed, because the code does not guarantee it.
- The progress percentage and its `requestAnimationFrame` loop (src/Toast.tsx:49-61) use floating point and wall-clock time. `pauseTimer` also cancels that loop, which is not modelled.
- `handleTransitionEnd` and the `onClose` callback (src/Toast.tsx:98-102) are not modelled. The element unmounts as soon as the toast is hidden, so this path is not reached by the rendering modelled here. Expiry is not linked to removal from the provider's list.
- `pauseOnPageIdle` and `pauseOnFocusLoss` (src/ToastContext.tsx:16-17) are accepted but never used by the code.
- React hook semantics are not modelled: `useCallback` dependencies, the effect re-running when `duration` changes (src/Toast.tsx:78), and its cleanup on unmount.
- Numbers are modelled as integers. `maxToasts` and `duration` are integers, and a duration is a non-negative count of milliseconds or `Infinity`. Fractional, NaN and negative durations are not modelled.
- Timers run in whole milliseconds, with the browser's conversion of the delay to a 32-bit integer (`TimerDelay`).
- ToastUnit.TimerDelay: models the browser. Node and jest's fake timers instead wait 1 ms for every delay above 2147483647, with no wrap-around modulo 2^32, so they differ from the model for delays of 2^32 ms or more.
- Timer handles start at 1, as browser timer ids do, so `if (timerRef.current)` is true for every stored handle.
- The `default: return null` branch of `getIcon` cannot be reached with the enumerated type, so it has no counterpart.
- The `onClose` and `style` properties of a record are callbacks and CSS objects, and are not part of the record type.

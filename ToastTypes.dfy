/** The record and enumeration types of the library (src/types.ts). */
module ToastTypes {
  import opened Wrappers

  /** 'success' | 'error' | 'info' | 'warning' */
  datatype ToastType = Success | Error | Info | Warning

  /** The six screen anchors a toast stack can occupy. */
  datatype ToastPosition = TopLeft | TopCenter | TopRight | BottomLeft | BottomCenter | BottomRight
  {
    /** The string the position is written as, and the key the container groups by. */
    function Name(): string {
      match this
      case TopLeft => "top-left"
      case TopCenter => "top-center"
      case TopRight => "top-right"
      case BottomLeft => "bottom-left"
      case BottomCenter => "bottom-center"
      case BottomRight => "bottom-right"
    }
  }

  /** 'slide' | 'fade' | 'zoom' | 'bounce' */
  datatype ToastAnimation = Slide | Fade | Zoom | Bounce
  {
    function Name(): string {
      match this
      case Slide => "slide"
      case Fade => "fade"
      case Zoom => "zoom"
      case Bounce => "bounce"
    }
  }

  /** A display time in milliseconds, or `Infinity` for a toast that never expires. */
  datatype Duration = Finite(ms: nat) | Infinite

  /** The `icon` property: left out, the literal `null`, or a node to show.
      A node is falsy when it is the empty string. */
  datatype Icon = NoIcon | NullIcon | Node(glyph: string)
  {
    /** JavaScript truthiness of the property (`if (icon)`). */
    predicate Truthy() {
      Node? && glyph != ""
    }
  }

  /** One toast record (ToastProps). Optional properties are `Option`s; `icon`
      has its own "left out" case. */
  datatype Toast = Toast(
    id: string,
    kind: Option<ToastType>,
    title: Option<string>,
    message: string,
    duration: Option<Duration>,
    position: Option<ToastPosition>,
    animation: Option<ToastAnimation>,
    pauseOnHover: Option<bool>,
    closeOnClick: Option<bool>,
    className: Option<string>,
    icon: Icon,
    progressBar: Option<bool>,
    rtl: Option<bool>,
    role: Option<string>)

  /** What a caller passes to `addToast`. Its type leaves out `id`, but a
      value of the full record type is accepted too, so an `id` may still come
      along (`id`). The three properties the provider has defaults for may be
      left out (`None`) or given, possibly as `undefined` (`Some(None)`). */
  datatype ToastConfig = ToastConfig(
    id: Option<string>,
    kind: Option<ToastType>,
    title: Option<string>,
    message: string,
    duration: Option<Option<Duration>>,
    position: Option<Option<ToastPosition>>,
    animation: Option<Option<ToastAnimation>>,
    pauseOnHover: Option<bool>,
    closeOnClick: Option<bool>,
    className: Option<string>,
    icon: Icon,
    progressBar: Option<bool>,
    rtl: Option<bool>,
    role: Option<string>)

  /** What a caller passes to `updateToast`: any subset of a record's properties.
      `None` means "not given"; for an optional property `Some(None)` (and
      `Some(NoIcon)` for the icon) means "given as `undefined`", which clears it. */
  datatype ToastUpdate = ToastUpdate(
    id: Option<string>,
    kind: Option<Option<ToastType>>,
    title: Option<Option<string>>,
    message: Option<string>,
    duration: Option<Option<Duration>>,
    position: Option<Option<ToastPosition>>,
    animation: Option<Option<ToastAnimation>>,
    pauseOnHover: Option<Option<bool>>,
    closeOnClick: Option<Option<bool>>,
    className: Option<Option<string>>,
    icon: Option<Icon>,
    progressBar: Option<Option<bool>>,
    rtl: Option<Option<bool>>,
    role: Option<Option<string>>)

  /** The provider's settings that shape the list (ToastProviderProps). */
  datatype ProviderOptions = ProviderOptions(
    defaultPosition: ToastPosition,
    defaultAnimation: ToastAnimation,
    defaultDuration: Duration,
    maxToasts: int)

  /** The provider's settings when the host gives none. */
  function DefaultOptions(): ProviderOptions {
    ProviderOptions(TopRight, Slide, Finite(5000), 5)
  }
}

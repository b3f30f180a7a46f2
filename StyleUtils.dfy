/** The style lookup tables of src/utils.ts: the fixed placement of each
    position's stack and the entrance-animation class of each animation. */
module StyleUtils {
  import opened Wrappers
  import opened ToastTypes

  /** A CSS length: a pixel count or a percentage. */
  datatype Length = Px(px: int) | Percent(pct: int)

  /** The placement properties a position contributes to its container's style. */
  datatype Placement = Placement(
    top: Option<Length>,
    bottom: Option<Length>,
    left: Option<Length>,
    right: Option<Length>,
    transform: Option<string>)

  /** The position table, keyed by the position strings. */
  function PositionTable(): map<string, Placement> {
    map[
      "top-left" := Placement(Some(Px(0)), None, Some(Px(0)), None, None),
      "top-center" := Placement(Some(Px(0)), None, Some(Percent(50)), None, Some("translateX(-50%)")),
      "top-right" := Placement(Some(Px(0)), None, None, Some(Px(0)), None),
      "bottom-left" := Placement(None, Some(Px(0)), Some(Px(0)), None, None),
      "bottom-center" := Placement(None, Some(Px(0)), Some(Percent(50)), None, Some("translateX(-50%)")),
      "bottom-right" := Placement(None, Some(Px(0)), None, Some(Px(0)), None)
    ]
  }

  /** The animation table, keyed by the animation strings. */
  function AnimationTable(): map<string, string> {
    map["slide" := "slideIn", "fade" := "fadeIn", "zoom" := "zoomIn", "bounce" := "bounceIn"]
  }

  /** The entry a table lookup `table[key]` finds on a plain JavaScript object:
      one of the table's own entries, or a member every object inherits. */
  datatype Found<T> = Own(entry: T) | Inherited(name: string)

  /** Names every object literal inherits from Object.prototype, so that
      `table[name]` is a truthy function or object even though the table has no
      such entry. */
  function InheritedNames(): set<string> {
    {"constructor", "__proto__", "toString", "toLocaleString", "valueOf",
     "hasOwnProperty", "isPrototypeOf", "propertyIsEnumerable",
     "__defineGetter__", "__defineSetter__", "__lookupGetter__", "__lookupSetter__"}
  }

  /** `getPositionStyle` as written: `positions[position] || positions['top-right']`,
      where the index also reaches inherited members. */
  function PositionStyleAsWritten(position: string): (r: Found<Placement>)
    ensures position in PositionTable() ==> r == Own(PositionTable()[position])
    ensures position in InheritedNames() ==> r == Inherited(position)
    ensures position !in PositionTable() && position !in InheritedNames() ==>
              r == Own(PositionTable()["top-right"])
  {
    if position in PositionTable() then Own(PositionTable()[position])
    else if position in InheritedNames() then Inherited(position)
    else Own(PositionTable()["top-right"])
  }

  /** `getAnimationStyle` as written: `animations[animation] || animations['slide']`. */
  function AnimationStyleAsWritten(animation: string): (r: Found<string>)
    ensures animation in AnimationTable() ==> r == Own(AnimationTable()[animation])
    ensures animation in InheritedNames() ==> r == Inherited(animation)
    ensures animation !in AnimationTable() && animation !in InheritedNames() ==> r == Own("slideIn")
  {
    if animation in AnimationTable() then Own(AnimationTable()[animation])
    else if animation in InheritedNames() then Inherited(animation)
    else Own(AnimationTable()["slide"])
  }

  /** A position name reaches an inherited member instead of the fallback:
      `getPositionStyle('toString')` is not a placement at all. */
  lemma PositionStyleReachesPrototype()
    ensures PositionStyleAsWritten("toString") == Inherited("toString")
    ensures !PositionStyleAsWritten("toString").Own?
  {
  }

  /** Likewise `getAnimationStyle('constructor')` is not one of the four class names. */
  lemma AnimationStyleReachesPrototype()
    ensures !AnimationStyleAsWritten("constructor").Own?
  {
  }

  /** `getPositionStyle` with the fallback the code evidently intends: any string
      that is not one of the six position names yields the top-right entry. */
  function PositionStyle(position: string): (r: Placement)
    ensures position == "top-left" ==> r == Placement(Some(Px(0)), None, Some(Px(0)), None, None)
    ensures position == "top-center" ==>
              r == Placement(Some(Px(0)), None, Some(Percent(50)), None, Some("translateX(-50%)"))
    ensures position == "top-right" ==> r == Placement(Some(Px(0)), None, None, Some(Px(0)), None)
    ensures position == "bottom-left" ==> r == Placement(None, Some(Px(0)), Some(Px(0)), None, None)
    ensures position == "bottom-center" ==>
              r == Placement(None, Some(Px(0)), Some(Percent(50)), None, Some("translateX(-50%)"))
    ensures position == "bottom-right" ==> r == Placement(None, Some(Px(0)), None, Some(Px(0)), None)
    ensures position !in PositionTable() ==> r == PositionTable()["top-right"]
    // every placement pins the stack to exactly one vertical and one horizontal edge
    ensures r.top.Some? != r.bottom.Some? && r.left.Some? != r.right.Some?
  {
    if position in PositionTable() then PositionTable()[position] else PositionTable()["top-right"]
  }

  /** `getAnimationStyle` with the intended fallback. */
  function AnimationStyle(animation: string): (r: string)
    ensures animation == "slide" ==> r == "slideIn"
    ensures animation == "fade" ==> r == "fadeIn"
    ensures animation == "zoom" ==> r == "zoomIn"
    ensures animation == "bounce" ==> r == "bounceIn"
    ensures animation !in AnimationTable() ==> r == "slideIn"
    ensures r in {"slideIn", "fadeIn", "zoomIn", "bounceIn"}
  {
    if animation in AnimationTable() then AnimationTable()[animation] else AnimationTable()["slide"]
  }

  /** The centre positions share their horizontal placement: half-way across,
      shifted back by half their own width. */
  lemma CentreStacksShareHorizontalPlacement(p: ToastPosition)
    requires p == TopCenter || p == BottomCenter
    ensures PositionStyle(p.Name()).left == Some(Percent(50))
    ensures PositionStyle(p.Name()).right == None
    ensures PositionStyle(p.Name()).transform == Some("translateX(-50%)")
  {
  }

  /** Every enumerated position is a key of the table, and distinct positions
      get distinct placements, so the fallback is never taken for a typed value. */
  lemma PositionStyleOfEnumerated(p: ToastPosition, q: ToastPosition)
    ensures p.Name() in PositionTable()
    ensures PositionStyle(p.Name()) == PositionTable()[p.Name()]
    ensures p != q ==> PositionStyle(p.Name()) != PositionStyle(q.Name())
  {
  }

  /** Each of the four animations maps to its own class name. */
  lemma AnimationStyleOfEnumerated(a: ToastAnimation, b: ToastAnimation)
    ensures AnimationStyle(a.Name()) == a.Name() + "In"
    ensures a != b ==> AnimationStyle(a.Name()) != AnimationStyle(b.Name())
  {
  }

  /** Outside the inherited names the code as written and the intended lookups agree. */
  lemma LookupsAgreeOnOrdinaryNames(s: string)
    requires s !in InheritedNames()
    ensures PositionStyleAsWritten(s) == Own(PositionStyle(s))
    ensures AnimationStyleAsWritten(s) == Own(AnimationStyle(s))
  {
  }
}

/** The records the drag controller keeps per element: the DOM attributes it
    reads and writes, the drag profile that `set` attaches, the options `set`
    accepts with their defaults, the position a pointer move computes, and
    the class-name test that makes an element draggable. */
module Profile {
  import opened Geometry

  datatype Option<T> = None | Some(value: T)

  /** Identity of an element of the surface. */
  type ElemId = nat

  /** A user callback: the default no-op, or a caller-supplied function
      identified by a number (its body is the caller's). */
  datatype Handler = NoOp | User(fn: nat)

  /** What `set` attaches to an element. `mode` 0 moves both axes, 1 only
      the horizontal one, 2 only the vertical one; any other number writes
      neither axis but still applies both bounds checks. */
  datatype Profile = Profile(
    mode: int,
    minX: int, maxX: int, minY: int, maxY: int,
    snap: int,
    onStart: Handler, onMove: Handler, onStop: Handler)

  /** An element: its class name, its position (`left`/`top`, read back as
      the offset position), its size, the pointer offset captured at drag
      start, and its profile once `set` has run (`None` while `mode` is
      undefined). */
  datatype Element = Element(
    className: string,
    left: int, top: int,
    width: int, height: int,
    posX: int, posY: int,
    profile: Option<Profile>)

  /** The options object of `set`. `None` is an absent property; a supplied
      callback is identified by its number. */
  datatype Options = Options(
    mode: Option<int>,
    minX: Option<int>, maxX: Option<int>, minY: Option<int>, maxY: Option<int>,
    snap: Option<int>,
    onstart: Option<nat>, onmove: Option<nat>, onstop: Option<nat>)

  /** The empty options object `{}` used when `set` gets none. */
  const NoOptions := Options(None, None, None, None, None, None, None, None, None)

  /** `o || d` for a numeric option: an absent property and `0` are both
      falsy and give the default. */
  function OrNumber(o: Option<int>, d: int): (r: int)
    ensures o.Some? && o.value != 0 ==> r == o.value
    ensures o == None || o == Some(0) ==> r == d
  {
    if o.Some? && o.value != 0 then o.value else d
  }

  /** `o || function () {}` for a callback option. */
  function OrNoOp(o: Option<nat>): (r: Handler)
    ensures o.Some? <==> r.User?
    ensures o.Some? ==> r == User(o.value)
  {
    if o.Some? then User(o.value) else NoOp
  }

  /** The profile `set` builds from its options on a surface of size
      `gWidth` by `gHeight`. */
  function Configure(opts: Options, gWidth: int, gHeight: int): (p: Profile)
    ensures p.snap != 0
    ensures opts.maxX == Some(0) ==> p.maxX == gWidth
    ensures opts.maxY == Some(0) ==> p.maxY == gHeight
    ensures opts.snap == Some(0) ==> p.snap == 1
    ensures opts == NoOptions ==> p == Profile(0, 0, gWidth, 0, gHeight, 1, NoOp, NoOp, NoOp)
    ensures opts.mode.Some? && opts.mode.value != 0 ==> p.mode == opts.mode.value
    ensures opts.mode == None || opts.mode == Some(0) ==> p.mode == 0
    ensures opts.minX.Some? && opts.minX.value != 0 ==> p.minX == opts.minX.value
    ensures opts.minX == None || opts.minX == Some(0) ==> p.minX == 0
    ensures opts.maxX.Some? && opts.maxX.value != 0 ==> p.maxX == opts.maxX.value
    ensures opts.maxX == None || opts.maxX == Some(0) ==> p.maxX == gWidth
    ensures opts.minY.Some? && opts.minY.value != 0 ==> p.minY == opts.minY.value
    ensures opts.minY == None || opts.minY == Some(0) ==> p.minY == 0
    ensures opts.maxY.Some? && opts.maxY.value != 0 ==> p.maxY == opts.maxY.value
    ensures opts.maxY == None || opts.maxY == Some(0) ==> p.maxY == gHeight
    ensures opts.snap.Some? && opts.snap.value != 0 ==> p.snap == opts.snap.value
    ensures opts.snap == None || opts.snap == Some(0) ==> p.snap == 1
    ensures p.onStart == (if opts.onstart.Some? then User(opts.onstart.value) else NoOp)
    ensures p.onMove == (if opts.onmove.Some? then User(opts.onmove.value) else NoOp)
    ensures p.onStop == (if opts.onstop.Some? then User(opts.onstop.value) else NoOp)
  {
    Profile(
      OrNumber(opts.mode, 0),
      OrNumber(opts.minX, 0), OrNumber(opts.maxX, gWidth),
      OrNumber(opts.minY, 0), OrNumber(opts.maxY, gHeight),
      OrNumber(opts.snap, 1),
      OrNoOp(opts.onstart), OrNoOp(opts.onmove), OrNoOp(opts.onstop))
  }

  /** A supplied `0` is indistinguishable from an absent option. */
  lemma ZeroOptionIsAbsent(opts: Options, gWidth: int, gHeight: int)
    ensures Configure(opts.(maxX := Some(0)), gWidth, gHeight) == Configure(opts.(maxX := None), gWidth, gHeight)
    ensures Configure(opts.(maxY := Some(0)), gWidth, gHeight) == Configure(opts.(maxY := None), gWidth, gHeight)
    ensures Configure(opts.(snap := Some(0)), gWidth, gHeight) == Configure(opts.(snap := None), gWidth, gHeight)
    ensures Configure(opts.(mode := Some(0)), gWidth, gHeight) == Configure(opts.(mode := None), gWidth, gHeight)
  {
  }

  /** A profile the move handler can use: `set` has run and the snap is not
      zero (so the remainder is defined). */
  predicate Registered(e: Element) {
    e.profile.Some? && e.profile.value.snap != 0
  }

  /** Every profile the controller deals with has a non-zero snap. */
  predicate ProfileOk(e: Element) {
    e.profile.None? || e.profile.value.snap != 0
  }

  /** The element as a pointer-down at (`clientX`, `clientY`) leaves it:
      the pointer offset is captured, and an element without a profile gets
      `fallback`. */
  function Grabbed(e: Element, clientX: int, clientY: int, fallback: Profile): (r: Element)
    ensures r.left == e.left && r.top == e.top && r.className == e.className
    ensures r.left + r.posX == clientX && r.top + r.posY == clientY
    ensures ProfileOk(e) && fallback.snap != 0 ==> Registered(r)
    ensures e.profile.Some? ==> r.profile == e.profile
    ensures e.profile.None? ==> r.profile == Some(fallback)
    ensures r == e.(posX := r.posX, posY := r.posY, profile := r.profile)
  {
    e.(posX := clientX - e.left, posY := clientY - e.top,
       profile := if e.profile.None? then Some(fallback) else e.profile)
  }

  predicate WritesX(mode: int) { mode == 0 || mode == 1 }
  predicate WritesY(mode: int) { mode == 0 || mode == 2 }

  /** The element after one pointer move to (`clientX`, `clientY`) as
      computed by the move handler while a drag is in progress. */
  function Moved(e: Element, clientX: int, clientY: int): (r: Element)
    requires Registered(e)
    ensures r == e.(left := r.left, top := r.top)
  {
    var p := e.profile.value;
    var rawX, rawY := clientX - e.posX, clientY - e.posY;
    var x := if WritesX(p.mode) then Snap(rawX, p.snap) else e.left;
    var y := if WritesY(p.mode) then Snap(rawY, p.snap) else e.top;
    e.(left := if p.mode != 2 then Clamp(x, rawX, p.minX, p.maxX, e.width) else x,
       top := if p.mode != 1 then Clamp(y, rawY, p.minY, p.maxY, e.height) else y)
  }

  /** What one pointer move does to the element. */
  lemma MovedSpec(e: Element, clientX: int, clientY: int)
    requires Registered(e)
    ensures var r := Moved(e, clientX, clientY); var p := e.profile.value;
      var rawX, rawY := clientX - e.posX, clientY - e.posY;
      // Only the position changes.
      && r == e.(left := r.left, top := r.top)
      // Axis lock.
      && (p.mode == 1 ==> r.top == e.top)
      && (p.mode == 2 ==> r.left == e.left)
      // The trailing edge never passes the upper bound on a clamped axis.
      && (p.mode != 2 ==> r.left + e.width <= p.maxX)
      && (p.mode != 1 ==> r.top + e.height <= p.maxY)
      // A pointer at or below the lower bound pins the element to it, room permitting.
      && (p.mode != 2 && rawX <= p.minX && p.minX + e.width < p.maxX ==> r.left == p.minX)
      && (p.mode != 1 && rawY <= p.minY && p.minY + e.height < p.maxY ==> r.top == p.minY)
      // When the floor does not leave room, the upper bound wins.
      && (p.mode != 2 && rawX <= p.minX && p.minX + e.width >= p.maxX ==> r.left == p.maxX - e.width)
      && (p.mode != 1 && rawY <= p.minY && p.minY + e.height >= p.maxY ==> r.top == p.maxY - e.height)
      // Inside the bounds the written coordinate is the snapped one.
      && (WritesX(p.mode) && p.minX < rawX && Snap(rawX, p.snap) + e.width < p.maxX ==>
            r.left == Snap(rawX, p.snap))
      && (WritesY(p.mode) && p.minY < rawY && Snap(rawY, p.snap) + e.height < p.maxY ==>
            r.top == Snap(rawY, p.snap))
      // A snapped coordinate whose trailing edge reaches the upper bound is pulled back.
      && (WritesX(p.mode) && p.minX < rawX && Snap(rawX, p.snap) + e.width >= p.maxX ==>
            r.left == p.maxX - e.width)
      && (WritesY(p.mode) && p.minY < rawY && Snap(rawY, p.snap) + e.height >= p.maxY ==>
            r.top == p.maxY - e.height)
      // A mode other than 0, 1 and 2 writes no coordinate but still checks both bounds.
      && (!WritesX(p.mode) && p.mode != 2 && p.minX < rawX ==>
            r.left == (if e.left + e.width < p.maxX then e.left else p.maxX - e.width))
      && (!WritesY(p.mode) && p.mode != 1 && p.minY < rawY ==>
            r.top == (if e.top + e.height < p.maxY then e.top else p.maxY - e.height))
  {
  }

  /** On a written axis the new coordinate is the snapped raw position, the
      floor or the upper bound minus the extent; so unless a bound was hit it
      is on the snap grid, no farther from 0 than the raw position and within
      one grid step of it. */
  lemma MovedOnGridOrBound(e: Element, clientX: int, clientY: int)
    requires Registered(e)
    ensures var r := Moved(e, clientX, clientY); var p := e.profile.value;
      var rawX := clientX - e.posX;
      WritesX(p.mode) ==>
        (r.left == Snap(rawX, p.snap) || r.left == p.minX || r.left == p.maxX - e.width) &&
        (r.left != p.minX && r.left != p.maxX - e.width ==>
           r.left % p.snap == 0 && Abs(r.left) <= Abs(rawX) && Abs(rawX - r.left) < Abs(p.snap))
    ensures var r := Moved(e, clientX, clientY); var p := e.profile.value;
      var rawY := clientY - e.posY;
      WritesY(p.mode) ==>
        (r.top == Snap(rawY, p.snap) || r.top == p.minY || r.top == p.maxY - e.height) &&
        (r.top != p.minY && r.top != p.maxY - e.height ==>
           r.top % p.snap == 0 && Abs(r.top) <= Abs(rawY) && Abs(rawY - r.top) < Abs(p.snap))
  {
  }

  /** The code does not keep the element at or right of `minX`: a raw
      position just above `minX` snaps toward zero to a grid point below it. */
  lemma SnapCanUndershootMinX()
    ensures var e := Element("draggable", 0, 0, 10, 10, 0, 0,
                             Some(Profile(1, 12, 200, 0, 200, 10, NoOp, NoOp, NoOp)));
      Moved(e, 15, 0).left == 10 && 10 < e.profile.value.minX
  {
    assert JsRem(15, 10) == 5;
  }

  /** A bounding box narrower than the element: the upper clamp overrides
      the lower one and leaves the element left of `minX`. */
  lemma NarrowBoxUndershootsMinX()
    ensures var e := Element("draggable", 0, 0, 50, 10, 0, 0,
                             Some(Profile(0, 10, 40, 0, 200, 1, NoOp, NoOp, NoOp)));
      Moved(e, 0, 0).left == -10
  {
    assert JsRem(0, 1) == 0;
  }

  /** `occurs at i` for the substring test of `indexOf`. */
  predicate OccursAt(s: string, t: string, i: int) {
    0 <= i && i + |t| <= |s| && s[i..i + |t|] == t
  }

  /** String.prototype.indexOf, searching from position `from`. */
  function IndexOfFrom(s: string, t: string, from: nat): (r: int)
    requires from <= |s|
    ensures r == -1 || (from <= r && r + |t| <= |s|)
    decreases |s| - from
  {
    if from + |t| > |s| then -1
    else if s[from..from + |t|] == t then from
    else IndexOfFrom(s, t, from + 1)
  }

  function IndexOf(s: string, t: string): (r: int)
    ensures r == -1 || (0 <= r && r + |t| <= |s|)
  {
    IndexOfFrom(s, t, 0)
  }

  lemma {:induction false} IndexOfFromCorrect(s: string, t: string, from: nat)
    requires from <= |s|
    ensures var r := IndexOfFrom(s, t, from);
      (r == -1 || from <= r) &&
      (r != -1 ==> OccursAt(s, t, r)) &&
      (forall j :: from <= j && (r == -1 || j < r) ==> !OccursAt(s, t, j))
    decreases |s| - from
  {
    if from + |t| > |s| {
    } else if s[from..from + |t|] == t {
    } else {
      IndexOfFromCorrect(s, t, from + 1);
    }
  }

  /** `indexOf(t) !== -1` holds exactly when `t` occurs in `s`, and a
      non-negative answer is the first occurrence. */
  lemma IndexOfCorrect(s: string, t: string)
    ensures IndexOf(s, t) != -1 <==> exists j :: OccursAt(s, t, j)
    ensures IndexOf(s, t) != -1 ==>
      OccursAt(s, t, IndexOf(s, t)) && forall j :: 0 <= j < IndexOf(s, t) ==> !OccursAt(s, t, j)
  {
    IndexOfFromCorrect(s, t, 0);
  }

  /** The draggable marker: the class name contains "draggable". */
  predicate IsDraggable(className: string)
    ensures IsDraggable(className) ==> |className| >= |"draggable"|
  {
    IndexOf(className, "draggable") != -1
  }

  /** Any class name that contains the marker, as in "ui-draggable-item",
      passes the test. */
  lemma DraggableBySubstring(pre: string, post: string)
    ensures IsDraggable(pre + "draggable" + post)
  {
    var s := pre + "draggable" + post;
    assert s[|pre|..|pre| + |"draggable"|] == "draggable";
    assert OccursAt(s, "draggable", |pre|);
    IndexOfCorrect(s, "draggable");
  }
}

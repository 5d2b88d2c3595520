/** The drag controller: the closure state of one `Dragdrop` instance and
    its pointer-down, pointer-move and pointer-up handlers and `set`. */
module Dragdrop {
  import opened Geometry
  import opened Profile
  import opened Trace

  /** The handle `attach` returns for an installed move listener. */
  type Handle = nat

  /** The controller invariant, over the values of its fields: `started` is
      0 or 1; a started drag has a target and an attached move listener; the
      target, whenever there is one, is configured; a listener is attached
      only once there is a target; no profile has a zero snap; handles are
      below the next fresh one; and the callback trace is well formed, with a
      drag open exactly when `started` is 1. */
  ghost predicate Inv(elem: Option<ElemId>, started: int, moveHandler: Option<Handle>,
                      elems: map<ElemId, Element>, handles: set<Handle>, nextHandle: Handle,
                      trace: seq<Call>)
  {
    (started == 0 || started == 1)
    && (started == 1 ==> elem.Some? && moveHandler.Some? && moveHandler.value in handles)
    && (elem.Some? ==> elem.value in elems && Registered(elems[elem.value]))
    && (handles != {} ==> elem.Some?)
    && (forall id | id in elems :: ProfileOk(elems[id]))
    && (forall h | h in handles :: h < nextHandle)
    && WellFormed(trace)
    && (started == 1 <==> InDrag(trace))
  }

  lemma InvAfterSet(elem: Option<ElemId>, started: int, moveHandler: Option<Handle>,
                    elems: map<ElemId, Element>, handles: set<Handle>, nextHandle: Handle,
                    trace: seq<Call>, id: ElemId, p: Profile)
    requires Inv(elem, started, moveHandler, elems, handles, nextHandle, trace)
    requires id in elems && p.snap != 0
    ensures Inv(Some(id), started, moveHandler, elems[id := elems[id].(profile := Some(p))],
                handles, nextHandle, trace)
  {
  }

  lemma InvAfterStart(elem: Option<ElemId>, started: int, moveHandler: Option<Handle>,
                      elems: map<ElemId, Element>, handles: set<Handle>, nextHandle: Handle,
                      trace: seq<Call>, src: ElemId, e: Element)
    requires Inv(elem, started, moveHandler, elems, handles, nextHandle, trace)
    requires Registered(e)
    ensures nextHandle !in handles
    ensures Inv(Some(src), 1, Some(nextHandle), elems[src := e], handles + {nextHandle},
                nextHandle + 1, trace + [Call(OnStart, e.profile.value.onStart, src)])
  {
    AppendFrontLast(trace, Call(OnStart, e.profile.value.onStart, src));
  }

  lemma InvAfterMove(id: ElemId, moveHandler: Option<Handle>,
                     elems: map<ElemId, Element>, handles: set<Handle>, nextHandle: Handle,
                     trace: seq<Call>, e: Element, h: Handler)
    requires Inv(Some(id), 1, moveHandler, elems, handles, nextHandle, trace)
    requires e.profile == elems[id].profile
    ensures Inv(Some(id), 1, moveHandler, elems[id := e], handles, nextHandle,
                trace + [Call(OnMove, h, id)])
  {
    AppendFrontLast(trace, Call(OnMove, h, id));
  }

  lemma InvAfterStop(elem: Option<ElemId>, moveHandler: Option<Handle>,
                     elems: map<ElemId, Element>, handles: set<Handle>, nextHandle: Handle,
                     trace: seq<Call>, h: Handler)
    requires Inv(elem, 1, moveHandler, elems, handles, nextHandle, trace)
    ensures Inv(elem, 0, moveHandler, elems, handles - {moveHandler.value}, nextHandle,
                trace + [Call(OnStop, h, elem.value)])
  {
    AppendFrontLast(trace, Call(OnStop, h, elem.value));
  }

  class Controller {
    /** The element moves apply to (`null` until the first start or `set`). */
    var elem: Option<ElemId>
    /** 1 while a drag is in progress, 0 otherwise. */
    var started: int
    /** The handle of the move listener attached last. */
    var moveHandler: Option<Handle>
    /** The surface size, fixed at construction. */
    const gWidth: int
    const gHeight: int
    /** The elements of the surface, with what has been attached to them. */
    var elems: map<ElemId, Element>
    /** The move listeners currently attached. */
    var handles: set<Handle>
    /** The next handle `attach` hands out; every handle so far is below it. */
    var nextHandle: Handle
    /** The user callbacks invoked so far, in order. */
    var trace: seq<Call>

    ghost predicate Valid()
      reads this
    {
      Inv(elem, started, moveHandler, elems, handles, nextHandle, trace)
    }

    /** A new controller over the given elements; none of them is being
        dragged and no move listener is attached. */
    constructor (scrollWidth: int, clientWidth: int, scrollHeight: int, clientHeight: int,
                 elements: map<ElemId, Element>)
      requires forall id | id in elements :: ProfileOk(elements[id])
      ensures Valid()
      ensures gWidth == SurfaceExtent(scrollWidth, clientWidth)
      ensures gHeight == SurfaceExtent(scrollHeight, clientHeight)
      ensures elem == None && started == 0 && moveHandler == None
      ensures elems == elements && handles == {} && nextHandle == 0 && trace == []
    {
      elem := None;
      started := 0;
      moveHandler := None;
      gWidth := SurfaceExtent(scrollWidth, clientWidth);
      gHeight := SurfaceExtent(scrollHeight, clientHeight);
      elems := elements;
      handles := {};
      nextHandle := 0;
      trace := [];
    }

    /** `set(element, options)`: attach a fresh profile built from the
        options, and make the element the one later moves apply to. */
    method Set(id: ElemId, opts: Options)
      requires id in elems
      modifies this
      ensures elem == Some(id)
      ensures elems == old(elems)[id := old(elems)[id].(profile := Some(Configure(opts, gWidth, gHeight)))]
      ensures started == old(started) && moveHandler == old(moveHandler)
      ensures handles == old(handles) && nextHandle == old(nextHandle) && trace == old(trace)
      ensures old(Valid()) ==> Valid()
    {
      var p := Configure(opts, gWidth, gHeight);
      if Valid() {
        InvAfterSet(elem, started, moveHandler, elems, handles, nextHandle, trace, id, p);
      }
      elem := Some(id);
      elems := elems[id := elems[id].(profile := Some(p))];
    }

    /** The pointer-down handler on element `src` at (`clientX`, `clientY`);
        `prevented` says whether the default action was suppressed. */
    method Start(clientX: int, clientY: int, src: ElemId) returns (prevented: bool)
      requires Valid() && src in elems
      modifies this
      ensures Valid()
      ensures prevented == IsDraggable(old(elems)[src].className)
      ensures !prevented ==>
        elem == old(elem) && started == old(started) && moveHandler == old(moveHandler)
        && elems == old(elems) && handles == old(handles) && nextHandle == old(nextHandle)
        && trace == old(trace)
      ensures prevented ==>
        var e' := Grabbed(old(elems)[src], clientX, clientY, Configure(NoOptions, gWidth, gHeight));
        started == 1 && elem == Some(src)
        && old(nextHandle) !in old(handles)
        && moveHandler == Some(old(nextHandle))
        && handles == old(handles) + {old(nextHandle)}
        && nextHandle == old(nextHandle) + 1
        && elems == old(elems)[src := e']
        && trace == old(trace) + [Call(OnStart, e'.profile.value.onStart, src)]
    {
      prevented := IsDraggable(elems[src].className);
      if prevented {
        var e := elems[src];
        ghost var e' := Grabbed(e, clientX, clientY, Configure(NoOptions, gWidth, gHeight));
        InvAfterStart(elem, started, moveHandler, elems, handles, nextHandle, trace, src, e');
        var h := nextHandle;
        nextHandle, handles, moveHandler := nextHandle + 1, handles + {h}, Some(h);
        started, elem := 1, Some(src);
        elems := elems[src := e.(posX := clientX - e.left, posY := clientY - e.top)];
        if elems[src].profile.None? {
          Set(src, NoOptions);
        }
        assert elems == old(elems)[src := e'];
        trace := trace + [Call(OnStart, elems[src].profile.value.onStart, src)];
      }
    }

    /** The pointer-move handler at (`clientX`, `clientY`). It applies to the
        current element, which is set whenever a move listener is attached. */
    method Move(clientX: int, clientY: int)
      requires Valid() && elem.Some?
      modifies this
      ensures Valid()
      ensures elem == old(elem) && started == old(started) && moveHandler == old(moveHandler)
      ensures handles == old(handles) && nextHandle == old(nextHandle)
      ensures old(started) != 1 ==> elems == old(elems) && trace == old(trace)
      ensures old(started) == 1 ==>
        var id := old(elem).value;
        elems == old(elems)[id := Moved(old(elems)[id], clientX, clientY)]
        && trace == old(trace) + [Call(OnMove, old(elems)[id].profile.value.onMove, id)]
    {
      var id := elem.value;
      var e := elems[id];
      var p := e.profile.value;
      var xRemainder := JsRem(clientX - e.posX, p.snap);
      var yRemainder := JsRem(clientY - e.posY, p.snap);
      if started == 1 {
        var left, top := e.left, e.top;
        if p.mode == 0 {
          top := clientY - e.posY - yRemainder;
          left := clientX - e.posX - xRemainder;
        } else if p.mode == 1 {
          left := clientX - e.posX - xRemainder;
        } else if p.mode == 2 {
          top := clientY - e.posY - yRemainder;
        }
        assert left == (if WritesX(p.mode) then Snap(clientX - e.posX, p.snap) else e.left);
        assert top == (if WritesY(p.mode) then Snap(clientY - e.posY, p.snap) else e.top);
        if p.mode != 2 {
          if clientX - e.posX <= p.minX {
            left := p.minX;
          }
          if left + e.width >= p.maxX {
            left := p.maxX - e.width;
          }
        }
        if p.mode != 1 {
          if clientY - e.posY <= p.minY {
            top := p.minY;
          }
          if top + e.height >= p.maxY {
            top := p.maxY - e.height;
          }
        }
        ghost var m := Moved(e, clientX, clientY);
        assert left == m.left && top == m.top;
        InvAfterMove(id, moveHandler, elems, handles, nextHandle, trace, m, p.onMove);
        elems := elems[id := e.(left := left, top := top)];
        trace := trace + [Call(OnMove, p.onMove, id)];
      }
    }

    /** The pointer-up handler. */
    method Stop()
      requires Valid()
      modifies this
      ensures Valid()
      ensures elem == old(elem) && moveHandler == old(moveHandler)
      ensures elems == old(elems) && nextHandle == old(nextHandle)
      ensures old(started) != 1 ==>
        started == old(started) && handles == old(handles) && trace == old(trace)
      ensures old(started) == 1 ==>
        var id := old(elem).value;
        started == 0
        && handles == old(handles) - {old(moveHandler).value}
        && trace == old(trace) + [Call(OnStop, old(elems)[id].profile.value.onStop, id)]
    {
      if started == 1 {
        var id := elem.value;
        InvAfterStop(elem, moveHandler, elems, handles, nextHandle, trace, elems[id].profile.value.onStop);
        started := 0;
        trace := trace + [Call(OnStop, elems[id].profile.value.onStop, id)];
        handles := handles - {moveHandler.value};
      }
    }
  }

  /** One drag from idle: press, move, release, then a stray move. The
      callbacks arrive as start, move, stop; no move listener is left
      attached; and the stray move changes nothing. */
  method DragOnce(el: Element, x0: int, y0: int, x1: int, y1: int, x2: int, y2: int)
    returns (hooks: seq<Hook>, installed: set<Handle>, afterDrag: Element, afterStray: Element)
    requires IsDraggable(el.className) && ProfileOk(el)
    ensures hooks == [OnStart, OnMove, OnStop]
    ensures installed == {}
    ensures afterStray == afterDrag
    ensures afterDrag.posX == x0 - el.left && afterDrag.posY == y0 - el.top
  {
    var c := new Controller(0, 0, 0, 0, map[0 := el]);
    var pressed := c.Start(x0, y0, 0);
    c.Move(x1, y1);
    c.Stop();
    afterDrag := c.elems[0];
    c.Move(x2, y2);
    afterStray := c.elems[0];
    hooks := Hooks(c.trace);
    installed := c.handles;
  }

  /** A second press during a drag is not ignored: it attaches another move
      listener and replaces `moveHandler`, so the release detaches only the
      second one and the first stays attached. */
  method DoublePress(el: Element, x: int, y: int)
    returns (hooks: seq<Hook>, installed: set<Handle>)
    requires IsDraggable(el.className) && ProfileOk(el)
    ensures hooks == [OnStart, OnStart, OnStop]
    ensures installed == {0}
  {
    var c := new Controller(0, 0, 0, 0, map[0 := el]);
    var p1 := c.Start(x, y, 0);
    var p2 := c.Start(x, y, 0);
    c.Stop();
    hooks := Hooks(c.trace);
    installed := c.handles;
  }

  /** A press on an element without the marker neither starts a drag nor
      attaches a listener nor calls back. */
  method PressElsewhere(el: Element, x: int, y: int)
    returns (hooks: seq<Hook>, installed: set<Handle>, dragging: bool)
    requires !IsDraggable(el.className) && ProfileOk(el)
    ensures hooks == [] && installed == {} && !dragging
  {
    var c := new Controller(0, 0, 0, 0, map[0 := el]);
    var p := c.Start(x, y, 0);
    hooks := Hooks(c.trace);
    installed := c.handles;
    dragging := c.started == 1;
  }

  /** A 50 by 50 element at (20, 20) with snap 10 in a 200 by 200 box,
      grabbed at (30, 30) and moved to (235, 50): the horizontal position
      is clamped to 200 - 50 and the vertical one lands on the grid. */
  method ClampToRightEdge() returns (left: int, top: int)
    ensures left == 150 && top == 40
  {
    var el := Element("box draggable", 20, 20, 50, 50, 0, 0, None);
    var c := new Controller(0, 0, 0, 0, map[0 := el]);
    c.Set(0, NoOptions.(mode := Some(0), snap := Some(10), minX := Some(0), maxX := Some(200),
                        minY := Some(0), maxY := Some(200)));
    var prof := Profile(0, 0, 200, 0, 200, 10, NoOp, NoOp, NoOp);
    assert c.elems[0] == el.(profile := Some(prof));
    DraggableBySubstring("box ", "");
    assert "box " + "draggable" + "" == el.className;
    var p := c.Start(30, 30, 0);
    var grabbed := Element("box draggable", 20, 20, 50, 50, 10, 10, Some(prof));
    assert c.elems[0] == grabbed;
    c.Move(235, 50);
    GrabbedBoxMove(grabbed);
    left, top := c.elems[0].left, c.elems[0].top;
  }

  lemma GrabbedBoxMove(e: Element)
    requires e == Element("box draggable", 20, 20, 50, 50, 10, 10,
                          Some(Profile(0, 0, 200, 0, 200, 10, NoOp, NoOp, NoOp)))
    ensures Moved(e, 235, 50).left == 150 && Moved(e, 235, 50).top == 40
  {
    assert JsRem(225, 10) == 5 && JsRem(40, 10) == 0;
    assert Snap(225, 10) == 220 && Snap(40, 10) == 40;
  }

  /** `set` during a drag retargets the controller: the next move moves
      the newly configured element and leaves the grabbed one where it was. */
  method SetRetargetsMoves(a: Element, b: Element, x: int, y: int)
    returns (movedA: Element, movedB: Element)
    requires IsDraggable(a.className) && ProfileOk(a) && ProfileOk(b)
    ensures movedA.left == a.left && movedA.top == a.top
    ensures movedB.profile.Some? && movedB.profile.value == Configure(NoOptions, 0, 0)
    ensures movedB == Moved(b.(profile := movedB.profile), x, y)
  {
    var c := new Controller(0, 0, 0, 0, map[0 := a, 1 := b]);
    var p := c.Start(0, 0, 0);
    c.Set(1, NoOptions);
    c.Move(x, y);
    movedA, movedB := c.elems[0], c.elems[1];
  }
}

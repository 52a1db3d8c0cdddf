/** `MImage`, the display controller: option defaulting
    (`prepareOptions`), the listener rule of `addEvent`, the event binding
    of `init`, the refresh `r`, and `init` itself. */
module Display {
  import opened Dom
  import opened Traversal
  import opened Matrix
  import opened Grid

  /** A plain JavaScript object whose properties are updated in place. */
  class JsObject {
    var props: map<string, Value>

    constructor (props: map<string, Value>)
      ensures this.props == props
    {
      this.props := props;
    }
  }

  /** The options object after defaulting: a default key whose user value
      is `undefined` (missing or explicitly so) takes the default; every
      other user value, `null` included, is kept as it is, so an object
      value such as `events` is taken whole and not merged key by key. */
  function WithDefaults(user: map<string, Value>, defaults: map<string, Value>): (r: map<string, Value>)
    ensures r.Keys == user.Keys + defaults.Keys
    ensures forall k | k in defaults && Get(user, k) == Undefined :: r[k] == defaults[k]
    ensures forall k | k in user && user[k] != Undefined :: r[k] == user[k]
    ensures forall k | k !in defaults :: Get(r, k) == Get(user, k)
  {
    map k | k in user.Keys + defaults.Keys ::
      if k in defaults && Get(user, k) == Undefined then defaults[k] else user[k]
  }

  /** Defaulting twice gives what defaulting once gives. */
  lemma WithDefaultsIdempotent(user: map<string, Value>, defaults: map<string, Value>)
    ensures WithDefaults(WithDefaults(user, defaults), defaults) == WithDefaults(user, defaults)
  {
  }

  /** `prepareOptions(options)`: fills in, on the caller's own object, every
      default key the caller left undefined, and returns that same object. */
  method PrepareOptions(options: JsObject, defaults: map<string, Value>) returns (r: JsObject)
    modifies options
    ensures r == options
    ensures options.props == WithDefaults(old(options.props), defaults)
  {
    var keys := defaults.Keys;
    while keys != {}
      invariant keys <= defaults.Keys
      invariant options.props.Keys == old(options.props).Keys + (defaults.Keys - keys)
      invariant forall k | k in options.props ::
        options.props[k] ==
          if k in defaults.Keys - keys && Get(old(options.props), k) == Undefined then defaults[k]
          else old(options.props)[k]
      decreases keys
    {
      var o :| o in keys;
      var option := defaults[o];
      if Get(options.props, o) == Undefined {
        options.props := options.props[o := option];
      }
      keys := keys - {o};
    }
    r := options;
  }

  /** `ret === false`: the only callback result that suppresses the event. */
  predicate Suppresses(ret: Value)
  {
    ret == Bool(false)
  }

  /** The comparison is strict: other falsy results (no return value,
      `null`, 0, the empty string) do not suppress the event. */
  lemma OnlyFalseSuppresses(ret: Value)
    ensures Suppresses(ret) ==> !Truthy(ret)
    ensures ret in {Undefined, Null, Num(0), Str(""), Bool(true)} ==> !Suppresses(ret)
  {
  }

  /** The listener `addEvent` installs, given the value `ret` the bound
      callback returned: when `ret` is exactly `false` it stops the
      event's propagation and prevents its default action; it hands `ret`
      back unchanged. */
  method ListenHandler(ret: Value, e: DomEvent) returns (r: Value)
    modifies e
    ensures r == ret
    ensures e.propagationStopped == (old(e.propagationStopped) || Suppresses(ret))
    ensures e.defaultPrevented == (old(e.defaultPrevented) || Suppresses(ret))
  {
    if Suppresses(ret) {
      e.StopPropagation();
      e.PreventDefault();
    }
    r := ret;
  }

  /** The listeners `init` attaches to one cell's element: a click
      listener when `events.onClick` is a function, then a mouseover
      listener when `events.onHover` is one; both pass the cell along. */
  function Bindings(events: Value, cell: Value): (ls: seq<Listener>)
    requires events != Undefined && events != Null
    ensures |ls| == (if Prop(events, "onClick").Func? then 1 else 0) + (if Prop(events, "onHover").Func? then 1 else 0)
    ensures Prop(events, "onClick").Func? ==> ls[0] == Listener("click", Prop(events, "onClick"), cell)
    ensures Prop(events, "onHover").Func? ==> ls[|ls| - 1] == Listener("mouseover", Prop(events, "onHover"), cell)
    ensures forall l | l in ls :: l.cell == cell && l.handler.Func?
    ensures (exists l | l in ls :: l.event == "click") <==> Prop(events, "onClick").Func?
    ensures (exists l | l in ls :: l.event == "mouseover") <==> Prop(events, "onHover").Func?
    ensures forall l | l in ls ::
      (l.event == "click" && l.handler == Prop(events, "onClick")) ||
      (l.event == "mouseover" && l.handler == Prop(events, "onHover"))
  {
    var click := Prop(events, "onClick");
    var hover := Prop(events, "onHover");
    (if click.Func? then [Listener("click", click, cell)] else []) +
    (if hover.Func? then [Listener("mouseover", hover, cell)] else [])
  }

  /** Some callback will be bound. */
  predicate BindsAny(events: Value)
    requires events != Undefined && events != Null
  {
    Prop(events, "onClick").Func? || Prop(events, "onHover").Func?
  }

  /** Options given with an `events` object keep it whole: a handler the
      caller left out is not taken from the defaults, and is not bound. */
  lemma EventsNotMerged(user: map<string, Value>, defaults: map<string, Value>, m: map<string, Value>)
    requires Get(user, "events") == Obj(m) && "onClick" !in m
    ensures var events := Get(WithDefaults(user, defaults), "events");
      events == Obj(m) && Bindings(events, Null) == (if Get(m, "onHover").Func? then [Listener("mouseover", Get(m, "onHover"), Null)] else [])
  {
  }

  /** The visits `each` makes to frame 0 (none when there is no frame). */
  ghost function Frame0(m: MMatrix): seq<Visit>
    reads m
  {
    if |m.frames| > 0 then Visits(m.frames[0]) else []
  }

  /** The entries `each` visits are allocated, as the frames holding them are. */
  lemma FramesAllocated(m: MMatrix)
    ensures forall i | 0 <= i < |Frame0(m)| :: allocated(Frame0(m)[i].value)
  {
    if |m.frames| > 0 {
      forall i | 0 <= i < |Frame0(m)|
        ensures allocated(Frame0(m)[i].value)
      {
        VisitsSound(m.frames[0], i);
      }
    }
  }

  /** Every visited entry is a cell record with an element of its own. */
  ghost predicate Owned(vs: seq<Visit>)
  {
    (forall i | 0 <= i < |vs| :: vs[i].value.Cell? && vs[i].value.el.Some?) &&
    (forall i, j | 0 <= i < j < |vs| :: vs[i].value.el != vs[j].value.el)
  }

  /** The elements of the visited cell records. */
  ghost function ElementsOf(vs: seq<Visit>): set<Element>
  {
    set i | 0 <= i < |vs| && vs[i].value.Cell? && vs[i].value.el.Some? :: vs[i].value.el.value
  }

  /** The style `r` gives a cell's element: opaque when the cell is
      printed and transparent otherwise, the cell's colour as background
      when it has one, and everything else as it was. */
  function Restyle(st: Style, cell: Value): (r: Style)
    requires cell.Cell?
    ensures r.opacity == (if cell.printed then 1 else 0)
    ensures cell.color != Null ==> r.background == cell.color
    ensures cell.color == Null ==> r.background == st.background
    ensures r.(opacity := st.opacity, background := st.background) == st
  {
    var st' := if cell.color != Null then st.(background := cell.color) else st;
    st'.(opacity := if cell.printed then 1 else 0)
  }

  /** Refreshing again changes nothing. */
  lemma RestyleIdempotent(st: Style, cell: Value)
    requires cell.Cell?
    ensures Restyle(Restyle(st, cell), cell) == Restyle(st, cell)
  {
  }

  /** `r()`: restyles the element of every frame-0 cell from the cell's
      `print` and `color`; the cells, the elements' geometry and their
      listeners are left alone. */
  method Refresh(grid: MGrid)
    requires Owned(Frame0(grid.matrix))
    modifies ElementsOf(Frame0(grid.matrix))
    ensures forall i | 0 <= i < |Frame0(grid.matrix)| ::
      var c := Frame0(grid.matrix)[i].value;
      c.el.value.style == Restyle(old(c.el.value.style), c) &&
      c.el.value.listeners == old(c.el.value.listeners)
  {
    ghost var vs := Frame0(grid.matrix);
    FramesAllocated(grid.matrix);
    var visits := grid.matrix.Each(None);
    for i := 0 to |visits|
      invariant forall j | 0 <= j < i ::
        vs[j].value.el.value.style == Restyle(old(vs[j].value.el.value.style), vs[j].value)
      invariant forall j | i <= j < |vs| :: vs[j].value.el.value.style == old(vs[j].value.el.value.style)
      invariant forall j | 0 <= j < |vs| ::
        vs[j].value.el.value.listeners == old(vs[j].value.el.value.listeners)
    {
      var index := visits[i].value;
      var e := index.el.value;
      if index.color != Null {
        e.style := e.style.(background := index.color);
      }
      if index.printed {
        e.style := e.style.(opacity := 1);
      } else {
        e.style := e.style.(opacity := 0);
      }
    }
  }

  /** The event-binding traversal of `init`: every frame-0 cell's element
      gains the cell's `Bindings`; styles are left alone. Nothing is read
      from the cells when no callback is a function. */
  method BindEvents(grid: MGrid, events: Value)
    requires events != Undefined && events != Null
    requires BindsAny(events) ==> Owned(Frame0(grid.matrix))
    modifies ElementsOf(Frame0(grid.matrix))
    ensures !BindsAny(events) ==> unchanged(ElementsOf(Frame0(grid.matrix)))
    ensures BindsAny(events) ==> forall i | 0 <= i < |Frame0(grid.matrix)| ::
      var c := Frame0(grid.matrix)[i].value;
      c.el.value.listeners == old(c.el.value.listeners) + Bindings(events, c) &&
      c.el.value.style == old(c.el.value.style)
  {
    ghost var vs := Frame0(grid.matrix);
    FramesAllocated(grid.matrix);
    var visits := grid.matrix.Each(None);
    for i := 0 to |visits|
      invariant !BindsAny(events) ==> unchanged(ElementsOf(vs))
      invariant BindsAny(events) ==> forall j | 0 <= j < i ::
        vs[j].value.el.value.listeners == old(vs[j].value.el.value.listeners) + Bindings(events, vs[j].value)
      invariant BindsAny(events) ==> forall j | i <= j < |vs| ::
        vs[j].value.el.value.listeners == old(vs[j].value.el.value.listeners)
      invariant BindsAny(events) ==> forall j | 0 <= j < |vs| ::
        vs[j].value.el.value.style == old(vs[j].value.el.value.style)
    {
      BindCell(visits[i].value, events);
    }
  }

  /** The callback `init` hands to `each`, for one cell: `addEvent` on the
      cell's element for each configured callback that is a function. */
  method BindCell(index: Value, events: Value)
    requires events != Undefined && events != Null
    requires BindsAny(events) ==> index.Cell? && index.el.Some?
    modifies if BindsAny(events) then {index.el.value} else {}
    ensures BindsAny(events) ==>
      index.el.value.listeners == old(index.el.value.listeners) + Bindings(events, index) &&
      index.el.value.style == old(index.el.value.style)
  {
    var click := Prop(events, "onClick");
    var hover := Prop(events, "onHover");
    if click.Func? {
      var e := index.el.value;
      e.listeners := e.listeners + [Listener("click", click, index)];
    }
    if hover.Func? {
      var e := index.el.value;
      e.listeners := e.listeners + [Listener("mouseover", hover, index)];
    }
  }

  /** After `render`, each frame-0 cell carries the clone appended for it,
      so the cells own distinct elements. */
  lemma RenderedOwned(f: Frame, clones: seq<Element>)
    requires Normalizable(f) && |clones| == |Visits(f)|
    requires forall i, j | 0 <= i < j < |clones| :: clones[i] != clones[j]
    ensures var vs := Visits(Attach(NormalizeFrame(f), clones));
      |vs| == |clones| && Owned(vs) &&
      (forall i | 0 <= i < |vs| :: vs[i].value.el == Some(clones[i]) &&
        vs[i].x == Visits(f)[i].x && vs[i].y == Visits(f)[i].y)
  {
    var g := NormalizeFrame(f);
    SameShapeVisits(f, g);
    SameShapeVisits(Attach(g, clones), g);
    var vs := Visits(Attach(g, clones));
    forall i | 0 <= i < |clones|
      ensures vs[i].value.Cell? && vs[i].value.el == Some(clones[i])
      ensures vs[i].x == Visits(f)[i].x && vs[i].y == Visits(f)[i].y
    {
      VisitsSound(g, i);
      AttachedVisits(g, clones, i);
    }
  }

  /** `init()`: builds the matrix and the grid over the canvas, renders the
      template (see `MGrid.Render`), binds the callbacks to every cell's
      element and refreshes. Each frame-0 cell then owns the clone appended
      for it, placed at its row and column, styled from its `print` and
      `color`, and listening for the configured callbacks. */
  method Init(canvas: Canvas, frames: seq<Frame>, template: Element, events: Value) returns (grid: MGrid)
    requires |frames| > 0 && |frames[0]| > 0 && Normalizable(frames[0])
    requires events != Undefined && events != Null
    modifies canvas, template
    ensures fresh(grid) && fresh(grid.matrix) && grid.canvas == canvas
    ensures var st := old(template.style);
      if st.margin.Some? then
        var pitch := Pitch(st, st.margin.value);
        canvas.height == Some(pitch * |frames[0]| - st.margin.value) &&
        canvas.width == Some(pitch * |frames[0][0]| - st.margin.value)
      else
        canvas.height == old(canvas.height) && canvas.width == old(canvas.width)
    ensures |canvas.children| == old(|canvas.children|) + |Visits(frames[0])|
    ensures canvas.children[..old(|canvas.children|)] == old(canvas.children)
    ensures forall i | old(|canvas.children|) <= i < |canvas.children| :: fresh(canvas.children[i])
    ensures forall i, j | old(|canvas.children|) <= i < j < |canvas.children| ::
      canvas.children[i] != canvas.children[j]
    ensures grid.matrix.frames ==
      frames[0 := Attach(NormalizeFrame(frames[0]), canvas.children[old(|canvas.children|)..])]
    ensures template.style == old(template.style).(margin := ZeroedMargin(old(template.style.margin)))
    ensures template.listeners == old(template.listeners)
    ensures |Frame0(grid.matrix)| == |Visits(frames[0])|
    ensures forall i | 0 <= i < |Frame0(grid.matrix)| ::
      var v := Frame0(grid.matrix)[i];
      v.value.Cell? && v.value.el == Some(canvas.children[old(|canvas.children|) + i]) &&
      v.value.el.value.style ==
        Restyle(Placed(template.style, Pitch(template.style, Spacing(old(template.style.margin))), v.x, v.y), v.value) &&
      v.value.el.value.listeners == Bindings(events, v.value)
  {
    ghost var c0 := |canvas.children|;
    grid := Build(canvas, frames, template);
    ghost var clones := canvas.children[c0..];
    ghost var height, width := canvas.height, canvas.width;
    ghost var pitch := Pitch(template.style, Spacing(old(template.style.margin)));
    RenderedOwned(frames[0], clones);
    ghost var vs := Frame0(grid.matrix);
    assert forall i | 0 <= i < |vs| :: vs[i].value.el == Some(clones[i]);
    assert forall e | e in ElementsOf(vs) :: fresh(e);
    Wire(grid, events, template.style, pitch);
    assert canvas.height == height && canvas.width == width && canvas.children[c0..] == clones;
  }

  /** The start of `init`: a grid over the canvas and a new matrix of the
      frames, rendered with the template (see `MGrid.Render`). */
  method Build(canvas: Canvas, frames: seq<Frame>, template: Element) returns (grid: MGrid)
    requires |frames| > 0 && |frames[0]| > 0 && Normalizable(frames[0])
    modifies canvas, template
    ensures fresh(grid) && fresh(grid.matrix) && grid.canvas == canvas
    ensures var st := old(template.style);
      if st.margin.Some? then
        var pitch := Pitch(st, st.margin.value);
        canvas.height == Some(pitch * |frames[0]| - st.margin.value) &&
        canvas.width == Some(pitch * |frames[0][0]| - st.margin.value)
      else
        canvas.height == old(canvas.height) && canvas.width == old(canvas.width)
    ensures |canvas.children| == old(|canvas.children|) + |Visits(frames[0])|
    ensures canvas.children[..old(|canvas.children|)] == old(canvas.children)
    ensures forall i | old(|canvas.children|) <= i < |canvas.children| ::
      fresh(canvas.children[i]) && canvas.children[i].listeners == []
    ensures forall i, j | old(|canvas.children|) <= i < j < |canvas.children| ::
      canvas.children[i] != canvas.children[j]
    ensures grid.matrix.frames ==
      frames[0 := Attach(NormalizeFrame(frames[0]), canvas.children[old(|canvas.children|)..])]
    ensures template.style == old(template.style).(margin := ZeroedMargin(old(template.style.margin)))
    ensures template.listeners == old(template.listeners)
    ensures forall i | 0 <= i < |Visits(frames[0])| ::
      var v := Visits(frames[0])[i];
      canvas.children[old(|canvas.children|) + i].style ==
        Placed(template.style, Pitch(template.style, Spacing(old(template.style.margin))), v.x, v.y)
  {
    var matrix := new MMatrix(frames);
    grid := new MGrid(canvas, matrix);
    var el := template;
    grid.Render(el);
  }

  /** The end of `init`: bind the callbacks to every cell's element, then
      refresh. Applied to freshly placed clones without listeners, it
      leaves each one restyled from its cell and listening for the
      configured callbacks. */
  method Wire(grid: MGrid, events: Value, ghost template: Style, ghost pitch: nat)
    requires events != Undefined && events != Null
    requires Owned(Frame0(grid.matrix))
    requires forall i | 0 <= i < |Frame0(grid.matrix)| ::
      var v := Frame0(grid.matrix)[i];
      v.value.el.value.style == Placed(template, pitch, v.x, v.y) && v.value.el.value.listeners == []
    modifies ElementsOf(Frame0(grid.matrix))
    ensures forall i | 0 <= i < |Frame0(grid.matrix)| ::
      var v := Frame0(grid.matrix)[i];
      v.value.el.value.style == Restyle(Placed(template, pitch, v.x, v.y), v.value) &&
      v.value.el.value.listeners == Bindings(events, v.value)
  {
    ghost var vs := Frame0(grid.matrix);
    BindEvents(grid, events);
    forall i | 0 <= i < |vs|
      ensures vs[i].value.el.value.listeners == Bindings(events, vs[i].value)
      ensures vs[i].value.el.value.style == Placed(template, pitch, vs[i].x, vs[i].y)
    {
      if !BindsAny(events) {
        assert Bindings(events, vs[i].value) == [];
      }
    }
    Refresh(grid);
  }
}

/** JavaScript values and the few DOM objects the renderer touches.
    Style properties are held already parsed (the renderer reads them with
    parseInt); an unset margin is `None`. */
module Dom {

  datatype Option<+T> = None | Some(value: T)

  /** A JavaScript value, as far as the renderer distinguishes values.
      `Cell` is the record `{el, color, print, y, x}` that matrix
      normalisation builds; `color` is `Null` or a truthy value; `printed` is the
      record's `print` field (`print` is a Dafny keyword). */
  datatype Value =
    | Undefined
    | Null
    | Bool(b: bool)
    | Num(n: int)
    | Str(s: string)
    | Func(id: nat)
    | Obj(props: map<string, Value>)
    | Cell(el: Option<Element>, color: Value, printed: bool, y: nat, x: nat)

  /** JavaScript's ToBoolean (`Boolean(v)`, `if (v)`, `v || w`). */
  predicate Truthy(v: Value)
  {
    match v
    case Undefined => false
    case Null => false
    case Bool(b) => b
    case Num(n) => n != 0
    case Str(s) => s != ""
    case Func(_) => true
    case Obj(_) => true
    case Cell(_, _, _, _, _) => true
  }

  /** Reading a property that may be missing: a missing key reads `undefined`. */
  function Get(props: map<string, Value>, key: string): Value
  {
    if key in props then props[key] else Undefined
  }

  /** `v.name` on a value that is not `undefined` or `null` (those throw).
      Only plain objects and cell records carry the properties the
      renderer asks for; of a cell record's fields only `color` is ever
      read this way, so the others read `undefined` here. */
  function Prop(v: Value, name: string): (r: Value)
    requires v != Undefined && v != Null
    ensures v.Obj? ==> r == Get(v.props, name)
    ensures !v.Obj? && !v.Cell? ==> r == Undefined
  {
    match v
    case Obj(p) => Get(p, name)
    case Cell(_, c, _, _, _) => if name == "color" then c else Undefined
    case _ => Undefined
  }

  /** The inline style of an element, with lengths in pixels. */
  datatype Style = Style(
    height: nat,
    borderWidth: nat,
    margin: Option<nat>,
    top: int,
    left: int,
    opacity: int,
    background: Value)

  /** An event listener attached by the renderer: the DOM event name, the
      user callback it forwards to and the cell record it passes along. */
  datatype Listener = Listener(event: string, handler: Value, cell: Value)

  class Element {
    var style: Style
    var listeners: seq<Listener>

    constructor (style: Style)
      ensures this.style == style && listeners == []
    {
      this.style := style;
      listeners := [];
    }

    /** `cloneNode()`: a new element with the same inline style and no
        listeners (listeners are not copied by a shallow clone). */
    method CloneNode() returns (c: Element)
      ensures fresh(c)
      ensures c.style == style && c.listeners == []
    {
      c := new Element(style);
    }
  }

  /** The container the grid is drawn into. A width or height that was
      never set is `None`. */
  class Canvas {
    var width: Option<int>
    var height: Option<int>
    var children: seq<Element>

    constructor ()
      ensures width == None && height == None && children == []
    {
      width, height, children := None, None, [];
    }

    method AppendChild(e: Element)
      modifies this
      ensures children == old(children) + [e]
      ensures width == old(width) && height == old(height)
    {
      children := children + [e];
    }
  }

  /** A dispatched DOM event, reduced to the two flags a listener can set. */
  class DomEvent {
    var propagationStopped: bool
    var defaultPrevented: bool

    constructor ()
      ensures !propagationStopped && !defaultPrevented
    {
      propagationStopped, defaultPrevented := false, false;
    }

    method StopPropagation()
      modifies this
      ensures propagationStopped && defaultPrevented == old(defaultPrevented)
    {
      propagationStopped := true;
    }

    method PreventDefault()
      modifies this
      ensures defaultPrevented && propagationStopped == old(propagationStopped)
    {
      defaultPrevented := true;
    }
  }
}

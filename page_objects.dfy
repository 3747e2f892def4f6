/** The appender's error cases and its pure helpers: traceObject, getDict,
    page rectangles and the outward union of media boxes. */
module PageObjects {
  import opened PdfCore

  /** One case per error the appender returns. Where the source panics
      (a type assertion without a check, a method called on nil), the model
      returns the case named after the failing step instead. */
  datatype Error =
    | MissingTrailer
    | InvalidRoot
    | RootNotIndirect
    | MissingCatalog
    | PagesNotReference
    | PagesObjectInvalid
    | PagesNotADictionary
    | KidsNotFound
    | PageDictNotFound(index: int)
    | LookupFailed(num: nat)
    | NotADictionary
    | PageContentsNotFound
    | SourceContentsNotFound(index: int)
    | ResourcesNotADictionary
    | FontResourceNotADictionary
    | PageFontNotADictionary
    | PageExtGStateNotADictionary
    | XObjectResourceNotADictionary
    | PageXObjectNotADictionary
    | InvalidRectangle
    | RemovePageUnimplemented

  datatype Result<T> = Ok(value: T) | Err(error: Error)

  /** The parser's object table, LookupByNumber: object number to object. */
  type ParserTable = map<nat, Obj>

  /** A dictionary lookup in the Go style: a missing key yields nil, here Null. */
  function GetOrNull(d: Dict, k: string): (r: Obj)
    ensures d.HasKey(k) ==> Some(r) == d.Get(k)
    ensures !d.HasKey(k) ==> r == Null
  {
    match d.Get(k)
    case Some(v) => v
    case None => Null
  }

  /** traceObject: a reference is looked up by number when there is a
      parser; anything else, or any value without a parser, is returned as it is. */
  function TraceObject(parser: Option<ParserTable>, o: Obj): (r: Result<Obj>)
    ensures !(o.Ref? && parser.Some?) ==> r == Ok(o)
    ensures o.Ref? && parser.Some? && o.num in parser.value ==> r == Ok(parser.value[o.num])
    ensures o.Ref? && parser.Some? && o.num !in parser.value ==> r == Err(LookupFailed(o.num))
  {
    if o.Ref? && parser.Some? then
      if o.num in parser.value then Ok(parser.value[o.num]) else Err(LookupFailed(o.num))
    else Ok(o)
  }

  /** getDict: passes an earlier error on, and otherwise demands a dictionary. */
  function GetDictOf(arena: Arena, r: Result<Obj>): (d: Result<Dict>)
    ensures r.Err? ==> d == Err(r.error)
    ensures r.Ok? && GetDict(arena, r.value).Some? ==> d == Ok(GetDict(arena, r.value).value)
    ensures r.Ok? && GetDict(arena, r.value).None? ==> d == Err(NotADictionary)
  {
    match r
    case Err(e) => Err(e)
    case Ok(o) =>
      match GetDict(arena, o)
      case Some(dict) => Ok(dict)
      case None => Err(NotADictionary)
  }

  /** A page rectangle. Its edges are float64 numbers in the source, which
      only compares them, so they are reals here. */
  datatype Rect = Rect(llx: real, lly: real, urx: real, ury: real)

  /** The origin box a merge starts from when the document has no default media box. */
  const ZeroRect := Rect(0.0, 0.0, 0.0, 0.0)

  /** A number as a float, whether stored as an integer or a real. */
  function NumberOf(o: Obj): (r: Option<real>)
    ensures r.Some? <==> o.Int? || o.Float?
  {
    match o
    case Int(i) => Some(i as real)
    case Float(f) => Some(f)
    case _ => None
  }

  /** NewPdfRectangle: an array of exactly four numbers, in the order llx lly urx ury. */
  function RectFromArray(elems: seq<Obj>): (r: Result<Rect>)
    ensures r.Ok? <==> |elems| == 4 && forall i :: 0 <= i < 4 ==> NumberOf(elems[i]).Some?
    ensures r.Ok? ==> r.value == Rect(NumberOf(elems[0]).value, NumberOf(elems[1]).value,
                                      NumberOf(elems[2]).value, NumberOf(elems[3]).value)
    ensures r.Err? ==> r.error == InvalidRectangle
  {
    if |elems| == 4 && NumberOf(elems[0]).Some? && NumberOf(elems[1]).Some?
       && NumberOf(elems[2]).Some? && NumberOf(elems[3]).Some? then
      Ok(Rect(NumberOf(elems[0]).value, NumberOf(elems[1]).value,
              NumberOf(elems[2]).value, NumberOf(elems[3]).value))
    else
      Err(InvalidRectangle)
  }

  /** PdfRectangle.ToPdfObject: the four edges as a number array. */
  function RectToObj(r: Rect): (o: Obj)
    ensures o.Array? && RectFromArray(o.elems) == Ok(r)
  {
    Array([Float(r.llx), Float(r.lly), Float(r.urx), Float(r.ury)])
  }

  /** `outer` contains `inner`. */
  predicate Contains(outer: Rect, inner: Rect) {
    outer.llx <= inner.llx && outer.lly <= inner.lly && inner.urx <= outer.urx && inner.ury <= outer.ury
  }

  function Min(a: real, b: real): real { if a <= b then a else b }
  function Max(a: real, b: real): real { if a >= b then a else b }

  /** The media-box update of MergePageWith: each edge of `box` that lies
      inside `incoming` is moved out to it, and `changed` records whether
      any edge moved. */
  function ExpandBox(box: Rect, incoming: Rect): (r: (Rect, bool))
    ensures r.0 == Rect(Min(box.llx, incoming.llx), Min(box.lly, incoming.lly),
                        Max(box.urx, incoming.urx), Max(box.ury, incoming.ury))
    ensures Contains(r.0, box) && Contains(r.0, incoming)
    ensures forall other :: Contains(other, box) && Contains(other, incoming) ==> Contains(other, r.0)
    ensures r.1 <==> r.0 != box
    ensures Contains(box, incoming) ==> r == (box, false)
  {
    var llx := if box.llx > incoming.llx then incoming.llx else box.llx;
    var lly := if box.lly > incoming.lly then incoming.lly else box.lly;
    var urx := if box.urx < incoming.urx then incoming.urx else box.urx;
    var ury := if box.ury < incoming.ury then incoming.ury else box.ury;
    var changed := box.llx > incoming.llx || box.lly > incoming.lly || box.urx < incoming.urx || box.ury < incoming.ury;
    (Rect(llx, lly, urx, ury), changed)
  }
}

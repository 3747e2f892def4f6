/** The page-merging steps of pdf/model/appender.go on the appender's
    state passed by value: how the object graph may evolve, the working
    page of a merge, appending contents, merging resource dictionaries and
    widening the media box. */
module PageMerge {
  import opened PdfCore
  import opened PageObjects
  import opened Walks
  import opened Resources
  import opened Renaming

  // --------------------------------------------------------------------
  // How the object graph evolves

  lemma EvolvesTrans(a0: Arena, a1: Arena, a2: Arena)
    requires Evolves(a0, a1) && Evolves(a1, a2)
    ensures Evolves(a0, a2)
  {
  }

  /** Array values, and indirect objects holding them, stay as they are. */
  lemma GetArrayEvolves(a0: Arena, a1: Arena, o: Obj)
    requires Evolves(a0, a1)
    requires GetArray(a0, o).Some?
    ensures GetArray(a1, o) == GetArray(a0, o)
  {
  }

  /** The dictionary payload of a dictionary node. */
  function NodeDict(arena: Arena, id: ObjId): Dict
    requires DictNode(arena, id)
  {
    arena[id].payload.d
  }

  /** The page-tree part of the appender's state: the Pages node is a
      dictionary, the source pages are numbered 0 .. |kids| - 1, and every
      source and working page is a dictionary node. */
  ghost predicate PagesValidIn(arena: Arena, ppages: ObjId, pagesDict: map<int, ObjId>,
                               newPagesDict: map<int, ObjId>, kids: seq<Obj>) {
    && DictNode(arena, ppages)
    && (forall i :: i in pagesDict <==> 0 <= i < |kids|)
    && (forall i :: i in pagesDict ==> DictNode(arena, pagesDict[i]))
    && (forall i :: i in newPagesDict ==> i in pagesDict && DictNode(arena, newPagesDict[i]))
  }

  /** Between `a0` and `a1` identities were only added and dictionary nodes stayed dictionary nodes. */
  ghost predicate Grows(a0: Arena, a1: Arena) {
    a0.Keys <= a1.Keys && forall id :: DictNode(a0, id) ==> DictNode(a1, id)
  }

  lemma EvolvesGrows(a0: Arena, a1: Arena)
    requires Evolves(a0, a1)
    ensures Grows(a0, a1)
  {
  }

  lemma PagesValidGrows(a0: Arena, a1: Arena, ppages: ObjId, pagesDict: map<int, ObjId>,
                        newPagesDict: map<int, ObjId>, kids: seq<Obj>)
    requires PagesValidIn(a0, ppages, pagesDict, newPagesDict, kids) && Grows(a0, a1)
    ensures PagesValidIn(a1, ppages, pagesDict, newPagesDict, kids)
  {
  }

  /** An identity above all of `s`. */
  method Above(s: set<nat>) returns (b: nat)
    ensures forall x :: x in s ==> x < b
  {
    b := 0;
    var todo := s;
    while todo != {}
      invariant todo <= s
      invariant forall x :: x in s && x !in todo ==> x < b
      decreases |todo|
    {
      var x :| x in todo;
      if x >= b {
        b := x + 1;
      }
      todo := todo - {x};
    }
  }

  /** A new identity: not in the graph, not queued and not pre-existing. */
  method NewId(arena: Arena, h: set<ObjId>, srcObjects: set<ObjId>) returns (id: ObjId)
    ensures id !in arena && id !in h && id !in srcObjects
  {
    id := Above(arena.Keys + h + srcObjects);
  }

  /** addNewObjects on each of `elems` in turn. */
  method AddAll(arena: Arena, q: seq<ObjId>, h: set<ObjId>, srcObjects: set<ObjId>, elems: seq<Obj>)
    returns (q': seq<ObjId>, h': set<ObjId>)
    requires Delta(q, h, srcObjects)
    ensures Delta(q', h', srcObjects) && q <= q' && h <= h'
    ensures forall i :: 0 <= i < |elems| ==> Occurs(elems[i]) <= h' + srcObjects
  {
    q', h' := q, h;
    for i := 0 to |elems|
      invariant Delta(q', h', srcObjects) && q <= q' && h <= h'
      invariant forall j :: 0 <= j < i ==> Occurs(elems[j]) <= h' + srcObjects
    {
      q', h' := AddWalk(arena, q', h', srcObjects, elems[i]);
    }
  }

  // --------------------------------------------------------------------
  // The working page of a merge

  /** The elements of a Contents value: an array's own, or the value alone. */
  function ContentElements(o: Obj): seq<Obj> {
    if o.Array? then o.elems else [o]
  }

  /** The first merge into a source page works on a copy of its dictionary:
      a Parent reference is replaced by the object it refers to, and
      Contents becomes an array of the page's content streams. A page
      without Contents, or a Parent reference the parser cannot resolve,
      is an error. */
  function WorkingPageOf(parser: ParserTable, src: Dict): (r: Result<Dict>)
    ensures GetOrNull(src, "Parent").Ref? && GetOrNull(src, "Parent").num !in parser ==>
              r == Err(LookupFailed(GetOrNull(src, "Parent").num))
    ensures !(GetOrNull(src, "Parent").Ref? && GetOrNull(src, "Parent").num !in parser) && !src.HasKey("Contents") ==>
              r == Err(PageContentsNotFound)
    ensures r.Ok? <==> src.HasKey("Contents") && !(GetOrNull(src, "Parent").Ref? && GetOrNull(src, "Parent").num !in parser)
    ensures r.Ok? ==> r.value.Get("Contents") == Some(Array(ContentElements(GetOrNull(src, "Contents"))))
    ensures r.Ok? && src.DistinctKeys() ==>
              && (forall k :: k != "Contents" && k != "Parent" ==> r.value.Get(k) == src.Get(k))
              && r.value.Get("Parent") == (if GetOrNull(src, "Parent").Ref? then Some(parser[GetOrNull(src, "Parent").num])
                                           else src.Get("Parent"))
  {
    var np := Merge(Dict([]), src);
    if GetOrNull(src, "Parent").Ref? && GetOrNull(src, "Parent").num !in parser then
      Err(LookupFailed(GetOrNull(src, "Parent").num))
    else if !src.HasKey("Contents") then Err(PageContentsNotFound)
    else
      var np2 := if GetOrNull(src, "Parent").Ref? then np.Set("Parent", parser[GetOrNull(src, "Parent").num]) else np;
      Ok(np2.Set("Contents", Array(ContentElements(GetOrNull(src, "Contents")))))
  }

  /** Appends `extra` to the page's Contents array, where it lives: inline
      in the page dictionary or as an indirect object. A Contents entry that
      is not an array, directly or through an indirect object, is an error. */
  function AppendContents(arena: Arena, page: Dict, extra: seq<Obj>): (r: Option<(Arena, Dict)>)
    ensures r.Some? <==> GetArray(arena, GetOrNull(page, "Contents")).Some?
    ensures r.Some? ==> GetArray(r.value.0, GetOrNull(r.value.1, "Contents")) ==
                          Some(GetArray(arena, GetOrNull(page, "Contents")).value + extra)
    ensures r.Some? ==> forall k :: k != "Contents" ==> r.value.1.Get(k) == page.Get(k)
    ensures r.Some? ==> Grows(arena, r.value.0)
    ensures r.Some? ==> forall id :: id in arena && !(arena[id].IndirectNode? && arena[id].payload.Array?) ==>
                          r.value.0[id] == arena[id]
  {
    var c := GetOrNull(page, "Contents");
    if c.Array? then Some((arena, page.Set("Contents", Array(c.elems + extra))))
    else if c.Ptr? && c.id in arena && arena[c.id].IndirectNode? && arena[c.id].payload.Array? then
      Some((arena[c.id := IndirectNode(Array(arena[c.id].payload.elems + extra))], page))
    else None
  }

  // --------------------------------------------------------------------
  // Merging resource dictionaries

  /** The incoming page's resources: its Resources dictionary, or none. */
  function IncomingResources(arena: Arena, page: Dict): Dict {
    match GetDict(arena, GetOrNull(page, "Resources"))
    case Some(d) => d
    case None => Dict([])
  }

  /** One resource kind of a merge: the dictionary `target` held under
      `key` is merged with `extra` and written back where it lives, and the
      Resources dictionary `resDict`, which `resObj` holds, refers to it
      under `key` and is written back where it lives. Unless the two are
      the same indirect object, the dictionary now under `key` is the merge. */
  function MergeEntry(arena: Arena, resObj: Obj, resDict: Dict, key: string, target: Obj, extra: Dict)
    : (r: (Arena, Dict, Obj))
    requires GetDict(arena, target).Some? && GetDict(arena, resObj) == Some(resDict)
    ensures Evolves(arena, r.0)
    ensures GetDict(r.0, r.2) == Some(r.1)
    ensures r.1.Get(key).Some? && forall k :: k != key ==> r.1.Get(k) == resDict.Get(k)
    ensures !(target.Ptr? && resObj.Ptr? && target.id == resObj.id) ==>
              GetDict(r.0, r.1.Get(key).value) == Some(Merge(GetDict(arena, target).value, extra))
    ensures r.0.Keys == arena.Keys
    ensures forall id :: id in arena && target != Ptr(id) && resObj != Ptr(id) ==> r.0[id] == arena[id]
  {
    var (a1, t1) := StoreDict(arena, target, Merge(GetDict(arena, target).value, extra));
    var rd := resDict.Set(key, t1);
    var (a2, r2) := StoreDict(a1, resObj, rd);
    (a2, rd, r2)
  }

  /** A dictionary value, or a reference to a dictionary node, stays one. */
  lemma GetDictEvolves(a0: Arena, a1: Arena, o: Obj)
    requires Evolves(a0, a1) && GetDict(a0, o).Some?
    ensures GetDict(a1, o).Some?
  {
  }

  /** The page's Resources entry is a dictionary holding a dictionary under `key`. */
  ghost predicate HoldsResource(arena: Arena, page: Dict, key: string) {
    && GetDict(arena, GetOrNull(page, "Resources")).Some?
    && GetDict(arena, GetOrNull(GetDict(arena, GetOrNull(page, "Resources")).value, key)).Some?
  }

  /** `resDict` holds a dictionary under `key`. */
  ghost predicate Holds(arena: Arena, resDict: Dict, key: string) {
    resDict.Get(key).Some? && GetDict(arena, resDict.Get(key).value).Some?
  }

  /** What the resource merge keeps from one kind to the next: the graph
      evolves, the working page changes only in Resources, and `resObj`
      holds the Resources dictionary `resDict`; once the working page refers
      to `resObj`, it goes on referring to the current one. */
  ghost predicate ResState(a0: Arena, p0: Dict, r0: Obj, a: Arena, p: Dict, resObj: Obj, resDict: Dict) {
    && Evolves(a0, a)
    && (forall key :: key != "Resources" ==> p.Get(key) == p0.Get(key))
    && GetDict(a, resObj) == Some(resDict)
    && (p0.Get("Resources") == Some(r0) ==> p.Get("Resources") == Some(resObj))
  }

  lemma HoldsKept(a1: Arena, d1: Dict, a2: Arena, d2: Dict, key: string)
    requires Holds(a1, d1, key) && Evolves(a1, a2) && d2.Get(key) == d1.Get(key)
    ensures Holds(a2, d2, key)
  {
    GetDictEvolves(a1, a2, d1.Get(key).value);
  }

  lemma HoldsResourceOf(arena: Arena, page: Dict, resObj: Obj, resDict: Dict, key: string)
    requires page.Get("Resources") == Some(resObj) && GetDict(arena, resObj) == Some(resDict) && Holds(arena, resDict, key)
    ensures HoldsResource(arena, page, key)
  {
  }

  /** Merges the incoming dictionary `extra` into the working dictionary
      `target` of kind `key`, or fails with `extraErr` when `extra` is not a
      dictionary. */
  function MergeKind(arena: Arena, resObj: Obj, resDict: Dict, newPage: Dict, key: string, target: Obj,
                     extra: Obj, extraErr: Error): (r: (Arena, Obj, Dict, Dict, Option<Error>))
    requires GetDict(arena, target).Some? && GetDict(arena, resObj) == Some(resDict)
    ensures ResState(arena, newPage, resObj, r.0, r.3, r.1, r.2)
    ensures r.4.Some? ==> r.4 == Some(extraErr) && r == (arena, resObj, resDict, newPage, r.4)
    ensures r.4.None? ==> GetDict(arena, extra).Some? && r.3.Get("Resources") == Some(r.1) && Holds(r.0, r.2, key) &&
                          forall k :: k != key ==> r.2.Get(k) == resDict.Get(k)
    ensures r.4.None? && !(target.Ptr? && resObj.Ptr? && target.id == resObj.id) ==>
              GetDict(r.0, r.2.Get(key).value) == Some(Merge(GetDict(arena, target).value, GetDict(arena, extra).value))
    ensures r.0.Keys == arena.Keys
    ensures forall id :: id in arena && target != Ptr(id) && resObj != Ptr(id) ==> r.0[id] == arena[id]
  {
    match GetDict(arena, extra)
    case None => (arena, resObj, resDict, newPage, Some(extraErr))
    case Some(d) =>
      var m := MergeEntry(arena, resObj, resDict, key, target, d);
      (m.0, m.2, m.1, newPage.Set("Resources", m.2), None)
  }

  /** The Font step: a working Font entry that is not a dictionary is an error. */
  function MergeFont(parser: ParserTable, arena: Arena, resObj: Obj, resDict: Dict, newPage: Dict, font: Option<Obj>)
    : (r: (Arena, Obj, Dict, Dict, Option<Error>))
    requires GetDict(arena, resObj) == Some(resDict)
    ensures ResState(arena, newPage, resObj, r.0, r.3, r.1, r.2)
    ensures font.None? ==> r == (arena, resObj, resDict, newPage, None)
    ensures TraceObject(Some(parser), GetOrNull(resDict, "Font")).Err? && font.Some? ==>
              r.4 == Some(TraceObject(Some(parser), GetOrNull(resDict, "Font")).error)
    ensures r.4.None? ==> forall k :: k != "Font" ==> r.2.Get(k) == resDict.Get(k)
    ensures r.4.None? && font.Some? ==> r.3.Get("Resources") == Some(r.1) && Holds(r.0, r.2, "Font")
    ensures r.0.Keys == arena.Keys
    ensures forall id :: id in arena && resObj != Ptr(id) && TraceObject(Some(parser), GetOrNull(resDict, "Font")) != Ok(Ptr(id)) ==>
              r.0[id] == arena[id]
  {
    if font.None? then (arena, resObj, resDict, newPage, None)
    else
      match TraceObject(Some(parser), GetOrNull(resDict, "Font"))
      case Err(e) => (arena, resObj, resDict, newPage, Some(e))
      case Ok(target) =>
        if GetDict(arena, target).None? then (arena, resObj, resDict, newPage, Some(FontResourceNotADictionary))
        else MergeKind(arena, resObj, resDict, newPage, "Font", target, font.value, PageFontNotADictionary)
  }

  /** The ExtGState step: a working ExtGState entry that is not a dictionary is skipped. */
  function MergeExtGState(parser: ParserTable, arena: Arena, resObj: Obj, resDict: Dict, newPage: Dict,
                          extGState: Option<Obj>): (r: (Arena, Obj, Dict, Dict, Option<Error>))
    requires GetDict(arena, resObj) == Some(resDict)
    ensures ResState(arena, newPage, resObj, r.0, r.3, r.1, r.2)
    ensures extGState.None? ==> r == (arena, resObj, resDict, newPage, None)
    ensures r.4.None? ==> forall k :: k != "ExtGState" ==> r.2.Get(k) == resDict.Get(k)
    ensures r.4.None? && extGState.Some? && TraceObject(Some(parser), GetOrNull(resDict, "ExtGState")).Ok? &&
            GetDict(arena, TraceObject(Some(parser), GetOrNull(resDict, "ExtGState")).value).Some? ==>
              r.3.Get("Resources") == Some(r.1) && Holds(r.0, r.2, "ExtGState")
  {
    if extGState.None? then (arena, resObj, resDict, newPage, None)
    else
      match TraceObject(Some(parser), GetOrNull(resDict, "ExtGState"))
      case Err(e) => (arena, resObj, resDict, newPage, Some(e))
      case Ok(target) =>
        if GetDict(arena, target).None? then (arena, resObj, resDict, newPage, None)
        else MergeKind(arena, resObj, resDict, newPage, "ExtGState", target, extGState.value, PageExtGStateNotADictionary)
  }

  /** The XObject step: a missing working XObject entry becomes a new, empty,
      queued dictionary; one that is not a dictionary is an error. */
  method MergeXObject(parser: ParserTable, arena: Arena, resObj: Obj, resDict: Dict, newPage: Dict,
                      xObject: Option<Obj>, q: seq<ObjId>, h: set<ObjId>, srcObjects: set<ObjId>)
    returns (arena': Arena, resObj': Obj, resDict': Dict, newPage': Dict, q': seq<ObjId>, h': set<ObjId>,
             err: Option<Error>)
    requires GetDict(arena, resObj) == Some(resDict) && Delta(q, h, srcObjects)
    ensures Delta(q', h', srcObjects) && q <= q' && h <= h'
    ensures ResState(arena, newPage, resObj, arena', newPage', resObj', resDict')
    ensures xObject.None? ==> arena' == arena && newPage' == newPage && err.None?
    ensures err.None? ==> forall k :: k != "XObject" ==> resDict'.Get(k) == resDict.Get(k)
    ensures err.None? && xObject.Some? ==> newPage'.Get("Resources") == Some(resObj') && Holds(arena', resDict', "XObject")
  {
    arena', resObj', resDict', newPage', q', h', err := arena, resObj, resDict, newPage, q, h, None;
    if xObject.None? {
      return;
    }
    var traced := TraceObject(Some(parser), GetOrNull(resDict, "XObject"));
    if traced.Err? {
      err := Some(traced.error);
      return;
    }
    var target := traced.value;
    if !resDict.HasKey("XObject") {
      var id := NewId(arena, h, srcObjects);
      arena' := arena[id := IndirectNode(DictObj(Dict([])))];
      q', h' := AddWalk(arena', q, h, srcObjects, Ptr(id));
      target := Ptr(id);
    }
    if GetDict(arena', target).None? {
      err := Some(XObjectResourceNotADictionary);
      return;
    }
    var m := MergeKind(arena', resObj, resDict, newPage, "XObject", target, xObject.value, PageXObjectNotADictionary);
    ghost var a1 := arena';
    arena', resObj', resDict', newPage', err := m.0, m.1, m.2, m.3, m.4;
    EvolvesTrans(arena, a1, arena');
  }

  /** The first step of the resource merge: the working page's Resources,
      traced through the parser, copied to a new indirect object when it is
      a pre-existing one, and required to be a dictionary. */
  method OpenResources(parser: ParserTable, arena: Arena, newPage: Dict, h: set<ObjId>, srcObjects: set<ObjId>)
    returns (arena': Arena, resObj: Obj, resDict: Dict, err: Option<Error>)
    ensures Evolves(arena, arena')
    ensures err.None? ==> GetDict(arena', resObj) == Some(resDict)
    ensures err.Some? ==> arena' == arena
    ensures TraceObject(Some(parser), GetOrNull(newPage, "Resources")).Err? ==>
              err == Some(TraceObject(Some(parser), GetOrNull(newPage, "Resources")).error)
    ensures TraceObject(Some(parser), GetOrNull(newPage, "Resources")).Ok? ==> err.None? || err == Some(ResourcesNotADictionary)
    ensures err.None? && TraceObject(Some(parser), GetOrNull(newPage, "Resources")).value.Ptr? &&
            TraceObject(Some(parser), GetOrNull(newPage, "Resources")).value.id in srcObjects ==>
              && TraceObject(Some(parser), GetOrNull(newPage, "Resources")).value.id in arena
              && resObj.Ptr? && resObj.id !in arena
              && arena' == arena[resObj.id := arena[TraceObject(Some(parser), GetOrNull(newPage, "Resources")).value.id]]
    ensures err.None? && !(TraceObject(Some(parser), GetOrNull(newPage, "Resources")).value.Ptr? &&
                           TraceObject(Some(parser), GetOrNull(newPage, "Resources")).value.id in srcObjects) ==>
              arena' == arena && resObj == TraceObject(Some(parser), GetOrNull(newPage, "Resources")).value
  {
    arena', resDict := arena, Dict([]);
    var traced := TraceObject(Some(parser), GetOrNull(newPage, "Resources"));
    if traced.Err? {
      return arena', Null, resDict, Some(traced.error);
    }
    resObj := traced.value;
    if resObj.Ptr? && resObj.id in srcObjects {
      if !(resObj.id in arena && arena[resObj.id].IndirectNode?) {
        return arena', resObj, resDict, Some(ResourcesNotADictionary);
      }
      var id := NewId(arena, h, srcObjects);
      var copied := arena[id := IndirectNode(arena[resObj.id].payload)];
      if GetDict(copied, Ptr(id)).None? {
        return arena', resObj, resDict, Some(ResourcesNotADictionary);
      }
      arena', resObj := copied, Ptr(id);
    }
    var found := GetDict(arena', resObj);
    if found.None? {
      return arena, resObj, resDict, Some(ResourcesNotADictionary);
    }
    resDict, err := found.value, None;
  }

  /** The Font, ExtGState and XObject steps of the resource merge, in that order. */
  method MergeKinds(parser: ParserTable, arena: Arena, resObj: Obj, resDict: Dict, newPage: Dict, inc: Dict,
                    q: seq<ObjId>, h: set<ObjId>, srcObjects: set<ObjId>)
    returns (arena': Arena, newPage': Dict, q': seq<ObjId>, h': set<ObjId>, err: Option<Error>)
    requires GetDict(arena, resObj) == Some(resDict) && Delta(q, h, srcObjects)
    ensures Delta(q', h', srcObjects) && q <= q' && h <= h'
    ensures Evolves(arena, arena')
    ensures forall key :: key != "Resources" ==> newPage'.Get(key) == newPage.Get(key)
    ensures err.None? && !inc.HasKey("Font") && !inc.HasKey("ExtGState") && !inc.HasKey("XObject") ==> newPage' == newPage
    ensures err.None? && inc.HasKey("Font") ==> HoldsResource(arena', newPage', "Font")
    ensures err.None? && inc.HasKey("XObject") ==> HoldsResource(arena', newPage', "XObject")
  {
    var f := MergeFont(parser, arena, resObj, resDict, newPage, inc.Get("Font"));
    q', h' := q, h;
    arena', newPage' := f.0, f.3;
    if f.4.Some? {
      return arena', newPage', q', h', f.4;
    }
    var g := MergeExtGState(parser, f.0, f.1, f.2, f.3, inc.Get("ExtGState"));
    arena', newPage' := g.0, g.3;
    EvolvesTrans(arena, f.0, g.0);
    if g.4.Some? {
      return arena', newPage', q', h', g.4;
    }
    var resObj', resDict';
    arena', resObj', resDict', newPage', q', h', err :=
      MergeXObject(parser, g.0, g.1, g.2, g.3, inc.Get("XObject"), q, h, srcObjects);
    EvolvesTrans(arena, g.0, arena');
    if err.None? && inc.HasKey("Font") {
      HoldsKept(f.0, f.2, g.0, g.2, "Font");
      HoldsKept(g.0, g.2, arena', resDict', "Font");
      HoldsResourceOf(arena', newPage', resObj', resDict', "Font");
    }
    if err.None? && inc.HasKey("XObject") {
      HoldsResourceOf(arena', newPage', resObj', resDict', "XObject");
    }
  }

  /** The resource merge of MergePageWith: the working page's Resources (see
      OpenResources) takes in the incoming page's Font, ExtGState and
      XObject dictionaries (see MergeKinds). Steps done before an error stay
      done. */
  method MergeResources(parser: ParserTable, arena: Arena, newPage: Dict, incoming: Dict,
                        q: seq<ObjId>, h: set<ObjId>, srcObjects: set<ObjId>)
    returns (arena': Arena, newPage': Dict, q': seq<ObjId>, h': set<ObjId>, err: Option<Error>)
    requires Delta(q, h, srcObjects)
    ensures Delta(q', h', srcObjects) && q <= q' && h <= h'
    ensures Evolves(arena, arena')
    ensures forall key :: key != "Resources" ==> newPage'.Get(key) == newPage.Get(key)
    ensures TraceObject(Some(parser), GetOrNull(newPage, "Resources")).Err? ==>
              err == Some(TraceObject(Some(parser), GetOrNull(newPage, "Resources")).error) && arena' == arena && newPage' == newPage
    ensures err.None? && !IncomingResources(arena, incoming).HasKey("Font") &&
            !IncomingResources(arena, incoming).HasKey("ExtGState") && !IncomingResources(arena, incoming).HasKey("XObject") ==>
              newPage' == newPage
    ensures err.None? && IncomingResources(arena, incoming).HasKey("Font") ==> HoldsResource(arena', newPage', "Font")
    ensures err.None? && IncomingResources(arena, incoming).HasKey("XObject") ==> HoldsResource(arena', newPage', "XObject")
  {
    var a1, resObj, resDict;
    a1, resObj, resDict, err := OpenResources(parser, arena, newPage, h, srcObjects);
    if err.Some? {
      return arena, newPage, q, h, err;
    }
    arena', newPage', q', h', err := MergeKinds(parser, a1, resObj, resDict, newPage, IncomingResources(arena, incoming),
                                                q, h, srcObjects);
    EvolvesTrans(arena, a1, arena');
  }

  // --------------------------------------------------------------------
  // The copy of a pre-existing Resources object

  /** The merge through a value copy of a pre-existing Resources object
      `orig`, as OpenResources makes it: the Font step changes no object of
      the graph but the Font dictionary node it merges into, so neither the
      original nor another copy of it sees the merge. */
  lemma ValueCopyKeepsOriginal(parser: ParserTable, arena: Arena, orig: ObjId, copy: ObjId, newPage: Dict,
                               font: Option<Obj>)
    requires DictNode(arena, orig) && copy !in arena
    ensures var a1 := arena[copy := arena[orig]];
            forall id :: id in arena && TraceObject(Some(parser), GetOrNull(NodeDict(arena, orig), "Font")) != Ok(Ptr(id)) ==>
              MergeFont(parser, a1, Ptr(copy), NodeDict(arena, orig), newPage, font).0[id] == arena[id]
  {
    assert GetDict(arena[copy := arena[orig]], Ptr(copy)) == Some(NodeDict(arena, orig));
  }

  /** As written, the copy of a pre-existing Resources object is a new
      indirect object around the same dictionary, so what a merge writes
      into it is seen by every object holding that dictionary: `sharers`,
      the original and the copies made of it, all end up holding what was
      written at `written`. */
  function WriteThrough(arena: Arena, written: ObjId, sharers: set<ObjId>): (r: Arena)
    requires written in arena
    ensures r.Keys == arena.Keys
    ensures forall id :: id in sharers && id in arena ==> r[id] == arena[written]
    ensures forall id :: id in arena && id !in sharers ==> r[id] == arena[id]
  {
    map id | id in arena :: if id in sharers then arena[written] else arena[id]
  }

  /** The Font step as written, on a Resources object `resObj` that holds
      one dictionary together with the objects `sharers`. */
  function MergeFontShared(parser: ParserTable, arena: Arena, resObj: ObjId, newPage: Dict, font: Option<Obj>,
                           sharers: set<ObjId>): (r: (Arena, Obj, Dict, Dict, Option<Error>))
    requires DictNode(arena, resObj) && resObj in sharers
    ensures r.0.Keys == arena.Keys
    ensures var m := MergeFont(parser, arena, Ptr(resObj), NodeDict(arena, resObj), newPage, font);
            && m.0.Keys == arena.Keys
            && r.1 == m.1 && r.2 == m.2 && r.3 == m.3 && r.4 == m.4
            && (forall id :: id in sharers && id in arena ==> r.0[id] == m.0[resObj])
            && (forall id :: id in arena && id !in sharers ==> r.0[id] == m.0[id])
  {
    var m := MergeFont(parser, arena, Ptr(resObj), NodeDict(arena, resObj), newPage, font);
    (WriteThrough(m.0, resObj, sharers), m.1, m.2, m.3, m.4)
  }

  /** The entry `name` of the Font dictionary of the Resources object `res`. */
  function FontNamed(arena: Arena, res: ObjId, name: string): Option<Obj> {
    match GetDict(arena, Ptr(res))
    case None => None
    case Some(rd) =>
      match GetDict(arena, GetOrNull(rd, "Font"))
      case None => None
      case Some(fd) => fd.Get(name)
  }

  /** The Font step on a Resources object `res` whose Font entry is the
      inline dictionary `f`: the incoming `extra` is merged into it and the
      result written back into `res`'s dictionary. */
  lemma InlineFontStep(arena: Arena, res: ObjId, f: Dict, extra: Dict)
    requires DictNode(arena, res) && NodeDict(arena, res).Get("Font") == Some(DictObj(f))
    ensures MergeFont(map[], arena, Ptr(res), NodeDict(arena, res), Dict([]), Some(DictObj(extra))).0 ==
              arena[res := IndirectNode(DictObj(NodeDict(arena, res).Set("Font", DictObj(Merge(f, extra)))))]
  {
    var rd := NodeDict(arena, res);
    assert TraceObject(Some(map[]), GetOrNull(rd, "Font")) == Ok(DictObj(f));
    var m := MergeEntry(arena, Ptr(res), rd, "Font", DictObj(f), extra);
    assert StoreDict(arena, DictObj(f), Merge(f, extra)) == (arena, DictObj(Merge(f, extra)));
  }

  /** After InlineFontStep, the Font entry `name` is the incoming one when
      the incoming dictionary has it. */
  lemma InlineFontNamed(arena: Arena, res: ObjId, rd: Dict, f: Dict, name: string, v: Obj)
    requires res in arena
    requires arena[res] == IndirectNode(DictObj(rd.Set("Font", DictObj(Merge(f, Dict([Entry(name, v)]))))))
    ensures FontNamed(arena, res, name) == Some(v)
  {
    var extra := Dict([Entry(name, v)]);
    assert extra.HasKey(name) by { assert extra.entries[0].key == name; }
    assert extra.Get(name) == Some(v);
  }

  /** Two pages share the pre-existing Resources object `orig`, whose Font
      entry is the inline dictionary `f`. As written, one merge brings the
      entry `name`: `vx` through the copy `c0` of `orig`, and a second brings
      `vy` through the copy `c1`, both copies holding the dictionary of
      `orig`: the first page's `name` ends up naming `vy`. */
  lemma SharedCopyCrossTalk(arena: Arena, orig: ObjId, c0: ObjId, c1: ObjId, f: Dict, name: string, vx: Obj, vy: Obj)
    requires DictNode(arena, orig) && NodeDict(arena, orig).Get("Font") == Some(DictObj(f))
    requires c0 !in arena && c1 !in arena && c0 != c1
    ensures var s1 := MergeFontShared(map[], arena[c0 := arena[orig]], c0, Dict([]),
                                      Some(DictObj(Dict([Entry(name, vx)]))), {orig, c0}).0;
            && DictNode(s1, orig)
            && FontNamed(s1, c0, name) == Some(vx)
            && FontNamed(MergeFontShared(map[], s1[c1 := s1[orig]], c1, Dict([]),
                                         Some(DictObj(Dict([Entry(name, vy)]))), {orig, c0, c1}).0, c0, name) == Some(vy)
  {
    var x, y := Dict([Entry(name, vx)]), Dict([Entry(name, vy)]);
    var a1 := arena[c0 := arena[orig]];
    assert NodeDict(a1, c0) == NodeDict(arena, orig);
    InlineFontStep(a1, c0, f, x);
    var m1 := a1[c0 := IndirectNode(DictObj(NodeDict(a1, c0).Set("Font", DictObj(Merge(f, x)))))];
    var s1 := MergeFontShared(map[], a1, c0, Dict([]), Some(DictObj(x)), {orig, c0}).0;
    assert s1[orig] == s1[c0] == m1[c0];
    InlineFontNamed(s1, c0, NodeDict(a1, c0), f, name, vx);
    var b1 := s1[c1 := s1[orig]];
    assert NodeDict(b1, c1).Get("Font") == Some(DictObj(Merge(f, x)));
    InlineFontStep(b1, c1, Merge(f, x), y);
    var m2 := b1[c1 := IndirectNode(DictObj(NodeDict(b1, c1).Set("Font", DictObj(Merge(Merge(f, x), y)))))];
    var s2 := MergeFontShared(map[], b1, c1, Dict([]), Some(DictObj(y)), {orig, c0, c1}).0;
    assert s2[c0] == m2[c1];
    InlineFontNamed(s2, c0, NodeDict(b1, c1), Merge(f, x), name, vy);
  }

  /** The same two merges on value copies, as OpenResources makes them:
      each page keeps its own entry and `orig` is left as it was. */
  lemma ValueCopyNoCrossTalk(arena: Arena, orig: ObjId, c0: ObjId, c1: ObjId, f: Dict, name: string, vx: Obj, vy: Obj)
    requires DictNode(arena, orig) && NodeDict(arena, orig).Get("Font") == Some(DictObj(f))
    requires c0 !in arena && c1 !in arena && c0 != c1
    ensures var v1 := MergeFont(map[], arena[c0 := arena[orig]], Ptr(c0), NodeDict(arena, orig), Dict([]),
                                Some(DictObj(Dict([Entry(name, vx)])))).0;
            && v1[orig] == arena[orig]
            && var v2 := MergeFont(map[], v1[c1 := v1[orig]], Ptr(c1), NodeDict(arena, orig), Dict([]),
                                   Some(DictObj(Dict([Entry(name, vy)])))).0;
               && FontNamed(v2, c0, name) == Some(vx)
               && FontNamed(v2, c1, name) == Some(vy)
               && v2[orig] == arena[orig]
  {
    var x, y := Dict([Entry(name, vx)]), Dict([Entry(name, vy)]);
    var a1 := arena[c0 := arena[orig]];
    assert NodeDict(a1, c0) == NodeDict(arena, orig);
    InlineFontStep(a1, c0, f, x);
    var v1 := a1[c0 := IndirectNode(DictObj(NodeDict(a1, c0).Set("Font", DictObj(Merge(f, x)))))];
    var b1 := v1[c1 := v1[orig]];
    assert NodeDict(b1, c1) == NodeDict(arena, orig);
    InlineFontStep(b1, c1, f, y);
    var v2 := b1[c1 := IndirectNode(DictObj(NodeDict(b1, c1).Set("Font", DictObj(Merge(f, y)))))];
    assert v2[c0] == v1[c0];
    InlineFontNamed(v2, c0, NodeDict(a1, c0), f, name, vx);
    InlineFontNamed(v2, c1, NodeDict(b1, c1), f, name, vy);
  }

  // --------------------------------------------------------------------
  // The media box

  /** The box a merge widens: the working page's MediaBox when it is an
      array, otherwise the document's default media box, otherwise the
      origin box. */
  function BaseBox(arena: Arena, default: Option<Rect>, page: Dict): (r: Result<Rect>)
    ensures GetArray(arena, GetOrNull(page, "MediaBox")).Some? ==>
              r == RectFromArray(GetArray(arena, GetOrNull(page, "MediaBox")).value)
    ensures GetArray(arena, GetOrNull(page, "MediaBox")).None? ==>
              r == Ok(if default.Some? then default.value else ZeroRect)
  {
    match GetArray(arena, GetOrNull(page, "MediaBox"))
    case Some(elems) => RectFromArray(elems)
    case None => Ok(if default.Some? then default.value else ZeroRect)
  }

  /** The media-box step of MergePageWith: the base box (see BaseBox) is
      widened to take in the incoming page's media box, and written back
      only when an edge moved. */
  function MediaBoxStep(arena: Arena, default: Option<Rect>, page: Dict, incoming: Option<Rect>): (r: Result<Dict>)
    ensures r.Err? <==> BaseBox(arena, default, page).Err?
    ensures r.Err? ==> r.error == InvalidRectangle
    ensures r.Ok? ==> forall k :: k != "MediaBox" ==> r.value.Get(k) == page.Get(k)
    ensures r.Ok? && (incoming.None? || Contains(BaseBox(arena, default, page).value, incoming.value)) ==> r.value == page
    ensures r.Ok? && incoming.Some? ==>
              BaseBox(arena, default, r.value) == Ok(ExpandBox(BaseBox(arena, default, page).value, incoming.value).0)
    ensures r.Ok? && r.value.Get("MediaBox") != page.Get("MediaBox") ==>
              incoming.Some? && r.value.Get("MediaBox") == Some(RectToObj(BaseBox(arena, default, r.value).value))
  {
    match BaseBox(arena, default, page)
    case Err(e) => Err(e)
    case Ok(base) =>
      if incoming.None? then Ok(page)
      else
        var (box, changed) := ExpandBox(base, incoming.value);
        if changed then Ok(page.Set("MediaBox", RectToObj(box))) else Ok(page)
  }

  // --------------------------------------------------------------------
  // A whole merge

  /** An incoming page: its page dictionary (Contents and Resources) and its MediaBox. */
  datatype PdfPage = PdfPage(dict: Dict, mediaBox: Option<Rect>)

  lemma GrowsTrans(a0: Arena, a1: Arena, a2: Arena)
    requires Grows(a0, a1) && Grows(a1, a2)
    ensures Grows(a0, a2)
  {
  }

  /** What a successful merge of `page` did to the working page `np0`: its
      content array goes on with the incoming page's content streams, its
      media box holds the incoming one, and nothing but Contents, Resources
      and MediaBox changed. */
  ghost predicate Merged(a0: Arena, np0: Dict, a1: Arena, np1: Dict, page: PdfPage, default: Option<Rect>) {
    && GetArray(a0, GetOrNull(np0, "Contents")).Some?
    && GetArray(a1, GetOrNull(np1, "Contents")) ==
         Some(GetArray(a0, GetOrNull(np0, "Contents")).value + ContentElements(GetOrNull(page.dict, "Contents")))
    && (forall k :: k != "Contents" && k != "Resources" && k != "MediaBox" ==> np1.Get(k) == np0.Get(k))
    && (page.mediaBox.Some? ==>
          BaseBox(a1, default, np1).Ok? && Contains(BaseBox(a1, default, np1).value, page.mediaBox.value))
    && (np1.Get("MediaBox") == np0.Get("MediaBox") ||
        (page.mediaBox.Some? && np1.Get("MediaBox") == Some(RectToObj(BaseBox(a1, default, np1).value))))
  }

  /** The steps of MergeWorking compose to Merged. */
  lemma MergedBySteps(a0: Arena, np0: Dict, a1: Arena, np1: Dict, a3: Arena, np2: Dict, page: PdfPage,
                      default: Option<Rect>)
    requires GetArray(a0, GetOrNull(np0, "Contents")).Some?
    requires GetArray(a1, GetOrNull(np1, "Contents")) ==
               Some(GetArray(a0, GetOrNull(np0, "Contents")).value + ContentElements(GetOrNull(page.dict, "Contents")))
    requires forall k :: k != "Contents" ==> np1.Get(k) == np0.Get(k)
    requires Evolves(a1, a3)
    requires forall k :: k != "Resources" ==> np2.Get(k) == np1.Get(k)
    requires MediaBoxStep(a3, default, np2, page.mediaBox).Ok?
    ensures Merged(a0, np0, a3, MediaBoxStep(a3, default, np2, page.mediaBox).value, page, default)
  {
    var np' := MediaBoxStep(a3, default, np2, page.mediaBox).value;
    GetArrayEvolves(a1, a3, GetOrNull(np1, "Contents"));
    assert GetOrNull(np', "Contents") == GetOrNull(np1, "Contents");
    if page.mediaBox.Some? {
      var base := BaseBox(a3, default, np2).value;
      assert Contains(ExpandBox(base, page.mediaBox.value).0, page.mediaBox.value);
    }
  }

  /** The middle of MergePageWith: queue the incoming content elements
      `elems`, rename the incoming page's clashing resources (see
      RenamePage), and merge its resources into the working page `np`
      (see MergeResources). */
  method MergeIncoming(parser: ParserTable, arena: Arena, np: Dict, page: PdfPage, elems: seq<Obj>,
                       src: set<string>, rrm0: map<string, string>, q: seq<ObjId>, h: set<ObjId>,
                       srcObjects: set<ObjId>)
    returns (arena': Arena, np': Dict, rrm: map<string, string>, q': seq<ObjId>, h': set<ObjId>, err: Option<Error>)
    requires Delta(q, h, srcObjects) && RenamesFresh(rrm0, src)
    ensures Delta(q', h', srcObjects) && q <= q' && h <= h' && RenamesFresh(rrm, src)
    ensures Evolves(arena, arena')
    ensures forall k :: k != "Resources" ==> np'.Get(k) == np.Get(k)
    ensures forall o :: o in elems ==> Occurs(o) <= h' + srcObjects
  {
    var q1, h1 := AddAll(arena, q, h, srcObjects, elems);
    var a2, incoming, pairs, q2, h2;
    a2, incoming, rrm, pairs, q2, h2 := RenamePage(arena, page.dict.Set("Contents", Array(elems)), src, rrm0, q1, h1, srcObjects);
    arena', np', q', h', err := MergeResources(parser, a2, np, incoming, q2, h2, srcObjects);
    EvolvesTrans(arena, a2, arena');
  }

  /** The body of MergePageWith on a working page `np`: append the incoming
      content streams and queue them, rename the incoming page's clashing
      resources, merge its resources into the working page's, and widen the
      media box. Steps done before an error stay done. */
  method MergeWorking(parser: ParserTable, arena: Arena, np: Dict, page: PdfPage, default: Option<Rect>,
                      src: set<string>, rrm0: map<string, string>, q: seq<ObjId>, h: set<ObjId>,
                      srcObjects: set<ObjId>, pageNum: int)
    returns (arena': Arena, np': Dict, rrm: map<string, string>, q': seq<ObjId>, h': set<ObjId>, err: Option<Error>)
    requires Delta(q, h, srcObjects) && RenamesFresh(rrm0, src)
    ensures Delta(q', h', srcObjects) && q <= q' && h <= h' && RenamesFresh(rrm, src)
    ensures Grows(arena, arena')
    ensures GetArray(arena, GetOrNull(np, "Contents")).None? ==>
              err == Some(SourceContentsNotFound(pageNum)) && arena' == arena && np' == np && rrm == rrm0 && q' == q
    ensures err.None? ==> Merged(arena, np, arena', np', page, default)
    ensures err.None? ==> forall o :: o in ContentElements(GetOrNull(page.dict, "Contents")) ==> Occurs(o) <= h' + srcObjects
  {
    var elems := ContentElements(GetOrNull(page.dict, "Contents"));
    var appended := AppendContents(arena, np, elems);
    if appended.None? {
      return arena, np, rrm0, q, h, Some(SourceContentsNotFound(pageNum));
    }
    var a1, np1 := appended.value.0, appended.value.1;
    var a3, np2;
    a3, np2, rrm, q', h', err := MergeIncoming(parser, a1, np1, page, elems, src, rrm0, q, h, srcObjects);
    EvolvesGrows(a1, a3);
    GrowsTrans(arena, a1, a3);
    arena', np' := a3, np2;
    if err.Some? {
      return;
    }
    var boxed := MediaBoxStep(a3, default, np2, page.mediaBox);
    if boxed.Err? {
      return arena', np', rrm, q', h', Some(boxed.error);
    }
    np' := boxed.value;
    MergedBySteps(arena, np, a1, np1, a3, np2, page, default);
  }

  // --------------------------------------------------------------------
  // Writing the page tree, replacing and adding pages

  /** Sets `key` to `v` in the dictionary node `id`, as the core's Set on
      the indirect object's dictionary does. */
  function SetNodeEntry(arena: Arena, id: ObjId, key: string, v: Obj): (r: Arena)
    requires DictNode(arena, id)
    ensures r.Keys == arena.Keys && Evolves(arena, r) && DictNode(r, id)
    ensures NodeDict(r, id).Get(key) == Some(v)
    ensures forall k :: k != key ==> NodeDict(r, id).Get(k) == NodeDict(arena, id).Get(k)
    ensures forall other :: other in arena && other != id ==> r[other] == arena[other]
    ensures forall o :: GetArray(r, o) == GetArray(arena, o)
  {
    WriteKeepsArrays(arena, id, NodeDict(arena, id).Set(key, v));
    arena[id := IndirectNode(DictObj(NodeDict(arena, id).Set(key, v)))]
  }

  /** Writing a dictionary to a new identity or over a dictionary node changes no array. */
  lemma WriteKeepsArrays(arena: Arena, id: ObjId, d: Dict)
    requires id !in arena || DictNode(arena, id)
    ensures forall o :: GetArray(arena[id := IndirectNode(DictObj(d))], o) == GetArray(arena, o)
  {
  }

  /** Merged depends on the graph through its arrays only. */
  lemma MergedKept(a0: Arena, np0: Dict, a1: Arena, a2: Arena, np1: Dict, page: PdfPage, default: Option<Rect>)
    requires Merged(a0, np0, a1, np1, page, default)
    requires forall o :: GetArray(a2, o) == GetArray(a1, o)
    ensures Merged(a0, np0, a2, np1, page, default)
  {
    assert BaseBox(a2, default, np1) == BaseBox(a1, default, np1);
  }

  /** The working page a merge into page `pageNum` starts from: the one an
      earlier merge made, or else a new one built from the source page (see
      WorkingPageOf). */
  function PriorPageIn(parser: ParserTable, arena: Arena, pagesDict: map<int, ObjId>, newPagesDict: map<int, ObjId>,
                       pageNum: int): Result<Dict>
    requires pageNum in pagesDict && DictNode(arena, pagesDict[pageNum])
    requires pageNum in newPagesDict ==> DictNode(arena, newPagesDict[pageNum])
  {
    if pageNum in newPagesDict then Ok(NodeDict(arena, newPagesDict[pageNum]))
    else WorkingPageOf(parser, NodeDict(arena, pagesDict[pageNum]))
  }

  /** The state a page merge keeps: the page tree is valid, the Pages node
      is pre-existing and every working page is a queued new object. */
  ghost predicate MergeReady(arena: Arena, ppages: ObjId, pagesDict: map<int, ObjId>, newPagesDict: map<int, ObjId>,
                             kids: seq<Obj>, q: seq<ObjId>, h: set<ObjId>, srcObjects: set<ObjId>) {
    && PagesValidIn(arena, ppages, pagesDict, newPagesDict, kids)
    && Delta(q, h, srcObjects)
    && ppages in srcObjects
    && (forall i :: i in newPagesDict ==> newPagesDict[i] in h && newPagesDict[i] !in srcObjects)
  }

  lemma WriteDictGrows(arena: Arena, id: ObjId, d: Dict)
    requires id !in arena || DictNode(arena, id)
    ensures Grows(arena, arena[id := IndirectNode(DictObj(d))]) && DictNode(arena[id := IndirectNode(DictObj(d))], id)
  {
  }

  /** Making the dictionary node `wid` page `pageNum`'s working page and Kids entry keeps the page tree valid. */
  lemma PagesValidCommit(arena: Arena, ppages: ObjId, pagesDict: map<int, ObjId>, newPagesDict: map<int, ObjId>,
                         kids: seq<Obj>, pageNum: int, wid: ObjId)
    requires PagesValidIn(arena, ppages, pagesDict, newPagesDict, kids) && pageNum in pagesDict && DictNode(arena, wid)
    ensures PagesValidIn(arena, ppages, pagesDict, newPagesDict[pageNum := wid], kids[pageNum := Ptr(wid)])
  {
  }

  lemma WorkingQueued(newPagesDict: map<int, ObjId>, h: set<ObjId>, h': set<ObjId>, srcObjects: set<ObjId>,
                      pageNum: int, wid: ObjId, updated: map<int, ObjId>)
    requires forall i :: i in newPagesDict ==> newPagesDict[i] in h && newPagesDict[i] !in srcObjects
    requires h <= h' && wid in h' && wid !in srcObjects && updated == newPagesDict[pageNum := wid]
    ensures forall i :: i in updated ==> updated[i] in h' && updated[i] !in srcObjects
  {
  }

  /** What MergePageWith promises: a missing page and a working page that
      cannot be built are errors that change nothing; other errors leave
      the page maps and Kids as they were; and a successful merge makes the
      merged working page (see Merged) page `pageNum`'s working page and its
      entry in the page tree's Kids. */
  ghost predicate MergeOutcome(parser: ParserTable, arena: Arena, ppages: ObjId, default: Option<Rect>,
                               pagesDict: map<int, ObjId>, newPagesDict: map<int, ObjId>, kids: seq<Obj>,
                               pageNum: int, page: PdfPage,
                               arena': Arena, newPagesDict': map<int, ObjId>, kids': seq<Obj>, err: Option<Error>)
    requires PagesValidIn(arena, ppages, pagesDict, newPagesDict, kids)
    requires PagesValidIn(arena', ppages, pagesDict, newPagesDict', kids')
  {
    && (pageNum !in pagesDict ==>
          err == Some(PageDictNotFound(pageNum)) && arena' == arena && newPagesDict' == newPagesDict && kids' == kids)
    && (pageNum in pagesDict && PriorPageIn(parser, arena, pagesDict, newPagesDict, pageNum).Err? ==>
          err == Some(PriorPageIn(parser, arena, pagesDict, newPagesDict, pageNum).error) && arena' == arena &&
          newPagesDict' == newPagesDict && kids' == kids)
    && (err.Some? ==> newPagesDict' == newPagesDict && kids' == kids)
    && (err.None? ==>
          && pageNum in pagesDict && pageNum in newPagesDict'
          && newPagesDict' == newPagesDict[pageNum := newPagesDict'[pageNum]]
          && (pageNum in newPagesDict ==> newPagesDict'[pageNum] == newPagesDict[pageNum])
          && kids' == kids[pageNum := Ptr(newPagesDict'[pageNum])]
          && Merged(arena, PriorPageIn(parser, arena, pagesDict, newPagesDict, pageNum).value,
                    arena', NodeDict(arena', newPagesDict'[pageNum]), page, default)
          && NodeDict(arena', ppages).Get("Kids") == Some(Array(kids')))
  }

  /** An error leaves the page maps and Kids as they were. */
  lemma MergeOutcomeErr(parser: ParserTable, arena: Arena, ppages: ObjId, default: Option<Rect>,
                        pagesDict: map<int, ObjId>, newPagesDict: map<int, ObjId>, kids: seq<Obj>,
                        pageNum: int, page: PdfPage, arena': Arena, err: Option<Error>)
    requires PagesValidIn(arena, ppages, pagesDict, newPagesDict, kids)
    requires PagesValidIn(arena', ppages, pagesDict, newPagesDict, kids)
    requires err.Some?
    requires pageNum !in pagesDict ==> err == Some(PageDictNotFound(pageNum)) && arena' == arena
    requires pageNum in pagesDict && PriorPageIn(parser, arena, pagesDict, newPagesDict, pageNum).Err? ==>
               err == Some(PriorPageIn(parser, arena, pagesDict, newPagesDict, pageNum).error) && arena' == arena
    ensures MergeOutcome(parser, arena, ppages, default, pagesDict, newPagesDict, kids, pageNum, page,
                         arena', newPagesDict, kids, err)
  {
  }

  /** A successful merge commits the working page `wid`. */
  lemma MergeOutcomeOk(parser: ParserTable, arena: Arena, ppages: ObjId, default: Option<Rect>,
                       pagesDict: map<int, ObjId>, newPagesDict: map<int, ObjId>, kids: seq<Obj>,
                       pageNum: int, page: PdfPage, arena': Arena, wid: ObjId)
    requires PagesValidIn(arena, ppages, pagesDict, newPagesDict, kids)
    requires pageNum in pagesDict && PriorPageIn(parser, arena, pagesDict, newPagesDict, pageNum).Ok?
    requires PagesValidIn(arena', ppages, pagesDict, newPagesDict[pageNum := wid], kids[pageNum := Ptr(wid)])
    requires pageNum in newPagesDict ==> wid == newPagesDict[pageNum]
    requires Merged(arena, PriorPageIn(parser, arena, pagesDict, newPagesDict, pageNum).value,
                    arena', NodeDict(arena', wid), page, default)
    requires NodeDict(arena', ppages).Get("Kids") == Some(Array(kids[pageNum := Ptr(wid)]))
    ensures MergeOutcome(parser, arena, ppages, default, pagesDict, newPagesDict, kids, pageNum, page,
                         arena', newPagesDict[pageNum := wid], kids[pageNum := Ptr(wid)], None)
  {
  }

  /** MergePageWith on the appender's state: page `pageNum`'s working page
      takes the incoming page in (see MergeWorking), becomes page
      `pageNum`'s working page and its entry in the page tree's Kids. */
  method MergePage(parser: ParserTable, arena: Arena, ppages: ObjId, default: Option<Rect>,
                   pagesDict: map<int, ObjId>, newPagesDict: map<int, ObjId>, kids: seq<Obj>,
                   src: set<string>, rrm0: map<string, string>, q: seq<ObjId>, h: set<ObjId>, srcObjects: set<ObjId>,
                   pageNum: int, page: PdfPage)
    returns (arena': Arena, newPagesDict': map<int, ObjId>, kids': seq<Obj>, rrm: map<string, string>,
             q': seq<ObjId>, h': set<ObjId>, err: Option<Error>)
    requires MergeReady(arena, ppages, pagesDict, newPagesDict, kids, q, h, srcObjects) && RenamesFresh(rrm0, src)
    ensures MergeReady(arena', ppages, pagesDict, newPagesDict', kids', q', h', srcObjects) && RenamesFresh(rrm, src)
    ensures q <= q' && h <= h' && Grows(arena, arena') && |kids'| == |kids|
    ensures MergeOutcome(parser, arena, ppages, default, pagesDict, newPagesDict, kids, pageNum, page,
                         arena', newPagesDict', kids', err)
    ensures (pageNum !in pagesDict || PriorPageIn(parser, arena, pagesDict, newPagesDict, pageNum).Err?) ==>
              q' == q && h' == h && rrm == rrm0
  {
    arena', newPagesDict', kids', rrm, q', h' := arena, newPagesDict, kids, rrm0, q, h;
    if pageNum !in pagesDict {
      err := Some(PageDictNotFound(pageNum));
      MergeOutcomeErr(parser, arena, ppages, default, pagesDict, newPagesDict, kids, pageNum, page, arena', err);
      return;
    }
    var prior := PriorPageIn(parser, arena, pagesDict, newPagesDict, pageNum);
    if prior.Err? {
      err := Some(prior.error);
      MergeOutcomeErr(parser, arena, ppages, default, pagesDict, newPagesDict, kids, pageNum, page, arena', err);
      return;
    }
    var a1, np;
    a1, np, rrm, q', h', err := MergeWorking(parser, arena, prior.value, page, default, src, rrm0, q, h, srcObjects, pageNum);
    PagesValidGrows(arena, a1, ppages, pagesDict, newPagesDict, kids);
    arena' := a1;
    var wid: ObjId;
    if pageNum in newPagesDict {
      wid := newPagesDict[pageNum];
    } else if err.None? {
      wid := NewId(a1, h', srcObjects);
    } else {
      MergeOutcomeErr(parser, arena, ppages, default, pagesDict, newPagesDict, kids, pageNum, page, arena', err);
      return;
    }
    WriteKeepsArrays(a1, wid, np);
    WriteDictGrows(a1, wid, np);
    arena' := a1[wid := IndirectNode(DictObj(np))];
    GrowsTrans(arena, a1, arena');
    PagesValidGrows(a1, arena', ppages, pagesDict, newPagesDict, kids);
    if err.Some? {
      MergeOutcomeErr(parser, arena, ppages, default, pagesDict, newPagesDict, kids, pageNum, page, arena', err);
      return;
    }
    MergedKept(arena, prior.value, a1, arena', np, page, default);
    PagesValidCommit(arena', ppages, pagesDict, newPagesDict, kids, pageNum, wid);
    newPagesDict' := newPagesDict[pageNum := wid];
    ghost var h1 := h';
    q', h' := AddWalk(arena', q', h', srcObjects, Ptr(wid));
    OccursPtr(Ptr(wid));
    WorkingQueued(newPagesDict, h1, h', srcObjects, pageNum, wid, newPagesDict');
    ghost var a2 := arena';
    kids' := kids[pageNum := Ptr(wid)];
    arena' := SetNodeEntry(arena', ppages, "Kids", Array(kids'));
    EvolvesGrows(a2, arena');
    GrowsTrans(arena, a2, arena');
    PagesValidGrows(a2, arena', ppages, pagesDict, newPagesDict', kids');
    MergedKept(arena, prior.value, a2, arena', np, page, default);
    MergeOutcomeOk(parser, arena, ppages, default, pagesDict, newPagesDict, kids, pageNum, page, arena', wid);
  }

  /** The page installation shared by ReplacePage and AddPages: the page's
      Parent becomes the page tree root, its clashing resource names are
      renamed (see RenamePage), and it becomes a new, queued indirect
      object (see StoreNew). */
  method InstallPage(arena: Arena, pageDict: Dict, ppages: ObjId, src: set<string>, rrm0: map<string, string>,
                     q: seq<ObjId>, h: set<ObjId>, srcObjects: set<ObjId>)
    returns (arena': Arena, id: ObjId, rrm: map<string, string>, q': seq<ObjId>, h': set<ObjId>)
    requires Delta(q, h, srcObjects) && RenamesFresh(rrm0, src)
    ensures Delta(q', h', srcObjects) && q <= q' && h <= h' && RenamesFresh(rrm, src)
    ensures Evolves(arena, arena')
    ensures id !in arena && id !in h && id !in srcObjects && id in h' && DictNode(arena', id)
    ensures NodeDict(arena', id).Get("Parent") == Some(Ptr(ppages))
    ensures forall k :: k != "Parent" && k != "Resources" ==> NodeDict(arena', id).Get(k) == pageDict.Get(k)
    ensures NoNewPtrs(arena, arena')
    ensures forall x :: x in arena && !arena[x].StreamNode? && !Writable(arena, GetOrNull(pageDict, "Resources"), x) ==>
              arena'[x] == arena[x]
  {
    var page := pageDict.Set("Parent", Ptr(ppages));
    assert GetOrNull(page, "Resources") == GetOrNull(pageDict, "Resources");
    var a1, renamed, pairs, q1, h1;
    a1, renamed, rrm, pairs, q1, h1 := RenamePage(arena, page, src, rrm0, q, h, srcObjects);
    arena', id, q', h' := StoreNew(a1, renamed, q1, h1, srcObjects);
    EvolvesTrans(arena, a1, arena');
    NoNewPtrsTrans(arena, a1, arena');
  }

  /** `h'` is `h` grown by exactly what node `id` reaches that is neither
      queued nor pre-existing, closed under the walk into streams. */
  ghost predicate QueuedReach(arena: Arena, h': set<ObjId>, h: set<ObjId>, srcObjects: set<ObjId>, id: ObjId) {
    ClosedBeyond(arena, h', h, srcObjects, true) && LeastAbove(arena, h', h + srcObjects, Ptr(id), true)
  }

  /** The dictionary becomes a new indirect object, queued with everything
      it reaches that is neither queued nor pre-existing. */
  method StoreNew(arena: Arena, d: Dict, q: seq<ObjId>, h: set<ObjId>, srcObjects: set<ObjId>)
    returns (arena': Arena, id: ObjId, q': seq<ObjId>, h': set<ObjId>)
    requires Delta(q, h, srcObjects)
    ensures Delta(q', h', srcObjects) && q <= q' && h <= h'
    ensures id !in arena && id !in h && id !in srcObjects && id in h'
    ensures arena' == arena[id := IndirectNode(DictObj(d))]
    ensures Evolves(arena, arena') && NoNewPtrs(arena, arena')
    ensures QueuedReach(arena', h', h, srcObjects, id)
  {
    id := NewId(arena, h, srcObjects);
    arena' := arena[id := IndirectNode(DictObj(d))];
    q', h' := AddWalk(arena', q, h, srcObjects, Ptr(id));
    OccursPtr(Ptr(id));
    NoNewPtrsFresh(arena, id, IndirectNode(DictObj(d)));
  }
}

/** The incremental-update session of pdf/model/appender.go: a PdfAppender
    holds the source document's object graph, the set of objects that
    already exist in it, the pending delta of objects to write in the new
    revision, the resource names of the source pages, and the working page
    maps and page-tree child list that page merges, replacements and
    additions update in place. */
module Appender {
  import opened PdfCore
  import opened GoStrings
  import opened PageObjects
  import opened Walks
  import opened Resources
  import opened Renaming
  import opened PageMerge
  import opened PageTree
  import opened SourceDocument

  class PdfAppender {
    /** The parser's object table: LookupByNumber and LookupByReference. */
    const parser: ParserTable
    /** The object graph: every indirect object and stream, by identity. */
    var arena: Arena
    /** The catalog and the page tree root, both indirect objects. */
    const root: ObjId
    const ppages: ObjId
    /** The page tree root's MediaBox, when it has one. */
    const defaultMediaBox: Option<Rect>
    const greatestObjNum: nat

    /** The page tree's Kids, and the page dictionaries by page index: the
        source pages, and the working pages merges and additions made. */
    var kids: seq<Obj>
    var pagesDict: map<int, ObjId>
    var newPagesDict: map<int, ObjId>

    var srcIndirectObjects: set<ObjId>
    var newObjects: seq<ObjId>
    var hasNewObject: set<ObjId>

    /** The resource names of the source pages, and the new names given to
        incoming resource names that clash with them. */
    const srcResources: set<string>
    var resourcesRenameMap: map<string, string>

    // ------------------------------------------------------------------
    // Invariants

    /** The pending delta: duplicate-free, mirrored by `hasNewObject`, and
        disjoint from the objects that already exist (see DeltaMeaning). */
    ghost predicate DeltaValid()
      reads this`newObjects, this`hasNewObject, this`srcIndirectObjects
    {
      Delta(newObjects, hasNewObject, srcIndirectObjects)
    }

    /** Only source names are renamed, and never to a source name. */
    ghost predicate RenamesValid()
      reads this`resourcesRenameMap
    {
      RenamesFresh(resourcesRenameMap, srcResources)
    }

    ghost predicate PagesValid()
      reads this`arena, this`pagesDict, this`newPagesDict, this`kids
    {
      PagesValidIn(arena, ppages, pagesDict, newPagesDict, kids)
    }

    /** The appender's invariant: the page tree and the pending delta (see
        MergeReady) and the renames (see RenamesValid). */
    ghost predicate Valid()
      reads this
    {
      MergeReady(arena, ppages, pagesDict, newPagesDict, kids, newObjects, hasNewObject, srcIndirectObjects) &&
      RenamesValid()
    }

    constructor (parser: ParserTable, arena: Arena, root: ObjId, ppages: ObjId, defaultMediaBox: Option<Rect>,
                 greatestObjNum: nat, kids: seq<Obj>, pagesDict: map<int, ObjId>, srcResources: set<string>,
                 srcIndirectObjects: set<ObjId>)
      ensures this.parser == parser && this.arena == arena && this.root == root && this.ppages == ppages
      ensures this.defaultMediaBox == defaultMediaBox && this.greatestObjNum == greatestObjNum
      ensures this.kids == kids && this.pagesDict == pagesDict && this.srcResources == srcResources
      ensures this.srcIndirectObjects == srcIndirectObjects
      ensures newPagesDict == map[] && newObjects == [] && hasNewObject == {}
      ensures resourcesRenameMap == map[]
    {
      this.parser, this.arena, this.root, this.ppages := parser, arena, root, ppages;
      this.defaultMediaBox, this.greatestObjNum := defaultMediaBox, greatestObjNum;
      this.kids, this.pagesDict, this.srcResources := kids, pagesDict, srcResources;
      this.srcIndirectObjects := srcIndirectObjects;
      newPagesDict, newObjects, hasNewObject := map[], [], {};
      resourcesRenameMap := map[];
    }

    // ------------------------------------------------------------------
    // Graph walks

    /** lookupIndirectObjects: marks every indirect object and stream
        reachable from `o` as pre-existing (see LookupWalk). */
    method LookupIndirectObjects(o: Obj)
      modifies this`srcIndirectObjects
      ensures old(srcIndirectObjects) <= srcIndirectObjects
      ensures Occurs(o) <= srcIndirectObjects
      ensures ClosedBeyond(arena, srcIndirectObjects, old(srcIndirectObjects), {}, false)
      ensures LeastAbove(arena, srcIndirectObjects, old(srcIndirectObjects), o, false)
    {
      srcIndirectObjects := LookupWalk(arena, srcIndirectObjects, o);
    }

    /** addNewObjects: queues every indirect object and stream reachable
        from `o` that is neither queued nor pre-existing (see AddWalk). */
    method AddNewObjects(o: Obj)
      requires DeltaValid()
      modifies this`newObjects, this`hasNewObject
      ensures DeltaValid()
      ensures old(newObjects) <= newObjects && old(hasNewObject) <= hasNewObject
      ensures Occurs(o) <= hasNewObject + srcIndirectObjects
      ensures ClosedBeyond(arena, hasNewObject, old(hasNewObject), srcIndirectObjects, true)
      ensures LeastAbove(arena, hasNewObject, old(hasNewObject) + srcIndirectObjects, o, true)
    {
      newObjects, hasNewObject := AddWalk(arena, newObjects, hasNewObject, srcIndirectObjects, o);
    }

    // ------------------------------------------------------------------
    // Resource names

    /** getNewName: `name` followed by the first decimal suffix 1, 2, ...
        that is not a source resource name. */
    method GetNewName(name: string) returns (newName: string)
      ensures IsLeastFreeName(name, srcResources, newName)
      ensures newName !in srcResources
    {
      newName := LeastFreeName(name, srcResources);
    }

    /** renameResources, with the corrected renaming of ChooseNewNames: when
        the page's Contents is an array, the page's resource names that
        clash with source names are renamed (see Renamed); otherwise
        nothing changes. */
    method RenameResources(page: Dict) returns (page': Dict, ghost pairs: map<string, string>)
      requires DeltaValid() && RenamesValid()
      modifies this`arena, this`resourcesRenameMap, this`newObjects, this`hasNewObject
      ensures DeltaValid() && RenamesValid()
      ensures old(newObjects) <= newObjects && old(hasNewObject) <= hasNewObject
      ensures Evolves(old(arena), arena)
      ensures forall key :: key != "Resources" ==> page'.Get(key) == page.Get(key)
      ensures GetArray(old(arena), GetOrNull(page, "Contents")).None? ==>
                page' == page && arena == old(arena) && resourcesRenameMap == old(resourcesRenameMap) &&
                newObjects == old(newObjects)
      ensures GetArray(old(arena), GetOrNull(page, "Contents")).Some? ==>
                Renamed(old(arena), page, arena, page', srcResources, old(resourcesRenameMap), resourcesRenameMap,
                        pairs, hasNewObject + srcIndirectObjects)
    {
      arena, page', resourcesRenameMap, pairs, newObjects, hasNewObject :=
        RenamePage(arena, page, srcResources, resourcesRenameMap, newObjects, hasNewObject, srcIndirectObjects);
    }

    // ------------------------------------------------------------------
    // Pages

    /** MergePageWith: the incoming page's content streams, resources and
        media box are merged into page `pageNum`'s working page, which
        becomes its entry in the page tree (see MergePage). */
    method MergePageWith(pageNum: int, page: PdfPage) returns (err: Option<Error>)
      requires Valid()
      modifies this`arena, this`resourcesRenameMap, this`newObjects, this`hasNewObject, this`newPagesDict, this`kids
      ensures Valid()
      ensures old(newObjects) <= newObjects && old(hasNewObject) <= hasNewObject && Grows(old(arena), arena)
      ensures |kids| == |old(kids)|
      ensures MergeOutcome(parser, old(arena), ppages, defaultMediaBox, pagesDict, old(newPagesDict), old(kids),
                           pageNum, page, arena, newPagesDict, kids, err)
      ensures (pageNum !in pagesDict || PriorPageIn(parser, old(arena), pagesDict, old(newPagesDict), pageNum).Err?) ==>
                newObjects == old(newObjects) && hasNewObject == old(hasNewObject) &&
                resourcesRenameMap == old(resourcesRenameMap)
    {
      arena, newPagesDict, kids, resourcesRenameMap, newObjects, hasNewObject, err :=
        MergePage(parser, arena, ppages, defaultMediaBox, pagesDict, newPagesDict, kids, srcResources,
                  resourcesRenameMap, newObjects, hasNewObject, srcIndirectObjects, pageNum, page);
    }

    /** ReplacePage: page `pageNum` becomes a new page holding `pageDict`
        (see ReplaceAt). */
    method ReplacePage(pageNum: int, pageDict: Dict) returns (err: Option<Error>)
      requires Valid()
      modifies this`arena, this`resourcesRenameMap, this`newObjects, this`hasNewObject, this`pagesDict, this`kids
      ensures Valid()
      ensures old(newObjects) <= newObjects && old(hasNewObject) <= hasNewObject && Grows(old(arena), arena)
      ensures pageNum !in old(pagesDict) ==>
                err == Some(PageDictNotFound(pageNum)) && arena == old(arena) && pagesDict == old(pagesDict) &&
                kids == old(kids) && newObjects == old(newObjects) && hasNewObject == old(hasNewObject) &&
                resourcesRenameMap == old(resourcesRenameMap)
      ensures pageNum in old(pagesDict) ==>
                && err.None? && pageNum in pagesDict
                && pagesDict == old(pagesDict)[pageNum := pagesDict[pageNum]]
                && kids == old(kids)[pageNum := Ptr(pagesDict[pageNum])]
                && pagesDict[pageNum] !in old(arena) && pagesDict[pageNum] in hasNewObject
                && NodeDict(arena, pagesDict[pageNum]).Get("Parent") == Some(Ptr(ppages))
                && (forall k :: k != "Parent" && k != "Resources" ==> NodeDict(arena, pagesDict[pageNum]).Get(k) == pageDict.Get(k))
                && NodeDict(arena, ppages).Get("Kids") == Some(Array(kids))
      ensures NoNewPtrs(old(arena), arena)
      ensures forall x :: (x in old(arena) && x != ppages && !old(arena)[x].StreamNode? &&
                           !Writable(old(arena), GetOrNull(pageDict, "Resources"), x)) ==> arena[x] == old(arena)[x]
      ensures !Writable(old(arena), GetOrNull(pageDict, "Resources"), ppages) ==>
                forall k :: k != "Kids" ==> NodeDict(arena, ppages).Get(k) == NodeDict(old(arena), ppages).Get(k)
    {
      arena, pagesDict, kids, resourcesRenameMap, newObjects, hasNewObject, err :=
        ReplaceAt(arena, ppages, pagesDict, newPagesDict, kids, srcResources, resourcesRenameMap,
                  newObjects, hasNewObject, srcIndirectObjects, pageNum, pageDict);
    }

    /** RemovePage is not implemented: it always fails. */
    method RemovePage(pageNum: int) returns (err: Option<Error>)
      ensures err == Some(RemovePageUnimplemented)
    {
      err := Some(RemovePageUnimplemented);
    }

    /** AddPages: each page is added at the end of the document (see AddPagesAt). */
    method AddPages(pages: seq<Dict>)
      requires Valid()
      requires forall j :: 0 <= j < |pages| ==> ResourcesWithin(arena, pages[j])
      modifies this`arena, this`resourcesRenameMap, this`newObjects, this`hasNewObject, this`pagesDict,
               this`newPagesDict, this`kids
      ensures Valid()
      ensures old(newObjects) <= newObjects && old(hasNewObject) <= hasNewObject
      ensures PagesAdded(old(arena), old(pagesDict), old(newPagesDict), old(kids), arena, pagesDict, newPagesDict, kids,
                         hasNewObject, ppages, pages)
    {
      var a, pd, npd, ks, rrm, q, h :=
        AddPagesAt(arena, ppages, pagesDict, newPagesDict, kids, srcResources, resourcesRenameMap,
                   newObjects, hasNewObject, srcIndirectObjects, pages);
      arena, pagesDict, newPagesDict, kids, resourcesRenameMap, newObjects, hasNewObject := a, pd, npd, ks, rrm, q, h;
    }
  }

  /** Everything reachable from the catalog is a pre-existing object, so the page tree root is one. */
  lemma PagesPreExisting(arena: Arena, root: ObjId, ppages: ObjId, s: set<ObjId>)
    requires DictNode(arena, root) && NodeDict(arena, root).Get("Pages") == Some(Ptr(ppages))
    requires root in s && ClosedBeyond(arena, s, {}, {}, false)
    ensures ppages in s
  {
    var d := NodeDict(arena, root);
    GetEntry(d, "Pages");
    var i :| 0 <= i < |d.entries| && d.entries[i] == Entry("Pages", Ptr(ppages));
    OccursPtr(Ptr(ppages));
    assert ppages in Occurs(d.entries[i].val);
    assert ppages in Occurs(DictObj(d));
  }

  /** What NewPdfAppender opens, on values: the source as OpenSource reads
      it, exactly the objects reachable from the catalog pre-existing, and
      the appender's invariant holding with nothing merged or queued. */
  ghost predicate Opened(parser: ParserTable, arena: Arena, objectNums: seq<nat>, trailer: Option<Dict>,
                         pageList: seq<Option<PageResources>>, d: Source, srcObjects: set<ObjId>) {
    && SourceRead(parser, arena, objectNums, trailer, pageList, d)
    && Occurs(Ptr(d.root)) <= srcObjects
    && ClosedBeyond(d.arena, srcObjects, {}, {}, false)
    && LeastAbove(d.arena, srcObjects, {}, Ptr(d.root), false)
    && MergeReady(d.arena, d.ppages, d.pagesDict, map[], d.kids, [], {}, srcObjects)
  }

  /** The value part of NewPdfAppender: OpenSource, then lookupIndirectObjects
      from the catalog (see LookupWalk). */
  method OpenDocument(parser: ParserTable, arena: Arena, objectNums: seq<nat>, trailer: Option<Dict>,
                      pageList: seq<Option<PageResources>>) returns (r: Result<Source>, srcObjects: set<ObjId>)
    ensures OpenSourceError(parser, arena, trailer).Some? ==> r == Err(OpenSourceError(parser, arena, trailer).value)
    ensures r.Ok? ==> Opened(parser, arena, objectNums, trailer, pageList, r.value, srcObjects)
  {
    srcObjects := {};
    r := OpenSource(parser, arena, objectNums, trailer, pageList);
    if r.Ok? {
      var d := r.value;
      srcObjects := LookupWalk(d.arena, {}, Ptr(d.root));
      OccursPtr(Ptr(d.root));
      PagesPreExisting(d.arena, d.root, d.ppages, srcObjects);
      SourceReady(parser, arena, objectNums, trailer, pageList, d, srcObjects);
    }
  }

  /** The state NewPdfAppender opens: Opened, on the appender's fields, and
      no renaming yet. */
  ghost predicate OpenedOn(parser: ParserTable, arena: Arena, objectNums: seq<nat>, trailer: Option<Dict>,
                           pageList: seq<Option<PageResources>>, a: PdfAppender)
    reads a
  {
    && a.parser == parser
    && Opened(parser, arena, objectNums, trailer, pageList,
              Source(a.arena, a.root, a.ppages, a.defaultMediaBox, a.greatestObjNum, a.kids, a.pagesDict, a.srcResources),
              a.srcIndirectObjects)
    && a.newPagesDict == map[] && a.newObjects == [] && a.hasNewObject == {} && a.resourcesRenameMap == map[]
  }

  /** NewPdfAppender: opens an appender on a source document given by its
      parser table, object graph, object numbers, trailer and the parsed
      resources of its pages (see OpenDocument). */
  method NewPdfAppender(parser: ParserTable, arena: Arena, objectNums: seq<nat>, trailer: Option<Dict>,
                        pageList: seq<Option<PageResources>>) returns (r: Result<PdfAppender>)
    ensures OpenSourceError(parser, arena, trailer).Some? ==> r == Err(OpenSourceError(parser, arena, trailer).value)
    ensures r.Ok? ==> fresh(r.value) && r.value.Valid()
    ensures r.Ok? ==> OpenedOn(parser, arena, objectNums, trailer, pageList, r.value)
  {
    var src, srcObjects := OpenDocument(parser, arena, objectNums, trailer, pageList);
    if src.Err? {
      return Err(src.error);
    }
    var d := src.value;
    var a := new PdfAppender(parser, d.arena, d.root, d.ppages, d.defaultMediaBox, d.greatestObjNum, d.kids,
                             d.pagesDict, d.srcResources, srcObjects);
    assert Source(a.arena, a.root, a.ppages, a.defaultMediaBox, a.greatestObjNum, a.kids, a.pagesDict, a.srcResources) == d;
    return Ok(a);
  }
}

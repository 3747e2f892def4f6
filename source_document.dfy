/** What NewPdfAppender in pdf/model/appender.go reads from the source
    document: the greatest object number, the source page dictionaries
    behind the page tree's Kids, and the resource names of the source
    pages. */
module SourceDocument {
  import opened PdfCore
  import opened PageObjects
  import opened Resources
  import opened PageMerge

  // --------------------------------------------------------------------
  // The greatest object number

  /** The greatest of the reader's object numbers, 0 when there are none. */
  method GreatestObjNum(nums: seq<nat>) returns (g: nat)
    ensures forall i :: 0 <= i < |nums| ==> nums[i] <= g
    ensures g == 0 || g in nums
  {
    g := 0;
    for i := 0 to |nums|
      invariant forall j :: 0 <= j < i ==> nums[j] <= g
      invariant g == 0 || g in nums[..i]
    {
      if g < nums[i] {
        g := nums[i];
      }
    }
  }

  // --------------------------------------------------------------------
  // The catalog and the page tree root

  /** The catalog: the trailer's Root must be a reference to an indirect
      object holding a dictionary. */
  function LocateRoot(parser: ParserTable, arena: Arena, trailer: Option<Dict>): (r: Result<ObjId>)
    ensures trailer.None? ==> r == Err(MissingTrailer)
    ensures trailer.Some? && !GetOrNull(trailer.value, "Root").Ref? ==> r == Err(InvalidRoot)
    ensures trailer.Some? && GetOrNull(trailer.value, "Root").Ref? && GetOrNull(trailer.value, "Root").num !in parser ==>
              r == Err(LookupFailed(GetOrNull(trailer.value, "Root").num))
    ensures trailer.Some? && GetOrNull(trailer.value, "Root").Ref? && GetOrNull(trailer.value, "Root").num in parser ==>
              var o := parser[GetOrNull(trailer.value, "Root").num];
              && (r.Ok? <==> o.Ptr? && DictNode(arena, o.id))
              && (r.Ok? ==> o == Ptr(r.value))
              && (r.Err? ==> r.error == if o.Ptr? && o.id in arena && arena[o.id].IndirectNode? then MissingCatalog
                                        else RootNotIndirect)
  {
    if trailer.None? then Err(MissingTrailer)
    else
      var root := GetOrNull(trailer.value, "Root");
      if !root.Ref? then Err(InvalidRoot)
      else if root.num !in parser then Err(LookupFailed(root.num))
      else
        var o := parser[root.num];
        if !(o.Ptr? && o.id in arena && arena[o.id].IndirectNode?) then Err(RootNotIndirect)
        else if !arena[o.id].payload.DictObj? then Err(MissingCatalog)
        else Ok(o.id)
  }

  /** The page tree root: the catalog's Pages must be a reference to an indirect object. */
  function LocatePages(parser: ParserTable, arena: Arena, catalog: Dict): (r: Result<ObjId>)
    ensures !GetOrNull(catalog, "Pages").Ref? ==> r == Err(PagesNotReference)
    ensures GetOrNull(catalog, "Pages").Ref? && GetOrNull(catalog, "Pages").num !in parser ==>
              r == Err(LookupFailed(GetOrNull(catalog, "Pages").num))
    ensures GetOrNull(catalog, "Pages").Ref? && GetOrNull(catalog, "Pages").num in parser ==>
              var o := parser[GetOrNull(catalog, "Pages").num];
              && (r.Ok? <==> o.Ptr? && o.id in arena && arena[o.id].IndirectNode?)
              && (r.Ok? ==> o == Ptr(r.value))
              && (r.Err? ==> r.error == PagesObjectInvalid)
  {
    var pages := GetOrNull(catalog, "Pages");
    if !pages.Ref? then Err(PagesNotReference)
    else if pages.num !in parser then Err(LookupFailed(pages.num))
    else
      var o := parser[pages.num];
      if o.Ptr? && o.id in arena && arena[o.id].IndirectNode? then Ok(o.id) else Err(PagesObjectInvalid)
  }

  // --------------------------------------------------------------------
  // The source pages

  /** Kid `i` of the page tree: a reference is looked up by number, and the
      result must be an indirect object holding a dictionary. */
  function KidPage(parser: ParserTable, arena: Arena, kid: Obj, i: int): (r: Result<ObjId>)
    ensures kid.Ref? && kid.num !in parser ==> r == Err(LookupFailed(kid.num))
    ensures r.Ok? ==> DictNode(arena, r.value) && (kid.Ref? ==> parser[kid.num] == Ptr(r.value)) &&
                      (!kid.Ref? ==> kid == Ptr(r.value))
    ensures r.Err? && !(kid.Ref? && kid.num !in parser) ==> r == Err(PageDictNotFound(i))
    ensures !(kid.Ref? && kid.num !in parser) ==>
              (r.Ok? <==> var o := if kid.Ref? then parser[kid.num] else kid; o.Ptr? && DictNode(arena, o.id))
  {
    if kid.Ref? && kid.num !in parser then Err(LookupFailed(kid.num))
    else
      var o := if kid.Ref? then parser[kid.num] else kid;
      if o.Ptr? && DictNode(arena, o.id) then Ok(o.id) else Err(PageDictNotFound(i))
  }

  /** The page loop of NewPdfAppender: page `i` is kid `i` of the page tree
      (see KidPage), and the first kid that is not a page is the error. */
  method CollectPages(parser: ParserTable, arena: Arena, kids: seq<Obj>) returns (pages: map<int, ObjId>, err: Option<Error>)
    ensures err.None? <==> forall i :: 0 <= i < |kids| ==> KidPage(parser, arena, kids[i], i).Ok?
    ensures err.None? ==> forall i :: i in pages <==> 0 <= i < |kids|
    ensures err.None? ==> forall i :: 0 <= i < |kids| ==> pages[i] == KidPage(parser, arena, kids[i], i).value
    ensures err.Some? ==> exists i :: 0 <= i < |kids| && KidPage(parser, arena, kids[i], i) == Err(err.value) &&
                                      forall j :: 0 <= j < i ==> KidPage(parser, arena, kids[j], j).Ok?
  {
    pages := map[];
    for i := 0 to |kids|
      invariant forall j :: 0 <= j < i ==> KidPage(parser, arena, kids[j], j).Ok?
      invariant forall j :: j in pages <==> 0 <= j < i
      invariant forall j :: 0 <= j < i ==> pages[j] == KidPage(parser, arena, kids[j], j).value
    {
      var page := KidPage(parser, arena, kids[i], i);
      if page.Err? {
        return pages, Some(page.error);
      }
      pages := pages[i := page.value];
    }
    err := None;
  }

  // --------------------------------------------------------------------
  // The source resource names

  /** A source page's parsed resources: its XObject, ExtGState and Font
      entries, each absent or an object. */
  datatype PageResources = PageResources(xObject: Option<Obj>, extGState: Option<Obj>, font: Option<Obj>)

  /** The keys of a list of entries. */
  function EntryKeys(es: seq<Entry>): set<string> {
    if es == [] then {} else {es[0].key} + EntryKeys(es[1..])
  }

  lemma {:induction false} EntryKeysMeaning(es: seq<Entry>, k: string)
    ensures k in EntryKeys(es) <==> Dict(es).HasKey(k)
  {
    if es != [] {
      EntryKeysMeaning(es[1..], k);
      if Dict(es[1..]).HasKey(k) {
        var i :| 0 <= i < |es[1..]| && es[1..][i].key == k;
        assert es[i + 1].key == k;
      }
      if Dict(es).HasKey(k) && es[0].key != k {
        var i :| 0 <= i < |es| && es[i].key == k;
        assert es[1..][i - 1].key == k;
      }
    }
  }

  lemma {:induction false} EntryKeysAppend(es: seq<Entry>, e: Entry)
    ensures EntryKeys(es + [e]) == EntryKeys(es) + {e.key}
  {
    if es != [] {
      assert (es + [e])[1..] == es[1..] + [e];
      EntryKeysAppend(es[1..], e);
    }
  }

  /** The names setResourceNames collects from one resource entry: the keys
      of the dictionary it is, and none when it is absent or not a
      dictionary (see KeysOfMeaning). */
  function KeysOf(arena: Arena, res: Option<Obj>): set<string> {
    match res
    case None => {}
    case Some(o) =>
      match GetDict(arena, o)
      case None => {}
      case Some(d) => EntryKeys(d.entries)
  }

  lemma KeysOfMeaning(arena: Arena, res: Option<Obj>, k: string)
    ensures k in KeysOf(arena, res) <==> res.Some? && GetDict(arena, res.value).Some? && GetDict(arena, res.value).value.HasKey(k)
  {
    if res.Some? && GetDict(arena, res.value).Some? {
      EntryKeysMeaning(GetDict(arena, res.value).value.entries, k);
    }
  }

  /** The names of one page: none when it has no resources. */
  function PageResNames(arena: Arena, res: Option<PageResources>): set<string> {
    match res
    case None => {}
    case Some(p) => KeysOf(arena, p.xObject) + KeysOf(arena, p.extGState) + KeysOf(arena, p.font)
  }

  /** The names of the first |pages| pages. */
  function AllResNames(arena: Arena, pages: seq<Option<PageResources>>): set<string>
    decreases |pages|
  {
    if pages == [] then {} else AllResNames(arena, pages[..|pages| - 1]) + PageResNames(arena, pages[|pages| - 1])
  }

  /** A name is a source resource name exactly when some source page has
      it as a key of its XObject, ExtGState or Font dictionary. */
  lemma {:induction false} AllResNamesMeaning(arena: Arena, pages: seq<Option<PageResources>>, k: string)
    ensures k in AllResNames(arena, pages) <==> exists i :: 0 <= i < |pages| && k in PageResNames(arena, pages[i])
    decreases |pages|
  {
    if pages != [] {
      var init, last := pages[..|pages| - 1], pages[|pages| - 1];
      assert AllResNames(arena, pages) == AllResNames(arena, init) + PageResNames(arena, last);
      AllResNamesMeaning(arena, init, k);
      if k in AllResNames(arena, init) {
        var i :| 0 <= i < |init| && k in PageResNames(arena, init[i]);
        assert pages[i] == init[i];
      } else if k in PageResNames(arena, last) {
        assert k in PageResNames(arena, pages[|pages| - 1]);
      } else {
        forall i | 0 <= i < |pages| ensures k !in PageResNames(arena, pages[i]) {
          if i < |init| {
            assert init[i] == pages[i];
          }
        }
      }
    }
  }

  /** setResourceNames: adds the keys of the dictionary `res` is. */
  method SetResourceNames(arena: Arena, res: Option<Obj>, names: set<string>) returns (names': set<string>)
    ensures names' == names + KeysOf(arena, res)
  {
    names' := names;
    if res.None? {
      return;
    }
    var dict := GetDict(arena, res.value);
    if dict.None? {
      return;
    }
    var keys := dict.value.Keys();
    for i := 0 to |keys|
      invariant names' == names + EntryKeys(dict.value.entries[..i])
    {
      assert dict.value.entries[..i + 1] == dict.value.entries[..i] + [dict.value.entries[i]];
      EntryKeysAppend(dict.value.entries[..i], dict.value.entries[i]);
      names' := names' + {keys[i]};
    }
    assert dict.value.entries[..|keys|] == dict.value.entries;
  }

  /** The resource-name loop of NewPdfAppender over the reader's page list. */
  method SourceResourceNames(arena: Arena, pages: seq<Option<PageResources>>) returns (names: set<string>)
    ensures names == AllResNames(arena, pages)
  {
    names := {};
    for i := 0 to |pages|
      invariant names == AllResNames(arena, pages[..i])
    {
      assert pages[..i + 1][..i] == pages[..i];
      if pages[i].None? {
        continue;
      }
      var p := pages[i].value;
      names := SetResourceNames(arena, p.xObject, names);
      names := SetResourceNames(arena, p.extGState, names);
      names := SetResourceNames(arena, p.font, names);
    }
    assert pages[..|pages|] == pages;
  }

  // --------------------------------------------------------------------
  // Opening the source document

  /** What an appender reads from the source document. */
  datatype Source = Source(arena: Arena, root: ObjId, ppages: ObjId, defaultMediaBox: Option<Rect>,
                           greatestObjNum: nat, kids: seq<Obj>, pagesDict: map<int, ObjId>,
                           srcResources: set<string>)

  /** The error a catalog or page tree lookup gives, if any. */
  function OpenSourceError(parser: ParserTable, arena: Arena, trailer: Option<Dict>): Option<Error> {
    match LocateRoot(parser, arena, trailer)
    case Err(e) => Some(e)
    case Ok(root) =>
      match LocatePages(parser, arena, NodeDict(arena, root))
      case Err(e) => Some(e)
      case Ok(_) => None
  }

  /** `s` is what NewPdfAppender reads: the catalog and the page tree root
      are the ones the trailer leads to (see LocateRoot and LocatePages),
      the catalog's Pages now is the root's indirect object and nothing else
      changed, the default media box is the root's MediaBox, the pages are
      the root's Kids (see CollectPages), the source resource names are
      those of the page list (see AllResNames), and the greatest object
      number is the maximum of the object numbers. */
  ghost predicate SourceRead(parser: ParserTable, arena: Arena, objectNums: seq<nat>, trailer: Option<Dict>,
                             pageList: seq<Option<PageResources>>, s: Source) {
    && LocateRoot(parser, arena, trailer) == Ok(s.root)
    && DictNode(arena, s.root)
    && LocatePages(parser, arena, NodeDict(arena, s.root)) == Ok(s.ppages)
    && DictNode(s.arena, s.root) && NodeDict(s.arena, s.root).Get("Pages") == Some(Ptr(s.ppages))
    && s.arena.Keys == arena.Keys
    && (forall id :: id in arena && id != s.root ==> s.arena[id] == arena[id])
    && DictNode(s.arena, s.ppages)
    && GetOrNull(NodeDict(s.arena, s.ppages), "Kids") == Array(s.kids)
    && (GetArray(s.arena, GetOrNull(NodeDict(s.arena, s.ppages), "MediaBox")).Some? ==>
          s.defaultMediaBox.Some? &&
          RectFromArray(GetArray(s.arena, GetOrNull(NodeDict(s.arena, s.ppages), "MediaBox")).value) == Ok(s.defaultMediaBox.value))
    && (GetArray(s.arena, GetOrNull(NodeDict(s.arena, s.ppages), "MediaBox")).None? ==> s.defaultMediaBox.None?)
    && (forall i :: i in s.pagesDict <==> 0 <= i < |s.kids|)
    && (forall i :: 0 <= i < |s.kids| ==> KidPage(parser, s.arena, s.kids[i], i) == Ok(s.pagesDict[i]))
    && s.srcResources == AllResNames(s.arena, pageList)
    && (forall i :: 0 <= i < |objectNums| ==> objectNums[i] <= s.greatestObjNum)
    && (s.greatestObjNum == 0 || s.greatestObjNum in objectNums)
  }

  /** The reading part of NewPdfAppender, in the source's order: the
      catalog and page tree lookups (see OpenSourceError), a page tree root
      that is not a dictionary, a MediaBox that is not a rectangle, Kids that
      is not an array, and a kid that is not a page are errors. */
  method OpenSource(parser: ParserTable, arena: Arena, objectNums: seq<nat>, trailer: Option<Dict>,
                    pageList: seq<Option<PageResources>>) returns (r: Result<Source>)
    ensures OpenSourceError(parser, arena, trailer).Some? ==> r == Err(OpenSourceError(parser, arena, trailer).value)
    ensures r.Ok? ==> SourceRead(parser, arena, objectNums, trailer, pageList, r.value)
  {
    var greatest := GreatestObjNum(objectNums);
    var rootR := LocateRoot(parser, arena, trailer);
    if rootR.Err? {
      return Err(rootR.error);
    }
    var root := rootR.value;
    var pagesR := LocatePages(parser, arena, NodeDict(arena, root));
    if pagesR.Err? {
      return Err(pagesR.error);
    }
    var ppages := pagesR.value;
    var arena' := SetNodeEntry(arena, root, "Pages", Ptr(ppages));
    if !arena'[ppages].payload.DictObj? {
      return Err(PagesNotADictionary);
    }
    var pages := arena'[ppages].payload.d;
    var defaultMediaBox: Option<Rect> := None;
    var box := GetArray(arena', GetOrNull(pages, "MediaBox"));
    if box.Some? {
      var rect := RectFromArray(box.value);
      if rect.Err? {
        return Err(rect.error);
      }
      defaultMediaBox := Some(rect.value);
    }
    var kidsObj := GetOrNull(pages, "Kids");
    if !kidsObj.Array? {
      return Err(KidsNotFound);
    }
    var pagesDict, err := CollectPages(parser, arena', kidsObj.elems);
    if err.Some? {
      return Err(err.value);
    }
    var srcResources := SourceResourceNames(arena', pageList);
    return Ok(Source(arena', root, ppages, defaultMediaBox, greatest, kidsObj.elems, pagesDict, srcResources));
  }

  /** What OpenSource reads satisfies the appender's invariant, with
      nothing merged or queued yet, once the page tree root is pre-existing. */
  lemma SourceReady(parser: ParserTable, arena: Arena, objectNums: seq<nat>, trailer: Option<Dict>,
                    pageList: seq<Option<PageResources>>, s: Source, srcObjects: set<ObjId>)
    requires SourceRead(parser, arena, objectNums, trailer, pageList, s)
    requires s.ppages in srcObjects
    ensures MergeReady(s.arena, s.ppages, s.pagesDict, map[], s.kids, [], {}, srcObjects)
  {
    forall i | i in s.pagesDict ensures DictNode(s.arena, s.pagesDict[i]) {
      assert KidPage(parser, s.arena, s.kids[i], i) == Ok(s.pagesDict[i]);
    }
  }
}

/** Replacing and adding pages (ReplacePage and AddPages of
    pdf/model/appender.go) on the appender's state passed by value. */
module PageTree {
  import opened PdfCore
  import opened PageObjects
  import opened Walks
  import opened Resources
  import opened Renaming
  import opened PageMerge

  /** The indices 0 .. n - 1. */
  function Range(n: nat): (r: set<int>)
    ensures |r| == n
    ensures forall i :: i in r <==> 0 <= i < n
  {
    if n == 0 then {} else Range(n - 1) + {n - 1}
  }

  /** A map whose keys are 0 .. n - 1 has n entries. */
  lemma RangeCard(m: map<int, ObjId>, n: nat)
    requires forall i :: i in m <==> 0 <= i < n
    ensures |m| == n
  {
    assert m.Keys == Range(n);
  }

  /** ReplacePage: page `pageNum` becomes a new indirect object holding
      `pageDict` under the page tree root (see InstallPage), in the page map
      and in the page tree's Kids. The working page of an earlier merge is
      left as it is. */
  method ReplaceAt(arena: Arena, ppages: ObjId, pagesDict: map<int, ObjId>, newPagesDict: map<int, ObjId>,
                   kids: seq<Obj>, src: set<string>, rrm0: map<string, string>,
                   q: seq<ObjId>, h: set<ObjId>, srcObjects: set<ObjId>, pageNum: int, pageDict: Dict)
    returns (arena': Arena, pagesDict': map<int, ObjId>, kids': seq<Obj>, rrm: map<string, string>,
             q': seq<ObjId>, h': set<ObjId>, err: Option<Error>)
    requires MergeReady(arena, ppages, pagesDict, newPagesDict, kids, q, h, srcObjects) && RenamesFresh(rrm0, src)
    ensures MergeReady(arena', ppages, pagesDict', newPagesDict, kids', q', h', srcObjects) && RenamesFresh(rrm, src)
    ensures q <= q' && h <= h' && Grows(arena, arena')
    ensures pageNum !in pagesDict ==>
              err == Some(PageDictNotFound(pageNum)) && arena' == arena && pagesDict' == pagesDict && kids' == kids &&
              q' == q && h' == h && rrm == rrm0
    ensures pageNum in pagesDict ==>
              && err.None? && pageNum in pagesDict'
              && pagesDict' == pagesDict[pageNum := pagesDict'[pageNum]]
              && kids' == kids[pageNum := Ptr(pagesDict'[pageNum])]
              && pagesDict'[pageNum] !in arena && pagesDict'[pageNum] in h'
              && NodeDict(arena', pagesDict'[pageNum]).Get("Parent") == Some(Ptr(ppages))
              && (forall k :: k != "Parent" && k != "Resources" ==> NodeDict(arena', pagesDict'[pageNum]).Get(k) == pageDict.Get(k))
              && NodeDict(arena', ppages).Get("Kids") == Some(Array(kids'))
    ensures NoNewPtrs(arena, arena')
    ensures forall x :: (x in arena && x != ppages && !arena[x].StreamNode? &&
                         !Writable(arena, GetOrNull(pageDict, "Resources"), x)) ==> arena'[x] == arena[x]
    ensures !Writable(arena, GetOrNull(pageDict, "Resources"), ppages) ==>
              forall k :: k != "Kids" ==> NodeDict(arena', ppages).Get(k) == NodeDict(arena, ppages).Get(k)
  {
    arena', pagesDict', kids', rrm, q', h', err := arena, pagesDict, kids, rrm0, q, h, None;
    if pageNum !in pagesDict {
      err := Some(PageDictNotFound(pageNum));
      NoNewPtrsRefl(arena);
      return;
    }
    var id, a1;
    a1, id, rrm, q', h' := InstallPage(arena, pageDict, ppages, src, rrm0, q, h, srcObjects);
    EvolvesGrows(arena, a1);
    PagesValidGrows(arena, a1, ppages, pagesDict, newPagesDict, kids);
    pagesDict' := pagesDict[pageNum := id];
    kids' := kids[pageNum := Ptr(id)];
    assert PagesValidIn(a1, ppages, pagesDict', newPagesDict, kids');
    arena' := SetNodeEntry(a1, ppages, "Kids", Array(kids'));
    EntryNoNewPtrs(a1, ppages, "Kids", Array(kids'));
    NoNewPtrsTrans(arena, a1, arena');
    EvolvesGrows(a1, arena');
    GrowsTrans(arena, a1, arena');
    PagesValidGrows(a1, arena', ppages, pagesDict', newPagesDict, kids');
  }

  /** Writing a value that is not a pointer under a key of a dictionary
      node gains no pointer. */
  lemma EntryNoNewPtrs(arena: Arena, id: ObjId, key: string, v: Obj)
    requires DictNode(arena, id) && !v.Ptr?
    ensures NoNewPtrs(arena, SetNodeEntry(arena, id, key, v))
  {
    PtrsAmongSet(NodeDict(arena, id), key, v);
    NoNewPtrsWrite(arena, id, NodeDict(arena, id).Set(key, v));
  }

  /** The page tree root's Kids and Count, as AddPages leaves them. */
  function WriteKidsCount(arena: Arena, ppages: ObjId, kids: seq<Obj>, count: int): (r: Arena)
    requires DictNode(arena, ppages)
    ensures Evolves(arena, r) && DictNode(r, ppages)
    ensures NodeDict(r, ppages).Get("Kids") == Some(Array(kids)) && NodeDict(r, ppages).Get("Count") == Some(Int(count))
    ensures forall k :: k != "Kids" && k != "Count" ==> NodeDict(r, ppages).Get(k) == NodeDict(arena, ppages).Get(k)
    ensures forall other :: other in arena && other != ppages ==> r[other] == arena[other]
  {
    var a1 := SetNodeEntry(arena, ppages, "Kids", Array(kids));
    EvolvesTrans(arena, a1, SetNodeEntry(a1, ppages, "Count", Int(count)));
    SetNodeEntry(a1, ppages, "Count", Int(count))
  }

  /** Writing Kids and Count gains no pointer. */
  lemma KidsCountNoNewPtrs(arena: Arena, ppages: ObjId, kids: seq<Obj>, count: int)
    requires DictNode(arena, ppages)
    ensures NoNewPtrs(arena, WriteKidsCount(arena, ppages, kids, count))
  {
    var d := NodeDict(arena, ppages);
    var d1 := d.Set("Kids", Array(kids));
    PtrsAmongSet(d, "Kids", Array(kids));
    PtrsAmongSet(d1, "Count", Int(count));
    var a1 := arena[ppages := IndirectNode(DictObj(d1))];
    NoNewPtrsWrite(arena, ppages, d1);
    NoNewPtrsWrite(a1, ppages, d1.Set("Count", Int(count)));
    NoNewPtrsTrans(arena, a1, a1[ppages := IndirectNode(DictObj(d1.Set("Count", Int(count))))]);
  }

  /** One page of AddPages, before the page tree root is written: the
      page is installed (see InstallPage) as both the source and the working
      page at the next page index and as the last of the Kids. */
  method AppendPage(arena: Arena, ppages: ObjId, pagesDict: map<int, ObjId>, newPagesDict: map<int, ObjId>,
                    kids: seq<Obj>, src: set<string>, rrm0: map<string, string>,
                    q: seq<ObjId>, h: set<ObjId>, srcObjects: set<ObjId>, pageDict: Dict)
    returns (arena': Arena, id: ObjId, pagesDict': map<int, ObjId>, newPagesDict': map<int, ObjId>, kids': seq<Obj>,
             rrm: map<string, string>, q': seq<ObjId>, h': set<ObjId>)
    requires MergeReady(arena, ppages, pagesDict, newPagesDict, kids, q, h, srcObjects) && RenamesFresh(rrm0, src)
    ensures MergeReady(arena', ppages, pagesDict', newPagesDict', kids', q', h', srcObjects) && RenamesFresh(rrm, src)
    ensures q <= q' && h <= h' && Evolves(arena, arena')
    ensures id !in arena && DictNode(arena', id) && id in h'
    ensures pagesDict' == pagesDict[|kids| := id] && newPagesDict' == newPagesDict[|kids| := id] && kids' == kids + [Ptr(id)]
    ensures NodeDict(arena', id).Get("Parent") == Some(Ptr(ppages))
    ensures forall k :: k != "Parent" && k != "Resources" ==> NodeDict(arena', id).Get(k) == pageDict.Get(k)
    ensures NoNewPtrs(arena, arena')
    ensures forall x :: x in arena && !arena[x].StreamNode? && !Writable(arena, GetOrNull(pageDict, "Resources"), x) ==>
              arena'[x] == arena[x]
  {
    arena', id, rrm, q', h' := InstallPage(arena, pageDict, ppages, src, rrm0, q, h, srcObjects);
    EvolvesGrows(arena, arena');
    PagesValidGrows(arena, arena', ppages, pagesDict, newPagesDict, kids);
    RangeCard(pagesDict, |kids|);
    var index := |pagesDict|;
    pagesDict' := pagesDict[index := id];
    newPagesDict' := newPagesDict[index := id];
    kids' := kids + [Ptr(id)];
    PagesValidAppend(arena', ppages, pagesDict, newPagesDict, kids, id);
    WorkingQueued(newPagesDict, h, h', srcObjects, index, id, newPagesDict');
  }

  /** Appending a dictionary node as the last page keeps the page tree valid. */
  lemma PagesValidAppend(arena: Arena, ppages: ObjId, pagesDict: map<int, ObjId>, newPagesDict: map<int, ObjId>,
                         kids: seq<Obj>, id: ObjId)
    requires PagesValidIn(arena, ppages, pagesDict, newPagesDict, kids) && DictNode(arena, id)
    ensures PagesValidIn(arena, ppages, pagesDict[|kids| := id], newPagesDict[|kids| := id], kids + [Ptr(id)])
  {
  }

  /** One page of AddPages: the page becomes a new indirect object holding
      `pageDict` under the page tree root (see InstallPage), both its source
      and its working page at the next page index, the last of the page
      tree's Kids, and the page tree's Count grows to match. */
  method AddPageAt(arena: Arena, ppages: ObjId, pagesDict: map<int, ObjId>, newPagesDict: map<int, ObjId>,
                   kids: seq<Obj>, src: set<string>, rrm0: map<string, string>,
                   q: seq<ObjId>, h: set<ObjId>, srcObjects: set<ObjId>, pageDict: Dict)
    returns (arena': Arena, id: ObjId, pagesDict': map<int, ObjId>, newPagesDict': map<int, ObjId>, kids': seq<Obj>,
             rrm: map<string, string>, q': seq<ObjId>, h': set<ObjId>)
    requires MergeReady(arena, ppages, pagesDict, newPagesDict, kids, q, h, srcObjects) && RenamesFresh(rrm0, src)
    ensures MergeReady(arena', ppages, pagesDict', newPagesDict', kids', q', h', srcObjects) && RenamesFresh(rrm, src)
    ensures q <= q' && h <= h' && Evolves(arena, arena')
    ensures id !in arena && DictNode(arena', id) && id in h'
    ensures pagesDict' == pagesDict[|kids| := id] && newPagesDict' == newPagesDict[|kids| := id] && kids' == kids + [Ptr(id)]
    ensures NodeDict(arena', id).Get("Parent") == Some(Ptr(ppages))
    ensures forall k :: k != "Parent" && k != "Resources" ==> NodeDict(arena', id).Get(k) == pageDict.Get(k)
    ensures NodeDict(arena', ppages).Get("Kids") == Some(Array(kids'))
    ensures NodeDict(arena', ppages).Get("Count") == Some(Int(|kids'|))
    ensures NoNewPtrs(arena, arena')
    ensures forall x :: (x in arena && x != ppages && !arena[x].StreamNode? &&
                         !Writable(arena, GetOrNull(pageDict, "Resources"), x)) ==> arena'[x] == arena[x]
    ensures !Writable(arena, GetOrNull(pageDict, "Resources"), ppages) ==>
              forall k :: k != "Kids" && k != "Count" ==> NodeDict(arena', ppages).Get(k) == NodeDict(arena, ppages).Get(k)
  {
    var a1;
    a1, id, pagesDict', newPagesDict', kids', rrm, q', h' :=
      AppendPage(arena, ppages, pagesDict, newPagesDict, kids, src, rrm0, q, h, srcObjects, pageDict);
    arena' := WriteKidsCount(a1, ppages, kids', |kids'|);
    KidsCountNoNewPtrs(a1, ppages, kids', |kids'|);
    NoNewPtrsTrans(arena, a1, arena');
    EvolvesTrans(arena, a1, arena');
    EvolvesGrows(a1, arena');
    PagesValidGrows(a1, arena', ppages, pagesDict', newPagesDict', kids');
  }

  /** What AddPages has done so far: the page maps and the Kids of the
      state (`arena0`, `pagesDict0`, `newPagesDict0`, `kids0`) are kept, and
      every index past them holds a distinct new indirect object that is
      both its source and its working page, queued, and its Kids entry. */
  ghost predicate Appended(arena0: Arena, pagesDict0: map<int, ObjId>, newPagesDict0: map<int, ObjId>, kids0: seq<Obj>,
                           pagesDict: map<int, ObjId>, newPagesDict: map<int, ObjId>, kids: seq<Obj>, h: set<ObjId>) {
    && |kids0| <= |kids| && kids[..|kids0|] == kids0
    && (forall k :: k in pagesDict0 ==> k in pagesDict && pagesDict[k] == pagesDict0[k])
    && (forall k :: k in newPagesDict0 ==> k in newPagesDict && newPagesDict[k] == newPagesDict0[k])
    && (forall k :: k in newPagesDict ==> k in newPagesDict0 || |kids0| <= k < |kids|)
    && (forall j :: |kids0| <= j < |kids| ==>
          && j in pagesDict && j in newPagesDict && newPagesDict[j] == pagesDict[j] && kids[j] == Ptr(pagesDict[j])
          && pagesDict[j] !in arena0 && pagesDict[j] in h)
    && (forall j, j' :: |kids0| <= j < j' < |kids| && j in pagesDict && j' in pagesDict ==> pagesDict[j] != pagesDict[j'])
  }

  lemma AppendedStep(arena0: Arena, pagesDict0: map<int, ObjId>, newPagesDict0: map<int, ObjId>, kids0: seq<Obj>,
                     arena: Arena, pagesDict: map<int, ObjId>, newPagesDict: map<int, ObjId>, kids: seq<Obj>, h: set<ObjId>,
                     id: ObjId, h': set<ObjId>)
    requires Appended(arena0, pagesDict0, newPagesDict0, kids0, pagesDict, newPagesDict, kids, h)
    requires Grows(arena0, arena) && id !in arena && h <= h' && id in h'
    requires forall k :: k in pagesDict0 ==> 0 <= k < |kids0|
    requires forall k :: k in newPagesDict0 ==> k in pagesDict0
    requires forall j :: |kids0| <= j < |kids| && j in pagesDict ==> pagesDict[j] in arena
    ensures Appended(arena0, pagesDict0, newPagesDict0, kids0, pagesDict[|kids| := id], newPagesDict[|kids| := id],
                     kids + [Ptr(id)], h')
  {
    var ks := kids + [Ptr(id)];
    assert ks[..|kids0|] == kids[..|kids0|];
  }

  /** The incoming page's resources are objects of the graph: its Resources
      entry, and the values of its Resources dictionary, point only to
      existing nodes. */
  ghost predicate ResourcesWithin(arena: Arena, page: Dict) {
    var r := GetOrNull(page, "Resources");
    && (r.Ptr? ==> r.id in arena && (DictNode(arena, r.id) ==> PtrsIn(NodeDict(arena, r.id), arena.Keys)))
    && (r.DictObj? ==> PtrsIn(r.d, arena.Keys))
  }

  /** The entries of `d` other than Parent and Resources. */
  ghost function Others(d: Dict): map<string, Obj> {
    map k | k in d.Keys() && k != "Parent" && k != "Resources" && d.Get(k).Some? :: d.Get(k).value
  }

  lemma KeysHas(d: Dict, k: string)
    ensures k in d.Keys() <==> d.Get(k).Some?
  {
    if d.Get(k).Some? {
      var i :| 0 <= i < |d.entries| && d.entries[i].key == k;
      assert d.Keys()[i] == k;
    }
  }

  /** Two dictionaries agree on every key but Parent and Resources exactly
      when their Others are equal. */
  lemma OthersAgree(d1: Dict, d2: Dict)
    ensures Others(d1) == Others(d2) <==>
            forall k :: k != "Parent" && k != "Resources" ==> d1.Get(k) == d2.Get(k)
  {
    if forall k :: k != "Parent" && k != "Resources" ==> d1.Get(k) == d2.Get(k) {
      forall k ensures k in Others(d1) <==> k in Others(d2) {
        KeysHas(d1, k);
        KeysHas(d2, k);
      }
    }
    if Others(d1) == Others(d2) {
      forall k | k != "Parent" && k != "Resources" ensures d1.Get(k) == d2.Get(k) {
        KeysHas(d1, k);
        KeysHas(d2, k);
        if k in Others(d1) {
          assert Others(d1)[k] == Others(d2)[k];
        }
      }
    }
  }

  /** Node `id` is an added page holding `page`'s entries under the page
      tree root `ppages`: its Parent is the root, and its entries but Parent
      and Resources are `page`'s (see PageHoldsMeaning). */
  ghost predicate PageHolds(arena: Arena, id: ObjId, ppages: ObjId, page: Dict) {
    id in arena && NodeHolds(arena[id], ppages, page)
  }

  /** The node is a page dictionary under `ppages` holding `page`'s entries. */
  ghost predicate NodeHolds(n: Node, ppages: ObjId, page: Dict) {
    && n.IndirectNode? && n.payload.DictObj?
    && n.payload.d.Get("Parent") == Some(Ptr(ppages))
    && Others(n.payload.d) == Others(page)
  }

  lemma PageHoldsMeaning(arena: Arena, id: ObjId, ppages: ObjId, page: Dict)
    ensures PageHolds(arena, id, ppages, page) <==>
            && DictNode(arena, id)
            && NodeDict(arena, id).Get("Parent") == Some(Ptr(ppages))
            && forall k :: k != "Parent" && k != "Resources" ==> NodeDict(arena, id).Get(k) == page.Get(k)
  {
    if DictNode(arena, id) {
      OthersAgree(NodeDict(arena, id), page);
    }
  }

  /** The Resources dictionary of a page whose resources are objects of
      the original graph still points only to original nodes. */
  lemma ResPtrsWithin(arena: Arena, a0: Arena, page: Dict)
    requires ResourcesWithin(arena, page) && Evolves(arena, a0) && NoNewPtrs(arena, a0)
    ensures var r := GetOrNull(page, "Resources");
      && (r.Ptr? ==> r.id in arena)
      && (GetDict(a0, r).Some? ==> PtrsIn(GetDict(a0, r).value, arena.Keys))
  {
    var r := GetOrNull(page, "Resources");
    if r.Ptr? && GetDict(a0, r).Some? {
      assert DictNode(a0, r.id);
      assert DictNode(arena, r.id);
      PtrsAmongIn(NodeDict(a0, r.id), NodeDict(arena, r.id), arena.Keys);
    }
  }

  /** Renaming such a page never writes a node added since. */
  lemma NewNotWritable(arena: Arena, a0: Arena, page: Dict, x: ObjId)
    requires ResourcesWithin(arena, page) && Evolves(arena, a0) && NoNewPtrs(arena, a0) && x !in arena
    ensures !Writable(a0, GetOrNull(page, "Resources"), x)
  {
    ResPtrsWithin(arena, a0, page);
  }

  /** One step of AddPages writes no node added since `arena`, except
      perhaps streams. */
  lemma AddedNodesKept(arena: Arena, a0: Arena, a1: Arena, ppages: ObjId, page: Dict)
    requires ResourcesWithin(arena, page) && Evolves(arena, a0) && NoNewPtrs(arena, a0) && ppages in arena
    requires a0.Keys <= a1.Keys
    requires forall x :: (x in a0 && x != ppages && !a0[x].StreamNode? &&
                          !Writable(a0, GetOrNull(page, "Resources"), x)) ==> a1[x] == a0[x]
    ensures forall x :: x in a0 && x !in arena && !a0[x].StreamNode? ==> a1[x] == a0[x]
  {
    forall x | x in a0 && x !in arena && !a0[x].StreamNode? ensures a1[x] == a0[x] {
      NewNotWritable(arena, a0, page, x);
    }
  }

  /** The pages at indices lo .. hi - 1 hold pages[0] .. pages[hi - lo - 1]. */
  ghost predicate PagesHold(arena: Arena, pagesDict: map<int, ObjId>, lo: int, hi: int, ppages: ObjId, pages: seq<Dict>) {
    && 0 <= lo && hi - lo <= |pages|
    && forall t :: 0 <= t < hi - lo ==> lo + t in pagesDict && PageHolds(arena, pagesDict[lo + t], ppages, pages[t])
  }

  /** The pages AddPages has added so far: Appended, and the page at
      index |kids0| + j holds the entries of pages[j]. */
  ghost predicate AddedPages(arena0: Arena, pagesDict0: map<int, ObjId>, newPagesDict0: map<int, ObjId>, kids0: seq<Obj>,
                             arena: Arena, pagesDict: map<int, ObjId>, newPagesDict: map<int, ObjId>, kids: seq<Obj>,
                             h: set<ObjId>, ppages: ObjId, pages: seq<Dict>) {
    && Appended(arena0, pagesDict0, newPagesDict0, kids0, pagesDict, newPagesDict, kids, h)
    && PagesHold(arena, pagesDict, |kids0|, |kids|, ppages, pages)
  }

  /** What AddPages has done so far: the pages it added (AddedPages), and
      no dictionary node of the state before gained a pointer. */
  ghost predicate AddedSoFar(arena0: Arena, pagesDict0: map<int, ObjId>, newPagesDict0: map<int, ObjId>, kids0: seq<Obj>,
                             arena: Arena, pagesDict: map<int, ObjId>, newPagesDict: map<int, ObjId>, kids: seq<Obj>,
                             h: set<ObjId>, ppages: ObjId, pages: seq<Dict>) {
    && Evolves(arena0, arena) && NoNewPtrs(arena0, arena)
    && AddedPages(arena0, pagesDict0, newPagesDict0, kids0, arena, pagesDict, newPagesDict, kids, h, ppages, pages)
  }

  /** Renaming one of `pages` may write node `x` of `arena`. */
  ghost predicate WrittenBy(arena: Arena, pages: seq<Dict>, x: ObjId) {
    exists j :: 0 <= j < |pages| && Writable(arena, GetOrNull(pages[j], "Resources"), x)
  }

  /** Between `arena0` and `arena`, adding `pages` wrote no node but the
      page tree root, streams and nodes a renaming of one of the pages may
      write, and the root kept every entry but Kids and Count unless a
      renaming may write it. */
  ghost predicate KeptOutside(arena0: Arena, arena: Arena, ppages: ObjId, pages: seq<Dict>) {
    && (forall x :: (x in arena0 && x != ppages && !arena0[x].StreamNode? && !WrittenBy(arena0, pages, x)) ==>
          x in arena && arena[x] == arena0[x])
    && DictNode(arena0, ppages) && DictNode(arena, ppages)
    && (!WrittenBy(arena0, pages, ppages) ==>
          forall k :: k != "Kids" && k != "Count" ==> NodeDict(arena, ppages).Get(k) == NodeDict(arena0, ppages).Get(k))
  }

  /** What AddPages leaves behind, from the state (`arena0`, `pagesDict0`,
      `newPagesDict0`, `kids0`): the pages are appended in argument order
      (Appended), index |kids0| + j holding pages[j]'s entries; the root's
      Kids and Count match once a page was added, and nothing changes when
      none was; the rest of the graph only changes as KeptOutside allows,
      with no new pointers. */
  ghost predicate PagesAdded(arena0: Arena, pagesDict0: map<int, ObjId>, newPagesDict0: map<int, ObjId>, kids0: seq<Obj>,
                             arena: Arena, pagesDict: map<int, ObjId>, newPagesDict: map<int, ObjId>, kids: seq<Obj>,
                             h: set<ObjId>, ppages: ObjId, pages: seq<Dict>) {
    && Evolves(arena0, arena) && |kids| == |kids0| + |pages|
    && Appended(arena0, pagesDict0, newPagesDict0, kids0, pagesDict, newPagesDict, kids, h)
    && (forall j :: 0 <= j < |pages| ==> |kids0| + j in pagesDict && PageHolds(arena, pagesDict[|kids0| + j], ppages, pages[j]))
    && (pages == [] ==> arena == arena0 && pagesDict == pagesDict0 && newPagesDict == newPagesDict0 && kids == kids0)
    && (pages != [] ==> DictNode(arena, ppages) && NodeDict(arena, ppages).Get("Kids") == Some(Array(kids)) &&
                        NodeDict(arena, ppages).Get("Count") == Some(Int(|kids|)))
    && NoNewPtrs(arena0, arena) && KeptOutside(arena0, arena, ppages, pages)
  }

  /** A node whose identity a page's Resources could not write before the
      graph evolved without new pointers, it cannot write after. */
  lemma WritableShrinks(a0: Arena, a1: Arena, r: Obj, x: ObjId)
    requires Evolves(a0, a1) && NoNewPtrs(a0, a1) && (r.Ptr? ==> r.id in a0)
    ensures Writable(a1, r, x) ==> Writable(a0, r, x)
  {
    if r.Ptr? && DictNode(a0, r.id) && GetDict(a1, r).Some? && HasPtr(GetDict(a1, r).value, x) {
      var k :| GetDict(a1, r).value.Get(k) == Some(Ptr(x));
      assert HasPtr(GetDict(a0, r).value, x);
    }
  }

  /** KeptOutside extended by one page added by AddPageAt. */
  lemma KeptStep(arena0: Arena, arena: Arena, arena': Arena, ppages: ObjId, pages: seq<Dict>, i: nat)
    requires i < |pages| && ResourcesWithin(arena0, pages[i])
    requires Evolves(arena0, arena) && NoNewPtrs(arena0, arena) && KeptOutside(arena0, arena, ppages, pages)
    requires arena.Keys <= arena'.Keys && DictNode(arena', ppages)
    requires forall x :: (x in arena && x != ppages && !arena[x].StreamNode? &&
                          !Writable(arena, GetOrNull(pages[i], "Resources"), x)) ==> arena'[x] == arena[x]
    requires !Writable(arena, GetOrNull(pages[i], "Resources"), ppages) ==>
               forall k :: k != "Kids" && k != "Count" ==> NodeDict(arena', ppages).Get(k) == NodeDict(arena, ppages).Get(k)
    ensures KeptOutside(arena0, arena', ppages, pages)
  {
    var r := GetOrNull(pages[i], "Resources");
    forall x | x in arena0 && !WrittenBy(arena0, pages, x) ensures !Writable(arena, r, x) {
      WritableShrinks(arena0, arena, r, x);
    }
  }

  /** One turn of AddPages' loop: page `pages[i]` is added (see AddPageAt)
      and what was done before is kept. */
  method AddPagesStep(arena: Arena, ppages: ObjId, pagesDict: map<int, ObjId>, newPagesDict: map<int, ObjId>,
                      kids: seq<Obj>, src: set<string>, rrm0: map<string, string>,
                      q: seq<ObjId>, h: set<ObjId>, srcObjects: set<ObjId>, pages: seq<Dict>, i: nat,
                      ghost arena0: Arena, ghost pagesDict0: map<int, ObjId>, ghost newPagesDict0: map<int, ObjId>,
                      ghost kids0: seq<Obj>)
    returns (arena': Arena, pagesDict': map<int, ObjId>, newPagesDict': map<int, ObjId>, kids': seq<Obj>,
             rrm: map<string, string>, q': seq<ObjId>, h': set<ObjId>)
    requires MergeReady(arena, ppages, pagesDict, newPagesDict, kids, q, h, srcObjects) && RenamesFresh(rrm0, src)
    requires PagesValidIn(arena0, ppages, pagesDict0, newPagesDict0, kids0)
    requires i < |pages| && |kids| == |kids0| + i && ResourcesWithin(arena0, pages[i])
    requires AddedSoFar(arena0, pagesDict0, newPagesDict0, kids0, arena, pagesDict, newPagesDict, kids, h, ppages, pages)
    requires KeptOutside(arena0, arena, ppages, pages)
    ensures MergeReady(arena', ppages, pagesDict', newPagesDict', kids', q', h', srcObjects) && RenamesFresh(rrm, src)
    ensures q <= q' && h <= h' && |kids'| == |kids| + 1
    ensures AddedSoFar(arena0, pagesDict0, newPagesDict0, kids0, arena', pagesDict', newPagesDict', kids', h', ppages, pages)
    ensures NodeDict(arena', ppages).Get("Kids") == Some(Array(kids')) &&
            NodeDict(arena', ppages).Get("Count") == Some(Int(|kids'|))
    ensures KeptOutside(arena0, arena', ppages, pages)
  {
    var id;
    arena', id, pagesDict', newPagesDict', kids', rrm, q', h' :=
      AddPageAt(arena, ppages, pagesDict, newPagesDict, kids, src, rrm0, q, h, srcObjects, pages[i]);
    EvolvesGrows(arena0, arena);
    EvolvesGrows(arena, arena');
    AddedNodesKept(arena0, arena, arena', ppages, pages[i]);
    KeptStep(arena0, arena, arena', ppages, pages, i);
    NoNewPtrsTrans(arena0, arena, arena');
    EvolvesTrans(arena0, arena, arena');
    AddedPagesGrow(arena0, pagesDict0, newPagesDict0, kids0, arena, pagesDict, newPagesDict, kids, h,
                   ppages, pages, i, arena', id, h');
  }

  /** One step of AddPages adds page `pages[i]` to AddedPages. */
  lemma AddedPagesGrow(arena0: Arena, pagesDict0: map<int, ObjId>, newPagesDict0: map<int, ObjId>, kids0: seq<Obj>,
                       arena: Arena, pagesDict: map<int, ObjId>, newPagesDict: map<int, ObjId>, kids: seq<Obj>,
                       h: set<ObjId>, ppages: ObjId, pages: seq<Dict>, i: nat, arena': Arena, id: ObjId, h': set<ObjId>)
    requires PagesValidIn(arena0, ppages, pagesDict0, newPagesDict0, kids0)
    requires i < |pages| && |kids| == |kids0| + i
    requires AddedPages(arena0, pagesDict0, newPagesDict0, kids0, arena, pagesDict, newPagesDict, kids, h, ppages, pages)
    requires Grows(arena0, arena) && arena.Keys <= arena'.Keys && id !in arena && DictNode(arena', id) && h <= h' && id in h'
    requires NodeDict(arena', id).Get("Parent") == Some(Ptr(ppages))
    requires forall k :: k != "Parent" && k != "Resources" ==> NodeDict(arena', id).Get(k) == pages[i].Get(k)
    requires forall x :: x in arena && x !in arena0 && !arena[x].StreamNode? ==> arena'[x] == arena[x]
    ensures AddedPages(arena0, pagesDict0, newPagesDict0, kids0, arena', pagesDict[|kids| := id],
                       newPagesDict[|kids| := id], kids + [Ptr(id)], h', ppages, pages)
  {
    AppendedGrow(arena0, pagesDict0, newPagesDict0, kids0, arena, pagesDict, newPagesDict, kids, h, ppages, pages, id, h');
    AddedHoldStep(arena0, arena, arena', pagesDict, pagesDict[|kids| := id], |kids0|, |kids|, id, ppages, pages, pages[i]);
  }

  /** The new page extends Appended. */
  lemma AppendedGrow(arena0: Arena, pagesDict0: map<int, ObjId>, newPagesDict0: map<int, ObjId>, kids0: seq<Obj>,
                     arena: Arena, pagesDict: map<int, ObjId>, newPagesDict: map<int, ObjId>, kids: seq<Obj>,
                     h: set<ObjId>, ppages: ObjId, pages: seq<Dict>, id: ObjId, h': set<ObjId>)
    requires PagesValidIn(arena0, ppages, pagesDict0, newPagesDict0, kids0)
    requires AddedPages(arena0, pagesDict0, newPagesDict0, kids0, arena, pagesDict, newPagesDict, kids, h, ppages, pages)
    requires Grows(arena0, arena) && id !in arena && h <= h' && id in h'
    ensures Appended(arena0, pagesDict0, newPagesDict0, kids0, pagesDict[|kids| := id], newPagesDict[|kids| := id],
                     kids + [Ptr(id)], h')
    ensures forall j :: |kids0| <= j < |kids| ==> j in pagesDict && pagesDict[j] !in arena0
  {
    assert forall j :: |kids0| <= j < |kids| ==> pagesDict[j] in arena by {
      forall j | |kids0| <= j < |kids| ensures pagesDict[j] in arena {
        var t := j - |kids0|;
        assert PageHolds(arena, pagesDict[|kids0| + t], ppages, pages[t]);
      }
    }
    AppendedStep(arena0, pagesDict0, newPagesDict0, kids0, arena, pagesDict, newPagesDict, kids, h, id, h');
  }

  /** The pages added before, untouched since, and the one added now hold their entries. */
  lemma AddedHoldStep(arena0: Arena, arena: Arena, arena': Arena, pagesDict: map<int, ObjId>, pd: map<int, ObjId>,
                      lo: int, hi: int, id: ObjId, ppages: ObjId, pages: seq<Dict>, page: Dict)
    requires 0 <= lo <= hi && hi - lo < |pages| && page == pages[hi - lo]
    requires PagesHold(arena, pagesDict, lo, hi, ppages, pages)
    requires forall j :: lo <= j < hi ==> j in pagesDict && pagesDict[j] !in arena0
    requires pd == pagesDict[hi := id] && arena.Keys <= arena'.Keys
    requires forall x :: x in arena && x !in arena0 && !arena[x].StreamNode? ==> arena'[x] == arena[x]
    requires DictNode(arena', id) && NodeDict(arena', id).Get("Parent") == Some(Ptr(ppages))
    requires forall k :: k != "Parent" && k != "Resources" ==> NodeDict(arena', id).Get(k) == page.Get(k)
    ensures PagesHold(arena', pd, lo, hi + 1, ppages, pages)
  {
    NewPageHolds(arena', id, ppages, page);
    forall j | lo <= j < hi ensures j in pagesDict && pagesDict[j] in arena && arena'[pagesDict[j]] == arena[pagesDict[j]] {
      assert PageHolds(arena, pagesDict[lo + (j - lo)], ppages, pages[j - lo]);
    }
    HoldsAppend(arena, arena', pagesDict, pd, lo, hi, id, ppages, pages);
  }

  /** PagesHold extended by one page, when the earlier pages' nodes are unchanged. */
  lemma HoldsAppend(arena: Arena, arena': Arena, pagesDict: map<int, ObjId>, pd: map<int, ObjId>,
                    lo: int, hi: int, id: ObjId, ppages: ObjId, pages: seq<Dict>)
    requires 0 <= lo <= hi && hi - lo < |pages|
    requires PagesHold(arena, pagesDict, lo, hi, ppages, pages)
    requires pd == pagesDict[hi := id]
    requires arena.Keys <= arena'.Keys
    requires forall j :: lo <= j < hi ==> j in pagesDict && pagesDict[j] in arena && arena'[pagesDict[j]] == arena[pagesDict[j]]
    requires PageHolds(arena', id, ppages, pages[hi - lo])
    ensures PagesHold(arena', pd, lo, hi + 1, ppages, pages)
  {
    forall t | 0 <= t < hi + 1 - lo ensures lo + t in pd && PageHolds(arena', pd[lo + t], ppages, pages[t]) {
      if lo + t < hi {
        assert pd[lo + t] == pagesDict[lo + t];
        PageHoldsKept(arena, arena', pagesDict[lo + t], ppages, pages[t]);
      } else {
        assert t == hi - lo && pd[lo + t] == id;
      }
    }
  }

  lemma PageHoldsKept(arena: Arena, arena': Arena, x: ObjId, ppages: ObjId, page: Dict)
    requires PageHolds(arena, x, ppages, page) && x in arena' && arena'[x] == arena[x]
    ensures PageHolds(arena', x, ppages, page)
  {
  }

  lemma NewPageHolds(arena: Arena, id: ObjId, ppages: ObjId, page: Dict)
    requires DictNode(arena, id) && NodeDict(arena, id).Get("Parent") == Some(Ptr(ppages))
    requires forall k :: k != "Parent" && k != "Resources" ==> NodeDict(arena, id).Get(k) == page.Get(k)
    ensures PageHolds(arena, id, ppages, page)
  {
    PageHoldsMeaning(arena, id, ppages, page);
  }

  /** AddPages: each page is added in turn (see AddPageAt). */
  method AddPagesAt(arena: Arena, ppages: ObjId, pagesDict: map<int, ObjId>, newPagesDict: map<int, ObjId>,
                    kids: seq<Obj>, src: set<string>, rrm0: map<string, string>,
                    q: seq<ObjId>, h: set<ObjId>, srcObjects: set<ObjId>, pages: seq<Dict>)
    returns (arena': Arena, pagesDict': map<int, ObjId>, newPagesDict': map<int, ObjId>, kids': seq<Obj>,
             rrm: map<string, string>, q': seq<ObjId>, h': set<ObjId>)
    requires MergeReady(arena, ppages, pagesDict, newPagesDict, kids, q, h, srcObjects) && RenamesFresh(rrm0, src)
    requires forall j :: 0 <= j < |pages| ==> ResourcesWithin(arena, pages[j])
    ensures MergeReady(arena', ppages, pagesDict', newPagesDict', kids', q', h', srcObjects) && RenamesFresh(rrm, src)
    ensures q <= q' && h <= h'
    ensures PagesAdded(arena, pagesDict, newPagesDict, kids, arena', pagesDict', newPagesDict', kids', h', ppages, pages)
  {
    arena', pagesDict', newPagesDict', kids', rrm, q', h' := arena, pagesDict, newPagesDict, kids, rrm0, q, h;
    NoNewPtrsRefl(arena);
    for i := 0 to |pages|
      invariant MergeReady(arena', ppages, pagesDict', newPagesDict', kids', q', h', srcObjects) && RenamesFresh(rrm, src)
      invariant q <= q' && h <= h' && |kids'| == |kids| + i
      invariant AddedSoFar(arena, pagesDict, newPagesDict, kids, arena', pagesDict', newPagesDict', kids', h', ppages, pages)
      invariant i == 0 ==> arena' == arena && pagesDict' == pagesDict && newPagesDict' == newPagesDict && kids' == kids
      invariant i > 0 ==> NodeDict(arena', ppages).Get("Kids") == Some(Array(kids')) &&
                          NodeDict(arena', ppages).Get("Count") == Some(Int(|kids'|))
      invariant KeptOutside(arena, arena', ppages, pages)
    {
      arena', pagesDict', newPagesDict', kids', rrm, q', h' :=
        AddPagesStep(arena', ppages, pagesDict', newPagesDict', kids', src, rrm, q', h', srcObjects, pages, i,
                     arena, pagesDict, newPagesDict, kids);
    }
  }
}

/** The resource side of renameResources: which resource dictionary of a page
    holds each name (getPageResourcesByName), where those dictionaries live
    so that re-keying writes them back in place, and the rewriting of the
    page's content streams. */
module Resources {
  import opened PdfCore
  import opened GoStrings
  import opened PageObjects
  import opened Walks

  // --------------------------------------------------------------------
  // getPageResourcesByName

  /** The three resource dictionaries whose names can collide. */
  datatype ResKind = ExtGStateRes | XObjectRes | FontRes

  function KindKey(k: ResKind): string
  {
    match k
    case ExtGStateRes => "ExtGState"
    case XObjectRes => "XObject"
    case FontRes => "Font"
  }

  lemma KindKeyInjective(k1: ResKind, k2: ResKind)
    requires KindKey(k1) == KindKey(k2)
    ensures k1 == k2
  {
    assert "Font"[0] == 'F' && "ExtGState"[0] == 'E' && "XObject"[0] == 'X';
  }

  /** The order getPageResourcesByName visits the dictionaries in; a name in
      several of them ends up recorded with the last. */
  const GatherOrder: seq<ResKind> := [ExtGStateRes, XObjectRes, FontRes]

  /** The page's Resources entry, traced and required to be a dictionary. */
  function ResourcesOf(parser: Option<ParserTable>, arena: Arena, page: Dict): Result<Dict> {
    GetDictOf(arena, TraceObject(parser, GetOrNull(page, "Resources")))
  }

  /** One resource dictionary of `res`, traced and required to be a dictionary. */
  function SubDictOf(parser: Option<ParserTable>, arena: Arena, res: Dict, k: ResKind): Result<Dict> {
    GetDictOf(arena, TraceObject(parser, GetOrNull(res, KindKey(k))))
  }

  /** `dest` with every key of `d` recorded as held by the dictionary of kind `k`. */
  function WithKeys(dest: map<string, ResKind>, d: Dict, k: ResKind): (r: map<string, ResKind>)
    ensures forall n :: n in r <==> n in dest || d.HasKey(n)
    ensures forall n :: n in r ==> r[n] == if d.HasKey(n) then k else dest[n]
  {
    map n | n in dest.Keys + (set i | 0 <= i < |d.entries| :: d.entries[i].key) ::
      if d.HasKey(n) then k else dest[n]
  }

  /** The dictionaries of `kinds` in turn, stopping at the first that is missing. */
  function GatherFrom(parser: Option<ParserTable>, arena: Arena, res: Dict, kinds: seq<ResKind>,
                      dest: map<string, ResKind>): (map<string, ResKind>, Option<Error>)
    decreases |kinds|
  {
    if kinds == [] then (dest, None)
    else
      match SubDictOf(parser, arena, res, kinds[0])
      case Err(e) => (dest, Some(e))
      case Ok(d) => GatherFrom(parser, arena, res, kinds[1..], WithKeys(dest, d, kinds[0]))
  }

  /** What getPageResourcesByName leaves in `dest`, with the error it returns.
      On an error, the names gathered before it stay in `dest`. */
  function PageResourceNames(parser: Option<ParserTable>, arena: Arena, page: Dict,
                             dest: map<string, ResKind>): (map<string, ResKind>, Option<Error>)
  {
    match ResourcesOf(parser, arena, page)
    case Err(e) => (dest, Some(e))
    case Ok(res) => GatherFrom(parser, arena, res, GatherOrder, dest)
  }

  lemma {:induction false} GatherFromMeaning(parser: Option<ParserTable>, arena: Arena, res: Dict,
                                             kinds: seq<ResKind>, dest: map<string, ResKind>)
    ensures var r := GatherFrom(parser, arena, res, kinds, dest);
      && dest.Keys <= r.0.Keys
      && (forall n :: n in r.0 ==>
            (n in dest && r.0[n] == dest[n]) ||
            (r.0[n] in kinds && SubDictOf(parser, arena, res, r.0[n]).Ok? &&
             SubDictOf(parser, arena, res, r.0[n]).value.HasKey(n)))
      && (r.1.None? ==> forall k :: k in kinds ==> SubDictOf(parser, arena, res, k).Ok?)
      && (r.1.None? ==> forall k, n :: (k in kinds && SubDictOf(parser, arena, res, k).Ok? &&
            SubDictOf(parser, arena, res, k).value.HasKey(n)) ==> n in r.0)
      && (r.1.None? && kinds != [] ==> forall n ::
            SubDictOf(parser, arena, res, kinds[|kinds| - 1]).Ok? &&
            SubDictOf(parser, arena, res, kinds[|kinds| - 1]).value.HasKey(n) ==>
              n in r.0 && r.0[n] == kinds[|kinds| - 1])
    decreases |kinds|
  {
    if kinds != [] {
      match SubDictOf(parser, arena, res, kinds[0])
      case Err(e) =>
      case Ok(d) =>
        var rest := kinds[1..];
        var dest' := WithKeys(dest, d, kinds[0]);
        assert GatherFrom(parser, arena, res, kinds, dest) == GatherFrom(parser, arena, res, rest, dest');
        GatherFromMeaning(parser, arena, res, rest, dest');
        assert forall k :: k in kinds <==> k == kinds[0] || k in rest;
        if rest != [] {
          assert kinds[|kinds| - 1] == rest[|rest| - 1];
        }
    }
  }

  /** The resource names of a page: each is held by the dictionary it is
      recorded with; when nothing is missing every name of the three
      dictionaries is recorded, and a name that is also a font name is
      recorded as a font. */
  lemma PageResourceNamesMeaning(parser: Option<ParserTable>, arena: Arena, page: Dict)
    ensures var r := PageResourceNames(parser, arena, page, map[]);
      && (r.0 != map[] ==> ResourcesOf(parser, arena, page).Ok?)
      && (forall n :: n in r.0 ==>
            SubDictOf(parser, arena, ResourcesOf(parser, arena, page).value, r.0[n]).Ok? &&
            SubDictOf(parser, arena, ResourcesOf(parser, arena, page).value, r.0[n]).value.HasKey(n))
      && (r.1.None? ==> ResourcesOf(parser, arena, page).Ok? && forall k, n ::
            (SubDictOf(parser, arena, ResourcesOf(parser, arena, page).value, k).Ok? &&
             SubDictOf(parser, arena, ResourcesOf(parser, arena, page).value, k).value.HasKey(n)) ==> n in r.0)
      && (r.1.None? ==> forall n ::
            SubDictOf(parser, arena, ResourcesOf(parser, arena, page).value, FontRes).Ok? &&
            SubDictOf(parser, arena, ResourcesOf(parser, arena, page).value, FontRes).value.HasKey(n) ==>
              n in r.0 && r.0[n] == FontRes)
  {
    match ResourcesOf(parser, arena, page)
    case Err(e) =>
    case Ok(res) =>
      GatherFromMeaning(parser, arena, res, GatherOrder, map[]);
      forall k: ResKind ensures k in GatherOrder {
        match k
        case ExtGStateRes => assert GatherOrder[0] == k;
        case XObjectRes => assert GatherOrder[1] == k;
        case FontRes => assert GatherOrder[2] == k;
      }
  }

  lemma WithKeysStep(dest: map<string, ResKind>, es: seq<Entry>, k: ResKind, i: nat)
    requires i < |es|
    ensures WithKeys(dest, Dict(es[..i + 1]), k) == WithKeys(dest, Dict(es[..i]), k)[es[i].key := k]
  {
    var short, long := Dict(es[..i]), Dict(es[..i + 1]);
    forall n ensures long.HasKey(n) <==> short.HasKey(n) || n == es[i].key {
      if long.HasKey(n) {
        var j :| 0 <= j < i + 1 && long.entries[j].key == n;
        if j < i {
          assert short.entries[j].key == n;
        }
      }
      if short.HasKey(n) {
        var j :| 0 <= j < i && short.entries[j].key == n;
        assert long.entries[j].key == n;
      }
      assert long.entries[i].key == es[i].key;
    }
  }

  /** A `for _, key := range d.Keys()` loop recording each key with kind `k`. */
  method AddNames(dest: map<string, ResKind>, d: Dict, k: ResKind) returns (r: map<string, ResKind>)
    ensures r == WithKeys(dest, d, k)
  {
    r := dest;
    var keys := d.Keys();
    for i := 0 to |keys|
      invariant r == WithKeys(dest, Dict(d.entries[..i]), k)
    {
      WithKeysStep(dest, d.entries, k, i);
      r := r[keys[i] := k];
    }
    assert d.entries[..|keys|] == d.entries;
  }

  /** getPageResourcesByName: records in `dest` the names of the page's
      ExtGState, XObject and Font dictionaries, in that order, and stops with
      an error at the first of Resources, ExtGState, XObject and Font that
      is not a dictionary. */
  method GetPageResourcesByName(parser: Option<ParserTable>, arena: Arena, page: Dict,
                                dest: map<string, ResKind>)
    returns (dest': map<string, ResKind>, err: Option<Error>)
    ensures (dest', err) == PageResourceNames(parser, arena, page, dest)
  {
    var resources := ResourcesOf(parser, arena, page);
    if resources.Err? {
      return dest, Some(resources.error);
    }
    var res := resources.value;
    dest' := dest;
    var extGState := SubDictOf(parser, arena, res, ExtGStateRes);
    if extGState.Err? {
      return dest', Some(extGState.error);
    }
    dest' := AddNames(dest', extGState.value, ExtGStateRes);
    var xObject := SubDictOf(parser, arena, res, XObjectRes);
    if xObject.Err? {
      return dest', Some(xObject.error);
    }
    dest' := AddNames(dest', xObject.value, XObjectRes);
    var font := SubDictOf(parser, arena, res, FontRes);
    if font.Err? {
      return dest', Some(font.error);
    }
    dest' := AddNames(dest', font.value, FontRes);
    err := None;
  }

  // --------------------------------------------------------------------
  // Where the resource dictionaries of a page live

  /** A resource dictionary is either the payload of an indirect object or
      held inline in the Resources dictionary. */
  datatype Loc = Node(id: ObjId) | Inline(kind: ResKind)

  /** A node that is an indirect object whose payload is a dictionary. */
  predicate DictNode(arena: Arena, id: ObjId) {
    id in arena && arena[id].IndirectNode? && arena[id].payload.DictObj?
  }

  /** The page's Resources dictionary, when it is one. */
  function ResOf(arena: Arena, page: Dict): Option<Dict> {
    GetDict(arena, GetOrNull(page, "Resources"))
  }

  /** Where a resource dictionary held as entry `o` of Resources lives. */
  function EntryLoc(arena: Arena, o: Obj, k: ResKind): Option<Loc> {
    if o.Ptr? && DictNode(arena, o.id) then Some(Node(o.id))
    else if o.DictObj? then Some(Inline(k))
    else None
  }

  /** Where the page's resource dictionary of kind `k` lives, when there is
      one. There is no parser while renaming, so a reference is not followed. */
  function SubLoc(arena: Arena, page: Dict, k: ResKind): Option<Loc> {
    match ResOf(arena, page)
    case None => None
    case Some(res) => EntryLoc(arena, GetOrNull(res, KindKey(k)), k)
  }

  /** The page's resource dictionary of kind `k`, read from where it lives. */
  function ResDict(arena: Arena, page: Dict, k: ResKind): (r: Option<Dict>)
    ensures r.Some? <==> SubLoc(arena, page, k).Some?
  {
    match SubLoc(arena, page, k)
    case None => None
    case Some(Node(id)) => Some(arena[id].payload.d)
    case Some(Inline(_)) => Some(GetOrNull(ResOf(arena, page).value, KindKey(k)).d)
  }

  /** Without a parser, the dictionaries found by getPageResourcesByName are
      the ones ResDict reads. */
  lemma ResDictIsSubDict(arena: Arena, page: Dict, k: ResKind)
    requires ResourcesOf(None, arena, page).Ok?
    ensures SubDictOf(None, arena, ResourcesOf(None, arena, page).value, k).Ok? <==> ResDict(arena, page, k).Some?
    ensures ResDict(arena, page, k).Some? ==>
              ResDict(arena, page, k).value == SubDictOf(None, arena, ResourcesOf(None, arena, page).value, k).value
  {
  }

  /** The Resources object is not itself one of its resource dictionaries. */
  ghost predicate Separate(arena: Arena, page: Dict) {
    var resObj := GetOrNull(page, "Resources");
    resObj.Ptr? ==> forall k :: SubLoc(arena, page, k) != Some(Node(resObj.id))
  }

  /** Writes `d` back where the page's resource dictionary of kind `k` lives. */
  function StoreSub(arena: Arena, page: Dict, k: ResKind, d: Dict): (r: (Arena, Dict))
    requires SubLoc(arena, page, k).Some?
  {
    match SubLoc(arena, page, k).value
    case Node(id) => (arena[id := IndirectNode(DictObj(d))], page)
    case Inline(_) =>
      var resObj := GetOrNull(page, "Resources");
      var res' := ResOf(arena, page).value.Set(KindKey(k), DictObj(d));
      if resObj.Ptr? then (arena[resObj.id := IndirectNode(DictObj(res'))], page)
      else (arena, page.Set("Resources", DictObj(res')))
  }

  /** Between `a0` and `a1` only dictionary payloads of indirect objects changed. */
  ghost predicate OnlyDictNodesChanged(a0: Arena, a1: Arena) {
    a0.Keys == a1.Keys && forall id :: id in a0 ==> a1[id] == a0[id] || (DictNode(a0, id) && DictNode(a1, id))
  }

  lemma OnlyDictNodesChangedTrans(a0: Arena, a1: Arena, a2: Arena)
    requires OnlyDictNodesChanged(a0, a1) && OnlyDictNodesChanged(a1, a2)
    ensures OnlyDictNodesChanged(a0, a2)
  {
  }

  // --------------------------------------------------------------------
  // What renaming may write

  /** Some value of `d` points to `id`. */
  ghost predicate HasPtr(d: Dict, id: ObjId) {
    exists k :: d.Get(k) == Some(Ptr(id))
  }

  /** Every identity a value of `d1` points to, a value of `d0` points to. */
  ghost predicate PtrsAmong(d1: Dict, d0: Dict) {
    forall k :: d1.Get(k).Some? && d1.Get(k).value.Ptr? ==> HasPtr(d0, d1.Get(k).value.id)
  }

  /** Every value of `d` that is a pointer points into `ids`. */
  ghost predicate PtrsIn(d: Dict, ids: set<ObjId>) {
    forall k :: d.Get(k).Some? && d.Get(k).value.Ptr? ==> d.Get(k).value.id in ids
  }

  lemma PtrsAmongIn(d1: Dict, d0: Dict, ids: set<ObjId>)
    requires PtrsAmong(d1, d0) && PtrsIn(d0, ids)
    ensures PtrsIn(d1, ids)
  {
    forall k | d1.Get(k).Some? && d1.Get(k).value.Ptr? ensures d1.Get(k).value.id in ids {
      var k0 :| d0.Get(k0) == d1.Get(k);
    }
  }

  /** Setting a value that is not a pointer, or one the dictionary already holds, adds no pointer. */
  lemma PtrsAmongSet(d: Dict, k: string, v: Obj)
    requires v.Ptr? ==> HasPtr(d, v.id)
    ensures PtrsAmong(d.Set(k, v), d)
  {
    forall k' | d.Set(k, v).Get(k').Some? && d.Set(k, v).Get(k').value.Ptr?
      ensures HasPtr(d, d.Set(k, v).Get(k').value.id)
    {
      if k' != k {
        assert d.Get(k') == d.Set(k, v).Get(k');
      }
    }
  }

  /** Re-keying moves a value within a dictionary, so it adds no pointer. */
  lemma PtrsAmongRekey(d: Dict, n: string, newN: string)
    ensures PtrsAmong(RekeyDict(d, n, newN), d)
  {
    var v := GetOrNull(d, n);
    if v.Ptr? {
      assert d.Get(n) == Some(v);
    }
    PtrsAmongSet(d, newN, v);
    var d1 := d.Set(newN, v);
    forall k | RekeyDict(d, n, newN).Get(k).Some? && RekeyDict(d, n, newN).Get(k).value.Ptr?
      ensures HasPtr(d, RekeyDict(d, n, newN).Get(k).value.id)
    {
      assert RekeyDict(d, n, newN).Get(k) == d1.Get(k);
      var k1 :| d.Get(k1) == d1.Get(k);
    }
  }

  /** No dictionary node gained a pointer between `a0` and `a1`, and every
      dictionary node stayed one. */
  ghost predicate NoNewPtrs(a0: Arena, a1: Arena) {
    forall id :: DictNode(a0, id) ==> DictNode(a1, id) && PtrsAmong(a1[id].payload.d, a0[id].payload.d)
  }

  lemma NoNewPtrsTrans(a0: Arena, a1: Arena, a2: Arena)
    requires NoNewPtrs(a0, a1) && NoNewPtrs(a1, a2)
    ensures NoNewPtrs(a0, a2)
  {
    forall id | DictNode(a0, id) ensures DictNode(a2, id) && PtrsAmong(a2[id].payload.d, a0[id].payload.d) {
      var d0, d1, d2 := a0[id].payload.d, a1[id].payload.d, a2[id].payload.d;
      forall k | d2.Get(k).Some? && d2.Get(k).value.Ptr? ensures HasPtr(d0, d2.Get(k).value.id) {
        var k1 :| d1.Get(k1) == d2.Get(k);
        var k0 :| d0.Get(k0) == d1.Get(k1);
      }
    }
  }

  /** Node `id` may be written when renaming the resources of a page whose
      Resources entry is `resObj`: it is the Resources object itself or a
      value of the Resources dictionary. */
  ghost predicate Writable(arena: Arena, resObj: Obj, id: ObjId) {
    resObj == Ptr(id) || (GetDict(arena, resObj).Some? && HasPtr(GetDict(arena, resObj).value, id))
  }

  /** Renaming from (`a0`, `p0`) to (`a1`, `p1`) wrote no node but the
      streams and the Writable ones, the page's Resources and the
      dictionaries it lists gained no pointer, and no dictionary node
      gained a pointer. */
  ghost predicate RenameFrame(a0: Arena, p0: Dict, a1: Arena, p1: Dict) {
    var r0, r1 := GetOrNull(p0, "Resources"), GetOrNull(p1, "Resources");
    && a0.Keys <= a1.Keys
    && (r1.Ptr? ==> r1 == r0)
    && (GetDict(a1, r1).Some? ==> GetDict(a0, r0).Some? && PtrsAmong(GetDict(a1, r1).value, GetDict(a0, r0).value))
    && (forall id :: id in a0 && !a0[id].StreamNode? && !Writable(a0, r0, id) ==> a1[id] == a0[id])
    && NoNewPtrs(a0, a1)
  }

  lemma RenameFrameRefl(a: Arena, p: Dict)
    ensures RenameFrame(a, p, a, p)
  {
    var r := GetOrNull(p, "Resources");
    if GetDict(a, r).Some? {
      var d := GetDict(a, r).value;
      forall k | d.Get(k).Some? && d.Get(k).value.Ptr? ensures HasPtr(d, d.Get(k).value.id) {
      }
    }
    NoNewPtrsRefl(a);
  }

  lemma RenameFrameTrans(a0: Arena, p0: Dict, a1: Arena, p1: Dict, a2: Arena, p2: Dict)
    requires RenameFrame(a0, p0, a1, p1) && RenameFrame(a1, p1, a2, p2)
    ensures RenameFrame(a0, p0, a2, p2)
  {
    var r0, r1, r2 := GetOrNull(p0, "Resources"), GetOrNull(p1, "Resources"), GetOrNull(p2, "Resources");
    NoNewPtrsTrans(a0, a1, a2);
    if GetDict(a2, r2).Some? {
      var d0, d1, d2 := GetDict(a0, r0).value, GetDict(a1, r1).value, GetDict(a2, r2).value;
      forall k | d2.Get(k).Some? && d2.Get(k).value.Ptr? ensures HasPtr(d0, d2.Get(k).value.id) {
        var k1 :| d1.Get(k1) == d2.Get(k);
        var k0 :| d0.Get(k0) == d1.Get(k1);
      }
    }
    forall id | id in a0 && !a0[id].StreamNode? && !Writable(a0, r0, id) ensures a2[id] == a0[id] {
      WritableBack(a0, p0, a1, p1, id);
    }
  }

  /** A node writable after a rename step was writable before it. */
  lemma WritableBack(a0: Arena, p0: Dict, a1: Arena, p1: Dict, id: ObjId)
    requires RenameFrame(a0, p0, a1, p1)
    ensures Writable(a1, GetOrNull(p1, "Resources"), id) ==> Writable(a0, GetOrNull(p0, "Resources"), id)
  {
    var r0, r1 := GetOrNull(p0, "Resources"), GetOrNull(p1, "Resources");
    if Writable(a1, r1, id) && r1 != Ptr(id) {
      var k :| GetDict(a1, r1).value.Get(k) == Some(Ptr(id));
      var k0 :| GetDict(a0, r0).value.Get(k0) == Some(Ptr(id));
    }
  }

  /** Writing a dictionary node with a dictionary that gains no pointer over its own. */
  lemma NoNewPtrsWrite(arena: Arena, id: ObjId, d: Dict)
    requires DictNode(arena, id) && PtrsAmong(d, arena[id].payload.d)
    ensures NoNewPtrs(arena, arena[id := IndirectNode(DictObj(d))])
  {
    var a2 := arena[id := IndirectNode(DictObj(d))];
    forall id2 | DictNode(arena, id2) ensures DictNode(a2, id2) && PtrsAmong(a2[id2].payload.d, arena[id2].payload.d) {
      if id2 != id {
        var e := arena[id2].payload.d;
        forall k | e.Get(k).Some? && e.Get(k).value.Ptr? ensures HasPtr(e, e.Get(k).value.id) {
        }
      }
    }
  }

  /** Writing back a re-keyed resource dictionary stays within the rename frame. */
  lemma StoreSubFrame(arena: Arena, page: Dict, k: ResKind, n: string, newN: string)
    requires SubLoc(arena, page, k).Some?
    ensures var (a2, p2) := StoreSub(arena, page, k, RekeyDict(ResDict(arena, page, k).value, n, newN));
      RenameFrame(arena, page, a2, p2)
  {
    var d0 := ResDict(arena, page, k).value;
    var d := RekeyDict(d0, n, newN);
    var resObj := GetOrNull(page, "Resources");
    var res := ResOf(arena, page).value;
    PtrsAmongRekey(d0, n, newN);
    match SubLoc(arena, page, k).value
    case Node(id) =>
      assert res.Get(KindKey(k)) == Some(Ptr(id));
      StoreNodeFrame(arena, page, KindKey(k), id, d);
    case Inline(_) =>
      PtrsAmongSet(res, KindKey(k), DictObj(d));
      StoreResFrame(arena, page, res.Set(KindKey(k), DictObj(d)));
  }

  /** Writing node `id`, a value of the Resources dictionary, with a
      dictionary that gains no pointer over the node's own. */
  lemma StoreNodeFrame(arena: Arena, page: Dict, key: string, id: ObjId, d: Dict)
    requires DictNode(arena, id) && ResOf(arena, page).Some? && ResOf(arena, page).value.Get(key) == Some(Ptr(id))
    requires PtrsAmong(d, arena[id].payload.d)
    ensures RenameFrame(arena, page, arena[id := IndirectNode(DictObj(d))], page)
  {
    var a2 := arena[id := IndirectNode(DictObj(d))];
    var resObj := GetOrNull(page, "Resources");
    assert Writable(arena, resObj, id);
    NoNewPtrsWrite(arena, id, d);
    assert forall id2 :: id2 in arena && !arena[id2].StreamNode? && !Writable(arena, resObj, id2) ==> a2[id2] == arena[id2];
    if resObj == Ptr(id) {
      assert GetDict(a2, resObj) == Some(d);
    } else {
      assert GetDict(a2, resObj) == GetDict(arena, resObj);
      RenameFrameRefl(arena, page);
    }
  }

  /** Writing the Resources dictionary back, where it lives, with a
      dictionary that gains no pointer over it. */
  lemma StoreResFrame(arena: Arena, page: Dict, res': Dict)
    requires ResOf(arena, page).Some? && PtrsAmong(res', ResOf(arena, page).value)
    ensures var resObj := GetOrNull(page, "Resources");
      RenameFrame(arena, page,
                  if resObj.Ptr? then arena[resObj.id := IndirectNode(DictObj(res'))] else arena,
                  if resObj.Ptr? then page else page.Set("Resources", DictObj(res')))
  {
    var resObj := GetOrNull(page, "Resources");
    RenameFrameRefl(arena, page);
    if resObj.Ptr? {
      var a2 := arena[resObj.id := IndirectNode(DictObj(res'))];
      assert DictNode(arena, resObj.id) && arena[resObj.id].payload.d == ResOf(arena, page).value;
      NoNewPtrsWrite(arena, resObj.id, res');
      assert GetDict(a2, resObj) == Some(res');
    } else {
      var p2 := page.Set("Resources", DictObj(res'));
      assert GetOrNull(p2, "Resources") == DictObj(res');
    }
  }

  lemma EntryLocFrame(a1: Arena, a2: Arena, o: Obj, k: ResKind)
    requires o.Ptr? ==> (DictNode(a1, o.id) <==> DictNode(a2, o.id))
    ensures EntryLoc(a1, o, k) == EntryLoc(a2, o, k)
  {
  }

  /** Writing a resource dictionary that is an indirect object leaves the Resources dictionary as it is. */
  lemma StoreNodeRes(arena: Arena, page: Dict, id: ObjId, d: Dict)
    requires DictNode(arena, id)
    requires GetOrNull(page, "Resources").Ptr? ==> GetOrNull(page, "Resources").id != id
    ensures ResOf(arena[id := IndirectNode(DictObj(d))], page) == ResOf(arena, page)
  {
    var resObj := GetOrNull(page, "Resources");
    assert Direct(arena[id := IndirectNode(DictObj(d))], resObj) == Direct(arena, resObj);
  }

  /** Writing a resource dictionary that is an indirect object, seen from kind `k2`. */
  lemma StoreNodeAt(arena: Arena, page: Dict, id: ObjId, d: Dict, k2: ResKind)
    requires DictNode(arena, id)
    requires GetOrNull(page, "Resources").Ptr? ==> GetOrNull(page, "Resources").id != id
    ensures var a2 := arena[id := IndirectNode(DictObj(d))];
      && SubLoc(a2, page, k2) == SubLoc(arena, page, k2)
      && ResDict(a2, page, k2) == if SubLoc(arena, page, k2) == Some(Node(id)) then Some(d) else ResDict(arena, page, k2)
  {
    var a2 := arena[id := IndirectNode(DictObj(d))];
    StoreNodeRes(arena, page, id, d);
    if ResOf(arena, page).Some? {
      var o := GetOrNull(ResOf(arena, page).value, KindKey(k2));
      EntryLocFrame(arena, a2, o, k2);
    }
  }

  /** Writing an inline resource dictionary rewrites the Resources dictionary with it. */
  lemma StoreInlineRes(arena: Arena, page: Dict, k: ResKind, d: Dict)
    requires SubLoc(arena, page, k) == Some(Inline(k))
    ensures var (a2, p2) := StoreSub(arena, page, k, d);
      && ResOf(a2, p2) == Some(ResOf(arena, page).value.Set(KindKey(k), DictObj(d)))
      && (GetOrNull(page, "Resources").Ptr? ==>
            p2 == page && a2 == arena[GetOrNull(page, "Resources").id := IndirectNode(DictObj(ResOf(a2, p2).value))])
      && (!GetOrNull(page, "Resources").Ptr? ==> a2 == arena && !GetOrNull(p2, "Resources").Ptr?)
  {
    var (a2, p2) := StoreSub(arena, page, k, d);
    var resObj := GetOrNull(page, "Resources");
    var res' := ResOf(arena, page).value.Set(KindKey(k), DictObj(d));
    assert GetOrNull(p2, "Resources") == if resObj.Ptr? then resObj else DictObj(res');
  }

  /** Resources after an inline write: the entry of `k` is the new dictionary. */
  lemma InlineEntrySame(res: Dict, k: ResKind, d: Dict)
    ensures GetOrNull(res.Set(KindKey(k), DictObj(d)), KindKey(k)) == DictObj(d)
  {
  }

  /** Resources after an inline write: the entries of the other kinds are as they were. */
  lemma InlineEntryOther(res: Dict, k: ResKind, d: Dict, k2: ResKind)
    requires k2 != k
    ensures GetOrNull(res.Set(KindKey(k), DictObj(d)), KindKey(k2)) == GetOrNull(res, KindKey(k2))
  {
    if KindKey(k2) == KindKey(k) {
      KindKeyInjective(k2, k);
    }
  }

  /** Writing a resource dictionary held inline in Resources, seen from the
      kind written: `a2` and `p2` are the arena and page after the write. */
  lemma StoreInlineSame(arena: Arena, page: Dict, a2: Arena, p2: Dict, k: ResKind, d: Dict)
    requires SubLoc(arena, page, k) == Some(Inline(k))
    requires ResOf(a2, p2) == Some(ResOf(arena, page).value.Set(KindKey(k), DictObj(d)))
    ensures SubLoc(a2, p2, k) == SubLoc(arena, page, k)
    ensures ResDict(a2, p2, k) == Some(d)
  {
    InlineEntrySame(ResOf(arena, page).value, k, d);
  }

  /** Writing a resource dictionary held inline in Resources, seen from
      another kind `k2`: `res` and `res2` are the Resources dictionary
      before and after, and `excl` the only node that may have changed. */
  lemma StoreInlineOther(arena: Arena, page: Dict, a2: Arena, p2: Dict, res: Dict, res2: Dict,
                         hasExcl: bool, excl: ObjId, k: ResKind, d: Dict, k2: ResKind)
    requires k2 != k
    requires ResOf(arena, page) == Some(res) && ResOf(a2, p2) == Some(res2)
    requires res2 == res.Set(KindKey(k), DictObj(d))
    requires a2.Keys == arena.Keys
    requires forall id :: id in arena && !(hasExcl && id == excl) ==> a2[id] == arena[id]
    requires hasExcl ==> DictNode(arena, excl) && DictNode(a2, excl) && SubLoc(arena, page, k2) != Some(Node(excl))
    ensures SubLoc(a2, p2, k2) == SubLoc(arena, page, k2)
    ensures ResDict(a2, p2, k2) == ResDict(arena, page, k2)
  {
    InlineEntryOther(res, k, d, k2);
    var o := GetOrNull(res, KindKey(k2));
    EntryLocFrame(arena, a2, o, k2);
  }

  /** StoreSub on a dictionary that is an indirect object, seen from every kind. */
  lemma StoreSubNode(arena: Arena, page: Dict, k: ResKind, d: Dict, id: ObjId)
    requires SubLoc(arena, page, k) == Some(Node(id)) && Separate(arena, page)
    ensures var (a2, p2) := StoreSub(arena, page, k, d);
      && (forall k2 :: SubLoc(a2, p2, k2) == SubLoc(arena, page, k2))
      && (forall k2 :: ResDict(a2, p2, k2) ==
            if SubLoc(arena, page, k2) == SubLoc(arena, page, k) then Some(d) else ResDict(arena, page, k2))
      && p2 == page
  {
    assert DictNode(arena, id);
    assert GetOrNull(page, "Resources").Ptr? ==> GetOrNull(page, "Resources").id != id;
    forall k2 ensures var a2 := arena[id := IndirectNode(DictObj(d))];
      && SubLoc(a2, page, k2) == SubLoc(arena, page, k2)
      && ResDict(a2, page, k2) == if SubLoc(arena, page, k2) == Some(Node(id)) then Some(d) else ResDict(arena, page, k2)
    {
      StoreNodeAt(arena, page, id, d, k2);
    }
  }

  /** StoreSub on a dictionary held inline in Resources, seen from every kind. */
  lemma StoreSubInline(arena: Arena, page: Dict, k: ResKind, d: Dict)
    requires SubLoc(arena, page, k) == Some(Inline(k)) && Separate(arena, page)
    ensures var (a2, p2) := StoreSub(arena, page, k, d);
      && (forall k2 :: SubLoc(a2, p2, k2) == SubLoc(arena, page, k2))
      && (forall k2 :: ResDict(a2, p2, k2) == if k2 == k then Some(d) else ResDict(arena, page, k2))
      && (GetOrNull(p2, "Resources").Ptr? ==> GetOrNull(p2, "Resources") == GetOrNull(page, "Resources"))
  {
    var (a2, p2) := StoreSub(arena, page, k, d);
    StoreInlineRes(arena, page, k, d);
    var resObj := GetOrNull(page, "Resources");
    var res := ResOf(arena, page).value;
    var res2 := ResOf(a2, p2).value;
    var hasExcl := resObj.Ptr?;
    var excl: ObjId := if resObj.Ptr? then resObj.id else 0;
    assert hasExcl ==> GetDict(arena, resObj) == Some(res) && DictNode(arena, excl) && DictNode(a2, excl);
    forall k2 ensures SubLoc(a2, p2, k2) == SubLoc(arena, page, k2)
      && ResDict(a2, p2, k2) == if k2 == k then Some(d) else ResDict(arena, page, k2)
    {
      if k2 == k {
        StoreInlineSame(arena, page, a2, p2, k, d);
      } else {
        StoreInlineOther(arena, page, a2, p2, res, res2, hasExcl, excl, k, d, k2);
      }
    }
  }

  /** Writing one resource dictionary back: it reads as `d`, so does every
      kind that lives in the same place, the other kinds read as before,
      every kind keeps its place, and the Resources object stays apart from them. */
  lemma StoreSubEffect(arena: Arena, page: Dict, k: ResKind, d: Dict)
    requires SubLoc(arena, page, k).Some? && Separate(arena, page)
    ensures var (a2, p2) := StoreSub(arena, page, k, d);
      && (forall k2 :: SubLoc(a2, p2, k2) == SubLoc(arena, page, k2))
      && (forall k2 :: ResDict(a2, p2, k2) ==
            if SubLoc(arena, page, k2) == SubLoc(arena, page, k) then Some(d) else ResDict(arena, page, k2))
      && Separate(a2, p2)
  {
    match SubLoc(arena, page, k).value
    case Node(id) =>
      StoreSubNode(arena, page, k, d, id);
    case Inline(k1) =>
      StoreSubInline(arena, page, k, d);
      forall k2 ensures SubLoc(arena, page, k2) == SubLoc(arena, page, k) <==> k2 == k {
      }
  }

  // --------------------------------------------------------------------
  // Re-keying renamed resources

  /** One value per resource kind. */
  datatype PerKind<T> = PerKind(extGState: T, xObject: T, font: T)

  function At<T>(p: PerKind<T>, k: ResKind): T {
    match k
    case ExtGStateRes => p.extGState
    case XObjectRes => p.xObject
    case FontRes => p.font
  }

  /** The page's three resource dictionaries, by kind. */
  function View(arena: Arena, page: Dict): PerKind<Option<Dict>> {
    PerKind(ResDict(arena, page, ExtGStateRes), ResDict(arena, page, XObjectRes), ResDict(arena, page, FontRes))
  }

  /** Where the page's three resource dictionaries live, by kind. */
  function Places(arena: Arena, page: Dict): PerKind<Option<Loc>> {
    PerKind(SubLoc(arena, page, ExtGStateRes), SubLoc(arena, page, XObjectRes), SubLoc(arena, page, FontRes))
  }

  /** Kinds that live in the same place read the same dictionary. */
  ghost predicate Coherent(view: PerKind<Option<Dict>>, places: PerKind<Option<Loc>>) {
    forall k1, k2 :: At(places, k1) == At(places, k2) ==> At(view, k1) == At(view, k2)
  }

  lemma ViewAt(arena: Arena, page: Dict, k: ResKind)
    ensures At(View(arena, page), k) == ResDict(arena, page, k)
    ensures At(Places(arena, page), k) == SubLoc(arena, page, k)
  {
    match k
    case ExtGStateRes =>
    case XObjectRes =>
    case FontRes =>
  }

  /** ResDict depends only on where the dictionary lives. */
  lemma SamePlaceSameDict(arena: Arena, page: Dict, k1: ResKind, k2: ResKind)
    requires SubLoc(arena, page, k1) == SubLoc(arena, page, k2)
    ensures ResDict(arena, page, k1) == ResDict(arena, page, k2)
  {
    match SubLoc(arena, page, k1)
    case None =>
    case Some(Node(id)) =>
    case Some(Inline(k)) =>
      assert EntryLoc(arena, GetOrNull(ResOf(arena, page).value, KindKey(k1)), k1) == Some(Inline(k));
      assert k == k1;
      assert EntryLoc(arena, GetOrNull(ResOf(arena, page).value, KindKey(k2)), k2) == Some(Inline(k));
      assert k == k2;
  }

  lemma ViewCoherent(arena: Arena, page: Dict)
    ensures Coherent(View(arena, page), Places(arena, page))
  {
    forall k1, k2 | At(Places(arena, page), k1) == At(Places(arena, page), k2)
      ensures At(View(arena, page), k1) == At(View(arena, page), k2)
    {
      ViewAt(arena, page, k1);
      ViewAt(arena, page, k2);
      SamePlaceSameDict(arena, page, k1, k2);
    }
  }

  /** The entry `n` of a dictionary moved to `newN`, as the re-keying loop does it. */
  function RekeyDict(d: Dict, n: string, newN: string): Dict {
    d.Set(newN, GetOrNull(d, n)).Remove(n)
  }

  /** Re-keying `n` in a dictionary leaves the entries of another renamed name `m`. */
  lemma RekeyOther(d: Dict, n: string, newN: string, m: string, newM: string)
    requires n != m && newN != newM && newN != m && n != newM
    ensures RekeyDict(d, n, newN).Get(newM) == d.Get(newM)
    ensures RekeyDict(d, n, newN).Get(m) == d.Get(m)
  {
  }

  /** Re-keying `n` in a dictionary moves its value to `newN`. */
  lemma RekeyOwn(d: Dict, n: string, newN: string)
    requires n != newN
    ensures RekeyDict(d, n, newN).Get(newN) == Some(GetOrNull(d, n))
    ensures !RekeyDict(d, n, newN).HasKey(n)
  {
  }

  /** Renamed names are source names and their new names are not. */
  ghost predicate RenamesFresh(renames: map<string, string>, src: set<string>) {
    forall n :: n in renames ==> n in src && renames[n] !in src
  }

  /** No two recorded names are renamed to the same new name. */
  ghost predicate RenamesInjective(names: map<string, ResKind>, renames: map<string, string>) {
    forall n1, n2 :: n1 in names && n2 in names && n1 in renames && n2 in renames && n1 != n2 ==>
      renames[n1] != renames[n2]
  }

  /** Each recorded name is held by the dictionary recorded for it. */
  ghost predicate NamesHeld(arena: Arena, page: Dict, names: map<string, ResKind>) {
    forall n :: n in names ==> ResDict(arena, page, names[n]).Some? && ResDict(arena, page, names[n]).value.HasKey(n)
  }

  /** What re-keying relies on to keep each renamed entry: the page's
      Resources object is not one of its own resource dictionaries, each
      recorded name is held by the dictionary recorded for it, renamed names
      are source names and their new names are not, and no two recorded
      names are renamed to the same new name. */
  ghost predicate RekeyFits(arena: Arena, page: Dict, names: map<string, ResKind>,
                            renames: map<string, string>, src: set<string>) {
    Separate(arena, page) && NamesHeld(arena, page, names) && RenamesFresh(renames, src) && RenamesInjective(names, renames)
  }

  /** The value a recorded name has in its dictionary before re-keying. */
  function OldValue(arena: Arena, page: Dict, names: map<string, ResKind>, n: string): Obj
    requires n in names
  {
    match ResDict(arena, page, names[n])
    case Some(d) => GetOrNull(d, n)
    case None => Null
  }

  /** The state of the re-keying loop, on the view: every renamed name
      already handled has its old value under its new name and is gone,
      and every renamed name still to do still has its old value. */
  ghost predicate ViewRekeyed(view: PerKind<Option<Dict>>, olds: map<string, Obj>, names: map<string, ResKind>,
                              renames: map<string, string>, todo: set<string>) {
    forall n :: n in names && n in renames ==>
      && At(view, names[n]).Some? && n in olds
      && (n !in todo ==> At(view, names[n]).value.Get(renames[n]) == Some(olds[n]) && !At(view, names[n]).value.HasKey(n))
      && (n in todo ==> At(view, names[n]).value.Get(n) == Some(olds[n]))
  }

  /** The view after re-keying `n` in the dictionary of kind `k`: every kind
      that lives in the same place sees the re-keyed dictionary. */
  function StepView(view: PerKind<Option<Dict>>, places: PerKind<Option<Loc>>, k: ResKind,
                    n: string, newN: string): (r: PerKind<Option<Dict>>)
    ensures forall k2 :: At(r, k2) ==
              if At(view, k).Some? && At(places, k2) == At(places, k) then Some(RekeyDict(At(view, k).value, n, newN))
              else At(view, k2)
  {
    match At(view, k)
    case None => view
    case Some(d) =>
      var upd := (k2: ResKind) => if At(places, k2) == At(places, k) then Some(RekeyDict(d, n, newN)) else At(view, k2);
      PerKind(upd(ExtGStateRes), upd(XObjectRes), upd(FontRes))
  }

  /** One step of the re-keying loop on the view. */
  lemma ViewStep(view: PerKind<Option<Dict>>, places: PerKind<Option<Loc>>, olds: map<string, Obj>,
                 names: map<string, ResKind>, renames: map<string, string>, src: set<string>,
                 todo: set<string>, n: string)
    requires ViewRekeyed(view, olds, names, renames, todo) && Coherent(view, places)
    requires RenamesFresh(renames, src) && RenamesInjective(names, renames)
    requires n in todo && n in names && n in renames
    ensures ViewRekeyed(StepView(view, places, names[n], n, renames[n]), olds, names, renames, todo - {n})
  {
    var d := At(view, names[n]).value;
    var view2 := StepView(view, places, names[n], n, renames[n]);
    forall m | m in names && m in renames
      ensures && At(view2, names[m]).Some? && m in olds
        && (m !in todo - {n} ==> At(view2, names[m]).value.Get(renames[m]) == Some(olds[m]) && !At(view2, names[m]).value.HasKey(m))
        && (m in todo - {n} ==> At(view2, names[m]).value.Get(m) == Some(olds[m]))
    {
      if m == n {
        RekeyOwn(d, n, renames[n]);
      } else {
        assert renames[m] != renames[n];
        RekeyOther(d, n, renames[n], m, renames[m]);
      }
    }
  }

  /** The view before re-keying satisfies the loop state with every name to do. */
  lemma ViewStart(arena: Arena, page: Dict, olds: map<string, Obj>, names: map<string, ResKind>,
                  renames: map<string, string>)
    requires NamesHeld(arena, page, names)
    requires forall n :: n in names ==> n in olds && olds[n] == OldValue(arena, page, names, n)
    ensures ViewRekeyed(View(arena, page), olds, names, renames, names.Keys)
  {
    forall n | n in names && n in renames
      ensures At(View(arena, page), names[n]).Some? && At(View(arena, page), names[n]).value.Get(n) == Some(olds[n])
    {
      ViewAt(arena, page, names[n]);
    }
  }

  /** Writing back a re-keyed dictionary updates the view in every kind
      that lives in the same place, and keeps the places. */
  lemma StoreSubView(arena: Arena, page: Dict, k: ResKind, n: string, newN: string)
    requires ResDict(arena, page, k).Some? && Separate(arena, page)
    ensures var (a2, p2) := StoreSub(arena, page, k, RekeyDict(ResDict(arena, page, k).value, n, newN));
      && Places(a2, p2) == Places(arena, page)
      && View(a2, p2) == StepView(View(arena, page), Places(arena, page), k, n, newN)
      && Separate(a2, p2)
  {
    var d := RekeyDict(ResDict(arena, page, k).value, n, newN);
    var (a2, p2) := StoreSub(arena, page, k, d);
    StoreSubEffect(arena, page, k, d);
    ViewAt(arena, page, k);
    ViewAt(arena, page, ExtGStateRes);
    ViewAt(arena, page, XObjectRes);
    ViewAt(arena, page, FontRes);
    ViewAt(a2, p2, ExtGStateRes);
    ViewAt(a2, p2, XObjectRes);
    ViewAt(a2, p2, FontRes);
  }

  /** One pass of the re-keying loop, on name `n`: when `n` has a new name and
      its dictionary is there, the entry moves to the new name and its value
      is queued by the add walk. */
  method RekeyOne(arena: Arena, page: Dict, names: map<string, ResKind>, renames: map<string, string>, n: string,
                  q: seq<ObjId>, h: set<ObjId>, srcObjects: set<ObjId>)
    returns (arena': Arena, page': Dict, q': seq<ObjId>, h': set<ObjId>)
    requires n in names && Delta(q, h, srcObjects)
    ensures Delta(q', h', srcObjects) && q <= q' && h <= h'
    ensures OnlyDictNodesChanged(arena, arena') && RenameFrame(arena, page, arena', page')
    ensures forall key :: key != "Resources" ==> page'.Get(key) == page.Get(key)
    ensures n in renames && ResDict(arena, page, names[n]).Some? ==>
              Occurs(GetOrNull(ResDict(arena, page, names[n]).value, n)) <= h' + srcObjects
    ensures Separate(arena, page) ==>
              && Separate(arena', page') && Places(arena', page') == Places(arena, page)
              && View(arena', page') ==
                   if n in renames then StepView(View(arena, page), Places(arena, page), names[n], n, renames[n])
                   else View(arena, page)
  {
    arena', page', q', h' := arena, page, q, h;
    RenameFrameRefl(arena, page);
    if n in renames {
      var found := ResDict(arena, page, names[n]);
      if found.Some? {
        var v := GetOrNull(found.value, n);
        var d' := RekeyDict(found.value, n, renames[n]);
        StoreSubSeparate(arena, page, names[n], d');
        StoreSubFrame(arena, page, names[n], n, renames[n]);
        if Separate(arena, page) {
          StoreSubView(arena, page, names[n], n, renames[n]);
        }
        arena', page' := StoreSub(arena, page, names[n], d').0, StoreSub(arena, page, names[n], d').1;
        q', h' := AddWalk(arena', q, h, srcObjects, v);
      } else {
        ViewAt(arena, page, names[n]);
        StepViewNone(View(arena, page), Places(arena, page), names[n], n, renames[n]);
      }
    }
  }

  lemma StepViewNone(view: PerKind<Option<Dict>>, places: PerKind<Option<Loc>>, k: ResKind, n: string, newN: string)
    requires At(view, k).None?
    ensures StepView(view, places, k, n, newN) == view
  {
  }

  /** The re-keying loop of renameResources: for each recorded name that has
      a new name, in an unspecified order, the entry moves to the new name
      in the same dictionary and its value is queued by the add walk. */
  method RekeyResources(arena: Arena, page: Dict, names: map<string, ResKind>, renames: map<string, string>,
                        src: set<string>, q: seq<ObjId>, h: set<ObjId>, srcObjects: set<ObjId>)
    returns (arena': Arena, page': Dict, q': seq<ObjId>, h': set<ObjId>)
    requires Delta(q, h, srcObjects)
    ensures Delta(q', h', srcObjects) && q <= q' && h <= h'
    ensures OnlyDictNodesChanged(arena, arena') && RenameFrame(arena, page, arena', page')
    ensures forall key :: key != "Resources" ==> page'.Get(key) == page.Get(key)
    ensures RekeyFits(arena, page, names, renames, src) ==> Rekeyed(arena, page, arena', page', names, renames, h' + srcObjects)
  {
    ghost var fits := RekeyFits(arena, page, names, renames, src);
    ghost var olds := map n | n in names :: OldValue(arena, page, names, n);
    ghost var places := Places(arena, page);
    if fits {
      ViewStart(arena, page, olds, names, renames);
    }
    arena', page', q', h' := RekeyLoop(arena, page, names, renames, q, h, srcObjects, fits, places, olds, src);
    if fits {
      RekeyFinish(arena, page, arena', page', olds, names, renames);
    }
  }

  /** What re-keying achieves: every resource dictionary stays where it
      was, and each recorded name that has a new name has its old value
      under the new name and is gone, with that value reached by `reached`. */
  ghost predicate Rekeyed(a0: Arena, p0: Dict, a1: Arena, p1: Dict, names: map<string, ResKind>,
                          renames: map<string, string>, reached: set<ObjId>) {
    && (forall k :: SubLoc(a1, p1, k) == SubLoc(a0, p0, k))
    && forall n :: n in names && n in renames ==>
         ResDict(a1, p1, names[n]).Some? &&
         ResDict(a1, p1, names[n]).value.Get(renames[n]) == Some(OldValue(a0, p0, names, n)) &&
         !ResDict(a1, p1, names[n]).value.HasKey(n) &&
         Occurs(OldValue(a0, p0, names, n)) <= reached
  }

  /** The loop itself: each recorded name once, in an unspecified order. */
  method RekeyLoop(arena: Arena, page: Dict, names: map<string, ResKind>, renames: map<string, string>,
                   q: seq<ObjId>, h: set<ObjId>, srcObjects: set<ObjId>,
                   ghost fits: bool, ghost places: PerKind<Option<Loc>>, ghost olds: map<string, Obj>, ghost src: set<string>)
    returns (arena': Arena, page': Dict, q': seq<ObjId>, h': set<ObjId>)
    requires Delta(q, h, srcObjects)
    requires fits ==> RekeyState(arena, page, places, olds, names, renames, names.Keys)
    requires fits ==> RenamesFresh(renames, src) && RenamesInjective(names, renames)
    ensures Delta(q', h', srcObjects) && q <= q' && h <= h'
    ensures OnlyDictNodesChanged(arena, arena') && RenameFrame(arena, page, arena', page')
    ensures forall key :: key != "Resources" ==> page'.Get(key) == page.Get(key)
    ensures fits ==> RekeyState(arena', page', places, olds, names, renames, {})
    ensures fits ==> forall n :: n in names && n in renames ==> Occurs(olds[n]) <= h' + srcObjects
  {
    arena', page', q', h' := arena, page, q, h;
    RenameFrameRefl(arena, page);
    var todo := names.Keys;
    while todo != {}
      invariant todo <= names.Keys
      invariant Delta(q', h', srcObjects) && q <= q' && h <= h'
      invariant OnlyDictNodesChanged(arena, arena') && RenameFrame(arena, page, arena', page')
      invariant forall key :: key != "Resources" ==> page'.Get(key) == page.Get(key)
      invariant fits ==> RekeyState(arena', page', places, olds, names, renames, todo)
      invariant fits ==> forall n :: n in names && n in renames && n !in todo ==> Occurs(olds[n]) <= h' + srcObjects
      decreases |todo|
    {
      var n :| n in todo;
      arena', page', q', h' := RekeyStep(arena', page', names, renames, n, q', h', srcObjects,
                                         arena, page, fits, places, olds, src, todo);
      todo := todo - {n};
    }
  }

  /** One pass of the re-keying loop, with the loop's state carried over. */
  method RekeyStep(arena: Arena, page: Dict, names: map<string, ResKind>, renames: map<string, string>, n: string,
                   q: seq<ObjId>, h: set<ObjId>, srcObjects: set<ObjId>,
                   ghost arena0: Arena, ghost page0: Dict, ghost fits: bool, ghost places: PerKind<Option<Loc>>,
                   ghost olds: map<string, Obj>, ghost src: set<string>, ghost todo: set<string>)
    returns (arena': Arena, page': Dict, q': seq<ObjId>, h': set<ObjId>)
    requires n in todo && todo <= names.Keys && Delta(q, h, srcObjects)
    requires OnlyDictNodesChanged(arena0, arena) && RenameFrame(arena0, page0, arena, page)
    requires forall key :: key != "Resources" ==> page.Get(key) == page0.Get(key)
    requires fits ==> RekeyState(arena, page, places, olds, names, renames, todo)
    requires fits ==> RenamesFresh(renames, src) && RenamesInjective(names, renames)
    ensures Delta(q', h', srcObjects) && q <= q' && h <= h'
    ensures OnlyDictNodesChanged(arena0, arena') && RenameFrame(arena0, page0, arena', page')
    ensures forall key :: key != "Resources" ==> page'.Get(key) == page0.Get(key)
    ensures fits ==> RekeyState(arena', page', places, olds, names, renames, todo - {n})
    ensures fits && n in renames ==> Occurs(olds[n]) <= h' + srcObjects
  {
    arena', page', q', h' := RekeyOne(arena, page, names, renames, n, q, h, srcObjects);
    OnlyDictNodesChangedTrans(arena0, arena, arena');
    RenameFrameTrans(arena0, page0, arena, page, arena', page');
    if fits {
      RekeyStateStep(arena, page, arena', page', places, olds, names, renames, src, todo, n);
      if n in renames {
        ViewAt(arena, page, names[n]);
      }
    }
  }

  /** The re-keying loop's state: separation and places kept, and the view
      re-keyed for every name no longer to do. */
  ghost predicate RekeyState(arena: Arena, page: Dict, places: PerKind<Option<Loc>>, olds: map<string, Obj>,
                             names: map<string, ResKind>, renames: map<string, string>, todo: set<string>) {
    Separate(arena, page) && Places(arena, page) == places && ViewRekeyed(View(arena, page), olds, names, renames, todo)
  }

  lemma RekeyStateStep(a1: Arena, p1: Dict, a2: Arena, p2: Dict, places: PerKind<Option<Loc>>, olds: map<string, Obj>,
                       names: map<string, ResKind>, renames: map<string, string>, src: set<string>,
                       todo: set<string>, n: string)
    requires RekeyState(a1, p1, places, olds, names, renames, todo)
    requires RenamesFresh(renames, src) && RenamesInjective(names, renames)
    requires n in todo && n in names
    requires Separate(a2, p2) && Places(a2, p2) == Places(a1, p1)
    requires View(a2, p2) == if n in renames then StepView(View(a1, p1), Places(a1, p1), names[n], n, renames[n])
                             else View(a1, p1)
    ensures RekeyState(a2, p2, places, olds, names, renames, todo - {n})
  {
    if n in renames {
      ViewCoherent(a1, p1);
      ViewStep(View(a1, p1), places, olds, names, renames, src, todo, n);
    }
  }

  /** After the loop: the places are the original ones and every renamed
      name has its old value under its new name only. */
  lemma RekeyFinish(arena: Arena, page: Dict, a2: Arena, p2: Dict, olds: map<string, Obj>,
                    names: map<string, ResKind>, renames: map<string, string>)
    requires Places(a2, p2) == Places(arena, page)
    requires ViewRekeyed(View(a2, p2), olds, names, renames, {})
    requires forall n :: n in names ==> n in olds && olds[n] == OldValue(arena, page, names, n)
    ensures forall k :: SubLoc(a2, p2, k) == SubLoc(arena, page, k)
    ensures forall n :: n in names && n in renames ==>
              ResDict(a2, p2, names[n]).Some? &&
              ResDict(a2, p2, names[n]).value.Get(renames[n]) == Some(OldValue(arena, page, names, n)) &&
              !ResDict(a2, p2, names[n]).value.HasKey(n)
  {
    forall k ensures SubLoc(a2, p2, k) == SubLoc(arena, page, k) {
      ViewAt(a2, p2, k);
      ViewAt(arena, page, k);
    }
    forall n | n in names && n in renames
      ensures ResDict(a2, p2, names[n]) == At(View(a2, p2), names[n])
    {
      ViewAt(a2, p2, names[n]);
    }
  }

  /** StoreSub without the separation hypothesis: dictionary places of the
      other kinds, the page entries other than Resources and the non-dictionary
      nodes stay as they are. */
  lemma StoreSubSeparate(arena: Arena, page: Dict, k: ResKind, d: Dict)
    requires SubLoc(arena, page, k).Some?
    ensures var (a2, p2) := StoreSub(arena, page, k, d);
      && OnlyDictNodesChanged(arena, a2)
      && (forall key :: key != "Resources" ==> p2.Get(key) == page.Get(key))
  {
  }

  // --------------------------------------------------------------------
  // Rewriting content streams

  /** `ord` lists the members of `keys`, each once. */
  ghost predicate Enumerates(ord: seq<string>, keys: set<string>) {
    NoDup(ord) && forall x :: x in ord <==> x in keys
  }

  /** The replacements of `pairs` applied one after the other in the order `ord`. */
  function ApplyRenames(s: string, pairs: map<string, string>, ord: seq<string>): string
    requires forall i :: 0 <= i < |ord| ==> ord[i] in pairs && |ord[i]| > 0
    decreases |ord|
  {
    if ord == [] then s else ApplyRenames(ReplaceAll(s, ord[0], pairs[ord[0]]), pairs, ord[1..])
  }

  lemma {:induction false} ApplyRenamesAppend(s: string, pairs: map<string, string>, ord: seq<string>, k: string)
    requires forall i :: 0 <= i < |ord| ==> ord[i] in pairs && |ord[i]| > 0
    requires k in pairs && |k| > 0
    ensures ApplyRenames(s, pairs, ord + [k]) == ReplaceAll(ApplyRenames(s, pairs, ord), k, pairs[k])
    decreases |ord|
  {
    if ord != [] {
      assert (ord + [k])[1..] == ord[1..] + [k];
      ApplyRenamesAppend(ReplaceAll(s, ord[0], pairs[ord[0]]), pairs, ord[1..], k);
    }
  }

  /** A stream that mentions none of the old names is left as it is,
      whatever the order of the replacements. */
  lemma {:induction false} ApplyRenamesUntouched(s: string, pairs: map<string, string>, ord: seq<string>)
    requires forall i :: 0 <= i < |ord| ==> ord[i] in pairs && |ord[i]| > 0
    requires forall k, i :: k in pairs ==> !OccursAt(s, k, i)
    ensures ApplyRenames(s, pairs, ord) == s
    decreases |ord|
  {
    if ord != [] {
      ReplaceAllNoOccurrence(s, ord[0], pairs[ord[0]]);
      ApplyRenamesUntouched(s, pairs, ord[1..]);
    }
  }

  /** When every new name is at least as long as its old name, rewriting
      never shortens a stream, so the Length it is given never drops. */
  lemma {:induction false} ApplyRenamesNotShorter(s: string, pairs: map<string, string>, ord: seq<string>)
    requires forall i :: 0 <= i < |ord| ==> ord[i] in pairs && |ord[i]| > 0
    requires forall k :: k in pairs ==> |pairs[k]| >= |k|
    ensures |ApplyRenames(s, pairs, ord)| >= |s|
    decreases |ord|
  {
    if ord != [] {
      ReplaceAllLength(s, ord[0], pairs[ord[0]]);
      ApplyRenamesNotShorter(ReplaceAll(s, ord[0], pairs[ord[0]]), pairs, ord[1..]);
    }
  }

  /** The `for oldName, newName := range streamRenameMap` loop: every pair is
      applied once, by replace-all, in an order the map leaves unspecified. */
  method ReplaceNames(data: string, pairs: map<string, string>) returns (data': string, ghost ord: seq<string>)
    requires forall k :: k in pairs ==> |k| > 0
    ensures Enumerates(ord, pairs.Keys)
    ensures data' == ApplyRenames(data, pairs, ord)
  {
    var todo := pairs.Keys;
    data', ord := data, [];
    while todo != {}
      invariant NoDup(ord)
      invariant forall x :: x in ord ==> x in pairs && x !in todo
      invariant forall x :: x in pairs ==> x in todo || x in ord
      invariant todo <= pairs.Keys
      invariant data' == ApplyRenames(data, pairs, ord)
      decreases |todo|
    {
      var k :| k in todo;
      ApplyRenamesAppend(data, pairs, ord, k);
      data' := ReplaceAll(data', k, pairs[k]);
      ord := ord + [k];
      todo := todo - {k};
    }
  }

  /** Renaming resources rewrites names inside longer names too: with /F1
      renamed to /F11, the unrelated name /F10 in the same stream becomes /F110. */
  lemma RenameRewritesLongerNames()
    ensures ApplyRenames("/F1 /F10", map["/F1" := "/F11"], ["/F1"]) == "/F11 /F110"
  {
    PrefixNameIsRewritten();
  }

  /** `b` results from `a` by applying all of `pairs`, in some order, `n` times in a row. */
  ghost predicate RewrittenTimes(a: string, b: string, pairs: map<string, string>, n: nat)
    requires forall k :: k in pairs ==> |k| > 0
    decreases n
  {
    if n == 0 then a == b
    else exists mid: string, ord: seq<string> {:trigger ApplyRenames(mid, pairs, ord)} ::
      Enumerates(ord, pairs.Keys) && RewrittenTimes(a, mid, pairs, n - 1) && b == ApplyRenames(mid, pairs, ord)
  }

  /** How many of `elems` are (or hold through an indirect object) the stream `id`. */
  function StreamCount(arena: Arena, elems: seq<Obj>, id: ObjId): nat
    decreases |elems|
  {
    if elems == [] then 0
    else StreamCount(arena, elems[..|elems| - 1], id) + (if GetStream(arena, elems[|elems| - 1]) == Some(id) then 1 else 0)
  }

  /** Between `a0` and `a1` only streams changed, and they stayed streams. */
  ghost predicate OnlyStreamsChanged(a0: Arena, a1: Arena) {
    a0.Keys == a1.Keys && forall id :: id in a0 ==> a1[id] == a0[id] || (a0[id].StreamNode? && a1[id].StreamNode?)
  }

  lemma GetStreamKept(a0: Arena, a1: Arena, o: Obj)
    requires OnlyStreamsChanged(a0, a1)
    ensures GetStream(a1, o) == GetStream(a0, o)
  {
  }

  lemma GetStreamKeptByDicts(a0: Arena, a1: Arena, o: Obj)
    requires OnlyDictNodesChanged(a0, a1)
    ensures GetStream(a1, o) == GetStream(a0, o)
  {
  }

  /** What the stream loop has done to stream `id` after the elements `done`. */
  ghost predicate StreamRewritten(arena: Arena, cur: Arena, done: seq<Obj>, pairs: map<string, string>, id: ObjId)
    requires forall k :: k in pairs ==> |k| > 0
    requires id in arena && id in cur
  {
    var n := StreamCount(arena, done, id);
    if n == 0 then cur[id] == arena[id]
    else
      && arena[id].StreamNode? && cur[id].StreamNode?
      && RewrittenTimes(arena[id].data, cur[id].data, pairs, n)
      && cur[id].sdict.Get("Length") == Some(Int(|cur[id].data|))
      && forall key :: key != "Length" ==> cur[id].sdict.Get(key) == arena[id].sdict.Get(key)
  }

  /** The stream loop of renameResources: each element of the page's
      Contents array that is a stream has its data rewritten by the name
      pairs and its Length set to the new data length. A stream listed
      twice is rewritten twice. The stream codec is the identity here. */
  method RewriteStreams(arena: Arena, elems: seq<Obj>, pairs: map<string, string>) returns (arena': Arena)
    requires forall k :: k in pairs ==> |k| > 0
    ensures OnlyStreamsChanged(arena, arena')
    ensures forall id :: id in arena ==> StreamRewritten(arena, arena', elems, pairs, id)
  {
    arena' := arena;
    for i := 0 to |elems|
      invariant OnlyStreamsChanged(arena, arena')
      invariant forall id :: id in arena ==> StreamRewritten(arena, arena', elems[..i], pairs, id)
    {
      GetStreamKept(arena, arena', elems[i]);
      var s := GetStream(arena', elems[i]);
      assert elems[..i + 1] == elems[..i] + [elems[i]];
      if s.Some? {
        var id := s.value;
        var node := arena'[id];
        var data', ord := ReplaceNames(node.data, pairs);
        ghost var a1 := arena';
        arena' := arena'[id := StreamNode(node.sdict.Set("Length", Int(|data'|)), data')];
        StreamsStep(arena, a1, elems[..i], elems[i], pairs, id, data', ord);
      } else {
        StreamsSkip(arena, arena', elems[..i], elems[i], pairs);
      }
    }
    assert elems[..|elems|] == elems;
  }

  /** A stream element rewrites its own stream and no other. */
  lemma StreamsStep(arena: Arena, cur: Arena, done: seq<Obj>, e: Obj, pairs: map<string, string>, id: ObjId,
                    data': string, ord: seq<string>)
    requires forall k :: k in pairs ==> |k| > 0
    requires OnlyStreamsChanged(arena, cur)
    requires forall j :: j in arena ==> StreamRewritten(arena, cur, done, pairs, j)
    requires GetStream(arena, e) == Some(id) && id in arena
    requires Enumerates(ord, pairs.Keys) && data' == ApplyRenames(cur[id].data, pairs, ord)
    ensures var next := cur[id := StreamNode(cur[id].sdict.Set("Length", Int(|data'|)), data')];
      OnlyStreamsChanged(arena, next) &&
      forall j :: j in arena ==> StreamRewritten(arena, next, done + [e], pairs, j)
  {
    var next := cur[id := StreamNode(cur[id].sdict.Set("Length", Int(|data'|)), data')];
    assert (done + [e])[..|done|] == done;
    forall j | j in arena ensures StreamRewritten(arena, next, done + [e], pairs, j) {
      if j == id {
        StreamStep(arena, cur, done, e, pairs, id, data', ord);
      } else {
        assert StreamCount(arena, done + [e], j) == StreamCount(arena, done, j);
      }
    }
  }

  /** An element that is not a stream changes no stream count. */
  lemma StreamsSkip(arena: Arena, cur: Arena, done: seq<Obj>, e: Obj, pairs: map<string, string>)
    requires forall k :: k in pairs ==> |k| > 0
    requires cur.Keys == arena.Keys
    requires forall j :: j in arena ==> StreamRewritten(arena, cur, done, pairs, j)
    requires GetStream(arena, e).None?
    ensures forall j :: j in arena ==> StreamRewritten(arena, cur, done + [e], pairs, j)
  {
    assert (done + [e])[..|done|] == done;
    forall j | j in arena ensures StreamRewritten(arena, cur, done + [e], pairs, j) {
      assert StreamCount(arena, done + [e], j) == StreamCount(arena, done, j);
    }
  }

  lemma StreamStep(arena: Arena, cur: Arena, done: seq<Obj>, e: Obj, pairs: map<string, string>, id: ObjId,
                   data': string, ord: seq<string>)
    requires forall k :: k in pairs ==> |k| > 0
    requires OnlyStreamsChanged(arena, cur)
    requires id in arena && StreamRewritten(arena, cur, done, pairs, id)
    requires GetStream(arena, e) == Some(id)
    requires Enumerates(ord, pairs.Keys) && data' == ApplyRenames(cur[id].data, pairs, ord)
    ensures StreamRewritten(arena, cur[id := StreamNode(cur[id].sdict.Set("Length", Int(|data'|)), data')],
                            done + [e], pairs, id)
  {
    assert (done + [e])[..|done|] == done;
    var n := StreamCount(arena, done, id);
    assert StreamCount(arena, done + [e], id) == n + 1;
    var next := cur[id := StreamNode(cur[id].sdict.Set("Length", Int(|data'|)), data')];
    assert RewrittenTimes(arena[id].data, next[id].data, pairs, n + 1) by {
      assert Enumerates(ord, pairs.Keys) && RewrittenTimes(arena[id].data, cur[id].data, pairs, n);
    }
  }

  // --------------------------------------------------------------------
  // What one half of renameResources leaves for the other

  /** Without a parser, each name gathered is held by the dictionary it is recorded with. */
  lemma NamesHeldByGather(arena: Arena, page: Dict)
    ensures NamesHeld(arena, page, PageResourceNames(None, arena, page, map[]).0)
  {
    var r := PageResourceNames(None, arena, page, map[]);
    PageResourceNamesMeaning(None, arena, page);
    forall n | n in r.0 ensures ResDict(arena, page, r.0[n]).Some? && ResDict(arena, page, r.0[n]).value.HasKey(n) {
      ResDictIsSubDict(arena, page, r.0[n]);
    }
  }

  /** Rewriting streams leaves every resource dictionary where and what it was. */
  lemma ResDictKeptByStreams(a1: Arena, a2: Arena, page: Dict, k: ResKind)
    requires OnlyStreamsChanged(a1, a2)
    ensures SubLoc(a2, page, k) == SubLoc(a1, page, k)
    ensures ResDict(a2, page, k) == ResDict(a1, page, k)
  {
    assert ResOf(a2, page) == ResOf(a1, page);
    if ResOf(a1, page).Some? {
      var o := GetOrNull(ResOf(a1, page).value, KindKey(k));
      assert EntryLoc(a2, o, k) == EntryLoc(a1, o, k);
    }
  }

  /** Changing only dictionary nodes changes no stream count. */
  lemma {:induction false} StreamCountKeptByDicts(a0: Arena, a1: Arena, elems: seq<Obj>, id: ObjId)
    requires OnlyDictNodesChanged(a0, a1)
    ensures StreamCount(a1, elems, id) == StreamCount(a0, elems, id)
    decreases |elems|
  {
    if elems != [] {
      StreamCountKeptByDicts(a0, a1, elems[..|elems| - 1], id);
      GetStreamKeptByDicts(a0, a1, elems[|elems| - 1]);
    }
  }

  /** A stream that re-keying kept is rewritten from the same data either way. */
  lemma StreamRewrittenByDicts(a0: Arena, a1: Arena, a2: Arena, elems: seq<Obj>, pairs: map<string, string>, id: ObjId)
    requires forall k :: k in pairs ==> |k| > 0
    requires OnlyDictNodesChanged(a0, a1) && a1.Keys == a2.Keys
    requires id in a0 && a0[id].StreamNode?
    requires StreamRewritten(a1, a2, elems, pairs, id)
    ensures StreamRewritten(a0, a2, elems, pairs, id)
  {
    StreamCountKeptByDicts(a0, a1, elems, id);
  }

  /** Rewriting streams keeps what re-keying achieved. */
  lemma RekeyedKeptByStreams(a0: Arena, p0: Dict, a1: Arena, a2: Arena, p1: Dict, names: map<string, ResKind>,
                             renames: map<string, string>, reached: set<ObjId>)
    requires OnlyStreamsChanged(a1, a2)
    requires Rekeyed(a0, p0, a1, p1, names, renames, reached)
    ensures Rekeyed(a0, p0, a2, p1, names, renames, reached)
  {
    forall k ensures SubLoc(a2, p1, k) == SubLoc(a1, p1, k) && ResDict(a2, p1, k) == ResDict(a1, p1, k) {
      ResDictKeptByStreams(a1, a2, p1, k);
    }
  }

  /** Between `a0` and `a1` identities were only added, and each old node
      is the same, or was and is a dictionary, or was and is a stream. */
  ghost predicate Evolves(a0: Arena, a1: Arena) {
    a0.Keys <= a1.Keys &&
    forall id :: id in a0 ==>
      a1[id] == a0[id] || (DictNode(a0, id) && DictNode(a1, id)) || (a0[id].StreamNode? && a1[id].StreamNode?)
  }

  /** Every stream of `a0` is rewritten as the stream loop over `elems` does it. */
  ghost predicate StreamsRewritten(a0: Arena, a1: Arena, elems: seq<Obj>, pairs: map<string, string>)
    requires forall k :: k in pairs ==> |k| > 0
  {
    a0.Keys == a1.Keys && forall id :: id in a0 && a0[id].StreamNode? ==> StreamRewritten(a0, a1, elems, pairs, id)
  }

  /** The two loops of renameResources that follow the choice of new names:
      re-keying the page's resource dictionaries, then rewriting the streams
      of its Contents array `elems`. */
  method RenameGraph(arena: Arena, page: Dict, elems: seq<Obj>, names: map<string, ResKind>,
                     renames: map<string, string>, pairs: map<string, string>, src: set<string>,
                     q: seq<ObjId>, h: set<ObjId>, srcObjects: set<ObjId>)
    returns (arena': Arena, page': Dict, q': seq<ObjId>, h': set<ObjId>)
    requires Delta(q, h, srcObjects)
    requires forall k :: k in pairs ==> |k| > 0
    ensures Delta(q', h', srcObjects) && q <= q' && h <= h'
    ensures Evolves(arena, arena') && RenameFrame(arena, page, arena', page')
    ensures forall key :: key != "Resources" ==> page'.Get(key) == page.Get(key)
    ensures RekeyFits(arena, page, names, renames, src) ==> Rekeyed(arena, page, arena', page', names, renames, h' + srcObjects)
    ensures StreamsRewritten(arena, arena', elems, pairs)
  {
    var a1, p1, q1, h1 := RekeyResources(arena, page, names, renames, src, q, h, srcObjects);
    arena' := RewriteStreams(a1, elems, pairs);
    page', q', h' := p1, q1, h1;
    RenameFrameStreams(arena, page, a1, p1, arena');
    if RekeyFits(arena, page, names, renames, src) {
      RekeyedKeptByStreams(arena, page, a1, arena', p1, names, renames, h1 + srcObjects);
    }
    forall id | id in arena && arena[id].StreamNode? ensures StreamRewritten(arena, arena', elems, pairs, id) {
      StreamRewrittenByDicts(arena, a1, arena', elems, pairs, id);
    }
  }

  lemma NoNewPtrsRefl(arena: Arena)
    ensures NoNewPtrs(arena, arena)
  {
    forall x | DictNode(arena, x) ensures PtrsAmong(arena[x].payload.d, arena[x].payload.d) {
      var e := arena[x].payload.d;
      forall k | e.Get(k).Some? && e.Get(k).value.Ptr? ensures HasPtr(e, e.Get(k).value.id) {
      }
    }
  }

  /** Adding a node gains no pointer in the existing dictionary nodes. */
  lemma NoNewPtrsFresh(arena: Arena, id: ObjId, node: Node)
    requires id !in arena
    ensures NoNewPtrs(arena, arena[id := node])
  {
    NoNewPtrsRefl(arena);
  }

  /** Rewriting streams keeps the rename frame. */
  lemma RenameFrameStreams(a0: Arena, p0: Dict, a1: Arena, p1: Dict, a2: Arena)
    requires RenameFrame(a0, p0, a1, p1) && OnlyStreamsChanged(a1, a2)
    ensures RenameFrame(a0, p0, a2, p1)
  {
    var r1 := GetOrNull(p1, "Resources");
    assert GetDict(a2, r1) == GetDict(a1, r1);
    assert forall id :: DictNode(a1, id) ==> a2[id] == a1[id];
  }
}

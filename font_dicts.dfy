/** The composite-font dictionaries (section 9.7 of ISO 32000-1): the Type 0
    font and its CIDFontType0 / CIDFontType2 descendants as loaded from a
    font dictionary (9.7.4, 9.7.6), as written back out by their ToPdfObject
    methods, and as built from a TrueType program by
    NewCompositePdfFontFromTTFFile. */
module FontDicts {
  import opened PdfCore
  import opened FontWidths
  import PageMerge

  /** The font loaders' errors: ErrRangeError, ErrRequiredAttributeMissing,
      and the missing Widths table of a TrueType program. */
  datatype FontError = RangeError | RequiredAttributeMissing | MissingWidths

  datatype Result<T> = Ok(value: T) | Err(error: FontError)

  /** The part of a font common to all font types that the loaders read:
      its Subtype and its dictionary. */
  datatype FontSkeleton = FontSkeleton(subtype: string, dict: Dict)

  /** TraceToDirectObject on a dictionary lookup: a missing entry stays
      missing, an indirect object gives its payload. */
  function TraceToDirect(arena: Arena, o: Option<Obj>): (r: Option<Obj>)
    ensures o.None? <==> r.None?
    ensures o.Some? ==> r == Some(Direct(arena, o.value))
  {
    match o
    case None => None
    case Some(v) => Some(Direct(arena, v))
  }

  // --------------------------------------------------------------------
  // Writing optional entries

  /** Sets `k` to the value of `o` when there is one. */
  function SetIf(d: Dict, k: string, o: Option<Obj>): (r: Dict)
    ensures o.Some? ==> r.Get(k) == o
    ensures o.None? ==> r == d
    ensures forall k' :: k' != k ==> r.Get(k') == d.Get(k')
  {
    if o.Some? then d.Set(k, o.value) else d
  }

  /** SetIf on each key in turn, as the ToPdfObject methods do. */
  function SetAll(d: Dict, ks: seq<string>, vs: seq<Option<Obj>>): Dict
    requires |ks| == |vs|
    decreases |ks|
  {
    if ks == [] then d else SetAll(SetIf(d, ks[0], vs[0]), ks[1..], vs[1..])
  }

  predicate DistinctStrings(ks: seq<string>) {
    forall i, j :: 0 <= i < j < |ks| ==> ks[i] != ks[j]
  }

  /** Each listed key ends up holding its value when there is one and keeps
      the base's entry otherwise; keys not listed keep the base's entries. */
  lemma {:induction false} SetAllGet(d: Dict, ks: seq<string>, vs: seq<Option<Obj>>)
    requires |ks| == |vs| && DistinctStrings(ks)
    ensures forall i :: 0 <= i < |ks| && vs[i].Some? ==> SetAll(d, ks, vs).Get(ks[i]) == vs[i]
    ensures forall i :: 0 <= i < |ks| && vs[i].None? ==> SetAll(d, ks, vs).Get(ks[i]) == d.Get(ks[i])
    ensures forall k :: k !in ks ==> SetAll(d, ks, vs).Get(k) == d.Get(k)
    decreases |ks|
  {
    if ks != [] {
      var d1 := SetIf(d, ks[0], vs[0]);
      assert DistinctStrings(ks[1..]);
      SetAllGet(d1, ks[1..], vs[1..]);
      forall i | 0 < i < |ks| ensures ks[i] in ks[1..] && ks[i] != ks[0] && vs[i] == vs[1..][i - 1] {
        assert ks[i] == ks[1..][i - 1];
      }
      assert ks[0] !in ks[1..];
    }
  }

  // --------------------------------------------------------------------
  // The font records

  /** pdfCIDFontType0's dictionary entries. */
  datatype CIDFontType0Data = CIDFontType0Data(skeleton: FontSkeleton, cidSystemInfo: Option<Obj>,
                                               dw: Option<Obj>, w: Option<Obj>, dw2: Option<Obj>, w2: Option<Obj>)

  /** pdfCIDFontType2's dictionary entries. */
  datatype CIDFontType2Data = CIDFontType2Data(skeleton: FontSkeleton, cidSystemInfo: Option<Obj>,
                                               dw: Option<Obj>, w: Option<Obj>, dw2: Option<Obj>, w2: Option<Obj>,
                                               cidToGIDMap: Option<Obj>)

  /** The text encoder of a Type 0 font: none, the Identity-H encoder, or
      the TrueType encoder over a cmap. */
  datatype Encoder = NoEncoder | IdentityEncoder | TrueTypeEncoder(chars: map<int, int>)

  /** pdfFontType0: its skeleton, its text encoder, its Encoding entry and
      its descendant font (whatever the loader of descendant fonts makes of
      it). */
  datatype Type0Data<D> = Type0Data(skeleton: FontSkeleton, encoder: Encoder, encoding: Option<Obj>,
                                    descendant: D)

  /** newPdfCIDFontType0FromPdfObject: the Subtype must be CIDFontType0 and
      CIDSystemInfo present; CIDSystemInfo and the optional DW, W, DW2 and
      W2 are taken through TraceToDirectObject. */
  function NewCIDFontType0(arena: Arena, skeleton: FontSkeleton): (r: Result<CIDFontType0Data>)
    ensures skeleton.subtype != "CIDFontType0" ==> r == Err(RangeError)
    ensures skeleton.subtype == "CIDFontType0" && !skeleton.dict.HasKey("CIDSystemInfo") ==>
              r == Err(RequiredAttributeMissing)
    ensures r.Ok? <==> skeleton.subtype == "CIDFontType0" && skeleton.dict.HasKey("CIDSystemInfo")
    ensures r.Ok? ==> r.value.skeleton == skeleton
    ensures r.Ok? ==> r.value.cidSystemInfo == TraceToDirect(arena, skeleton.dict.Get("CIDSystemInfo"))
    ensures r.Ok? ==> r.value.dw == TraceToDirect(arena, skeleton.dict.Get("DW")) &&
                      r.value.w == TraceToDirect(arena, skeleton.dict.Get("W")) &&
                      r.value.dw2 == TraceToDirect(arena, skeleton.dict.Get("DW2")) &&
                      r.value.w2 == TraceToDirect(arena, skeleton.dict.Get("W2"))
  {
    var d := skeleton.dict;
    if skeleton.subtype != "CIDFontType0" then Err(RangeError)
    else
      var info := TraceToDirect(arena, d.Get("CIDSystemInfo"));
      if info.None? then Err(RequiredAttributeMissing)
      else Ok(CIDFontType0Data(skeleton, info, TraceToDirect(arena, d.Get("DW")), TraceToDirect(arena, d.Get("W")),
                               TraceToDirect(arena, d.Get("DW2")), TraceToDirect(arena, d.Get("W2"))))
  }

  /** newPdfCIDFontType2FromPdfObject: the Subtype must be CIDFontType2 and
      CIDSystemInfo present; the entries are taken as they are, without
      resolving indirect objects. */
  function NewCIDFontType2(skeleton: FontSkeleton): (r: Result<CIDFontType2Data>)
    ensures skeleton.subtype != "CIDFontType2" ==> r == Err(RangeError)
    ensures skeleton.subtype == "CIDFontType2" && !skeleton.dict.HasKey("CIDSystemInfo") ==>
              r == Err(RequiredAttributeMissing)
    ensures r.Ok? <==> skeleton.subtype == "CIDFontType2" && skeleton.dict.HasKey("CIDSystemInfo")
    ensures r.Ok? ==> r.value.skeleton == skeleton
    ensures r.Ok? ==> r.value.cidSystemInfo == skeleton.dict.Get("CIDSystemInfo")
    ensures r.Ok? ==> r.value.dw == skeleton.dict.Get("DW") && r.value.w == skeleton.dict.Get("W") &&
                      r.value.dw2 == skeleton.dict.Get("DW2") && r.value.w2 == skeleton.dict.Get("W2") &&
                      r.value.cidToGIDMap == skeleton.dict.Get("CIDToGIDMap")
  {
    var d := skeleton.dict;
    if skeleton.subtype != "CIDFontType2" then Err(RangeError)
    else if d.Get("CIDSystemInfo").None? then Err(RequiredAttributeMissing)
    else Ok(CIDFontType2Data(skeleton, d.Get("CIDSystemInfo"), d.Get("DW"), d.Get("W"), d.Get("DW2"), d.Get("W2"),
                             d.Get("CIDToGIDMap")))
  }

  /** The DescendantFonts array, when it is one (directly or through an indirect object). */
  function Descendants(arena: Arena, d: Dict): (r: Option<seq<Obj>>)
    ensures d.Get("DescendantFonts").None? ==> r.None?
    ensures d.Get("DescendantFonts").Some? ==> r == GetArray(arena, d.Get("DescendantFonts").value)
  {
    match d.Get("DescendantFonts")
    case None => None
    case Some(o) => GetArray(arena, o)
  }

  /** Encoding is the name Identity-H, directly or through an indirect object. */
  predicate IdentityH(arena: Arena, d: Dict) {
    TraceToDirect(arena, d.Get("Encoding")) == Some(Name("Identity-H"))
  }

  /** newPdfFontType0FromPdfObject as written: DescendantFonts must be an
      array of exactly one font, which `load` (newPdfFontFromPdfObject,
      not part of this model) must accept; the Identity-H encoder is
      chosen only for that Encoding name. The Encoding entry itself is
      not kept. */
  function NewType0AsWritten<D>(arena: Arena, skeleton: FontSkeleton, load: Obj -> Result<D>): (r: Result<Type0Data<D>>)
    ensures Descendants(arena, skeleton.dict).None? ==> r == Err(RangeError)
    ensures Descendants(arena, skeleton.dict).Some? && |Descendants(arena, skeleton.dict).value| != 1 ==> r == Err(RangeError)
    ensures r.Ok? ==> r.value.encoding.None?
  {
    var arr := Descendants(arena, skeleton.dict);
    if arr.None? || |arr.value| != 1 then Err(RangeError)
    else
      match load(arr.value[0])
      case Err(e) => Err(e)
      case Ok(df) => Ok(Type0Data(skeleton, if IdentityH(arena, skeleton.dict) then IdentityEncoder else NoEncoder, None, df))
  }

  /** newPdfFontType0FromPdfObject, keeping the Encoding entry as the font's
      Encoding so that ToPdfObject writes it back. DescendantFonts must be
      an array of exactly one font that `load` accepts, and the Identity-H
      encoder is chosen only for that Encoding name. */
  function NewType0<D>(arena: Arena, skeleton: FontSkeleton, load: Obj -> Result<D>): (r: Result<Type0Data<D>>)
    ensures Descendants(arena, skeleton.dict).None? ==> r == Err(RangeError)
    ensures Descendants(arena, skeleton.dict).Some? && |Descendants(arena, skeleton.dict).value| != 1 ==> r == Err(RangeError)
    ensures Descendants(arena, skeleton.dict).Some? && |Descendants(arena, skeleton.dict).value| == 1 ==>
              (load(Descendants(arena, skeleton.dict).value[0]).Err? ==>
                 r == Err(load(Descendants(arena, skeleton.dict).value[0]).error)) &&
              (load(Descendants(arena, skeleton.dict).value[0]).Ok? ==>
                 r.Ok? && r.value.descendant == load(Descendants(arena, skeleton.dict).value[0]).value)
    ensures r.Ok? ==> r.value.skeleton == skeleton
    ensures r.Ok? ==> r.value.encoder.IdentityEncoder? == IdentityH(arena, skeleton.dict)
    ensures r.Ok? ==> !r.value.encoder.TrueTypeEncoder?
    ensures r.Ok? ==> r.value.encoding == skeleton.dict.Get("Encoding")
  {
    var arr := Descendants(arena, skeleton.dict);
    if arr.None? || |arr.value| != 1 then Err(RangeError)
    else
      match load(arr.value[0])
      case Err(e) => Err(e)
      case Ok(df) => Ok(Type0Data(skeleton, if IdentityH(arena, skeleton.dict) then IdentityEncoder else NoEncoder,
                                     skeleton.dict.Get("Encoding"), df))
  }

  // --------------------------------------------------------------------
  // The dictionaries ToPdfObject writes

  const CIDFontType0Keys: seq<string> := ["CIDSystemInfo", "DW", "DW2", "W", "W2"]
  const CIDFontType2Keys: seq<string> := ["CIDSystemInfo", "DW", "DW2", "W", "W2", "CIDToGIDMap"]

  lemma KeysDistinct()
    ensures DistinctStrings(CIDFontType0Keys) && DistinctStrings(CIDFontType2Keys)
  {
  }

  /** The dictionary pdfCIDFontType0.ToPdfObject writes: the skeleton's
      dictionary `base`, then each entry that is set. */
  function CIDFontType0Dict(base: Dict, f: CIDFontType0Data): Dict {
    SetAll(base, CIDFontType0Keys, CIDFontType0Values(f))
  }

  /** The dictionary pdfCIDFontType2.ToPdfObject writes. */
  function CIDFontType2Dict(base: Dict, f: CIDFontType2Data): Dict {
    SetAll(base, CIDFontType2Keys, CIDFontType2Values(f))
  }

  /** The dictionary pdfFontType0.ToPdfObject writes: Encoding when set, and
      the descendant as a one-element DescendantFonts array when there is one. */
  function Type0Dict(base: Dict, encoding: Option<Obj>, descendant: Option<Obj>): Dict {
    SetIf(SetIf(base, "Encoding", encoding), "DescendantFonts",
          if descendant.Some? then Some(Array([descendant.value])) else None)
  }

  /** Each optional CIDFontType0 entry is written iff its field is set;
      an entry not set keeps what the skeleton's dictionary has. */
  lemma CIDFontType0Entries(base: Dict, f: CIDFontType0Data)
    ensures f.cidSystemInfo.Some? ==> CIDFontType0Dict(base, f).Get("CIDSystemInfo") == f.cidSystemInfo
    ensures f.dw.Some? ==> CIDFontType0Dict(base, f).Get("DW") == f.dw
    ensures f.dw2.Some? ==> CIDFontType0Dict(base, f).Get("DW2") == f.dw2
    ensures f.w.Some? ==> CIDFontType0Dict(base, f).Get("W") == f.w
    ensures f.w2.Some? ==> CIDFontType0Dict(base, f).Get("W2") == f.w2
    ensures f.cidSystemInfo.None? ==> CIDFontType0Dict(base, f).Get("CIDSystemInfo") == base.Get("CIDSystemInfo")
    ensures f.dw.None? ==> CIDFontType0Dict(base, f).Get("DW") == base.Get("DW")
    ensures f.dw2.None? ==> CIDFontType0Dict(base, f).Get("DW2") == base.Get("DW2")
    ensures f.w.None? ==> CIDFontType0Dict(base, f).Get("W") == base.Get("W")
    ensures f.w2.None? ==> CIDFontType0Dict(base, f).Get("W2") == base.Get("W2")
    ensures forall k :: k !in CIDFontType0Keys ==> CIDFontType0Dict(base, f).Get(k) == base.Get(k)
  {
    KeysDistinct();
    var vs := CIDFontType0Values(f);
    SetAllGet(base, CIDFontType0Keys, vs);
    assert CIDFontType0Keys[0] == "CIDSystemInfo" && vs[0] == f.cidSystemInfo;
    assert CIDFontType0Keys[1] == "DW" && vs[1] == f.dw;
    assert CIDFontType0Keys[2] == "DW2" && vs[2] == f.dw2;
    assert CIDFontType0Keys[3] == "W" && vs[3] == f.w;
    assert CIDFontType0Keys[4] == "W2" && vs[4] == f.w2;
  }

  /** Each optional CIDFontType2 entry is written iff its field is set;
      an entry not set keeps what the skeleton's dictionary has. */
  lemma CIDFontType2Entries(base: Dict, f: CIDFontType2Data)
    ensures f.cidSystemInfo.Some? ==> CIDFontType2Dict(base, f).Get("CIDSystemInfo") == f.cidSystemInfo
    ensures f.dw.Some? ==> CIDFontType2Dict(base, f).Get("DW") == f.dw
    ensures f.dw2.Some? ==> CIDFontType2Dict(base, f).Get("DW2") == f.dw2
    ensures f.w.Some? ==> CIDFontType2Dict(base, f).Get("W") == f.w
    ensures f.w2.Some? ==> CIDFontType2Dict(base, f).Get("W2") == f.w2
    ensures f.cidToGIDMap.Some? ==> CIDFontType2Dict(base, f).Get("CIDToGIDMap") == f.cidToGIDMap
    ensures f.cidSystemInfo.None? ==> CIDFontType2Dict(base, f).Get("CIDSystemInfo") == base.Get("CIDSystemInfo")
    ensures f.dw.None? ==> CIDFontType2Dict(base, f).Get("DW") == base.Get("DW")
    ensures f.dw2.None? ==> CIDFontType2Dict(base, f).Get("DW2") == base.Get("DW2")
    ensures f.w.None? ==> CIDFontType2Dict(base, f).Get("W") == base.Get("W")
    ensures f.w2.None? ==> CIDFontType2Dict(base, f).Get("W2") == base.Get("W2")
    ensures f.cidToGIDMap.None? ==> CIDFontType2Dict(base, f).Get("CIDToGIDMap") == base.Get("CIDToGIDMap")
    ensures forall k :: k !in CIDFontType2Keys ==> CIDFontType2Dict(base, f).Get(k) == base.Get(k)
  {
    KeysDistinct();
    var vs := CIDFontType2Values(f);
    SetAllGet(base, CIDFontType2Keys, vs);
    assert CIDFontType2Keys[0] == "CIDSystemInfo" && vs[0] == f.cidSystemInfo;
    assert CIDFontType2Keys[1] == "DW" && vs[1] == f.dw;
    assert CIDFontType2Keys[2] == "DW2" && vs[2] == f.dw2;
    assert CIDFontType2Keys[3] == "W" && vs[3] == f.w;
    assert CIDFontType2Keys[4] == "W2" && vs[4] == f.w2;
    assert CIDFontType2Keys[5] == "CIDToGIDMap" && vs[5] == f.cidToGIDMap;
  }

  /** Encoding is written iff it is set, and DescendantFonts, iff there is
      a descendant, as the one-element array holding it. */
  lemma Type0Entries(base: Dict, encoding: Option<Obj>, descendant: Option<Obj>)
    ensures encoding.Some? ==> Type0Dict(base, encoding, descendant).Get("Encoding") == encoding
    ensures encoding.None? ==> Type0Dict(base, encoding, descendant).Get("Encoding") == base.Get("Encoding")
    ensures descendant.Some? ==>
              Type0Dict(base, encoding, descendant).Get("DescendantFonts") == Some(Array([descendant.value]))
    ensures descendant.None? ==>
              Type0Dict(base, encoding, descendant).Get("DescendantFonts") == base.Get("DescendantFonts")
    ensures forall k :: k != "Encoding" && k != "DescendantFonts" ==>
              Type0Dict(base, encoding, descendant).Get(k) == base.Get(k)
  {
  }

  // --------------------------------------------------------------------
  // Reading a font dictionary and writing it back

  /** The entries of a CIDFontType0, in the order ToPdfObject writes them. */
  function CIDFontType0Values(f: CIDFontType0Data): (vs: seq<Option<Obj>>)
    ensures |vs| == |CIDFontType0Keys|
  {
    [f.cidSystemInfo, f.dw, f.dw2, f.w, f.w2]
  }

  /** The entries of a CIDFontType2, in the order ToPdfObject writes them. */
  function CIDFontType2Values(f: CIDFontType2Data): (vs: seq<Option<Obj>>)
    ensures |vs| == |CIDFontType2Keys|
  {
    [f.cidSystemInfo, f.dw, f.dw2, f.w, f.w2, f.cidToGIDMap]
  }

  /** A CIDFontType2 loaded from a dictionary is written back with the same
      CIDSystemInfo, DW, DW2, W, W2 and CIDToGIDMap entries; one of those the
      dictionary lacks is left as the skeleton's dictionary has it. */
  lemma CIDFontType2RoundTrip(skeleton: FontSkeleton, base: Dict)
    requires NewCIDFontType2(skeleton).Ok?
    ensures forall k :: k in CIDFontType2Keys && skeleton.dict.HasKey(k) ==>
              CIDFontType2Dict(base, NewCIDFontType2(skeleton).value).Get(k) == skeleton.dict.Get(k)
    ensures forall k :: k in CIDFontType2Keys && !skeleton.dict.HasKey(k) ==>
              CIDFontType2Dict(base, NewCIDFontType2(skeleton).value).Get(k) == base.Get(k)
  {
    var f := NewCIDFontType2(skeleton).value;
    KeysDistinct();
    CIDFontType2Loaded(skeleton, f);
    SetAllFrom(base, CIDFontType2Keys, CIDFontType2Values(f), skeleton.dict);
  }

  /** A CIDFontType0 loaded from a dictionary is written back with the same
      entries, indirect objects replaced by their payloads; one of those the
      dictionary lacks is left as the skeleton's dictionary has it. */
  lemma CIDFontType0RoundTrip(arena: Arena, skeleton: FontSkeleton, base: Dict)
    requires NewCIDFontType0(arena, skeleton).Ok?
    ensures forall k :: k in CIDFontType0Keys && skeleton.dict.HasKey(k) ==>
              CIDFontType0Dict(base, NewCIDFontType0(arena, skeleton).value).Get(k)
                == Some(Direct(arena, skeleton.dict.Get(k).value))
    ensures forall k :: k in CIDFontType0Keys && !skeleton.dict.HasKey(k) ==>
              CIDFontType0Dict(base, NewCIDFontType0(arena, skeleton).value).Get(k) == base.Get(k)
  {
    var f := NewCIDFontType0(arena, skeleton).value;
    KeysDistinct();
    CIDFontType0Loaded(arena, skeleton, f);
    SetAllTraced(arena, base, CIDFontType0Keys, CIDFontType0Values(f), skeleton.dict);
  }

  /** Writing back, with SetAll, values read from `src` under the same keys
      restores each key `src` has and leaves the others to `base`. */
  lemma SetAllFrom(base: Dict, ks: seq<string>, vs: seq<Option<Obj>>, src: Dict)
    requires |ks| == |vs| && DistinctStrings(ks)
    requires forall i :: 0 <= i < |ks| ==> vs[i] == src.Get(ks[i])
    ensures forall k :: k in ks && src.HasKey(k) ==> SetAll(base, ks, vs).Get(k) == src.Get(k)
    ensures forall k :: k in ks && !src.HasKey(k) ==> SetAll(base, ks, vs).Get(k) == base.Get(k)
  {
    SetAllGet(base, ks, vs);
    forall k | k in ks
      ensures SetAll(base, ks, vs).Get(k) == if src.HasKey(k) then src.Get(k) else base.Get(k)
    {
      var i :| 0 <= i < |ks| && ks[i] == k;
    }
  }

  /** As SetAllFrom, for values read through TraceToDirectObject. */
  lemma SetAllTraced(arena: Arena, base: Dict, ks: seq<string>, vs: seq<Option<Obj>>, src: Dict)
    requires |ks| == |vs| && DistinctStrings(ks)
    requires forall i :: 0 <= i < |ks| ==> vs[i] == TraceToDirect(arena, src.Get(ks[i]))
    ensures forall k :: k in ks && src.HasKey(k) ==> SetAll(base, ks, vs).Get(k) == Some(Direct(arena, src.Get(k).value))
    ensures forall k :: k in ks && !src.HasKey(k) ==> SetAll(base, ks, vs).Get(k) == base.Get(k)
  {
    SetAllGet(base, ks, vs);
    forall k | k in ks
      ensures SetAll(base, ks, vs).Get(k) ==
                if src.HasKey(k) then Some(Direct(arena, src.Get(k).value)) else base.Get(k)
    {
      var i :| 0 <= i < |ks| && ks[i] == k;
    }
  }

  /** The loaded entries are the dictionary's, key by key. */
  lemma CIDFontType0Loaded(arena: Arena, skeleton: FontSkeleton, f: CIDFontType0Data)
    requires NewCIDFontType0(arena, skeleton) == Ok(f)
    ensures forall i :: 0 <= i < |CIDFontType0Keys| ==>
              CIDFontType0Values(f)[i] == TraceToDirect(arena, skeleton.dict.Get(CIDFontType0Keys[i]))
  {
    var vs := CIDFontType0Values(f);
    assert vs[0] == f.cidSystemInfo && vs[1] == f.dw && vs[2] == f.dw2 && vs[3] == f.w && vs[4] == f.w2;
  }

  /** The loaded entries are the dictionary's, key by key. */
  lemma CIDFontType2Loaded(skeleton: FontSkeleton, f: CIDFontType2Data)
    requires NewCIDFontType2(skeleton) == Ok(f)
    ensures forall i :: 0 <= i < |CIDFontType2Keys| ==> CIDFontType2Values(f)[i] == skeleton.dict.Get(CIDFontType2Keys[i])
  {
    var vs := CIDFontType2Values(f);
    assert vs[0] == f.cidSystemInfo && vs[1] == f.dw && vs[2] == f.dw2 && vs[3] == f.w && vs[4] == f.w2 &&
           vs[5] == f.cidToGIDMap;
  }

  /** A Type0 font loaded from a dictionary is written back with its Encoding. */
  lemma Type0RoundTrip<D>(arena: Arena, skeleton: FontSkeleton, load: Obj -> Result<D>, base: Dict, descendant: Option<Obj>)
    requires NewType0(arena, skeleton, load).Ok?
    ensures Type0Dict(base, NewType0(arena, skeleton, load).value.encoding, descendant).Get("Encoding")
              == if skeleton.dict.HasKey("Encoding") then skeleton.dict.Get("Encoding") else base.Get("Encoding")
  {
    Type0Entries(base, NewType0(arena, skeleton, load).value.encoding, descendant);
  }

  /** As written, the loader drops Encoding: a Type0 font read from a
      dictionary with Encoding /Identity-H and one descendant is written
      back by ToPdfObject without any Encoding entry. */
  lemma Type0EncodingLost()
    ensures var skeleton := FontSkeleton("Type0", Dict([Entry("Encoding", Name("Identity-H")),
                                                         Entry("DescendantFonts", Array([Null]))]));
            var load := (o: Obj) => Ok(0);
            NewType0AsWritten(map[], skeleton, load).Ok? &&
            Type0Dict(Dict([]), NewType0AsWritten(map[], skeleton, load).value.encoding, Some(Null)).Get("Encoding") == None &&
            skeleton.dict.Get("Encoding") == Some(Name("Identity-H"))
  {
    var skeleton := FontSkeleton("Type0", Dict([Entry("Encoding", Name("Identity-H")),
                                                Entry("DescendantFonts", Array([Null]))]));
    var load := (o: Obj) => Ok(0);
    assert skeleton.dict.entries[1].key == "DescendantFonts";
    assert skeleton.dict.Get("DescendantFonts") == Some(Array([Null]));
    Type0Entries(Dict([]), None, Some(Null));
  }

  // --------------------------------------------------------------------
  // The font objects and their ToPdfObject methods

  /** A CIDFont of either kind. */
  datatype CIDFontData = CIDType0(t0: CIDFontType0Data) | CIDType2(t2: CIDFontType2Data)

  /** The dictionary a CIDFont's ToPdfObject writes: that of
      pdfCIDFontType0.ToPdfObject or of pdfCIDFontType2.ToPdfObject. */
  function CIDFontDict(base: Dict, data: CIDFontData): Dict {
    match data
    case CIDType0(f) => CIDFontType0Dict(base, f)
    case CIDType2(f) => CIDFontType2Dict(base, f)
  }

  /** A CIDFont object (a PdfFont whose context is a pdfCIDFontType0 or a
      pdfCIDFontType2): its entries and the indirect object it is written to. */
  class CIDFont {
    var container: Option<ObjId>
    const data: CIDFontData

    constructor (data: CIDFontData)
      ensures this.data == data && container.None?
    {
      this.data, container := data, None;
    }

    /** ToPdfObject: the container is created when there is none and reused
        otherwise, and it is set to `base` (the dictionary the common font
        fields give for the font's subtype) with each set entry written. */
    method ToPdfObject(arena: Arena, base: Dict) returns (arena': Arena, o: Obj)
      modifies this`container
      ensures old(container).Some? ==> container == old(container)
      ensures old(container).None? ==> container.Some? && container.value !in arena
      ensures o == Ptr(container.value)
      ensures arena' == arena[container.value := IndirectNode(DictObj(CIDFontDict(base, data)))]
    {
      if container.None? {
        var id := PageMerge.Above(arena.Keys);
        container := Some(id);
      }
      arena' := arena[container.value := IndirectNode(DictObj(CIDFontDict(base, data)))];
      o := Ptr(container.value);
    }
  }

  /** The arena after a Type 0 font with container `c` is written: the
      descendant `dc`, when there is one, holds its dictionary `dd` and `c`
      the Type 0 dictionary. */
  function Type0Arena(arena: Arena, c: ObjId, base: Dict, encoding: Option<Obj>, dc: Option<ObjId>, dd: Option<Dict>): Arena
  {
    if dc.None? || dd.None? then arena[c := IndirectNode(DictObj(Type0Dict(base, encoding, None)))]
    else arena[dc.value := IndirectNode(DictObj(dd.value))][c := IndirectNode(DictObj(Type0Dict(base, encoding, Some(Ptr(dc.value)))))]
  }

  /** Writing a Type 0 font adds at most its two objects, the descendant
      holds its own dictionary and is the one element of DescendantFonts,
      and every other object is left alone. */
  lemma Type0ArenaFacts(arena: Arena, c: ObjId, base: Dict, encoding: Option<Obj>, dc: ObjId, dd: Dict)
    requires dc != c
    ensures var a' := Type0Arena(arena, c, base, encoding, Some(dc), Some(dd));
            && a'.Keys == arena.Keys + {c, dc}
            && a'[dc] == IndirectNode(DictObj(dd))
            && a'[c].IndirectNode? && a'[c].payload.DictObj?
            && a'[c].payload.d.Get("DescendantFonts") == Some(Array([Ptr(dc)]))
            && a'[c].payload.d.Get("Encoding") == (if encoding.Some? then encoding else base.Get("Encoding"))
            && (forall id :: id in arena && id != c && id != dc ==> a'[id] == arena[id])
  {
    Type0Entries(base, encoding, Some(Ptr(dc)));
  }

  /** The Type 0 container, reserved before its descendant is written, is
      not the descendant's container, and writing it last gives Type0Arena. */
  lemma Type0Written(arena: Arena, c: ObjId, base: Dict, encoding: Option<Obj>, dc0: Option<ObjId>, dc: ObjId, dd: Dict)
    requires dc0.Some? ==> dc0 == Some(dc) && c != dc
    requires dc0.None? ==> dc !in arena[c := IndirectNode(DictObj(base))]
    ensures dc != c
    ensures arena[c := IndirectNode(DictObj(base))][dc := IndirectNode(DictObj(dd))]
                 [c := IndirectNode(DictObj(Type0Dict(base, encoding, Some(Ptr(dc)))))]
            == Type0Arena(arena, c, base, encoding, Some(dc), Some(dd))
  {
    assert c in arena[c := IndirectNode(DictObj(base))];
  }

  /** pdfFontType0: its Encoding, its descendant, and the indirect object it
      is written to. */
  class FontType0 {
    var container: Option<ObjId>
    const encoding: Option<Obj>
    const descendantFont: CIDFont?

    constructor (encoding: Option<Obj>, descendantFont: CIDFont?)
      ensures this.encoding == encoding && this.descendantFont == descendantFont && container.None?
    {
      this.encoding, this.descendantFont, container := encoding, descendantFont, None;
    }

    /** ToPdfObject: the container is created when there is none and reused
        otherwise; it is set to `base` with Encoding when set, and the
        descendant, when there is one, is written (with `descBase`, see
        CIDFont.ToPdfObject) and referenced as the one-element
        DescendantFonts array. The two containers must be different objects. */
    method ToPdfObject(arena: Arena, base: Dict, descBase: Dict) returns (arena': Arena, o: Obj)
      requires container.Some? && descendantFont != null && descendantFont.container.Some? ==>
                 container != descendantFont.container
      modifies this`container
      modifies if descendantFont == null then {} else {descendantFont}
      ensures old(container).Some? ==> container == old(container)
      ensures old(container).None? ==> container.Some? && container.value !in arena
      ensures o == Ptr(container.value)
      ensures descendantFont != null ==> descendantFont.container.Some? && descendantFont.container != container
      ensures descendantFont != null && old(descendantFont.container).Some? ==>
                descendantFont.container == old(descendantFont.container)
      ensures descendantFont != null && old(descendantFont.container).None? ==>
                descendantFont.container.value !in arena
      ensures arena' == Type0Arena(arena, container.value, base, encoding,
                                   if descendantFont == null then None else descendantFont.container,
                                   if descendantFont == null then None else Some(CIDFontDict(descBase, descendantFont.data)))
    {
      var dc0 := if descendantFont == null then None else descendantFont.container;
      // An identity for the container in case there is none yet.
      var spare := PageMerge.Above(arena.Keys + if dc0.Some? then {dc0.value} else {});
      var c := if container.None? then spare else container.value;
      // The container holds the Type0 dictionary from here on, so the
      // descendant's new container is a different object.
      var a1 := arena[c := IndirectNode(DictObj(base))];
      if descendantFont == null {
        arena' := a1[c := IndirectNode(DictObj(Type0Dict(base, encoding, None)))];
      } else {
        var a2, x := descendantFont.ToPdfObject(a1, descBase);
        Type0Written(arena, c, base, encoding, dc0, x.id, CIDFontDict(descBase, descendantFont.data));
        arena' := a2[c := IndirectNode(DictObj(Type0Dict(base, encoding, Some(x))))];
      }
      container := Some(c);
      o := Ptr(c);
    }
  }

  // --------------------------------------------------------------------
  // Building a composite font from a TrueType program

  /** The descriptor Flags of the composite font: Symbolic (bit 2, value 4)
      always, FixedPitch (bit 0) for a fixed-pitch font and Italic (bit 6)
      for a nonzero italic angle. */
  method Flags(isFixedPitch: bool, italicAngle: real) returns (flags: bv32)
    ensures FlagsFor(flags, isFixedPitch, italicAngle)
  {
    flags := 0;
    if isFixedPitch {
      flags := flags | 1;
    }
    if italicAngle != 0.0 {
      flags := flags | (1 << 6);
    }
    flags := flags | (1 << 2);
  }

  /** Symbolic set, FixedPitch iff fixed pitch, Italic iff the angle is
      nonzero, and no other bit. */
  predicate FlagsFor(flags: bv32, isFixedPitch: bool, italicAngle: real) {
    && flags & 4 == 4
    && (flags & 1 == 1 <==> isFixedPitch)
    && (flags & 64 == 64 <==> italicAngle != 0.0)
    && flags & !69 == 0
  }

  /** What the model reads of a parsed TrueType program: its cmap (rune to
      glyph index), its glyph widths (already scaled to text space and
      truncated), fixed pitch, italic angle, and boldness. */
  datatype TtfFont = TtfFont(chars: map<int, int>, widths: seq<int>, isFixedPitch: bool, italicAngle: real, bold: bool)

  /** The descriptor entries the model keeps. */
  datatype Descriptor = Descriptor(flags: bv32, stemV: int)

  /** The composite font NewCompositePdfFontFromTTFFile returns: the Type 0
      font with Identity-H encoding and its CIDFontType2 descendant, with the
      width maps and the descriptor. */
  datatype CompositeFont = CompositeFont(type0: Type0Data<CIDFontType2Data>, runes: seq<int>,
                                         runeToWidth: map<int, int>, gidToWidth: map<int, int>,
                                         descriptor: Descriptor)

  /** NewCompositePdfFontFromTTFFile, from the parse on: the runes of the
      cmap (enumerated in `order`, as a map iteration gives them) are
      sorted; a program without widths is an error; each rune and glyph gets
      its width; DW is the glyph 0 width; W groups the runes into runs of
      equal width and is stored as a new indirect object; CIDToGIDMap is
      Identity, CIDSystemInfo Adobe/Identity/0, and the Type 0 font has
      Encoding Identity-H. */
  method NewCompositeFont(arena: Arena, ttf: TtfFont, order: seq<int>) returns (arena': Arena, r: Result<CompositeFont>)
    requires forall i, j :: 0 <= i < j < |order| ==> order[i] != order[j]
    requires forall x :: x in order <==> x in ttf.chars
    requires |order| < 0x1_0000
    requires forall r :: r in ttf.chars ==> 0 <= ttf.chars[r] && (|ttf.widths| > 0 ==> ttf.chars[r] < |ttf.widths|)
    ensures |ttf.widths| == 0 <==> r == Err(MissingWidths)
    ensures r.Err? ==> arena' == arena
    ensures r.Ok? ==> CompositeOf(arena, ttf, arena', r.value)
  {
    arena' := arena;
    var runes := Sorted(order);
    if |ttf.widths| == 0 {
      return arena', Err(MissingWidths);
    }
    assert forall k :: 0 <= k < |runes| ==> runes[k] in order && runes[k] in ttf.chars;
    var runeToWidth, gidToWidth := WidthMaps(runes, ttf.chars, ttf.widths);
    var wArr := BuildW(runes, ttf.chars, runeToWidth);
    var wId := PageMerge.Above(arena.Keys);
    arena' := arena[wId := IndirectNode(Array(wArr))];
    assert forall x :: x in ttf.chars ==> x in runes && x in runeToWidth;
    assert wArr == WArrayOf(runes, ttf.chars, runeToWidth);
    var flags := Flags(ttf.isFixedPitch, ttf.italicAngle);
    CompositeRecordOf(arena, ttf, runes, runeToWidth, gidToWidth, wId, flags);
    r := Ok(CompositeRecord(ttf, runes, runeToWidth, gidToWidth, wId, flags));
  }

  /** The font NewCompositeFont returns, once the runes, the width maps and
      the W array's identity are known. */
  function CompositeRecord(ttf: TtfFont, runes: seq<int>, runeToWidth: map<int, int>, gidToWidth: map<int, int>,
                           wId: ObjId, flags: bv32): CompositeFont
    requires |ttf.widths| > 0
  {
    var info := IdentitySystemInfo();
    var stemV := if ttf.bold then 120 else 70;
    // The descendant shares the Type 0 font's skeleton.
    var skeleton := FontSkeleton("Type0", Dict([]));
    var cid := CIDFontType2Data(skeleton, Some(DictObj(info)), Some(Int(ttf.widths[0])), Some(Ptr(wId)),
                                None, None, Some(Name("Identity")));
    var type0 := Type0Data(skeleton, TrueTypeEncoder(ttf.chars), Some(Name("Identity-H")), cid);
    CompositeFont(type0, runes, runeToWidth, gidToWidth, Descriptor(flags, stemV))
  }

  /** The record, with the W array stored under `wId`, is what CompositeOf describes. */
  lemma CompositeRecordOf(arena: Arena, ttf: TtfFont, runes: seq<int>, runeToWidth: map<int, int>,
                          gidToWidth: map<int, int>, wId: ObjId, flags: bv32)
    requires |ttf.widths| > 0 && wId !in arena && FlagsFor(flags, ttf.isFixedPitch, ttf.italicAngle)
    requires Ascending(runes) && forall x :: x in runes <==> x in ttf.chars
    requires forall x :: x in runeToWidth <==> x in runes
    requires forall x :: x in runeToWidth ==>
               x in ttf.chars && 0 <= ttf.chars[x] < |ttf.widths| && runeToWidth[x] == ttf.widths[ttf.chars[x]]
    requires forall g :: g in gidToWidth ==> 0 <= g < |ttf.widths| && gidToWidth[g] == ttf.widths[g]
    requires forall x :: x in runeToWidth ==> ttf.chars[x] in gidToWidth
    ensures forall k :: 0 <= k < |runes| ==> runes[k] in ttf.chars && runes[k] in runeToWidth
    ensures CompositeOf(arena, ttf, arena[wId := IndirectNode(Array(WArrayOf(runes, ttf.chars, runeToWidth)))],
                        CompositeRecord(ttf, runes, runeToWidth, gidToWidth, wId, flags))
  {
    assert forall k :: 0 <= k < |runes| ==> runes[k] in runes;
  }

  /** The CIDSystemInfo dictionary of the built font: Adobe's Identity
      ordering, supplement 0. */
  function IdentitySystemInfo(): (d: Dict)
    ensures d.Get("Ordering") == Some(Str("Identity"))
    ensures d.Get("Registry") == Some(Str("Adobe"))
    ensures d.Get("Supplement") == Some(Int(0))
  {
    Dict([]).Set("Ordering", Str("Identity")).Set("Registry", Str("Adobe")).Set("Supplement", Int(0))
  }

  /** `c` and `arena'` are what NewCompositeFont builds from `ttf` over `arena`. */
  ghost predicate CompositeOf(arena: Arena, ttf: TtfFont, arena': Arena, c: CompositeFont)
  {
    && Ascending(c.runes) && (forall x :: x in c.runes <==> x in ttf.chars)
    && (forall x :: x in c.runeToWidth <==> x in ttf.chars)
    && (forall x :: x in c.runeToWidth ==> 0 <= ttf.chars[x] < |ttf.widths| && c.runeToWidth[x] == ttf.widths[ttf.chars[x]])
    && (forall g :: g in c.gidToWidth ==> 0 <= g < |ttf.widths| && c.gidToWidth[g] == ttf.widths[g])
    && (forall x :: x in ttf.chars ==> ttf.chars[x] in c.gidToWidth)
    && |ttf.widths| > 0
    && c.type0.encoding == Some(Name("Identity-H")) && c.type0.encoder == TrueTypeEncoder(ttf.chars)
    && c.type0.skeleton.subtype == "Type0"
    && var cid := c.type0.descendant;
    && cid.skeleton == c.type0.skeleton
    && cid.dw == Some(Int(ttf.widths[0]))
    && cid.cidToGIDMap == Some(Name("Identity"))
    && cid.cidSystemInfo.Some? && cid.cidSystemInfo.value.DictObj?
    && cid.cidSystemInfo.value.d.Get("Ordering") == Some(Str("Identity"))
    && cid.cidSystemInfo.value.d.Get("Registry") == Some(Str("Adobe"))
    && cid.cidSystemInfo.value.d.Get("Supplement") == Some(Int(0))
    && cid.w.Some? && cid.w.value.Ptr? && cid.w.value.id !in arena
    && (forall k :: 0 <= k < |c.runes| ==> c.runes[k] in ttf.chars && c.runes[k] in c.runeToWidth)
    && arena' == arena[cid.w.value.id := IndirectNode(Array(WArrayOf(c.runes, ttf.chars, c.runeToWidth)))]
    && c.descriptor.stemV == (if ttf.bold then 120 else 70)
    && FlagsFor(c.descriptor.flags, ttf.isFixedPitch, ttf.italicAngle)
  }

  /** The W array of the sorted runes (see Runs and WEntries). */
  ghost function WArrayOf(runes: seq<int>, chars: map<int, int>, runeToWidth: map<int, int>): seq<Obj>
    requires forall k :: 0 <= k < |runes| ==> runes[k] in chars && runes[k] in runeToWidth
  {
    RunsInChars(runes, chars, runeToWidth);
    WEntries(Runs(runes, runeToWidth), chars, runeToWidth)
  }
}

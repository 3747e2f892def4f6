/** The object model the appender and the font code work on: the typed values
    of the document format, the arena that holds every indirect object and
    stream by identity, and the dictionary operations (Get, Set, Remove,
    Merge) of the core object package. */
module PdfCore {

  datatype Option<T> = None | Some(value: T)

  /** The identity of an indirect object or a stream. It stands for a Go
      pointer: two holders of the same ObjId see the same arena node. */
  type ObjId = nat

  /** A value. Arrays, dictionaries and object streams own their elements;
      Ptr points to an arena node (an indirect object or a stream, which
      the node itself tells apart); Ref is a number/generation lookup key
      that only the parser resolves. */
  datatype Obj =
    | Null
    | Bool(b: bool)
    | Int(i: int)
    | Float(f: real)
    | Str(s: string)
    | HexStr(h: string)
    | Name(n: string)
    | Array(elems: seq<Obj>)
    | DictObj(d: Dict)
    | ObjStreams(items: seq<Obj>)
    | Ref(num: nat, gen: nat)
    | Ptr(id: ObjId)

  datatype Entry = Entry(key: string, val: Obj)

  /** A dictionary keeps its keys in insertion order, as the core's
      dictionary type does. */
  datatype Dict = Dict(entries: seq<Entry>)
  {
    function Keys(): (ks: seq<string>)
      ensures |ks| == |entries|
      ensures forall i :: 0 <= i < |entries| ==> ks[i] == entries[i].key
    {
      seq(|entries|, i requires 0 <= i < |entries| => entries[i].key)
    }

    predicate HasKey(k: string) {
      exists i :: 0 <= i < |entries| && entries[i].key == k
    }

    /** No key occurs twice: the core's dictionary is a map plus a key list. */
    predicate DistinctKeys() {
      forall i, j :: 0 <= i < j < |entries| ==> entries[i].key != entries[j].key
    }

    function Get(k: string): (r: Option<Obj>)
      ensures r.Some? <==> HasKey(k)
    {
      LookupEntries(entries, k)
    }

    /** Set overwrites the value of an existing key in place and appends a new key at the end. */
    function Set(k: string, v: Obj): (d: Dict)
      ensures d.Get(k) == Some(v)
      ensures forall k' :: k' != k ==> d.Get(k') == Get(k')
    {
      if HasKey(k) then
        var d := Dict(SetExisting(entries, k, v));
        SetExistingGet(entries, k, v, d.entries);
        d
      else
        var d := Dict(entries + [Entry(k, v)]);
        AppendGet(entries, Entry(k, v));
        d
    }

    function Remove(k: string): (d: Dict)
      ensures d.Get(k) == None
      ensures forall k' :: k' != k ==> d.Get(k') == Get(k')
    {
      RemoveGet(entries, k);
      Dict(FilterOut(entries, k))
    }
  }

  /** The entries of a dictionary with the value of existing key `k` replaced by `v`. */
  function SetExisting(es: seq<Entry>, k: string, v: Obj): (r: seq<Entry>)
    ensures |r| == |es|
    ensures forall i :: 0 <= i < |es| ==> r[i] == if es[i].key == k then Entry(k, v) else es[i]
  {
    seq(|es|, i requires 0 <= i < |es| => if es[i].key == k then Entry(k, v) else es[i])
  }

  /** A value Get finds is stored in one of the entries under its key. */
  lemma GetEntry(d: Dict, k: string)
    ensures d.Get(k).Some? ==> exists i :: 0 <= i < |d.entries| && d.entries[i] == Entry(k, d.Get(k).value)
  {
    LookupEntriesFound(d.entries, k);
  }

  lemma {:induction false} LookupEntriesFound(es: seq<Entry>, k: string)
    ensures LookupEntries(es, k).Some? ==> exists i :: 0 <= i < |es| && es[i] == Entry(k, LookupEntries(es, k).value)
    decreases |es|
  {
    if es != [] && es[0].key != k {
      LookupEntriesFound(es[1..], k);
      if LookupEntries(es, k).Some? {
        var i :| 0 <= i < |es[1..]| && es[1..][i] == Entry(k, LookupEntries(es, k).value);
        assert es[i + 1] == es[1..][i];
      }
    }
  }

  /** Set keeps the key order, appending a key that is new, and keeps keys distinct. */
  lemma SetKeys(d: Dict, k: string, v: Obj)
    ensures d.HasKey(k) ==> d.Set(k, v).Keys() == d.Keys()
    ensures !d.HasKey(k) ==> d.Set(k, v).Keys() == d.Keys() + [k]
    ensures d.DistinctKeys() ==> d.Set(k, v).DistinctKeys()
  {
    if d.HasKey(k) {
      SetExistingGet(d.entries, k, v, d.Set(k, v).entries);
    } else {
      AppendGet(d.entries, Entry(k, v));
    }
  }

  /** Remove keeps keys distinct. */
  lemma RemoveKeys(d: Dict, k: string)
    ensures d.DistinctKeys() ==> d.Remove(k).DistinctKeys()
  {
    if d.DistinctKeys() {
      FilterOutDistinct(d.entries, k);
    }
  }

  function LookupEntries(es: seq<Entry>, k: string): (r: Option<Obj>)
    ensures r.Some? <==> exists i :: 0 <= i < |es| && es[i].key == k
  {
    if es == [] then None
    else if es[0].key == k then Some(es[0].val)
    else
      var r := LookupEntries(es[1..], k);
      assert forall i :: 0 < i < |es| ==> es[i] == es[1..][i - 1];
      r
  }

  lemma {:induction false} AppendGet(es: seq<Entry>, e: Entry)
    requires forall i :: 0 <= i < |es| ==> es[i].key != e.key
    ensures LookupEntries(es + [e], e.key) == Some(e.val)
    ensures forall k :: k != e.key ==> LookupEntries(es + [e], k) == LookupEntries(es, k)
  {
    if es != [] {
      assert (es + [e])[1..] == es[1..] + [e];
      AppendGet(es[1..], e);
    } else {
      assert forall k :: LookupEntries([e], k) == if k == e.key then Some(e.val) else LookupEntries([], k);
    }
  }

  lemma {:induction false} SetExistingGet(es: seq<Entry>, k: string, v: Obj, es': seq<Entry>)
    requires |es'| == |es|
    requires forall i :: 0 <= i < |es| ==> es'[i] == if es[i].key == k then Entry(k, v) else es[i]
    requires exists i :: 0 <= i < |es| && es[i].key == k
    ensures LookupEntries(es', k) == Some(v)
    ensures forall k' :: k' != k ==> LookupEntries(es', k') == LookupEntries(es, k')
    ensures forall i :: 0 <= i < |es| ==> es'[i].key == es[i].key
    ensures (forall i, j :: 0 <= i < j < |es| ==> es[i].key != es[j].key) ==>
              forall i, j :: 0 <= i < j < |es'| ==> es'[i].key != es'[j].key
  {
    SetOthers(es, k, v, es');
    if es[0].key != k {
      SetExistingGet(es[1..], k, v, es'[1..]);
    }
  }

  lemma {:induction false} SetOthers(es: seq<Entry>, k: string, v: Obj, es': seq<Entry>)
    requires |es'| == |es|
    requires forall i :: 0 <= i < |es| ==> es'[i] == if es[i].key == k then Entry(k, v) else es[i]
    ensures forall k' :: k' != k ==> LookupEntries(es', k') == LookupEntries(es, k')
  {
    if es != [] {
      SetOthers(es[1..], k, v, es'[1..]);
    }
  }

  function FilterOut(es: seq<Entry>, k: string): (r: seq<Entry>)
    ensures forall i :: 0 <= i < |r| ==> r[i].key != k
    ensures forall e :: e in r ==> e in es
  {
    if es == [] then []
    else if es[0].key == k then FilterOut(es[1..], k)
    else [es[0]] + FilterOut(es[1..], k)
  }

  lemma {:induction false} RemoveGet(es: seq<Entry>, k: string)
    ensures LookupEntries(FilterOut(es, k), k) == None
    ensures forall k' :: k' != k ==> LookupEntries(FilterOut(es, k), k') == LookupEntries(es, k')
  {
    if es != [] {
      RemoveGet(es[1..], k);
      if es[0].key != k {
        assert FilterOut(es, k) == [es[0]] + FilterOut(es[1..], k);
      }
    }
  }

  /** Filtering a key out keeps the other keys distinct. */
  lemma {:induction false} FilterOutDistinct(es: seq<Entry>, k: string)
    requires forall i, j :: 0 <= i < j < |es| ==> es[i].key != es[j].key
    ensures forall i, j :: 0 <= i < j < |FilterOut(es, k)| ==> FilterOut(es, k)[i].key != FilterOut(es, k)[j].key
  {
    if es != [] {
      FilterOutDistinct(es[1..], k);
      var t := FilterOut(es[1..], k);
      if es[0].key != k {
        assert FilterOut(es, k) == [es[0]] + t;
        assert forall e :: e in t ==> e in es[1..];
        assert forall e :: e in es[1..] ==> e.key != es[0].key;
      }
    }
  }

  /** The core's Merge: every entry of `other`, in its key order, is Set into `d`. */
  function Merge(d: Dict, other: Dict): (r: Dict)
    ensures other.DistinctKeys() ==>
              forall k :: r.Get(k) == if other.HasKey(k) then other.Get(k) else d.Get(k)
  {
    MergeEntriesGet(d, other.entries);
    MergeEntries(d, other.entries)
  }

  function MergeEntries(d: Dict, es: seq<Entry>): Dict
    decreases |es|
  {
    if es == [] then d else MergeEntries(d.Set(es[0].key, es[0].val), es[1..])
  }

  lemma {:induction false} MergeEntriesGet(d: Dict, es: seq<Entry>)
    ensures Dict(es).DistinctKeys() ==>
              forall k :: MergeEntries(d, es).Get(k) == if Dict(es).HasKey(k) then LookupEntries(es, k) else d.Get(k)
    decreases |es|
  {
    if es != [] && Dict(es).DistinctKeys() {
      var rest := es[1..];
      assert forall i :: 0 < i < |es| ==> es[i] == rest[i - 1];
      MergeEntriesGet(d.Set(es[0].key, es[0].val), rest);
      forall k ensures MergeEntries(d, es).Get(k) == if Dict(es).HasKey(k) then LookupEntries(es, k) else d.Get(k) {
        if k == es[0].key {
          assert !Dict(rest).HasKey(k);
        } else {
          assert Dict(es).HasKey(k) <==> Dict(rest).HasKey(k);
        }
      }
    }
  }

  /** An arena node: an indirect object owning one value, or a stream with
      its dictionary and its decoded data. */
  datatype Node = IndirectNode(payload: Obj) | StreamNode(sdict: Dict, data: string)

  type Arena = map<ObjId, Node>

  /** The arena identities a value holds directly (not looking inside arena nodes). */
  function Occurs(o: Obj): set<ObjId>
  {
    match o
    case Ptr(id) => {id}
    case Array(es) => set i, x | 0 <= i < |es| && x in Occurs(es[i]) :: x
    case ObjStreams(es) => set i, x | 0 <= i < |es| && x in Occurs(es[i]) :: x
    case DictObj(d) => set i, x | 0 <= i < |d.entries| && x in Occurs(d.entries[i].val) :: x
    case _ => {}
  }

  /** The identities one step beyond an arena node: an indirect object's
      payload and, when `intoStreams`, a stream's dictionary. */
  function Succ(arena: Arena, id: ObjId, intoStreams: bool): set<ObjId>
  {
    if id !in arena then {}
    else match arena[id]
      case IndirectNode(p) => Occurs(p)
      case StreamNode(d, _) => if intoStreams then Occurs(DictObj(d)) else {}
  }

  /** The core's TraceToDirectObject, one level: an indirect object yields its payload. */
  function Direct(arena: Arena, o: Obj): (r: Obj)
    ensures !o.Ptr? ==> r == o
  {
    if o.Ptr? && o.id in arena && arena[o.id].IndirectNode? then arena[o.id].payload else o
  }

  /** The core's GetDict: the dictionary a value is, directly or through an indirect object. */
  function GetDict(arena: Arena, o: Obj): (r: Option<Dict>)
    ensures r.Some? <==> Direct(arena, o).DictObj?
    ensures r.Some? ==> Direct(arena, o) == DictObj(r.value)
  {
    if Direct(arena, o).DictObj? then Some(Direct(arena, o).d) else None
  }

  /** The core's GetArray. */
  function GetArray(arena: Arena, o: Obj): (r: Option<seq<Obj>>)
    ensures r.Some? <==> Direct(arena, o).Array?
    ensures r.Some? ==> Direct(arena, o) == Array(r.value)
  {
    if Direct(arena, o).Array? then Some(Direct(arena, o).elems) else None
  }

  /** The core's GetStream: the identity of the stream a value is, directly or through an indirect object. */
  function GetStream(arena: Arena, o: Obj): (r: Option<ObjId>)
    ensures r.Some? ==> r.value in arena && arena[r.value].StreamNode? && Direct(arena, o) == Ptr(r.value)
  {
    var v := Direct(arena, o);
    if v.Ptr? && v.id in arena && arena[v.id].StreamNode? then Some(v.id) else None
  }

  /** Writes dictionary `d` where `o` keeps its dictionary: into the arena
      node when `o` is an indirect object, otherwise as the new inline value. */
  function StoreDict(arena: Arena, o: Obj, d: Dict): (r: (Arena, Obj))
    ensures GetDict(r.0, r.1) == Some(d)
    ensures r.1 == (if o.Ptr? && o.id in arena && arena[o.id].IndirectNode? then o else DictObj(d))
    ensures r.0.Keys == arena.Keys
    ensures forall id :: id in arena && !(o.Ptr? && id == o.id) ==> r.0[id] == arena[id]
  {
    if o.Ptr? && o.id in arena && arena[o.id].IndirectNode? then
      (arena[o.id := IndirectNode(DictObj(d))], o)
    else
      (arena, DictObj(d))
  }
}

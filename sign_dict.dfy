/** The signature dictionary of an incremental update: the fixed dictionary
    the appender builds for a signature field, and its serialisation, which
    records where the Contents and ByteRange values begin in the written
    text so that they can be overwritten once the file digest is known. */
module SignDict {
  import opened PdfCore

  /** makeSignDict: Type /Sig, the Adobe.PPKLite handler with the
      adbe.x509.rsa_sha1 sub-filter, a FieldMDP signature reference with
      SHA1 digest and its transform parameters, and a placeholder hex
      string as Contents. */
  function MakeSignDict(): (d: Dict)
    ensures d.DistinctKeys()
    ensures d.Keys() == ["Type", "Filter", "SubFilter", "Reference", "Contents"]
    ensures d.Get("Type") == Some(Name("Sig"))
    ensures d.Get("Filter") == Some(Name("Adobe.PPKLite"))
    ensures d.Get("SubFilter") == Some(Name("adbe.x509.rsa_sha1"))
    ensures d.Get("Contents") == Some(HexStr("ff"))
    ensures d.Get("Reference").Some? && d.Get("Reference").value.DictObj?
    ensures var r := d.Get("Reference").value.d;
            r.Keys() == ["Type", "TransformMethod", "DigestMethod", "TransformParams"] &&
            r.Get("Type") == Some(Name("SigRef")) && r.Get("TransformMethod") == Some(Name("FieldMDP")) &&
            r.Get("DigestMethod") == Some(Name("SHA1"))
    ensures var r := d.Get("Reference").value.d;
            r.Get("TransformParams").Some? && r.Get("TransformParams").value.DictObj? &&
            var p := r.Get("TransformParams").value.d;
            p.Keys() == ["Type", "Action", "V"] &&
            p.Get("Type") == Some(Name("TransformParams")) && p.Get("Action") == Some(Name("All")) &&
            p.Get("V") == Some(Name("1.2"))
  {
    // Each Set adds a key the dictionary does not have yet, so it appends.
    var params := Dict([Entry("Type", Name("TransformParams")), Entry("Action", Name("All")), Entry("V", Name("1.2"))]);
    var reference := Dict([Entry("Type", Name("SigRef")), Entry("TransformMethod", Name("FieldMDP")),
                           Entry("DigestMethod", Name("SHA1")), Entry("TransformParams", DictObj(params))]);
    var d := Dict([Entry("Type", Name("Sig")), Entry("Filter", Name("Adobe.PPKLite")),
                   Entry("SubFilter", Name("adbe.x509.rsa_sha1")), Entry("Reference", DictObj(reference)),
                   Entry("Contents", HexStr("ff"))]);
    SignDictFacts(params, reference, d);
    d
  }

  /** The lookups in the three fixed dictionaries of MakeSignDict. */
  lemma SignDictFacts(params: Dict, reference: Dict, d: Dict)
    requires params == Dict([Entry("Type", Name("TransformParams")), Entry("Action", Name("All")), Entry("V", Name("1.2"))])
    requires reference == Dict([Entry("Type", Name("SigRef")), Entry("TransformMethod", Name("FieldMDP")),
                                Entry("DigestMethod", Name("SHA1")), Entry("TransformParams", DictObj(params))])
    requires d == Dict([Entry("Type", Name("Sig")), Entry("Filter", Name("Adobe.PPKLite")),
                        Entry("SubFilter", Name("adbe.x509.rsa_sha1")), Entry("Reference", DictObj(reference)),
                        Entry("Contents", HexStr("ff"))])
    ensures params.DistinctKeys() && reference.DistinctKeys() && d.DistinctKeys()
    ensures params.Keys() == ["Type", "Action", "V"]
    ensures reference.Keys() == ["Type", "TransformMethod", "DigestMethod", "TransformParams"]
    ensures d.Keys() == ["Type", "Filter", "SubFilter", "Reference", "Contents"]
    ensures params.Get("Type") == Some(Name("TransformParams")) && params.Get("Action") == Some(Name("All"))
    ensures params.Get("V") == Some(Name("1.2"))
    ensures reference.Get("Type") == Some(Name("SigRef")) && reference.Get("TransformMethod") == Some(Name("FieldMDP"))
    ensures reference.Get("DigestMethod") == Some(Name("SHA1"))
    ensures reference.Get("TransformParams") == Some(DictObj(params))
    ensures d.Get("Type") == Some(Name("Sig")) && d.Get("Filter") == Some(Name("Adobe.PPKLite"))
    ensures d.Get("SubFilter") == Some(Name("adbe.x509.rsa_sha1")) && d.Get("Reference") == Some(DictObj(reference))
    ensures d.Get("Contents") == Some(HexStr("ff"))
  {
    assert params.Keys() == ["Type", "Action", "V"];
    assert reference.Keys() == ["Type", "TransformMethod", "DigestMethod", "TransformParams"];
    assert d.Keys() == ["Type", "Filter", "SubFilter", "Reference", "Contents"];
    assert params.DistinctKeys() by { DistinctLiteral(params, params.Keys()); }
    assert reference.DistinctKeys() by { DistinctLiteral(reference, reference.Keys()); }
    assert d.DistinctKeys() by { DistinctLiteral(d, d.Keys()); }
    KeyValue(params, 0); KeyValue(params, 1); KeyValue(params, 2);
    KeyValue(reference, 0); KeyValue(reference, 1); KeyValue(reference, 2); KeyValue(reference, 3);
    KeyValue(d, 0); KeyValue(d, 1); KeyValue(d, 2); KeyValue(d, 3); KeyValue(d, 4);
  }

  /** Pairwise different keys are distinct keys. */
  lemma DistinctLiteral(d: Dict, ks: seq<string>)
    requires ks == d.Keys()
    requires forall i, j :: 0 <= i < j < |ks| ==> ks[i] != ks[j]
    ensures d.DistinctKeys()
  {
  }

  /** A name as it is written: a solidus before the name's characters. */
  function NameString(k: string): (s: string)
    ensures |s| == |k| + 1 && s[0] == '/' && s[1..] == k
  {
    "/" + k
  }

  /** The padding written between the ByteRange key and its value, which
      leaves room for the final byte range once the offsets are known. */
  const ByteRangePad: string := "                       "

  /** What is written before an entry's value: its key, then the ByteRange
      padding or one space. */
  function KeyPrefix(k: string): (s: string)
    ensures k == "ByteRange" ==> s == NameString(k) + ByteRangePad
    ensures k != "ByteRange" ==> s == NameString(k) + " "
  {
    NameString(k) + if k == "ByteRange" then ByteRangePad else " "
  }

  /** The entries written in order, each as its key prefix followed by the
      value as `write` renders it (the value serialiser of the core object
      package, given as a parameter). */
  function Body(es: seq<Entry>, write: Obj -> string): string
  {
    if |es| == 0 then "" else Body(es[..|es| - 1], write) + KeyPrefix(es[|es| - 1].key) + write(es[|es| - 1].val)
  }

  /** `out` holds `prefix` just before index `off` and `v` from `off` on. */
  predicate ValueAt(out: string, off: int, prefix: string, v: string) {
    |prefix| <= off && off + |v| <= |out| && out[off - |prefix|..off] == prefix && out[off..off + |v|] == v
  }

  /** Writing more text after a recorded value keeps it where it was. */
  lemma ValueAtExtend(out: string, more: string, off: int, prefix: string, v: string)
    requires ValueAt(out, off, prefix, v)
    ensures ValueAt(out + more, off, prefix, v)
  {
    assert (out + more)[off - |prefix|..off] == out[off - |prefix|..off];
    assert (out + more)[off..off + |v|] == out[off..off + |v|];
  }

  /** Some entry before index `n` has key `k`. */
  predicate KeyBefore(es: seq<Entry>, k: string, n: int) {
    exists j :: 0 <= j < n && j < |es| && es[j].key == k
  }

  /** The key of the last entry before index `n`, when unique, is the one Get finds. */
  lemma KeyValue(d: Dict, j: int)
    requires d.DistinctKeys() && 0 <= j < |d.entries|
    ensures d.Get(d.entries[j].key) == Some(d.entries[j].val)
  {
    var k := d.entries[j].key;
    assert d.HasKey(k);
    GetEntry(d, k);
    var i :| 0 <= i < |d.entries| && d.entries[i] == Entry(k, d.Get(k).value);
    assert i == j;
  }

  /** After the entries before index `i`: once an entry with key `k` was
      written, `off` points at its value, just after its key prefix, and
      before that `off` is still `init`. */
  ghost predicate OffsetFor(d: Dict, i: int, k: string, write: Obj -> string, out: string, off: int, init: int) {
    && (KeyBefore(d.entries, k, i) ==> d.Get(k).Some? && ValueAt(out, off, KeyPrefix(k), write(d.Get(k).value)))
    && (!KeyBefore(d.entries, k, i) ==> off == init)
  }

  /** The state of DefaultWriteString after the entries before index `i`:
      the text so far, the Contents offset (reset to 0 first) and the
      ByteRange offset (initially `b0`) as OffsetFor says. */
  ghost predicate WrittenUpTo(d: Dict, i: int, write: Obj -> string, out: string, c: int, b: int, b0: int)
    requires 0 <= i <= |d.entries|
  {
    && out == "<<" + Body(d.entries[..i], write)
    && OffsetFor(d, i, "Contents", write, out, c, 0)
    && OffsetFor(d, i, "ByteRange", write, out, b, b0)
  }

  /** One entry of DefaultWriteString: its key (and the ByteRange padding or
      a space), the offset recorded when the key is ByteRange or Contents,
      then its value. */
  method WriteEntry(d: Dict, i: int, write: Obj -> string, out: string, c: int, b: int, ghost b0: int)
    returns (out': string, c': int, b': int)
    requires d.DistinctKeys() && 0 <= i < |d.entries|
    requires WrittenUpTo(d, i, write, out, c, b, b0)
    ensures WrittenUpTo(d, i + 1, write, out', c', b', b0)
  {
    var k := d.entries[i].key;
    var v := d.entries[i].val;
    KeyValue(d, i);
    out', c', b' := out, c, b;
    if k == "ByteRange" {
      out' := out' + NameString(k) + ByteRangePad;
      b' := |out'|;
      out' := out' + write(v);
    } else if k == "Contents" {
      out' := out' + NameString(k) + " ";
      c' := |out'|;
      out' := out' + write(v);
    } else {
      out' := out' + NameString(k) + " " + write(v);
    }
    WrittenStep(d, i, write, out, c, b, b0, out', c', b');
  }

  /** pdfSignDictionary: the dictionary together with the offsets its
      serialisation records. */
  class SignDictionary {
    var dict: Dict
    var fileOffset: int
    var contentsOffset: int
    var byteRangeOffset: int

    constructor (d: Dict)
      ensures dict == d && fileOffset == 0 && contentsOffset == 0 && byteRangeOffset == 0
    {
      dict, fileOffset, contentsOffset, byteRangeOffset := d, 0, 0, 0;
    }

    /** DefaultWriteString: "<<", each entry in key order, ">>". The
        Contents offset is reset first and then points at the written
        Contents value, just after KeyPrefix("Contents"); the ByteRange offset
        points at the written ByteRange value, after its key and padding,
        and is left as it was when there is no ByteRange. */
    method DefaultWriteString(write: Obj -> string) returns (out: string)
      requires dict.DistinctKeys()
      modifies this`contentsOffset, this`byteRangeOffset
      ensures out == "<<" + Body(dict.entries, write) + ">>"
      ensures dict.HasKey("Contents") ==>
                ValueAt(out, contentsOffset, KeyPrefix("Contents"), write(dict.Get("Contents").value))
      ensures !dict.HasKey("Contents") ==> contentsOffset == 0
      ensures dict.HasKey("ByteRange") ==>
                ValueAt(out, byteRangeOffset, KeyPrefix("ByteRange"), write(dict.Get("ByteRange").value))
      ensures !dict.HasKey("ByteRange") ==> byteRangeOffset == old(byteRangeOffset)
    {
      var d := dict;
      var c, b := 0, byteRangeOffset;
      out := "<<";
      for i := 0 to |d.entries|
        invariant WrittenUpTo(d, i, write, out, c, b, old(byteRangeOffset))
      {
        out, c, b := WriteEntry(d, i, write, out, c, b, old(byteRangeOffset));
      }
      WrittenAll(d, write, out, c, b, old(byteRangeOffset));
      contentsOffset, byteRangeOffset := c, b;
      if d.HasKey("Contents") {
        ValueAtExtend(out, ">>", c, KeyPrefix("Contents"), write(d.Get("Contents").value));
      }
      if d.HasKey("ByteRange") {
        ValueAtExtend(out, ">>", b, KeyPrefix("ByteRange"), write(d.Get("ByteRange").value));
      }
      out := out + ">>";
    }
  }

  /** One loop step of DefaultWriteString: the entry's text is appended,
      and each recorded offset is kept or, for the step's own key, set just
      after its prefix. */
  lemma WrittenStep(d: Dict, i: int, write: Obj -> string, out: string, c: int, b: int, b0: int,
                    out': string, c': int, b': int)
    requires 0 <= i < |d.entries|
    requires WrittenUpTo(d, i, write, out, c, b, b0)
    requires d.Get(d.entries[i].key) == Some(d.entries[i].val)
    requires out' == out + KeyPrefix(d.entries[i].key) + write(d.entries[i].val)
    requires c' == (if d.entries[i].key == "Contents" then |out + KeyPrefix(d.entries[i].key)| else c)
    requires b' == (if d.entries[i].key == "ByteRange" then |out + KeyPrefix(d.entries[i].key)| else b)
    ensures WrittenUpTo(d, i + 1, write, out', c', b', b0)
  {
    BodyStep(d.entries, i, write, out, out');
    OffsetStep(d, i, "Contents", write, out, c, 0, out', c');
    OffsetStep(d, i, "ByteRange", write, out, b, b0, out', b');
  }

  /** Body over one more entry. */
  lemma BodyStep(es: seq<Entry>, i: int, write: Obj -> string, out: string, out': string)
    requires 0 <= i < |es|
    requires out == "<<" + Body(es[..i], write)
    requires out' == out + KeyPrefix(es[i].key) + write(es[i].val)
    ensures out' == "<<" + Body(es[..i + 1], write)
  {
    var b, k, w := Body(es[..i], write), KeyPrefix(es[i].key), write(es[i].val);
    assert es[..i + 1][..i] == es[..i];
    assert Body(es[..i + 1], write) == b + k + w;
    Concat4("<<", b, k, w);
  }

  lemma Concat4(a: string, b: string, c: string, d: string)
    ensures a + b + c + d == a + (b + c + d)
  {
  }

  /** OffsetFor across one entry, for one key. */
  lemma OffsetStep(d: Dict, i: int, k: string, write: Obj -> string, out: string, off: int, init: int,
                   out': string, off': int)
    requires 0 <= i < |d.entries|
    requires OffsetFor(d, i, k, write, out, off, init)
    requires d.Get(d.entries[i].key) == Some(d.entries[i].val)
    requires out' == out + KeyPrefix(d.entries[i].key) + write(d.entries[i].val)
    requires off' == (if d.entries[i].key == k then |out + KeyPrefix(d.entries[i].key)| else off)
    ensures OffsetFor(d, i + 1, k, write, out', off', init)
  {
    var e := d.entries[i];
    var more := KeyPrefix(e.key) + write(e.val);
    assert out' == out + more;
    KeyStep(d.entries, k, i);
    if e.key == k {
      var p := out + KeyPrefix(k);
      assert out' == p + write(e.val);
      assert out'[|p| - |KeyPrefix(k)|..|p|] == KeyPrefix(k);
      assert out'[|p|..|p| + |write(e.val)|] == write(e.val);
    } else if KeyBefore(d.entries, k, i) {
      ValueAtExtend(out, more, off, KeyPrefix(k), write(d.Get(k).value));
    }
  }

  /** Whether key `k` was seen before index i + 1. */
  lemma KeyStep(es: seq<Entry>, k: string, i: int)
    requires 0 <= i < |es|
    ensures KeyBefore(es, k, i + 1) <==> KeyBefore(es, k, i) || es[i].key == k
  {
    if KeyBefore(es, k, i + 1) && es[i].key != k {
      var j :| 0 <= j < i + 1 && j < |es| && es[j].key == k;
      assert j < i;
    }
  }

  /** After the last entry, a key was seen iff the dictionary has it. */
  lemma WrittenAll(d: Dict, write: Obj -> string, out: string, c: int, b: int, b0: int)
    requires WrittenUpTo(d, |d.entries|, write, out, c, b, b0)
    ensures out == "<<" + Body(d.entries, write)
    ensures KeyBefore(d.entries, "Contents", |d.entries|) <==> d.HasKey("Contents")
    ensures KeyBefore(d.entries, "ByteRange", |d.entries|) <==> d.HasKey("ByteRange")
  {
    assert d.entries[..|d.entries|] == d.entries;
  }
}
